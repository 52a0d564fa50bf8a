/** Flow accounting: cumulative counters become increments credited to three rollup tables
    (store.go:511-678, 1154-1195). AddFlows and Prune are atomic steps at one instant. */
module FlowLedger {
  import opened Common
  import opened MapTotal

  datatype Flow = Flow(ts: int, endTs: int, key: string, srcIp: string, dstIp: string, dstPort: int,
                       proto: string, app: string, category: string, domain: string, verdict: string,
                       source: string, bytesIn: int, bytesOut: int)

  /** A row of `flows`, oldest id first in the table. */
  datatype Row = Row(ts: int, endTs: Option<int>, key: Option<string>, srcIp: Option<string>,
                     dstIp: Option<string>, dstPort: int, proto: Option<string>, app: Option<string>,
                     category: Option<string>, domain: Option<string>, verdict: string,
                     source: Option<string>, bytesIn: int, bytesOut: int)

  /** What one observation adds to the rollups. */
  datatype Delta = Delta(bucket: int, srcIp: string, dstIp: string, dstPort: int, proto: string, app: string,
                         category: string, domain: string, verdict: string, bytesIn: int, bytesOut: int,
                         newFlow: bool)

  datatype AppKey = AppKey(bucket: int, srcIp: string, app: string, verdict: string)
  datatype DomainKey = DomainKey(bucket: int, srcIp: string, domain: string, verdict: string)
  datatype DstKey = DstKey(bucket: int, srcIp: string, dstIp: string, dstPort: int, proto: string)
  datatype Cell = Cell(category: string, amount: Amount)
  datatype Tables = Tables(app: map<AppKey, Cell>, dom: map<DomainKey, Cell>, dst: map<DstKey, Amount>)
  datatype Ledger = Ledger(flows: seq<Row>, tables: Tables)

  /** One observation and the moment it is made. */
  datatype Obs = Obs(now: int, flow: Flow)

  // ------------------------------------------------------------ int64 deltas

  /** flowDelta in int64 arithmetic (store.go:605-616). */
  function FlowDelta(pin: int, pout: int, bytesIn: int, bytesOut: int): (int, int) {
    var total, prev := Wrap64(bytesIn + bytesOut), Wrap64(pin + pout);
    if total < prev then (bytesIn, bytesOut)
    else
      var grow := Wrap64(total - prev);
      if grow <= 0 || total <= 0 then (0, 0)
      else
        var dIn := TruncDiv(Wrap64(grow * bytesIn), total);
        (dIn, Wrap64(grow - dIn))
  }

  // -------------------------------------------------------------- operations

  function Verdict(v: string): string { if v == "" then "observed" else v }

  function EndOf(now: int, f: Flow): int { if f.endTs == 0 then now else f.endTs }

  function BucketFor(now: int, f: Flow): int {
    var end := EndOf(now, f);
    TruncDiv(if end > 0 && now - end > 600 then end else now, 300) * 300
  }

  /** The newest row of a key, -1 when there is none. */
  function LastIndex(rows: seq<Row>, key: string): (i: int)
    ensures -1 <= i < |rows|
    ensures i >= 0 ==> rows[i].key == Some(key)
    ensures forall j :: i < j < |rows| ==> rows[j].key != Some(key)
  {
    if rows == [] then -1
    else if rows[|rows| - 1].key == Some(key) then |rows| - 1
    else LastIndex(rows[..|rows| - 1], key)
  }

  function DeltaOf(rows: seq<Row>, o: Obs): Delta {
    var f := o.flow;
    var i := if f.key == "" then -1 else LastIndex(rows, f.key);
    var (dIn, dOut) :=
      if f.source == "squid" then (0, 0)
      else if i >= 0 then FlowDelta(rows[i].bytesIn, rows[i].bytesOut, f.bytesIn, f.bytesOut)
      else (f.bytesIn, f.bytesOut);
    Delta(BucketFor(o.now, f), f.srcIp, f.dstIp, f.dstPort, f.proto, f.app, f.category, f.domain,
          Verdict(f.verdict), dIn, dOut, i < 0)
  }

  function Updated(r: Row, now: int, f: Flow): Row {
    r.(endTs := Some(EndOf(now, f)), bytesIn := f.bytesIn, bytesOut := f.bytesOut,
       app := Coalesce(Nz(f.app), r.app), category := Coalesce(Nz(f.category), r.category),
       domain := Coalesce(Nz(f.domain), r.domain), verdict := Verdict(f.verdict))
  }

  function Inserted(f: Flow): Row {
    Row(f.ts, if f.endTs == 0 then None else Some(f.endTs), Nz(f.key), Nz(f.srcIp), Nz(f.dstIp), f.dstPort,
        Nz(f.proto), Nz(f.app), Nz(f.category), Nz(f.domain), Verdict(f.verdict), Nz(f.source),
        f.bytesIn, f.bytesOut)
  }

  function Observe(rows: seq<Row>, o: Obs): seq<Row> {
    var i := if o.flow.key == "" then -1 else LastIndex(rows, o.flow.key);
    if i >= 0 then rows[i := Updated(rows[i], o.now, o.flow)] else rows + [Inserted(o.flow)]
  }

  function RowsAfter(rows: seq<Row>, obs: seq<Obs>): seq<Row> {
    if obs == [] then rows else Observe(RowsAfter(rows, obs[..|obs| - 1]), obs[|obs| - 1])
  }

  function DeltasOf(rows: seq<Row>, obs: seq<Obs>): seq<Delta> {
    if obs == [] then []
    else
      var front := obs[..|obs| - 1];
      DeltasOf(rows, front) + [DeltaOf(RowsAfter(rows, front), obs[|obs| - 1])]
  }

  /** INSERT ... ON CONFLICT DO UPDATE on a rollup with a category. */
  function Bump<K>(m: map<K, Cell>, k: K, category: string, a: Amount): map<K, Cell> {
    if k in m then m[k := Cell(if category != "" then category else m[k].category, Plus(m[k].amount, a))]
    else m[k := Cell(category, a)]
  }

  function BumpDst(m: map<DstKey, Amount>, k: DstKey, a: Amount): map<DstKey, Amount> {
    m[k := if k in m then Plus(m[k], a) else a]
  }

  predicate Idle(d: Delta) { d.bytesIn == 0 && d.bytesOut == 0 && !d.newFlow }

  function AmountOf(d: Delta): Amount { Amount(d.bytesIn, d.bytesOut, if d.newFlow then 1 else 0) }

  function AppKeyOf(d: Delta): AppKey {
    AppKey(d.bucket, d.srcIp, if d.app == "" then "Unknown" else d.app, Verdict(d.verdict))
  }

  function DomainKeyOf(d: Delta): DomainKey { DomainKey(d.bucket, d.srcIp, d.domain, Verdict(d.verdict)) }

  function DstKeyOf(d: Delta): DstKey { DstKey(d.bucket, d.srcIp, d.dstIp, d.dstPort, d.proto) }

  function Credit(t: Tables, d: Delta): Tables {
    if Idle(d) then t
    else
      Tables(Bump(t.app, AppKeyOf(d), d.category, AmountOf(d)),
             if d.domain != "" then Bump(t.dom, DomainKeyOf(d), d.category, AmountOf(d)) else t.dom,
             BumpDst(t.dst, DstKeyOf(d), AmountOf(d)))
  }

  function CreditAll(t: Tables, ds: seq<Delta>): Tables {
    if ds == [] then t else Credit(CreditAll(t, ds[..|ds| - 1]), ds[|ds| - 1])
  }

  function At(now: int, flows: seq<Flow>): seq<Obs> {
    if flows == [] then [] else At(now, flows[..|flows| - 1]) + [Obs(now, flows[|flows| - 1])]
  }

  function AfterAddFlows(l: Ledger, now: int, flows: seq<Flow>): Ledger {
    Ledger(RowsAfter(l.flows, At(now, flows)), CreditAll(l.tables, DeltasOf(l.flows, At(now, flows))))
  }

  function Started(rows: seq<Row>, cut: int): seq<Row> {
    if rows == [] then []
    else
      var r := rows[|rows| - 1];
      Started(rows[..|rows| - 1], cut) + if r.ts < cut then [] else [r]
  }

  /** Retention: flows by start time, the three rollups by one shared cutoff. */
  function AfterPrune(l: Ledger, cut: int, rcut: int): Ledger {
    Ledger(Started(l.flows, cut),
           Tables(map k | k in l.tables.app && k.bucket >= rcut :: l.tables.app[k],
                  map k | k in l.tables.dom && k.bucket >= rcut :: l.tables.dom[k],
                  map k | k in l.tables.dst && k.bucket >= rcut :: l.tables.dst[k]))
  }

  lemma AtStep(now: int, flows: seq<Flow>, i: nat)
    requires i < |flows|
    ensures At(now, flows[..i + 1]) == At(now, flows[..i]) + [Obs(now, flows[i])]
  {
    assert flows[..i + 1][..i] == flows[..i];
  }

  lemma FoldStep(rows: seq<Row>, obs: seq<Obs>, o: Obs)
    ensures RowsAfter(rows, obs + [o]) == Observe(RowsAfter(rows, obs), o)
    ensures DeltasOf(rows, obs + [o]) == DeltasOf(rows, obs) + [DeltaOf(RowsAfter(rows, obs), o)]
  {
    assert (obs + [o])[..|obs|] == obs;
  }

  class Store {
    var flows: seq<Row>
    var app: map<AppKey, Cell>
    var dom: map<DomainKey, Cell>
    var dst: map<DstKey, Amount>

    ghost function Contents(): Ledger reads this { Ledger(flows, Tables(app, dom, dst)) }

    constructor ()
      ensures Contents() == Ledger([], Tables(map[], map[], map[]))
    {
      flows, app, dom, dst := [], map[], map[], map[];
    }

    method AddFlows(now: int, batch: seq<Flow>)
      modifies this
      ensures Contents() == AfterAddFlows(old(Contents()), now, batch)
    {
      var deltas: seq<Delta> := [];
      assert At(now, batch[..0]) == [];
      for i := 0 to |batch|
        invariant flows == RowsAfter(old(flows), At(now, batch[..i]))
        invariant deltas == DeltasOf(old(flows), At(now, batch[..i]))
        invariant Tables(app, dom, dst) == old(Tables(app, dom, dst))
      {
        var f := batch[i];
        AtStep(now, batch, i);
        FoldStep(old(flows), At(now, batch[..i]), Obs(now, f));
        var d := Delta(BucketFor(now, f), f.srcIp, f.dstIp, f.dstPort, f.proto, f.app, f.category, f.domain,
                       Verdict(f.verdict), f.bytesIn, f.bytesOut, true);
        var prev := -1;
        if f.key != "" {
          prev := LastIndex(flows, f.key);
          if prev >= 0 {
            var (dIn, dOut) := FlowDelta(flows[prev].bytesIn, flows[prev].bytesOut, f.bytesIn, f.bytesOut);
            d := d.(newFlow := false, bytesIn := dIn, bytesOut := dOut);
          }
        }
        if f.source == "squid" {
          d := d.(bytesIn := 0, bytesOut := 0);
        }
        deltas := deltas + [d];
        if prev >= 0 {
          flows := flows[prev := Updated(flows[prev], now, f)];
        } else {
          flows := flows + [Inserted(f)];
        }
      }
      assert batch[..|batch|] == batch;
      AccumulateRollups(deltas);
    }

    method AccumulateRollups(deltas: seq<Delta>)
      modifies this`app, this`dom, this`dst
      ensures Tables(app, dom, dst) == CreditAll(old(Tables(app, dom, dst)), deltas)
    {
      for i := 0 to |deltas|
        invariant Tables(app, dom, dst) == CreditAll(old(Tables(app, dom, dst)), deltas[..i])
      {
        assert deltas[..i + 1][..i] == deltas[..i];
        var d := deltas[i];
        if d.bytesIn == 0 && d.bytesOut == 0 && !d.newFlow {
          continue;
        }
        var n := Amount(d.bytesIn, d.bytesOut, if d.newFlow then 1 else 0);
        app := Bump(app, AppKeyOf(d), d.category, n);
        if d.domain != "" {
          dom := Bump(dom, DomainKeyOf(d), d.category, n);
        }
        dst := BumpDst(dst, DstKeyOf(d), n);
      }
      assert deltas[..|deltas|] == deltas;
    }

    /** Flows started over `flowsDays` days ago and older buckets go; non-positive values mean 7 and 400. */
    method Prune(now: int, flowsDays: int, rollupDays: int)
      modifies this
      ensures Contents() == AfterPrune(old(Contents()), now - (if flowsDays > 0 then flowsDays else 7) * 86400,
                                       now - (if rollupDays > 0 then rollupDays else 400) * 86400)
    {
      var d, r := flowsDays, rollupDays;
      if d <= 0 { d := 7; }
      if r <= 0 { r := 400; }
      var cut, rcut := now - d * 86400, now - r * 86400;
      flows := Started(flows, cut);
      app := map k | k in app && k.bucket >= rcut :: app[k];
      dom := map k | k in dom && k.bucket >= rcut :: dom[k];
      dst := map k | k in dst && k.bucket >= rcut :: dst[k];
    }
  }

  // ------------------------------------------------------ one batch or several

  lemma AssocDeltas(a: seq<Delta>, b: seq<Delta>, c: seq<Delta>)
    ensures a + (b + c) == a + b + c
  {
  }

  lemma {:induction false} FoldAppend(rows: seq<Row>, a: seq<Obs>, b: seq<Obs>)
    ensures RowsAfter(rows, a + b) == RowsAfter(RowsAfter(rows, a), b)
    ensures DeltasOf(rows, a + b) == DeltasOf(rows, a) + DeltasOf(RowsAfter(rows, a), b)
  {
    if b == [] {
      assert a + b == a;
    } else {
      var n := |b| - 1;
      FoldAppend(rows, a, b[..n]);
      assert (a + b)[..|a + b| - 1] == a + b[..n];
      var mid := RowsAfter(rows, a);
      AssocDeltas(DeltasOf(rows, a), DeltasOf(mid, b[..n]), [DeltaOf(RowsAfter(mid, b[..n]), b[n])]);
    }
  }

  lemma {:induction false} CreditAppend(t: Tables, a: seq<Delta>, b: seq<Delta>)
    ensures CreditAll(t, a + b) == CreditAll(CreditAll(t, a), b)
  {
    if b == [] {
      assert a + b == a;
    } else {
      CreditAppend(t, a, b[..|b| - 1]);
      assert (a + b)[..|a + b| - 1] == a + b[..|b| - 1];
    }
  }

  lemma {:induction false} AtAppend(now: int, xs: seq<Flow>, ys: seq<Flow>)
    ensures At(now, xs + ys) == At(now, xs) + At(now, ys)
  {
    if ys == [] {
      assert xs + ys == xs;
    } else {
      AtAppend(now, xs, ys[..|ys| - 1]);
      assert (xs + ys)[..|xs + ys| - 1] == xs + ys[..|ys| - 1];
    }
  }

  /** At one instant the split into batches does not matter, even when a key recurs across it. */
  lemma BatchSplit(l: Ledger, now: int, xs: seq<Flow>, ys: seq<Flow>)
    ensures AfterAddFlows(l, now, xs + ys) == AfterAddFlows(AfterAddFlows(l, now, xs), now, ys)
  {
    AtAppend(now, xs, ys);
    FoldAppend(l.flows, At(now, xs), At(now, ys));
    CreditAppend(l.tables, DeltasOf(l.flows, At(now, xs)), DeltasOf(RowsAfter(l.flows, At(now, xs)), At(now, ys)));
  }
}
