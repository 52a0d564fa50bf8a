/** The int64 split of a growth, the telescoping of one flow's credits, and what pruning an open
    flow does to them (store.go:511-616, 1166). */
module FlowTelescope {
  import opened Common
  import opened MapTotal
  import opened FlowLedger
  import C = FlowConservation

  const MAX64 := TWO63 - 1
  const TWO62: int := 0x4000_0000_0000_0000

  // --------------------------------------------------------------- flowDelta

  lemma MulMono(a: int, b: int, c: int)
    requires a <= b && 0 <= c
    ensures a * c <= b * c
  {
  }

  lemma QuotientFacts(x: int, t: int)
    requires 0 <= x && 0 < t
    ensures 0 <= x / t && (x / t) * t <= x < (x / t) * t + t
  {
  }

  predicate Counters(bytesIn: int, bytesOut: int) {
    0 <= bytesIn && 0 <= bytesOut && bytesIn + bytesOut <= MAX64
  }

  /** The exact proportion, rounded down: within one byte of growth * in / total. */
  predicate Proportional(dIn: int, grow: int, bytesIn: int, total: int) {
    dIn * total <= grow * bytesIn < dIn * total + total
  }

  lemma WrapFacts(x: int)
    ensures -TWO63 <= Wrap64(x) < TWO63
    ensures -TWO63 <= x < TWO63 ==> Wrap64(x) == x
    ensures x >= TWO63 ==> Wrap64(x) <= x - TWO64
  {
  }

  /** Without a reset, only the product (and the last subtraction) can wrap. */
  lemma SplitShape(pin: int, pout: int, bytesIn: int, bytesOut: int, p: int)
    requires Counters(pin, pout) && Counters(bytesIn, bytesOut) && pin + pout < bytesIn + bytesOut
    requires p == (bytesIn + bytesOut - pin - pout) * bytesIn
    ensures var d := TruncDiv(Wrap64(p), bytesIn + bytesOut);
            FlowDelta(pin, pout, bytesIn, bytesOut) == (d, Wrap64(bytesIn + bytesOut - pin - pout - d))
  {
    var total, prev := bytesIn + bytesOut, pin + pout;
    WrapFacts(total);
    WrapFacts(prev);
    WrapFacts(total - prev);
    assert Wrap64(Wrap64(total) - Wrap64(prev)) == total - prev;
    assert (total - prev) * bytesIn == p;
  }

  /** A product that fits divides into a part between zero and the growth. */
  lemma FittingQuotient(grow: int, bytesIn: int, total: int, p: int)
    requires 0 < grow <= total && 0 <= bytesIn <= total && p == grow * bytesIn
    ensures 0 <= p && 0 <= p / total <= grow
  {
    MulMono(0, bytesIn, grow);
    MulMono(bytesIn, total, grow);
    QuotientFacts(p, total);
    if p / total > grow { MulMono(grow + 1, p / total, total); }
  }

  /** When the product fits, the parts are non-negative, add up to the growth and are proportional. */
  lemma SplitIsExact(pin: int, pout: int, bytesIn: int, bytesOut: int)
    requires Counters(pin, pout) && Counters(bytesIn, bytesOut) && pin + pout <= bytesIn + bytesOut
    requires (bytesIn + bytesOut - pin - pout) * bytesIn <= MAX64
    ensures var grow := bytesIn + bytesOut - pin - pout;
            var (dIn, dOut) := FlowDelta(pin, pout, bytesIn, bytesOut);
            && 0 <= dIn && 0 <= dOut && dIn + dOut == grow
            && (grow > 0 ==> Proportional(dIn, grow, bytesIn, bytesIn + bytesOut))
  {
    var total := bytesIn + bytesOut;
    var grow := total - pin - pout;
    if grow > 0 {
      var p := grow * bytesIn;
      FittingQuotient(grow, bytesIn, total, p);
      FittingSplit(pin, pout, bytesIn, bytesOut, p);
      QuotientFacts(p, total);
      assert Proportional(p / total, grow, bytesIn, total);
    } else {
      WrapFacts(total);
      assert FlowDelta(pin, pout, bytesIn, bytesOut) == (0, 0);
    }
  }

  lemma FittingSplit(pin: int, pout: int, bytesIn: int, bytesOut: int, p: int)
    requires Counters(pin, pout) && Counters(bytesIn, bytesOut) && pin + pout < bytesIn + bytesOut
    requires p == (bytesIn + bytesOut - pin - pout) * bytesIn && 0 <= p <= MAX64
    requires 0 <= p / (bytesIn + bytesOut) <= bytesIn + bytesOut - pin - pout
    ensures FlowDelta(pin, pout, bytesIn, bytesOut)
         == (p / (bytesIn + bytesOut), bytesIn + bytesOut - pin - pout - p / (bytesIn + bytesOut))
  {
    SplitShape(pin, pout, bytesIn, bytesOut, p);
    WrapFacts(p);
    WrapFacts(bytesIn + bytesOut - pin - pout - p / (bytesIn + bytesOut));
  }

  /** The inbound part is the exact proportion if and only if the product fits in an int64. */
  lemma SplitIsExactIff(pin: int, pout: int, bytesIn: int, bytesOut: int)
    requires Counters(pin, pout) && Counters(bytesIn, bytesOut) && pin + pout < bytesIn + bytesOut
    ensures var grow := bytesIn + bytesOut - pin - pout;
            Proportional(FlowDelta(pin, pout, bytesIn, bytesOut).0, grow, bytesIn, bytesIn + bytesOut)
            <==> grow * bytesIn <= MAX64
  {
    var total := bytesIn + bytesOut;
    var grow := total - pin - pout;
    var p := grow * bytesIn;
    if p <= MAX64 {
      SplitIsExact(pin, pout, bytesIn, bytesOut);
    } else {
      SplitShape(pin, pout, bytesIn, bytesOut, p);
      WrapFacts(p);
      WrappedQuotientIsLow(Wrap64(p), total, p);
    }
  }

  lemma WrappedQuotientIsLow(x: int, t: int, p: int)
    requires x <= p - TWO64 && 0 < t <= MAX64
    ensures TruncDiv(x, t) * t + t <= p
  {
    if x >= 0 {
      QuotientFacts(x, t);
    } else {
      QuotientFacts(-x, t);
      assert TruncDiv(x, t) * t == -((-x / t) * t);
    }
  }

  lemma QuotientBound(x: int, t: int)
    requires 0 <= x <= TWO63 && t >= 0x8000_0000
    ensures 0 <= x / t <= 0x1_0000_0000
  {
    QuotientFacts(x, t);
    if x / t > 0x1_0000_0000 {
      MulMono(0x1_0000_0001, x / t, t);
      MulMono(0x8000_0000, t, 0x1_0000_0001);
    }
  }

  lemma TopQuotientBound(x: int, t: int)
    requires 0 <= x <= TWO63 && t > TWO62
    ensures 0 <= x / t <= 1
  {
    QuotientFacts(x, t);
    if x / t > 1 { MulMono(2, x / t, t); }
  }

  lemma WrapShift(k: int, y: int)
    requires -TWO63 <= y < TWO63
    ensures Wrap64(k * TWO64 + y) == y
  {
    assert (k * TWO64 + y + TWO63) % TWO64 == (y + TWO63) % TWO64;
  }

  /** The only growth from which subtracting a negative part could wrap does not divide into one. */
  lemma GreatestGrowthGivesNoNegative(bytesIn: int)
    requires 0 <= bytesIn <= MAX64
    ensures TruncDiv(Wrap64(MAX64 * bytesIn), MAX64) >= 0
  {
    var k := bytesIn / 2;
    if bytesIn == 2 * k {
      assert MAX64 * bytesIn == k * TWO64 - bytesIn;
      WrapShift(k, -bytesIn);
    } else {
      assert bytesIn == 2 * k + 1;
      assert MAX64 * bytesIn == k * TWO64 + (TWO63 - bytesIn);
      WrapShift(k, TWO63 - bytesIn);
    }
  }

  /** Subtracting the wrapped quotient from the growth does not wrap. */
  lemma LastSubtractionFits(grow: int, bytesIn: int, total: int)
    requires 0 < grow <= total <= MAX64 && 0 <= bytesIn <= total && total >= 0x8000_0000
    ensures -TWO63 <= grow - TruncDiv(Wrap64(grow * bytesIn), total) < TWO63
  {
    var x := Wrap64(grow * bytesIn);
    WrapFacts(grow * bytesIn);
    var size := if x >= 0 then x else -x;
    if total <= TWO62 {
      QuotientBound(size, total);
    } else {
      TopQuotientBound(size, total);
      if grow == MAX64 { GreatestGrowthGivesNoNegative(bytesIn); }
    }
  }

  /** Whatever the split, the two parts add up to the growth, even when the product overflows. */
  lemma PartsSumToGrowth(pin: int, pout: int, bytesIn: int, bytesOut: int)
    requires Counters(pin, pout) && Counters(bytesIn, bytesOut) && pin + pout <= bytesIn + bytesOut
    ensures var (dIn, dOut) := FlowDelta(pin, pout, bytesIn, bytesOut);
            dIn + dOut == bytesIn + bytesOut - pin - pout
  {
    var total := bytesIn + bytesOut;
    var grow := total - pin - pout;
    var p := grow * bytesIn;
    if p <= MAX64 {
      SplitIsExact(pin, pout, bytesIn, bytesOut);
    } else {
      OverflowNeedsBigTotal(grow, bytesIn, total);
      SplitShape(pin, pout, bytesIn, bytesOut, p);
      LastSubtractionFits(grow, bytesIn, total);
      WrapFacts(grow - TruncDiv(Wrap64(p), total));
    }
  }

  /** The outbound part is never negative, the product overflowing or not: wrapping only lowers it. */
  lemma OutboundNeverNegative(pin: int, pout: int, bytesIn: int, bytesOut: int)
    requires Counters(pin, pout) && Counters(bytesIn, bytesOut)
    ensures FlowDelta(pin, pout, bytesIn, bytesOut).1 >= 0
  {
    var total := bytesIn + bytesOut;
    var grow := total - pin - pout;
    WrapFacts(total);
    WrapFacts(pin + pout);
    WrapFacts(grow);
    if grow > 0 {
      var p := grow * bytesIn;
      PartsSumToGrowth(pin, pout, bytesIn, bytesOut);
      SplitShape(pin, pout, bytesIn, bytesOut, p);
      FittingQuotient(grow, bytesIn, total, p);
      WrapNeverRaises(p);
      QuotientAtMost(Wrap64(p), total, p, grow);
    }
  }

  lemma WrapNeverRaises(p: int)
    requires p >= 0
    ensures Wrap64(p) <= p
  {
    WrapFacts(p);
  }

  lemma QuotientAtMost(x: int, t: int, p: int, bound: int)
    requires 0 < t && 0 <= bound && x <= p && 0 <= p && p / t <= bound
    ensures TruncDiv(x, t) <= bound
  {
    if x >= 0 {
      QuotientFacts(x, t);
      QuotientFacts(p, t);
      if x / t > p / t { MulMono(p / t + 1, x / t, t); }
    } else {
      QuotientFacts(-x, t);
    }
  }

  /** The inbound part takes nothing back if and only if the wrapped product is above minus the total. */
  lemma InboundNonNegativeIff(pin: int, pout: int, bytesIn: int, bytesOut: int)
    requires Counters(pin, pout) && Counters(bytesIn, bytesOut)
    ensures FlowDelta(pin, pout, bytesIn, bytesOut).0 >= 0 <==> InboundFits(pin, pout, bytesIn, bytesOut)
  {
    var total := bytesIn + bytesOut;
    var grow := total - pin - pout;
    WrapFacts(total);
    WrapFacts(pin + pout);
    if grow > 0 {
      var x := Wrap64(grow * bytesIn);
      SplitShape(pin, pout, bytesIn, bytesOut, grow * bytesIn);
      if x >= 0 {
        QuotientFacts(x, total);
      } else {
        QuotientFacts(-x, total);
        if -x / total > 0 { MulMono(1, -x / total, total); }
      }
    } else {
      WrapFacts(grow);
    }
  }

  /** The counters did not grow, or the product of growth and inbound bytes, wrapped around, is above
      minus the total. */
  predicate InboundFits(pin: int, pout: int, bytesIn: int, bytesOut: int) {
    var total := bytesIn + bytesOut;
    total <= pin + pout || Wrap64((total - pin - pout) * bytesIn) > -total
  }

  /** Overflow alone is not what counts: this one overflows and takes nothing back. */
  lemma HarmlessOverflow()
    ensures 0x1_0000_0000 * 0x1_0000_0000 > MAX64 && InboundFits(0, 0, 0x1_0000_0000, 0)
    ensures FlowDelta(0, 0, 0x1_0000_0000, 0) == (0, 0x1_0000_0000)
  {
    assert 0x1_0000_0000 * 0x1_0000_0000 == TWO64 > MAX64;
    assert Wrap64(TWO64) == 0;
    SplitShape(0, 0, 0x1_0000_0000, 0, TWO64);
  }

  lemma OverflowNeedsBigTotal(grow: int, bytesIn: int, total: int)
    requires 0 <= grow <= total && 0 <= bytesIn <= total && grow * bytesIn > MAX64
    ensures total >= 0x8000_0000
  {
    MulMono(bytesIn, total, grow);
    MulMono(grow, total, total);
    if total < 0x8000_0000 {
      MulMono(total, 0x8000_0000, total);
    }
  }

  /** A flow that moves 4 GiB, half of it inbound, between two observations is credited -2 GiB in. */
  lemma FourGiBBurstGoesNegative()
    ensures FlowDelta(0, 0, 0x8000_0000, 0x8000_0000) == (-0x8000_0000, 0x1_8000_0000)
  {
    SplitShape(0, 0, 0x8000_0000, 0x8000_0000, TWO63);
    assert Wrap64(TWO63) == -TWO63;
  }

  // ------------------------------------------------------------ rows by key

  function LastRow(rows: seq<Row>, key: string): Option<Row> {
    var i := LastIndex(rows, key);
    if i < 0 then None else Some(rows[i])
  }

  lemma LastRowIs(rows: seq<Row>, key: string, i: nat)
    requires i < |rows| && rows[i].key == Some(key)
    requires forall j :: i < j < |rows| ==> rows[j].key != Some(key)
    ensures LastIndex(rows, key) == i
  {
  }

  /** What an observation does to the row of any key. */
  lemma ObserveEffect(rows: seq<Row>, o: Obs, key: string)
    requires key != ""
    ensures LastRow(Observe(rows, o), key) ==
            if o.flow.key != key then LastRow(rows, key)
            else if LastRow(rows, key).Some? then Some(Updated(LastRow(rows, key).value, o.now, o.flow))
            else Some(Inserted(o.flow))
  {
    var rows' := Observe(rows, o);
    var i := LastIndex(rows, key);
    if o.flow.key == key {
      LastRowIs(rows', key, if i >= 0 then i else |rows|);
    } else if i >= 0 {
      LastRowIs(rows', key, i);
    }
  }

  ghost predicate UniqueKeys(rows: seq<Row>) {
    forall i, j :: 0 <= i < j < |rows| && rows[i].key.Some? ==> rows[i].key != rows[j].key
  }

  lemma ObserveKeepsUnique(rows: seq<Row>, o: Obs)
    requires UniqueKeys(rows)
    ensures UniqueKeys(Observe(rows, o))
  {
    var i := if o.flow.key == "" then -1 else LastIndex(rows, o.flow.key);
    var rows' := Observe(rows, o);
    assert i >= 0 ==> rows'[i].key == rows[i].key;
  }

  lemma {:induction false} RowsAfterKeepUnique(rows: seq<Row>, obs: seq<Obs>)
    requires UniqueKeys(rows)
    ensures UniqueKeys(RowsAfter(rows, obs))
  {
    if obs != [] {
      RowsAfterKeepUnique(rows, obs[..|obs| - 1]);
      ObserveKeepsUnique(RowsAfter(rows, obs[..|obs| - 1]), obs[|obs| - 1]);
    }
  }

  lemma {:induction false} StartedRows(rows: seq<Row>, cut: int)
    ensures forall i :: 0 <= i < |Started(rows, cut)| ==> Started(rows, cut)[i] in rows
  {
    if rows != [] {
      StartedRows(rows[..|rows| - 1], cut);
    }
  }

  lemma {:induction false} StartedKeepsUnique(rows: seq<Row>, cut: int)
    requires UniqueKeys(rows)
    ensures UniqueKeys(Started(rows, cut))
  {
    if rows != [] {
      var n := |rows| - 1;
      var kept, r := Started(rows[..n], cut), rows[n];
      StartedKeepsUnique(rows[..n], cut);
      StartedRows(rows[..n], cut);
      forall i | 0 <= i < |kept| && kept[i].key.Some?
        ensures kept[i].key != r.key
      {
        var j :| 0 <= j < n && rows[..n][j] == kept[i];
        assert rows[j] == kept[i];
      }
    }
  }

  /** Retention by start time drops a key's row exactly when the flow started before the cutoff. */
  lemma {:induction false} StartedEffect(rows: seq<Row>, cut: int, key: string)
    requires UniqueKeys(rows)
    ensures LastRow(Started(rows, cut), key) ==
            if LastRow(rows, key).Some? && LastRow(rows, key).value.ts >= cut then LastRow(rows, key) else None
  {
    if rows != [] {
      var n := |rows| - 1;
      var front, r := rows[..n], rows[n];
      StartedEffect(front, cut, key);
      assert LastRow(rows, key) == if r.key == Some(key) then Some(r) else LastRow(front, key) by {
        LastRowSnoc(front, r, key);
        assert rows == front + [r];
      }
      NoEarlierRow(rows, key);
      if r.ts >= cut {
        LastRowSnoc(Started(front, cut), r, key);
      } else {
        assert Started(rows, cut) == Started(front, cut);
      }
    }
  }

  lemma NoEarlierRow(rows: seq<Row>, key: string)
    requires UniqueKeys(rows) && rows != []
    ensures rows[|rows| - 1].key == Some(key) ==> LastRow(rows[..|rows| - 1], key).None?
  {
    var i := LastIndex(rows[..|rows| - 1], key);
    assert i >= 0 ==> rows[i].key == Some(key);
  }

  lemma LastRowSnoc(front: seq<Row>, r: Row, key: string)
    ensures LastRow(front + [r], key) == if r.key == Some(key) then Some(r) else LastRow(front, key)
  {
    assert (front + [r])[..|front|] == front;
  }

  // ------------------------------------------------- one row per key, in every run

  /** In every run of AddFlows and Prune the table holds at most one row per non-empty key. */
  lemma {:induction false} OneRowPerKey(es: seq<C.Event>)
    ensures UniqueKeys(C.Run(es).flows)
  {
    if es != [] {
      var l := C.Run(es[..|es| - 1]);
      OneRowPerKey(es[..|es| - 1]);
      match es[|es| - 1]
      case Add(now, flows) => RowsAfterKeepUnique(l.flows, At(now, flows));
      case Retain(cut, rcut) => StartedKeepsUnique(l.flows, cut);
    }
  }

  lemma DeltaFromLastRow(rows: seq<Row>, o: Obs)
    requires o.flow.key != "" && o.flow.source != "squid"
    ensures DeltaOf(rows, o).newFlow <==> LastRow(rows, o.flow.key).None?
    ensures (DeltaOf(rows, o).bytesIn, DeltaOf(rows, o).bytesOut) ==
            match LastRow(rows, o.flow.key)
            case None => (o.flow.bytesIn, o.flow.bytesOut)
            case Some(r) => FlowDelta(r.bytesIn, r.bytesOut, o.flow.bytesIn, o.flow.bytesOut)
  {
  }

  /** Pruning a known flow between two observations credits its whole counter again, as a new flow,
      if and only if its row started before the cutoff; otherwise the credit is what it would have been. */
  lemma PruneCreditsAgainIff(es: seq<C.Event>, cut: int, rcut: int, o: Obs)
    requires o.flow.key != "" && o.flow.source != "squid"
    requires LastRow(C.Run(es).flows, o.flow.key).Some?
    ensures var before, after := C.Run(es).flows, C.Run(es + [C.Retain(cut, rcut)]).flows;
            var d := DeltaOf(after, o);
            && (d.newFlow <==> LastRow(before, o.flow.key).value.ts < cut)
            && (d.newFlow ==> d.bytesIn == o.flow.bytesIn && d.bytesOut == o.flow.bytesOut)
            && (!d.newFlow ==> d == DeltaOf(before, o))
  {
    assert (es + [C.Retain(cut, rcut)])[..|es|] == es;
    var before := C.Run(es).flows;
    OneRowPerKey(es);
    StartedEffect(before, cut, o.flow.key);
    DeltaFromLastRow(before, o);
    DeltaFromLastRow(Started(before, cut), o);
  }

  // -------------------------------------------------------------- telescoping

  /** What happened to a key: a total was reported for it, or retention dropped its row. */
  datatype Mark = Seen(total: int) | Pruned

  /** The totals a batch reports for a key, in order. */
  function Marks(obs: seq<Obs>, key: string): seq<Mark> {
    if obs == [] then []
    else
      var f := obs[|obs| - 1].flow;
      Marks(obs[..|obs| - 1], key) + if f.key == key then [Seen(f.bytesIn + f.bytesOut)] else []
  }

  /** A key's history in a run; a prune counts only when it drops the key's row. */
  function History(es: seq<C.Event>, key: string): seq<Mark> {
    if es == [] then []
    else
      var front := es[..|es| - 1];
      match es[|es| - 1]
      case Add(now, flows) => History(front, key) + Marks(At(now, flows), key)
      case Retain(cut, _) => History(front, key) + if Drops(Own(front, key), cut) then [Pruned] else []
  }

  /** The totals just before each counter reset and each prune of the row. */
  function Peaks(h: seq<Mark>): int {
    var n := |h|;
    if n < 2 then 0
    else
      Peaks(h[..n - 1])
      + if h[n - 2].Seen? && (h[n - 1].Pruned? || h[n - 1].total < h[n - 2].total) then h[n - 2].total else 0
  }

  /** The total the row holds: the last one reported, unless dropped since. */
  function Current(h: seq<Mark>): int { if h != [] && h[|h| - 1].Seen? then h[|h| - 1].total else 0 }

  /** Every observation of a run, in order; Ever(es) is its deltas. */
  function AllObs(es: seq<C.Event>): seq<Obs> {
    if es == [] then []
    else
      var e := es[|es| - 1];
      AllObs(es[..|es| - 1]) + if e.Add? then At(e.now, e.flows) else []
  }

  /** The bytes the deltas of these observations credit for a key. */
  function BytesFor(ds: seq<Delta>, obs: seq<Obs>, key: string): int
    requires |ds| == |obs|
  {
    if obs == [] then 0
    else
      var n := |obs| - 1;
      BytesFor(ds[..n], obs[..n], key) + if obs[n].flow.key == key then ds[n].bytesIn + ds[n].bytesOut else 0
  }

  lemma {:induction false} DeltasLength(rows: seq<Row>, obs: seq<Obs>)
    ensures |DeltasOf(rows, obs)| == |obs|
  {
    if obs != [] { DeltasLength(rows, obs[..|obs| - 1]); }
  }

  lemma {:induction false} BytesForAppend(ds: seq<Delta>, obs: seq<Obs>, ds': seq<Delta>, obs': seq<Obs>, key: string)
    requires |ds| == |obs| && |ds'| == |obs'|
    ensures BytesFor(ds + ds', obs + obs', key) == BytesFor(ds, obs, key) + BytesFor(ds', obs', key)
  {
    if obs' == [] {
      assert ds + ds' == ds && obs + obs' == obs;
    } else {
      var n := |obs'| - 1;
      assert (ds + ds')[..|ds| + n] == ds + ds'[..n] && (obs + obs')[..|obs| + n] == obs + obs'[..n];
      BytesForAppend(ds, obs, ds'[..n], obs'[..n], key);
    }
  }

  ghost predicate TameFlows(flows: seq<Flow>, key: string) {
    forall f :: f in flows && f.key == key ==> f.source != "squid" && Counters(f.bytesIn, f.bytesOut)
  }

  /** The key is not reported by the proxy and its counters fit in an int64. */
  ghost predicate TameRun(es: seq<C.Event>, key: string) {
    forall e :: e in es && e.Add? ==> TameFlows(e.flows, key)
  }

  /** The stored row of a key holds the last total reported for it. */
  predicate Tracks(row: Option<Row>, h: seq<Mark>) {
    && (row.Some? <==> h != [] && h[|h| - 1].Seen?)
    && (row.Some? ==> Counters(row.value.bytesIn, row.value.bytesOut)
                      && row.value.bytesIn + row.value.bytesOut == Current(h))
  }

  lemma SnocMark(h: seq<Mark>, m: Mark)
    requires Current(h) >= 0 && (m.Seen? ==> m.total >= 0)
    ensures Current(h + [m]) == if m.Seen? then m.total else 0
    ensures Peaks(h + [m]) == Peaks(h) + if m.Pruned? || m.total < Current(h) then Current(h) else 0
  {
    assert (h + [m])[..|h|] == h;
  }

  lemma StepBytes(rows: seq<Row>, o: Obs, h: seq<Mark>)
    requires o.flow.key != "" && TameFlows([o.flow], o.flow.key) && Tracks(LastRow(rows, o.flow.key), h)
    ensures var d, t := DeltaOf(rows, o), o.flow.bytesIn + o.flow.bytesOut;
            d.bytesIn + d.bytesOut == t - if t < Current(h) then 0 else Current(h)
  {
    var f, prev := o.flow, LastRow(rows, o.flow.key);
    assert f in [f];
    DeltaFromLastRow(rows, o);
    if prev.Some? {
      if f.bytesIn + f.bytesOut >= Current(h) {
        PartsSumToGrowth(prev.value.bytesIn, prev.value.bytesOut, f.bytesIn, f.bytesOut);
      } else {
        WrapFacts(f.bytesIn + f.bytesOut);
        WrapFacts(prev.value.bytesIn + prev.value.bytesOut);
      }
    }
  }

  /** One observation of the key moves credits and history alike. */
  lemma TelescopeStep(before: seq<Row>, o: Obs, h: seq<Mark>)
    requires o.flow.key != "" && TameFlows([o.flow], o.flow.key) && Tracks(LastRow(before, o.flow.key), h)
    ensures var d, h' := DeltaOf(before, o), h + [Seen(o.flow.bytesIn + o.flow.bytesOut)];
            && d.bytesIn + d.bytesOut == Peaks(h') + Current(h') - Peaks(h) - Current(h)
            && Tracks(LastRow(Observe(before, o), o.flow.key), h')
  {
    assert o.flow in [o.flow];
    ObserveEffect(before, o, o.flow.key);
    StepBytes(before, o, h);
    SnocMark(h, Seen(o.flow.bytesIn + o.flow.bytesOut));
  }

  lemma SnocObs(rows: seq<Row>, front: seq<Obs>, o: Obs, key: string)
    ensures RowsAfter(rows, front + [o]) == Observe(RowsAfter(rows, front), o)
    ensures Marks(front + [o], key) ==
            Marks(front, key) + if o.flow.key == key then [Seen(o.flow.bytesIn + o.flow.bytesOut)] else []
    ensures |DeltasOf(rows, front)| == |front| && |DeltasOf(rows, front + [o])| == |front| + 1
    ensures var d := DeltaOf(RowsAfter(rows, front), o);
            BytesFor(DeltasOf(rows, front + [o]), front + [o], key) ==
            BytesFor(DeltasOf(rows, front), front, key) + if o.flow.key == key then d.bytesIn + d.bytesOut else 0
  {
    assert (front + [o])[..|front|] == front;
    DeltasLength(rows, front);
    var ds, d := DeltasOf(rows, front), DeltaOf(RowsAfter(rows, front), o);
    assert DeltasOf(rows, front + [o]) == ds + [d];
    assert (ds + [d])[..|front|] == ds;
  }

  lemma AssocMarks(a: seq<Mark>, b: seq<Mark>, c: seq<Mark>)
    ensures a + (b + c) == a + b + c && a + [] == a
  {
  }

  /** What a batch, of this flow and any others, credits for the key. */
  ghost predicate BatchTelescopes(rows: seq<Row>, obs: seq<Obs>, h: seq<Mark>, key: string) {
    var h' := h + Marks(obs, key);
    && |DeltasOf(rows, obs)| == |obs| && Tracks(LastRow(RowsAfter(rows, obs), key), h')
    && BytesFor(DeltasOf(rows, obs), obs, key) == Peaks(h') + Current(h') - Peaks(h) - Current(h)
  }

  lemma ObsTelescopes(rows: seq<Row>, front: seq<Obs>, o: Obs, h: seq<Mark>, key: string)
    requires key != "" && TameFlows([o.flow], key) && BatchTelescopes(rows, front, h, key)
    ensures BatchTelescopes(rows, front + [o], h, key)
  {
    var before, h' := RowsAfter(rows, front), h + Marks(front, key);
    SnocObs(rows, front, o, key);
    AssocMarks(h, Marks(front, key), [Seen(o.flow.bytesIn + o.flow.bytesOut)]);
    AssocMarks(Marks(front, key), [], []);
    if o.flow.key == key {
      TelescopeStep(before, o, h');
    } else {
      ObserveEffect(before, o, key);
    }
  }

  lemma {:induction false} FlowsTelescope(rows: seq<Row>, now: int, flows: seq<Flow>, h: seq<Mark>, key: string)
    requires key != "" && TameFlows(flows, key) && Tracks(LastRow(rows, key), h)
    ensures BatchTelescopes(rows, At(now, flows), h, key)
  {
    if flows == [] {
      AssocMarks(h, [], []);
    } else {
      var front, f := flows[..|flows| - 1], flows[|flows| - 1];
      assert flows == front + [f] && f in flows;
      FlowsTelescope(rows, now, front, h, key);
      ObsTelescopes(rows, At(now, front), Obs(now, f), h, key);
    }
  }

  /** The credits of a run match the history of the key, and its row the present. */
  ghost predicate Telescopes(es: seq<C.Event>, key: string) {
    var h := History(es, key);
    && |C.Ever(es)| == |AllObs(es)| && Tracks(LastRow(C.Run(es).flows, key), h)
    && BytesFor(C.Ever(es), AllObs(es), key) == Peaks(h) + Current(h)
  }

  lemma AddTelescopes(front: seq<C.Event>, now: int, flows: seq<Flow>, key: string)
    requires key != "" && TameFlows(flows, key) && Telescopes(front, key)
    ensures Telescopes(front + [C.Add(now, flows)], key)
  {
    var l, es := C.Run(front), front + [C.Add(now, flows)];
    assert es[..|es| - 1] == front;
    FlowsTelescope(l.flows, now, flows, History(front, key), key);
    BytesForAppend(C.Ever(front), AllObs(front), DeltasOf(l.flows, At(now, flows)), At(now, flows), key);
  }

  lemma RetainTelescopes(front: seq<C.Event>, cut: int, rcut: int, key: string)
    requires key != "" && Telescopes(front, key)
    ensures Telescopes(front + [C.Retain(cut, rcut)], key)
  {
    var h, es := History(front, key), front + [C.Retain(cut, rcut)];
    assert es[..|es| - 1] == front;
    assert C.Ever(es) == C.Ever(front) && AllObs(es) == AllObs(front);
    OneRowPerKey(front);
    RowSaysItsObservations(front, key);
    StartedEffect(C.Run(front).flows, cut, key);
    SnocMark(h, Pruned);
    AssocMarks(h, [], []);
  }

  /** TELESCOPING: in every run, however a flow's directions shift and whatever other flows and
      retention do, the bytes ever credited for a key are its current total plus the totals just before
      each counter reset and each prune of its row. */
  lemma {:induction false} CreditsTelescope(es: seq<C.Event>, key: string)
    requires key != "" && TameRun(es, key)
    ensures |C.Ever(es)| == |AllObs(es)|
    ensures BytesFor(C.Ever(es), AllObs(es), key) == Peaks(History(es, key)) + Current(History(es, key))
    ensures Telescopes(es, key)
  {
    if es != [] {
      var front, e := es[..|es| - 1], es[|es| - 1];
      assert es == front + [e];
      CreditsTelescope(front, key);
      match e
      case Add(now, flows) => AddTelescopes(front, now, flows, key);
      case Retain(cut, rcut) => RetainTelescopes(front, cut, rcut, key);
    }
  }

  // ------------------------------------------- the domain rollup never holds more

  /** The row an observation is compared with. */
  function Known(rows: seq<Row>, o: Obs): Option<Row> {
    if o.flow.key == "" then None else LastRow(rows, o.flow.key)
  }

  /** What flowDelta makes of the observation takes no inbound bytes back. */
  predicate Harmless(rows: seq<Row>, o: Obs) {
    o.flow.source == "squid" ||
    match Known(rows, o)
    case None => true
    case Some(r) => InboundFits(r.bytesIn, r.bytesOut, o.flow.bytesIn, o.flow.bytesOut)
  }

  ghost predicate BatchHarmless(rows: seq<Row>, obs: seq<Obs>) {
    obs == [] || (BatchHarmless(rows, obs[..|obs| - 1]) && Harmless(RowsAfter(rows, obs[..|obs| - 1]), obs[|obs| - 1]))
  }

  /** Every observation of the run is harmless when it is made. */
  ghost predicate RunHarmless(es: seq<C.Event>) {
    es == [] ||
    var front, e := es[..|es| - 1], es[|es| - 1];
    RunHarmless(front) && (e.Add? ==> BatchHarmless(C.Run(front).flows, At(e.now, e.flows)))
  }

  ghost predicate CounterRows(rows: seq<Row>) { forall r :: r in rows ==> Counters(r.bytesIn, r.bytesOut) }

  ghost predicate CounterFlows(flows: seq<Flow>) { forall f :: f in flows ==> Counters(f.bytesIn, f.bytesOut) }

  ghost predicate CounterRun(es: seq<C.Event>) { forall e :: e in es && e.Add? ==> CounterFlows(e.flows) }

  /** Nothing is taken back in total or outbound. */
  ghost predicate AllGive(ds: seq<Delta>) { forall d :: d in ds ==> d.bytesIn + d.bytesOut >= 0 && d.bytesOut >= 0 }

  ghost predicate AllGiveInbound(ds: seq<Delta>) { forall d :: d in ds ==> d.bytesIn >= 0 }

  lemma GivesSnoc(ds: seq<Delta>, d: Delta)
    ensures AllGive(ds + [d]) <==> AllGive(ds) && AllGive([d])
    ensures AllGiveInbound(ds + [d]) <==> AllGiveInbound(ds) && AllGiveInbound([d])
  {
    assert d in ds + [d] && forall x :: x in ds ==> x in ds + [d];
  }

  lemma GivesConcat(a: seq<Delta>, b: seq<Delta>)
    ensures AllGive(a + b) <==> AllGive(a) && AllGive(b)
    ensures AllGiveInbound(a + b) <==> AllGiveInbound(a) && AllGiveInbound(b)
  {
    assert (forall x :: x in a ==> x in a + b) && (forall x :: x in b ==> x in a + b);
  }

  lemma SplitGives(pin: int, pout: int, bytesIn: int, bytesOut: int)
    requires Counters(pin, pout) && Counters(bytesIn, bytesOut)
    ensures var (dIn, dOut) := FlowDelta(pin, pout, bytesIn, bytesOut); dIn + dOut >= 0
  {
    if pin + pout <= bytesIn + bytesOut {
      PartsSumToGrowth(pin, pout, bytesIn, bytesOut);
    } else {
      WrapFacts(pin + pout);
      WrapFacts(bytesIn + bytesOut);
    }
  }

  lemma ObservationGives(rows: seq<Row>, o: Obs)
    requires CounterRows(rows) && Counters(o.flow.bytesIn, o.flow.bytesOut)
    ensures AllGive([DeltaOf(rows, o)]) && CounterRows(Observe(rows, o))
    ensures AllGiveInbound([DeltaOf(rows, o)]) <==> Harmless(rows, o)
  {
    var f, d := o.flow, DeltaOf(rows, o);
    assert d in [d];
    var i := if f.key == "" then -1 else LastIndex(rows, f.key);
    if i >= 0 {
      assert rows[i] in rows;
      SplitGives(rows[i].bytesIn, rows[i].bytesOut, f.bytesIn, f.bytesOut);
      OutboundNeverNegative(rows[i].bytesIn, rows[i].bytesOut, f.bytesIn, f.bytesOut);
      InboundNonNegativeIff(rows[i].bytesIn, rows[i].bytesOut, f.bytesIn, f.bytesOut);
    }
  }

  lemma {:induction false} BatchGives(rows: seq<Row>, now: int, flows: seq<Flow>)
    requires CounterRows(rows) && CounterFlows(flows)
    ensures AllGive(DeltasOf(rows, At(now, flows))) && CounterRows(RowsAfter(rows, At(now, flows)))
    ensures AllGiveInbound(DeltasOf(rows, At(now, flows))) <==> BatchHarmless(rows, At(now, flows))
  {
    if flows != [] {
      var front, f := flows[..|flows| - 1], flows[|flows| - 1];
      assert flows == front + [f] && f in flows;
      var obs, o := At(now, front), Obs(now, f);
      assert (obs + [o])[..|obs|] == obs;
      BatchGives(rows, now, front);
      FoldStep(rows, obs, o);
      ObservationGives(RowsAfter(rows, obs), o);
      GivesSnoc(DeltasOf(rows, obs), DeltaOf(RowsAfter(rows, obs), o));
    }
  }

  /** NOTHING IS TAKEN BACK: in every run no delta ever credited takes bytes back in total or outbound;
      and none takes any back inbound if and only if every observation is harmless when it is made. */
  lemma {:induction false} RunGives(es: seq<C.Event>)
    requires CounterRun(es)
    ensures CounterRows(C.Run(es).flows) && AllGive(C.Ever(es))
    ensures AllGiveInbound(C.Ever(es)) <==> RunHarmless(es)
  {
    if es != [] {
      var front, e := es[..|es| - 1], es[|es| - 1];
      assert es == front + [e] && e in es;
      RunGives(front);
      match e
      case Add(now, flows) =>
        BatchGives(C.Run(front).flows, now, flows);
        GivesConcat(C.Ever(front), C.StepDeltas(C.Run(front), e));
      case Retain(cut, rcut) =>
        StartedRows(C.Run(front).flows, cut);
        assert C.Ever(es) == C.Ever(front);
    }
  }

  lemma {:induction false} FromBucketSubset(log: seq<Delta>, rcut: int)
    ensures forall d :: d in C.FromBucket(log, rcut) ==> d in log
  {
    if log != [] { FromBucketSubset(log[..|log| - 1], rcut); }
  }

  lemma {:induction false} LiveWasCredited(es: seq<C.Event>)
    ensures forall d :: d in C.Live(es) ==> d in C.Ever(es)
  {
    if es != [] {
      LiveWasCredited(es[..|es| - 1]);
      if es[|es| - 1].Retain? { FromBucketSubset(C.Live(es[..|es| - 1]), es[|es| - 1].rcut); }
    }
  }

  lemma {:induction false} NamedIsLess(log: seq<Delta>, b: int, s: string)
    requires AllGive(log)
    ensures var named, all := C.Credited(log, b, s, true), C.Credited(log, b, s, false);
      && named.bytesIn + named.bytesOut <= all.bytesIn + all.bytesOut
      && named.bytesOut <= all.bytesOut && named.flows <= all.flows
      && (AllGiveInbound(log) ==> named.bytesIn <= all.bytesIn)
  {
    if log != [] {
      var front, d := log[..|log| - 1], log[|log| - 1];
      assert log == front + [d];
      GivesSnoc(front, d);
      NamedIsLess(front, b, s);
      assert d in [d];
    }
  }

  /** In every run the domain rollup of a bucket and source holds no more bytes, no more bytes out and
      no more flows than the application rollup; and no more bytes in when every observation is harmless. */
  lemma DomainNeverHoldsMore(es: seq<C.Event>, b: int, s: string)
    requires CounterRun(es)
    ensures var dom, app := C.DomainTotal(C.Run(es).tables, b, s), C.AppTotal(C.Run(es).tables, b, s);
      && dom.bytesIn + dom.bytesOut <= app.bytesIn + app.bytesOut
      && dom.bytesOut <= app.bytesOut && dom.flows <= app.flows
      && (RunHarmless(es) ==> dom.bytesIn <= app.bytesIn)
  {
    RunGives(es);
    LiveWasCredited(es);
    C.Conservation(es, b, s);
    NamedIsLess(C.Live(es), b, s);
  }

  lemma BatchOfOne(rows: seq<Row>, now: int, f: Flow)
    ensures At(now, [f]) == [Obs(now, f)]
    ensures RowsAfter(rows, [Obs(now, f)]) == Observe(rows, Obs(now, f))
    ensures DeltasOf(rows, [Obs(now, f)]) == [DeltaOf(rows, Obs(now, f))]
    ensures BatchHarmless(rows, [Obs(now, f)]) <==> Harmless(rows, Obs(now, f))
  {
    assert [f][..0] == [] && [Obs(now, f)][..0] == [];
    assert RowsAfter(rows, []) == rows && DeltasOf(rows, []) == [];
  }

  lemma CreditedSnoc(log: seq<Delta>, d: Delta, b: int, s: string)
    ensures forall named ::
              C.Credited(log + [d], b, s, named) == Plus(C.Credited(log, b, s, named), C.Share(d, b, s, named))
  {
    assert (log + [d])[..|log|] == log;
  }

  lemma RunSnoc(es: seq<C.Event>, now: int, f: Flow)
    ensures var rows, o, es' := C.Run(es).flows, Obs(now, f), es + [C.Add(now, [f])];
      && C.Run(es').flows == Observe(rows, o) && C.Live(es') == C.Live(es) + [DeltaOf(rows, o)]
      && (RunHarmless(es') <==> RunHarmless(es) && Harmless(rows, o))
  {
    assert (es + [C.Add(now, [f])])[..|es|] == es;
    BatchOfOne(C.Run(es).flows, now, f);
  }

  /** The second of two observations of a key that was unknown: 4 GiB more, half of it inbound. */
  lemma BurstDelta(rows: seq<Row>, f: Flow, g: Flow, now: int)
    requires f.key != "" && f.source != "squid" && f.bytesIn == f.bytesOut == 0 && LastRow(rows, f.key).None?
    requires g == f.(bytesIn := 0x8000_0000, bytesOut := 0x8000_0000)
    ensures DeltaOf(rows, Obs(now, f)).bytesIn == 0
    ensures DeltaOf(Observe(rows, Obs(now, f)), Obs(now, g)).bytesIn == -0x8000_0000
    ensures !Harmless(Observe(rows, Obs(now, f)), Obs(now, g))
  {
    ObserveEffect(rows, Obs(now, f), f.key);
    FourGiBBurstGoesNegative();
  }

  predicate Unnamed(d: Delta, b: int, s: string) { d.bucket == b && d.srcIp == s && d.domain == "" }

  lemma UnnamedDelta(rows: seq<Row>, o: Obs)
    requires o.flow.domain == ""
    ensures Unnamed(DeltaOf(rows, o), BucketFor(o.now, o.flow), o.flow.srcIp)
  {
  }

  lemma UnnamedSnoc(log: seq<Delta>, d: Delta, b: int, s: string)
    requires Unnamed(d, b, s)
    ensures C.Credited(log + [d], b, s, false).bytesIn == C.Credited(log, b, s, false).bytesIn + d.bytesIn
    ensures C.Credited(log + [d], b, s, true).bytesIn == C.Credited(log, b, s, true).bytesIn
  {
    CreditedSnoc(log, d, b, s);
  }

  lemma CounterSnoc(es: seq<C.Event>, now: int, f: Flow)
    requires CounterRun(es) && Counters(f.bytesIn, f.bytesOut)
    ensures CounterRun(es + [C.Add(now, [f])])
  {
  }

  /** A flow of a key that is unknown after the run appears, and then moves 4 GiB without a domain. */
  lemma Burst(es: seq<C.Event>, f: Flow, now: int) returns (es': seq<C.Event>, d1: Delta, d2: Delta)
    requires f.key != "" && f.domain == "" && f.source != "squid" && f.bytesIn == f.bytesOut == 0
    requires LastRow(C.Run(es).flows, f.key).None? && CounterRun(es)
    ensures es <= es' && CounterRun(es') && !RunHarmless(es') && C.Live(es') == C.Live(es) + [d1] + [d2]
    ensures Unnamed(d1, BucketFor(now, f), f.srcIp) && Unnamed(d2, BucketFor(now, f), f.srcIp)
    ensures d1.bytesIn == 0 && d2.bytesIn == -0x8000_0000
  {
    var g, rows := f.(bytesIn := 0x8000_0000, bytesOut := 0x8000_0000), C.Run(es).flows;
    var first := es + [C.Add(now, [f])];
    es' := first + [C.Add(now, [g])];
    d1, d2 := DeltaOf(rows, Obs(now, f)), DeltaOf(Observe(rows, Obs(now, f)), Obs(now, g));
    CounterSnoc(es, now, f);
    CounterSnoc(first, now, g);
    BurstDelta(rows, f, g, now);
    UnnamedDelta(rows, Obs(now, f));
    UnnamedDelta(Observe(rows, Obs(now, f)), Obs(now, g));
    RunSnoc(es, now, f);
    RunSnoc(first, now, g);
  }

  /** Without it the domain rollup can hold more: any run can go on so that 2 GiB inbound are taken out of the
      application rollup and nothing out of the domain rollup. */
  lemma OverflowTakesInboundBack(es: seq<C.Event>, f: Flow, now: int) returns (es': seq<C.Event>)
    requires f.key != "" && f.domain == "" && f.source != "squid" && f.bytesIn == f.bytesOut == 0
    requires LastRow(C.Run(es).flows, f.key).None? && CounterRun(es)
    ensures es <= es' && CounterRun(es') && !RunHarmless(es')
    ensures var t, t', b, s := C.Run(es).tables, C.Run(es').tables, BucketFor(now, f), f.srcIp;
      && C.AppTotal(t', b, s).bytesIn == C.AppTotal(t, b, s).bytesIn - 0x8000_0000
      && C.DomainTotal(t', b, s).bytesIn == C.DomainTotal(t, b, s).bytesIn
  {
    var b, s := BucketFor(now, f), f.srcIp;
    var after, d1, d2 := Burst(es, f, now);
    es' := after;
    UnnamedSnoc(C.Live(es), d1, b, s);
    UnnamedSnoc(C.Live(es) + [d1], d2, b, s);
    C.Conservation(es, b, s);
    C.Conservation(es', b, s);
  }

  // --------------------------------------------------- what a flow row says

  /** The observations of one key, in order. */
  function OfKey(obs: seq<Obs>, key: string): seq<Obs> {
    if obs == [] then []
    else OfKey(obs[..|obs| - 1], key) + if obs[|obs| - 1].flow.key == key then [obs[|obs| - 1]] else []
  }

  /** Retention drops a row by the start of the first observation in it. */
  predicate Drops(own: seq<Obs>, cut: int) { own != [] && own[0].flow.ts < cut }

  /** The observations of a key since retention last dropped its row. */
  function Own(es: seq<C.Event>, key: string): seq<Obs> {
    if es == [] then []
    else
      var own := Own(es[..|es| - 1], key);
      match es[|es| - 1]
      case Add(now, flows) => own + OfKey(At(now, flows), key)
      case Retain(cut, _) => if Drops(own, cut) then [] else own
  }

  datatype Attr = App | Category | Domain

  function Given(f: Flow, a: Attr): string {
    match a
    case App => f.app
    case Category => f.category
    case Domain => f.domain
  }

  function Has(r: Row, a: Attr): Option<string> {
    match a
    case App => r.app
    case Category => r.category
    case Domain => r.domain
  }

  function LastGiven(obs: seq<Obs>, a: Attr): string {
    if obs == [] then ""
    else
      var f := obs[|obs| - 1].flow;
      if Given(f, a) != "" then Given(f, a) else LastGiven(obs[..|obs| - 1], a)
  }

  /** A row against the observations of its key: the first fixes who and when, the last the counters and
      the verdict, and an attribute is the last one anybody knew. */
  ghost predicate RowSays(r: Row, own: seq<Obs>)
    requires own != []
  {
    var first, last := own[0].flow, own[|own| - 1].flow;
    && r.ts == first.ts && r.key == Nz(first.key) && r.source == Nz(first.source) && r.dstPort == first.dstPort
    && r.srcIp == Nz(first.srcIp) && r.dstIp == Nz(first.dstIp) && r.proto == Nz(first.proto)
    && r.bytesIn == last.bytesIn && r.bytesOut == last.bytesOut
    && r.verdict == (if last.verdict == "" then "observed" else last.verdict)
    && (r.endTs == if |own| > 1 && last.endTs == 0 then Some(own[|own| - 1].now)
                   else if last.endTs == 0 then None else Some(last.endTs))
    && forall a: Attr :: Has(r, a) == Nz(LastGiven(own, a))
  }

  lemma InsertedSays(o: Obs)
    ensures RowSays(Inserted(o.flow), [o])
  {
    assert [o][..0] == [];
    forall a: Attr
      ensures Has(Inserted(o.flow), a) == Nz(LastGiven([o], a))
    {
      assert LastGiven([], a) == "";
    }
  }

  lemma UpdatedSays(r: Row, own: seq<Obs>, o: Obs)
    requires own != [] && RowSays(r, own)
    ensures RowSays(Updated(r, o.now, o.flow), own + [o])
  {
    assert (own + [o])[..|own|] == own;
    forall a: Attr
      ensures Has(Updated(r, o.now, o.flow), a) == Nz(LastGiven(own + [o], a))
    {
      assert Has(r, a) == Nz(LastGiven(own, a));
    }
  }

  /** A key has a row exactly when it was observed, and the row says what was observed. */
  ghost predicate SaysOwn(row: Option<Row>, own: seq<Obs>) {
    (row.Some? <==> own != []) && (own != [] ==> RowSays(row.value, own))
  }

  lemma AssocObs(a: seq<Obs>, b: seq<Obs>, c: seq<Obs>)
    ensures a + (b + c) == a + b + c && a + [] == a
  {
  }

  lemma ObsSays(rows: seq<Row>, o: Obs, own: seq<Obs>, key: string)
    requires key != "" && SaysOwn(LastRow(rows, key), own)
    ensures SaysOwn(LastRow(Observe(rows, o), key), own + if o.flow.key == key then [o] else [])
  {
    ObserveEffect(rows, o, key);
    AssocObs(own, [], []);
    if o.flow.key == key {
      if own == [] {
        assert own + [o] == [o];
        InsertedSays(o);
      } else {
        UpdatedSays(LastRow(rows, key).value, own, o);
      }
    }
  }

  lemma {:induction false} FlowsSay(rows: seq<Row>, obs: seq<Obs>, own: seq<Obs>, key: string)
    requires key != "" && SaysOwn(LastRow(rows, key), own)
    ensures SaysOwn(LastRow(RowsAfter(rows, obs), key), own + OfKey(obs, key))
  {
    AssocObs(own, [], []);
    if obs != [] {
      var front, o := obs[..|obs| - 1], obs[|obs| - 1];
      FlowsSay(rows, front, own, key);
      ObsSays(RowsAfter(rows, front), o, own + OfKey(front, key), key);
      AssocObs(own, OfKey(front, key), if o.flow.key == key then [o] else []);
    }
  }

  /** In every run a key has a row exactly when it was observed since retention last dropped its row,
      and the row is exactly what those observations say. */
  lemma {:induction false} RowSaysItsObservations(es: seq<C.Event>, key: string)
    requires key != ""
    ensures SaysOwn(LastRow(C.Run(es).flows, key), Own(es, key))
  {
    if es != [] {
      var front := es[..|es| - 1];
      var rows := C.Run(front).flows;
      RowSaysItsObservations(front, key);
      match es[|es| - 1]
      case Add(now, flows) => FlowsSay(rows, At(now, flows), Own(front, key), key);
      case Retain(cut, rcut) =>
        OneRowPerKey(front);
        StartedEffect(rows, cut, key);
    }
  }

  /** Bytes are credited to the five minutes that hold the moment they were observed, or the end of the
      flow when that is more than ten minutes past. */
  lemma CreditedWhenObserved(rows: seq<Row>, o: Obs)
    requires o.now > 0
    ensures var moment := if o.flow.endTs > 0 && o.now - o.flow.endTs > 600 then o.flow.endTs else o.now;
            var b := DeltaOf(rows, o).bucket;
            b % 300 == 0 && b <= moment < b + 300
  {
  }

  // ------------------------------------------- the rollups from the observations

  /** A counter that went down is credited whole, in both directions; one that stood still not at all. */
  lemma ResetCreditsAll(pin: int, pout: int, bytesIn: int, bytesOut: int)
    requires Counters(pin, pout) && Counters(bytesIn, bytesOut)
    ensures bytesIn + bytesOut < pin + pout ==> FlowDelta(pin, pout, bytesIn, bytesOut) == (bytesIn, bytesOut)
    ensures bytesIn + bytesOut == pin + pout ==> FlowDelta(pin, pout, bytesIn, bytesOut) == (0, 0)
  {
    WrapFacts(pin + pout);
    WrapFacts(bytesIn + bytesOut);
  }

  /** The run up to the first flows of its last batch. */
  function Partly(es: seq<C.Event>, now: int, flows: seq<Flow>): seq<C.Event> { es + [C.Add(now, flows)] }

  lemma PartlyRun(es: seq<C.Event>, now: int, flows: seq<Flow>)
    ensures var part := Partly(es, now, flows);
      && C.Run(part).flows == RowsAfter(C.Run(es).flows, At(now, flows))
      && C.Ever(part) == C.Ever(es) + DeltasOf(C.Run(es).flows, At(now, flows))
      && AllObs(part) == AllObs(es) + At(now, flows)
  {
    assert Partly(es, now, flows)[..|es|] == es;
  }

  /** The row an observation is compared with holds the counters of the last one of its key. */
  predicate Matches(row: Option<Row>, key: string, own: seq<Obs>) {
    && (row.Some? <==> key != "" && own != [])
    && (row.Some? ==> row.value.bytesIn == own[|own| - 1].flow.bytesIn
                      && row.value.bytesOut == own[|own| - 1].flow.bytesOut)
  }

  lemma KnownIsLast(es: seq<C.Event>, now: int, front: seq<Flow>, f: Flow)
    ensures Matches(Known(RowsAfter(C.Run(es).flows, At(now, front)), Obs(now, f)), f.key,
                    Own(Partly(es, now, front), f.key))
  {
    if f.key != "" {
      PartlyRun(es, now, front);
      RowSaysItsObservations(Partly(es, now, front), f.key);
    }
  }

  /** A delta's bytes and flow count, from what is known of the key. */
  lemma DeltaOfKnown(rows: seq<Row>, o: Obs)
    ensures var d, row := DeltaOf(rows, o), Known(rows, o);
      && (d.newFlow <==> row.None?)
      && (o.flow.source == "squid" ==> d.bytesIn == 0 && d.bytesOut == 0)
      && (o.flow.source != "squid" && row.None? ==> d.bytesIn == o.flow.bytesIn && d.bytesOut == o.flow.bytesOut)
      && (o.flow.source != "squid" && row.Some? ==>
           (d.bytesIn, d.bytesOut) ==
           FlowDelta(row.value.bytesIn, row.value.bytesOut, o.flow.bytesIn, o.flow.bytesOut))
  {
  }

  lemma DeltaLabels(rows: seq<Row>, o: Obs)
    requires o.now > 0
    ensures var d, f := DeltaOf(rows, o), o.flow;
      && d.bucket == Moment(o.now, f) - Moment(o.now, f) % 300
      && d.srcIp == f.srcIp && d.dstIp == f.dstIp && d.dstPort == f.dstPort && d.proto == f.proto
      && d.app == f.app && d.category == f.category && d.domain == f.domain
      && d.verdict == (if f.verdict == "" then "observed" else f.verdict)
  {
  }

  /** The moment bytes observed at `now` belong to. */
  function Moment(now: int, f: Flow): int {
    if f.endTs > 0 && now - f.endTs > 600 then f.endTs else now
  }

  /** EVERY DELTA, from the observations: its labels are those of its flow; it is a new flow when the key
      is empty or was not seen since retention dropped it; a proxy record carries no bytes in either
      direction; a new flow carries its whole counters; any other is split against the last ones seen. */
  lemma DeltaSays(es: seq<C.Event>, now: int, front: seq<Flow>, f: Flow)
    requires now > 0
    ensures var before, after := C.Ever(Partly(es, now, front)), C.Ever(Partly(es, now, front + [f]));
            var own, d := Own(Partly(es, now, front), f.key), after[|before|];
      && |after| == |before| + 1 && after == before + [d]
      && d.bucket == Moment(now, f) - Moment(now, f) % 300
      && d.srcIp == f.srcIp && d.dstIp == f.dstIp && d.dstPort == f.dstPort && d.proto == f.proto
      && d.app == f.app && d.category == f.category && d.domain == f.domain
      && d.verdict == (if f.verdict == "" then "observed" else f.verdict)
      && (d.newFlow <==> f.key == "" || own == [])
      && (f.source == "squid" ==> d.bytesIn == 0 && d.bytesOut == 0)
      && (f.source != "squid" && (f.key == "" || own == []) ==> d.bytesIn == f.bytesIn && d.bytesOut == f.bytesOut)
      && (f.source != "squid" && f.key != "" && own != [] ==>
           (d.bytesIn, d.bytesOut) == FlowDelta(own[|own| - 1].flow.bytesIn, own[|own| - 1].flow.bytesOut,
                                                f.bytesIn, f.bytesOut))
  {
    var rows := RowsAfter(C.Run(es).flows, At(now, front));
    LastOfPartly(es, now, front, f);
    KnownIsLast(es, now, front, f);
    DeltaOfKnown(rows, Obs(now, f));
    DeltaLabels(rows, Obs(now, f));
  }

  lemma LastOfPartly(es: seq<C.Event>, now: int, front: seq<Flow>, f: Flow)
    ensures C.Ever(Partly(es, now, front + [f])) ==
            C.Ever(Partly(es, now, front)) + [DeltaOf(RowsAfter(C.Run(es).flows, At(now, front)), Obs(now, f))]
  {
    var rows, o := C.Run(es).flows, Obs(now, f);
    AtSnoc(now, front, f);
    PartlyRun(es, now, front);
    PartlyRun(es, now, front + [f]);
    FoldStep(rows, At(now, front), o);
    AssocDeltas(C.Ever(es), DeltasOf(rows, At(now, front)), [DeltaOf(RowsAfter(rows, At(now, front)), o)]);
  }

  lemma AtSnoc(now: int, front: seq<Flow>, f: Flow)
    ensures At(now, front + [f]) == At(now, front) + [Obs(now, f)]
  {
    assert (front + [f])[..|front|] == front;
  }

  predicate NoBytes(d: Delta) { d.bytesIn == 0 && d.bytesOut == 0 }

  lemma {:induction false} ProxyDeltas(rows: seq<Row>, obs: seq<Obs>, i: nat)
    requires i < |obs| && obs[i].flow.source == "squid"
    ensures |DeltasOf(rows, obs)| == |obs| && NoBytes(DeltasOf(rows, obs)[i])
  {
    var front, o := obs[..|obs| - 1], obs[|obs| - 1];
    var d := DeltaOf(RowsAfter(rows, front), o);
    DeltasLength(rows, front);
    assert DeltasOf(rows, obs) == DeltasOf(rows, front) + [d];
    if i < |front| {
      ProxyDeltas(rows, front, i);
    } else {
      DeltaOfKnown(RowsAfter(rows, front), o);
    }
  }

  /** In every run the deltas of proxy records carry no bytes in either direction. */
  lemma {:induction false} ProxyCreditsNothing(es: seq<C.Event>, i: nat)
    requires i < |AllObs(es)| && AllObs(es)[i].flow.source == "squid"
    ensures |C.Ever(es)| == |AllObs(es)| && C.Ever(es)[i].bytesIn == 0 && C.Ever(es)[i].bytesOut == 0
  {
    var front, e := es[..|es| - 1], es[|es| - 1];
    var k := |AllObs(front)|;
    EverLength(front);
    EverLength(es);
    if i < k {
      assert AllObs(es)[i] == AllObs(front)[i] && C.Ever(es)[i] == C.Ever(front)[i];
      ProxyCreditsNothing(front, i);
    } else {
      var obs, ds := At(e.now, e.flows), DeltasOf(C.Run(front).flows, At(e.now, e.flows));
      assert AllObs(es)[i] == obs[i - k];
      ProxyDeltas(C.Run(front).flows, obs, i - k);
      assert C.Ever(es)[i] == ds[i - k];
    }
  }

  lemma {:induction false} EverLength(es: seq<C.Event>)
    ensures |C.Ever(es)| == |AllObs(es)|
  {
    if es != [] {
      var front, e := es[..|es| - 1], es[|es| - 1];
      EverLength(front);
      if e.Add? { DeltasLength(C.Run(front).flows, At(e.now, e.flows)); }
    }
  }

  /** What an observation earns, given the earlier ones of its key. */
  function Earns(own: seq<Obs>, f: Flow): Amount {
    var flows := if f.key == "" || own == [] then 1 else 0;
    if f.source == "squid" then Amount(0, 0, flows)
    else if flows == 1 then Amount(f.bytesIn, f.bytesOut, 1)
    else
      var last := own[|own| - 1].flow;
      var (dIn, dOut) := FlowDelta(last.bytesIn, last.bytesOut, f.bytesIn, f.bytesOut);
      Amount(dIn, dOut, 0)
  }

  /** What the flows of a batch earn a bucket and source, all of them or those with a domain. */
  function BatchEarns(es: seq<C.Event>, now: int, flows: seq<Flow>, b: int, s: string, named: bool): Amount {
    if flows == [] then ZERO
    else
      var front, f := flows[..|flows| - 1], flows[|flows| - 1];
      Plus(BatchEarns(es, now, front, b, s, named),
           if f.srcIp == s && BucketFor(now, f) == b && (named ==> f.domain != "")
           then Earns(Own(Partly(es, now, front), f.key), f) else ZERO)
  }

  /** What a run earns a bucket and source; a prune past the bucket takes all. */
  function Earned(es: seq<C.Event>, b: int, s: string, named: bool): Amount {
    if es == [] then ZERO
    else
      var front := es[..|es| - 1];
      match es[|es| - 1]
      case Add(now, flows) => Plus(Earned(front, b, s, named), BatchEarns(front, now, flows, b, s, named))
      case Retain(_, rcut) => if b >= rcut then Earned(front, b, s, named) else ZERO
  }

  lemma AmountIsEarned(rows: seq<Row>, o: Obs, own: seq<Obs>)
    requires Matches(Known(rows, o), o.flow.key, own)
    ensures AmountOf(DeltaOf(rows, o)) == Earns(own, o.flow)
  {
    DeltaOfKnown(rows, o);
  }

  lemma ShareIsEarned(es: seq<C.Event>, now: int, front: seq<Flow>, f: Flow, b: int, s: string, named: bool)
    ensures C.Share(DeltaOf(RowsAfter(C.Run(es).flows, At(now, front)), Obs(now, f)), b, s, named) ==
            if f.srcIp == s && BucketFor(now, f) == b && (named ==> f.domain != "")
            then Earns(Own(Partly(es, now, front), f.key), f) else ZERO
  {
    KnownIsLast(es, now, front, f);
    AmountIsEarned(RowsAfter(C.Run(es).flows, At(now, front)), Obs(now, f), Own(Partly(es, now, front), f.key));
  }

  lemma {:induction false} BatchIsEarned(es: seq<C.Event>, now: int, flows: seq<Flow>, b: int, s: string, named: bool)
    ensures C.Credited(DeltasOf(C.Run(es).flows, At(now, flows)), b, s, named) ==
            BatchEarns(es, now, flows, b, s, named)
  {
    if flows != [] {
      var front, f := flows[..|flows| - 1], flows[|flows| - 1];
      var rows := C.Run(es).flows;
      var d := DeltaOf(RowsAfter(rows, At(now, front)), Obs(now, f));
      assert flows == front + [f];
      BatchIsEarned(es, now, front, b, s, named);
      AtSnoc(now, front, f);
      FoldStep(rows, At(now, front), Obs(now, f));
      CreditedSnoc(DeltasOf(rows, At(now, front)), d, b, s);
      ShareIsEarned(es, now, front, f, b, s, named);
    }
  }

  lemma {:induction false} LiveIsEarned(es: seq<C.Event>, b: int, s: string, named: bool)
    ensures C.Credited(C.Live(es), b, s, named) == Earned(es, b, s, named)
  {
    if es != [] {
      var front, e := es[..|es| - 1], es[|es| - 1];
      LiveIsEarned(front, b, s, named);
      match e
      case Add(now, flows) =>
        BatchIsEarned(front, now, flows, b, s, named);
        C.CreditedAppend(C.Live(front), DeltasOf(C.Run(front).flows, At(now, flows)), b, s, named);
      case Retain(cut, rcut) => C.CreditedFrom(C.Live(front), rcut, b, s, named);
    }
  }

  /** TOTALS FROM THE OBSERVATIONS: in every run the rollups of a bucket and source hold what the
      observations themselves earned it, proxy records adding flows but no bytes. */
  lemma RollupsHoldWhatWasEarned(es: seq<C.Event>, b: int, s: string)
    ensures C.AppTotal(C.Run(es).tables, b, s) == C.DstTotal(C.Run(es).tables, b, s) == Earned(es, b, s, false)
    ensures C.DomainTotal(C.Run(es).tables, b, s) == Earned(es, b, s, true)
  {
    C.Conservation(es, b, s);
    LiveIsEarned(es, b, s, false);
    LiveIsEarned(es, b, s, true);
  }
}
