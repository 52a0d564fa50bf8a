/** What the three flow rollups add up to, over every run of AddFlows and Prune. */
module FlowConservation {
  import opened Common
  import opened MapTotal
  import opened FlowLedger

  // ------------------------------------------- sums per (bucket, source) pair

  function AppAt(b: int, s: string): AppKey -> bool { (k: AppKey) => k.bucket == b && k.srcIp == s }
  function DomainAt(b: int, s: string): DomainKey -> bool { (k: DomainKey) => k.bucket == b && k.srcIp == s }
  function DstAt(b: int, s: string): DstKey -> bool { (k: DstKey) => k.bucket == b && k.srcIp == s }
  function CellAmount(): Cell -> Amount { (c: Cell) => c.amount }
  function PlainAmount(): Amount -> Amount { a => a }

  ghost function AppTotal(t: Tables, b: int, s: string): Amount { Total(t.app, AppAt(b, s), CellAmount()) }
  ghost function DomainTotal(t: Tables, b: int, s: string): Amount { Total(t.dom, DomainAt(b, s), CellAmount()) }
  ghost function DstTotal(t: Tables, b: int, s: string): Amount { Total(t.dst, DstAt(b, s), PlainAmount()) }

  /** What one delta is worth to a pair; `named` counts only deltas that carry a domain. */
  function Share(d: Delta, b: int, s: string, named: bool): Amount {
    if d.bucket == b && d.srcIp == s && (named ==> d.domain != "") then AmountOf(d) else ZERO
  }

  function Credited(log: seq<Delta>, b: int, s: string, named: bool): Amount {
    if log == [] then ZERO
    else Plus(Credited(log[..|log| - 1], b, s, named), Share(log[|log| - 1], b, s, named))
  }

  lemma BumpTotal<K(!new)>(m: map<K, Cell>, k: K, category: string, a: Amount, sel: K -> bool)
    ensures Total(Bump(m, k, category, a), sel, CellAmount()) ==
            Plus(Total(m, sel, CellAmount()), if sel(k) then a else ZERO)
  {
    TotalPut(m, k, Bump(m, k, category, a)[k], sel, CellAmount());
  }

  lemma AppCredit(t: Tables, d: Delta, b: int, s: string)
    ensures AppTotal(Credit(t, d), b, s) == Plus(AppTotal(t, b, s), Share(d, b, s, false))
  {
    if !Idle(d) {
      BumpTotal(t.app, AppKeyOf(d), d.category, AmountOf(d), AppAt(b, s));
    }
  }

  lemma DomainCredit(t: Tables, d: Delta, b: int, s: string)
    ensures DomainTotal(Credit(t, d), b, s) == Plus(DomainTotal(t, b, s), Share(d, b, s, true))
  {
    if !Idle(d) && d.domain != "" {
      BumpTotal(t.dom, DomainKeyOf(d), d.category, AmountOf(d), DomainAt(b, s));
    }
  }

  lemma BumpDstTotal(m: map<DstKey, Amount>, k: DstKey, a: Amount, sel: DstKey -> bool)
    ensures Total(BumpDst(m, k, a), sel, PlainAmount()) ==
            Plus(Total(m, sel, PlainAmount()), if sel(k) then a else ZERO)
  {
    TotalPut(m, k, if k in m then Plus(m[k], a) else a, sel, PlainAmount());
  }

  lemma DstCredit(t: Tables, d: Delta, b: int, s: string)
    ensures DstTotal(Credit(t, d), b, s) == Plus(DstTotal(t, b, s), Share(d, b, s, false))
  {
    if !Idle(d) {
      BumpDstTotal(t.dst, DstKeyOf(d), AmountOf(d), DstAt(b, s));
    }
  }

  lemma {:induction false} CreditAllTotals(t: Tables, ds: seq<Delta>, b: int, s: string)
    ensures AppTotal(CreditAll(t, ds), b, s) == Plus(AppTotal(t, b, s), Credited(ds, b, s, false))
    ensures DomainTotal(CreditAll(t, ds), b, s) == Plus(DomainTotal(t, b, s), Credited(ds, b, s, true))
    ensures DstTotal(CreditAll(t, ds), b, s) == Plus(DstTotal(t, b, s), Credited(ds, b, s, false))
  {
    if ds != [] {
      var front, d := ds[..|ds| - 1], ds[|ds| - 1];
      var t' := CreditAll(t, front);
      CreditAllTotals(t, front, b, s);
      AppCredit(t', d, b, s);
      DomainCredit(t', d, b, s);
      DstCredit(t', d, b, s);
      PlusAssoc(AppTotal(t, b, s), Credited(front, b, s, false), Share(d, b, s, false));
      PlusAssoc(DstTotal(t, b, s), Credited(front, b, s, false), Share(d, b, s, false));
      PlusAssoc(DomainTotal(t, b, s), Credited(front, b, s, true), Share(d, b, s, true));
    }
  }

  lemma {:induction false} CreditedAppend(a: seq<Delta>, c: seq<Delta>, b: int, s: string, named: bool)
    ensures Credited(a + c, b, s, named) == Plus(Credited(a, b, s, named), Credited(c, b, s, named))
  {
    if c == [] {
      assert a + c == a;
    } else {
      var n := |c| - 1;
      assert (a + c)[..|a + c| - 1] == a + c[..n] && (a + c)[|a + c| - 1] == c[n];
      CreditedAppend(a, c[..n], b, s, named);
      PlusAssoc(Credited(a, b, s, named), Credited(c[..n], b, s, named), Share(c[n], b, s, named));
    }
  }

  // --------------------------------------------------------------------- runs

  datatype Event = Add(now: int, flows: seq<Flow>) | Retain(cut: int, rcut: int)

  const EMPTY := Ledger([], Tables(map[], map[], map[]))

  function Apply(l: Ledger, e: Event): Ledger {
    match e
    case Add(now, flows) => AfterAddFlows(l, now, flows)
    case Retain(cut, rcut) => AfterPrune(l, cut, rcut)
  }

  function Run(es: seq<Event>): Ledger {
    if es == [] then EMPTY else Apply(Run(es[..|es| - 1]), es[|es| - 1])
  }

  function StepDeltas(l: Ledger, e: Event): seq<Delta> {
    if e.Add? then DeltasOf(l.flows, At(e.now, e.flows)) else []
  }

  /** Every delta ever credited in the run, oldest first. */
  function Ever(es: seq<Event>): seq<Delta> {
    if es == [] then []
    else
      var front := es[..|es| - 1];
      Ever(front) + StepDeltas(Run(front), es[|es| - 1])
  }

  function FromBucket(log: seq<Delta>, rcut: int): seq<Delta> {
    if log == [] then []
    else
      var d := log[|log| - 1];
      FromBucket(log[..|log| - 1], rcut) + if d.bucket >= rcut then [d] else []
  }

  /** The deltas whose bucket no prune since has removed. */
  function Live(es: seq<Event>): seq<Delta> {
    if es == [] then []
    else
      var front, e := es[..|es| - 1], es[|es| - 1];
      if e.Add? then Live(front) + StepDeltas(Run(front), e) else FromBucket(Live(front), e.rcut)
  }

  lemma {:induction false} CreditedFrom(log: seq<Delta>, rcut: int, b: int, s: string, named: bool)
    ensures Credited(FromBucket(log, rcut), b, s, named) == if b >= rcut then Credited(log, b, s, named) else ZERO
  {
    if log != [] {
      var front, d := log[..|log| - 1], log[|log| - 1];
      CreditedFrom(front, rcut, b, s, named);
      if d.bucket >= rcut {
        assert (FromBucket(front, rcut) + [d])[..|FromBucket(front, rcut)|] == FromBucket(front, rcut);
      } else {
        assert FromBucket(log, rcut) == FromBucket(front, rcut);
      }
    }
  }

  lemma PruneTotals(l: Ledger, cut: int, rcut: int, b: int, s: string)
    ensures var t := AfterPrune(l, cut, rcut).tables;
      && AppTotal(t, b, s) == (if b >= rcut then AppTotal(l.tables, b, s) else ZERO)
      && DomainTotal(t, b, s) == (if b >= rcut then DomainTotal(l.tables, b, s) else ZERO)
      && DstTotal(t, b, s) == (if b >= rcut then DstTotal(l.tables, b, s) else ZERO)
  {
    var t := AfterPrune(l, cut, rcut).tables;
    if b >= rcut {
      TotalAgree(t.app, l.tables.app, AppAt(b, s), CellAmount());
      TotalAgree(t.dom, l.tables.dom, DomainAt(b, s), CellAmount());
      TotalAgree(t.dst, l.tables.dst, DstAt(b, s), PlainAmount());
    } else {
      TotalAgree(t.app, map[], AppAt(b, s), CellAmount());
      TotalAgree(t.dom, map[], DomainAt(b, s), CellAmount());
      TotalAgree(t.dst, map[], DstAt(b, s), PlainAmount());
    }
  }

  /** CONSERVATION: in every run the application and destination rollups hold, for every bucket and
      source, the same bytes in, bytes out and flows, namely all the live deltas; the domain rollup
      holds exactly the live deltas that carry a domain. */
  lemma {:induction false} Conservation(es: seq<Event>, b: int, s: string)
    ensures AppTotal(Run(es).tables, b, s) == DstTotal(Run(es).tables, b, s) == Credited(Live(es), b, s, false)
    ensures DomainTotal(Run(es).tables, b, s) == Credited(Live(es), b, s, true)
  {
    if es != [] {
      var front, e := es[..|es| - 1], es[|es| - 1];
      Conservation(front, b, s);
      match e
      case Add(now, flows) =>
        var ds := StepDeltas(Run(front), e);
        CreditAllTotals(Run(front).tables, ds, b, s);
        CreditedAppend(Live(front), ds, b, s, false);
        CreditedAppend(Live(front), ds, b, s, true);
      case Retain(cut, rcut) =>
        PruneTotals(Run(front), cut, rcut, b, s);
        CreditedFrom(Live(front), rcut, b, s, false);
        CreditedFrom(Live(front), rcut, b, s, true);
    }
  }

  /** For a bucket no prune cutoff has passed, live means ever. */
  lemma {:induction false} LiveIsEver(es: seq<Event>, b: int, s: string, named: bool)
    requires forall e :: e in es && e.Retain? ==> e.rcut <= b
    ensures Credited(Live(es), b, s, named) == Credited(Ever(es), b, s, named)
  {
    if es != [] {
      var front, e := es[..|es| - 1], es[|es| - 1];
      assert es == front + [e];
      LiveIsEver(front, b, s, named);
      var ds := StepDeltas(Run(front), e);
      CreditedAppend(Ever(front), ds, b, s, named);
      if e.Add? {
        CreditedAppend(Live(front), ds, b, s, named);
      } else {
        CreditedFrom(Live(front), e.rcut, b, s, named);
      }
    }
  }

  /** The rollups of a bucket no prune has passed hold every byte and flow ever credited to it. */
  lemma RollupsHoldAllCredits(es: seq<Event>, b: int, s: string)
    requires forall e :: e in es && e.Retain? ==> e.rcut <= b
    ensures AppTotal(Run(es).tables, b, s) == DstTotal(Run(es).tables, b, s) == Credited(Ever(es), b, s, false)
    ensures DomainTotal(Run(es).tables, b, s) == Credited(Ever(es), b, s, true)
  {
    Conservation(es, b, s);
    LiveIsEver(es, b, s, false);
    LiveIsEver(es, b, s, true);
  }

  // ------------------------------------------------------ the tables row by row

  /** What one delta is worth to one row of each table, from the delta's own fields. */
  predicate ForApp(d: Delta, k: AppKey) {
    && d.bucket == k.bucket && d.srcIp == k.srcIp && k.app == (if d.app == "" then "Unknown" else d.app)
    && k.verdict == (if d.verdict == "" then "observed" else d.verdict)
  }

  predicate ForDomain(d: Delta, k: DomainKey) {
    && d.domain != "" && d.bucket == k.bucket && d.srcIp == k.srcIp && d.domain == k.domain
    && k.verdict == (if d.verdict == "" then "observed" else d.verdict)
  }

  predicate ForDst(d: Delta, k: DstKey) {
    && d.bucket == k.bucket && d.srcIp == k.srcIp && d.dstIp == k.dstIp && d.dstPort == k.dstPort && d.proto == k.proto
  }

  datatype RowKey = OfApp(app: AppKey) | OfDomain(dom: DomainKey) | OfDst(dst: DstKey)

  predicate For(d: Delta, k: RowKey) {
    match k
    case OfApp(a) => ForApp(d, a)
    case OfDomain(m) => ForDomain(d, m)
    case OfDst(t) => ForDst(d, t)
  }

  function BucketIn(k: RowKey): int {
    match k
    case OfApp(a) => a.bucket
    case OfDomain(m) => m.bucket
    case OfDst(t) => t.bucket
  }

  /** The amount a table holds under a key, zero when there is no row. */
  function Held(t: Tables, k: RowKey): Amount {
    match k
    case OfApp(a) => if a in t.app then t.app[a].amount else ZERO
    case OfDomain(m) => if m in t.dom then t.dom[m].amount else ZERO
    case OfDst(x) => if x in t.dst then t.dst[x] else ZERO
  }

  function SumFor(log: seq<Delta>, k: RowKey): Amount {
    if log == [] then ZERO
    else
      var d := log[|log| - 1];
      Plus(SumFor(log[..|log| - 1], k), if For(d, k) then AmountOf(d) else ZERO)
  }

  lemma KeysAreFields(d: Delta, k: RowKey)
    ensures k.OfApp? ==> (ForApp(d, k.app) <==> AppKeyOf(d) == k.app)
    ensures k.OfDomain? ==> (ForDomain(d, k.dom) <==> d.domain != "" && DomainKeyOf(d) == k.dom)
    ensures k.OfDst? ==> (ForDst(d, k.dst) <==> DstKeyOf(d) == k.dst)
  {
  }

  lemma BumpCell<K>(m: map<K, Cell>, j: K, category: string, x: Amount, k: K)
    ensures (if k in Bump(m, j, category, x) then Bump(m, j, category, x)[k].amount else ZERO) ==
            Plus(if k in m then m[k].amount else ZERO, if j == k then x else ZERO)
  {
  }

  lemma AppHeld(t: Tables, d: Delta, k: AppKey)
    ensures Held(Credit(t, d), OfApp(k)) == Plus(Held(t, OfApp(k)), if AppKeyOf(d) == k then AmountOf(d) else ZERO)
  {
    if !Idle(d) { BumpCell(t.app, AppKeyOf(d), d.category, AmountOf(d), k); }
  }

  lemma DomainHeld(t: Tables, d: Delta, k: DomainKey)
    ensures Held(Credit(t, d), OfDomain(k)) ==
            Plus(Held(t, OfDomain(k)), if d.domain != "" && DomainKeyOf(d) == k then AmountOf(d) else ZERO)
  {
    if !Idle(d) && d.domain != "" { BumpCell(t.dom, DomainKeyOf(d), d.category, AmountOf(d), k); }
  }

  lemma DstHeld(t: Tables, d: Delta, k: DstKey)
    ensures Held(Credit(t, d), OfDst(k)) == Plus(Held(t, OfDst(k)), if DstKeyOf(d) == k then AmountOf(d) else ZERO)
  {
  }

  lemma CreditHeld(t: Tables, d: Delta, k: RowKey)
    ensures Held(Credit(t, d), k) == Plus(Held(t, k), if For(d, k) then AmountOf(d) else ZERO)
  {
    KeysAreFields(d, k);
    match k
    case OfApp(a) => AppHeld(t, d, a);
    case OfDomain(m) => DomainHeld(t, d, m);
    case OfDst(x) => DstHeld(t, d, x);
  }

  lemma {:induction false} CreditAllHeld(t: Tables, ds: seq<Delta>, k: RowKey)
    ensures Held(CreditAll(t, ds), k) == Plus(Held(t, k), SumFor(ds, k))
  {
    if ds != [] {
      var front, d := ds[..|ds| - 1], ds[|ds| - 1];
      CreditAllHeld(t, front, k);
      CreditHeld(CreditAll(t, front), d, k);
      PlusAssoc(Held(t, k), SumFor(front, k), if For(d, k) then AmountOf(d) else ZERO);
    }
  }

  lemma {:induction false} SumForAppend(a: seq<Delta>, b: seq<Delta>, k: RowKey)
    ensures SumFor(a + b, k) == Plus(SumFor(a, k), SumFor(b, k))
  {
    if b == [] {
      assert a + b == a;
    } else {
      var n := |b| - 1;
      assert (a + b)[..|a + b| - 1] == a + b[..n] && (a + b)[|a + b| - 1] == b[n];
      SumForAppend(a, b[..n], k);
      PlusAssoc(SumFor(a, k), SumFor(b[..n], k), if For(b[n], k) then AmountOf(b[n]) else ZERO);
    }
  }

  lemma {:induction false} SumForFrom(log: seq<Delta>, rcut: int, k: RowKey)
    ensures SumFor(FromBucket(log, rcut), k) == if BucketIn(k) >= rcut then SumFor(log, k) else ZERO
  {
    if log != [] {
      var front, d := log[..|log| - 1], log[|log| - 1];
      var kept := FromBucket(front, rcut);
      SumForFrom(front, rcut, k);
      if d.bucket >= rcut {
        assert (kept + [d])[..|kept|] == kept;
      } else {
        assert FromBucket(log, rcut) == kept;
      }
    }
  }

  /** GROUP-BY: in every run each row of each rollup holds exactly the live deltas of its bucket, source
      and application, domain or destination. */
  lemma {:induction false} RowsAreGroupBy(es: seq<Event>, k: RowKey)
    ensures Held(Run(es).tables, k) == SumFor(Live(es), k)
  {
    if es != [] {
      var front, e := es[..|es| - 1], es[|es| - 1];
      RowsAreGroupBy(front, k);
      match e
      case Add(now, flows) =>
        CreditAllHeld(Run(front).tables, StepDeltas(Run(front), e), k);
        SumForAppend(Live(front), StepDeltas(Run(front), e), k);
      case Retain(cut, rcut) =>
        SumForFrom(Live(front), rcut, k);
    }
  }

  // ------------------------------------------------------------- categories

  /** The category a table holds under a key, and whether it has the row. */
  function HeldCategory(t: Tables, k: RowKey): Option<string> {
    match k
    case OfApp(a) => if a in t.app then Some(t.app[a].category) else None
    case OfDomain(m) => if m in t.dom then Some(t.dom[m].category) else None
    case OfDst(x) => if x in t.dst then Some("") else None
  }

  /** A delta that leaves a trace in the row of k: its own, with bytes or a new flow. */
  predicate Marks(d: Delta, k: RowKey) { For(d, k) && (d.bytesIn != 0 || d.bytesOut != 0 || d.newFlow) }

  /** The last category known for k, "" when none was; None without any delta that leaves a trace. */
  function LastCategory(log: seq<Delta>, k: RowKey): Option<string> {
    if log == [] then None
    else
      var d, before := log[|log| - 1], LastCategory(log[..|log| - 1], k);
      if !Marks(d, k) then before
      else if k.OfDst? then Some("")
      else if d.category != "" then Some(d.category) else Some(OrElse(before, ""))
  }

  lemma CreditCategory(t: Tables, d: Delta, k: RowKey, before: Option<string>)
    requires HeldCategory(t, k) == before
    ensures HeldCategory(Credit(t, d), k) ==
            if !Marks(d, k) then before
            else if k.OfDst? then Some("")
            else if d.category != "" then Some(d.category) else Some(OrElse(before, ""))
  {
    KeysAreFields(d, k);
  }

  lemma {:induction false} CreditAllCategory(t: Tables, log: seq<Delta>, ds: seq<Delta>, k: RowKey)
    requires HeldCategory(t, k) == LastCategory(log, k)
    ensures HeldCategory(CreditAll(t, ds), k) == LastCategory(log + ds, k)
  {
    if ds == [] {
      assert log + ds == log;
    } else {
      var n := |ds| - 1;
      CreditAllCategory(t, log, ds[..n], k);
      CreditCategory(CreditAll(t, ds[..n]), ds[n], k, LastCategory(log + ds[..n], k));
      assert (log + ds)[..|log + ds| - 1] == log + ds[..n];
    }
  }

  lemma {:induction false} CategoryFrom(log: seq<Delta>, rcut: int, k: RowKey)
    ensures LastCategory(FromBucket(log, rcut), k) == if BucketIn(k) >= rcut then LastCategory(log, k) else None
  {
    if log != [] {
      var front, d := log[..|log| - 1], log[|log| - 1];
      var kept := FromBucket(front, rcut);
      CategoryFrom(front, rcut, k);
      if d.bucket >= rcut {
        assert (kept + [d])[..|kept|] == kept;
      } else {
        assert FromBucket(log, rcut) == kept;
      }
    }
  }

  /** In every run a rollup has a row exactly when a live delta left a trace in it, and its category is
      the last one such a delta knew. */
  lemma {:induction false} CategoryIsLastKnown(es: seq<Event>, k: RowKey)
    ensures HeldCategory(Run(es).tables, k) == LastCategory(Live(es), k)
  {
    if es != [] {
      var front, e := es[..|es| - 1], es[|es| - 1];
      CategoryIsLastKnown(front, k);
      match e
      case Add(now, flows) => CreditAllCategory(Run(front).tables, Live(front), StepDeltas(Run(front), e), k);
      case Retain(cut, rcut) => CategoryFrom(Live(front), rcut, k);
    }
  }
}
