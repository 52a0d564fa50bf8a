/** The DNS rollup: a group-by over raw query rows that is kept up to date incrementally
    by a watermark and a dirty mark (store.go:697-750, 1101-1195). AddDNS, Rollup and Prune
    are atomic steps; the clock is an argument. */
module DnsRollup {
  import opened Common

  datatype Record = Record(ts: int, client: string, domain: string, action: string, list: string)
  datatype Row = Row(ts: int, client: Option<string>, domain: Option<string>, action: string, list: Option<string>)
  datatype Key = Key(bucket: int, client: string, domain: string, action: string)
  datatype Agg = Agg(list: string, queries: nat)

  /** The tables and the two marks. `last == 0` means no rollup yet, `dirty == 0` a clean window. */
  datatype Db = Db(dns: seq<Row>, rollup: map<Key, Agg>, last: int, dirty: int)

  function BucketOf(ts: int): int {
    TruncDiv(ts, 300) * 300
  }

  function Stored(r: Record): Row {
    Row(r.ts, Nz(r.client), Nz(r.domain), if r.action == "" then "pass" else r.action, Nz(r.list))
  }

  function StoredAll(recs: seq<Record>): seq<Row> {
    if recs == [] then [] else StoredAll(recs[..|recs| - 1]) + [Stored(recs[|recs| - 1])]
  }

  lemma {:induction false} StoredRows(recs: seq<Record>, row: Row)
    requires row in StoredAll(recs)
    ensures exists r :: r in recs && row == Stored(r)
  {
    var n := |recs| - 1;
    if row == Stored(recs[n]) {
      assert recs[n] in recs;
    } else {
      StoredRows(recs[..n], row);
    }
  }

  function KeyOf(r: Row): Key {
    Key(BucketOf(r.ts), OrElse(r.client, ""), OrElse(r.domain, ""), r.action)
  }

  // ------------------------------------------------------------ the group-by

  /** The rows of one group, in table order. */
  function Of(rows: seq<Row>, k: Key): seq<Row> {
    if rows == [] then []
    else
      var r := rows[|rows| - 1];
      Of(rows[..|rows| - 1], k) + if KeyOf(r) == k then [r] else []
  }

  /** MAX(COALESCE(list,'')) over a non-empty group. */
  function MaxList(rows: seq<Row>): string
    requires rows != []
  {
    var l := OrElse(rows[|rows| - 1].list, "");
    if |rows| == 1 then l
    else
      var m := MaxList(rows[..|rows| - 1]);
      if StrLess(m, l) then l else m
  }

  function Summary(rows: seq<Row>): Agg
    requires rows != []
  {
    Agg(MaxList(rows), |rows|)
  }

  function Keys(rows: seq<Row>): set<Key> {
    set r | r in rows :: KeyOf(r)
  }

  lemma {:induction false} OfNonEmpty(rows: seq<Row>, k: Key)
    ensures Of(rows, k) != [] <==> k in Keys(rows)
  {
    if rows != [] {
      var front, r := rows[..|rows| - 1], rows[|rows| - 1];
      OfNonEmpty(front, k);
      assert rows == front + [r];
    }
  }

  function GroupBy(rows: seq<Row>): map<Key, Agg> {
    map k | k in Keys(rows) :: (OfNonEmpty(rows, k); Summary(Of(rows, k)))
  }

  /** What the view should say about one key, straight from the rows. */
  function Expected(rows: seq<Row>, k: Key): (a: Option<Agg>)
    ensures a == Lookup(GroupBy(rows), k)
  {
    OfNonEmpty(rows, k);
    if Of(rows, k) == [] then None else Some(Summary(Of(rows, k)))
  }

  /** MAX really is the greatest list name of the group. */
  lemma {:induction false} MaxListIsMax(rows: seq<Row>)
    requires rows != []
    ensures exists i :: 0 <= i < |rows| && OrElse(rows[i].list, "") == MaxList(rows)
    ensures forall i :: 0 <= i < |rows| ==> !StrLess(MaxList(rows), OrElse(rows[i].list, ""))
  {
    var n := |rows| - 1;
    var l := OrElse(rows[n].list, "");
    StrLessTotal(l, l);
    if n > 0 {
      MaxListIsMax(rows[..n]);
      var m := MaxList(rows[..n]);
      var j :| 0 <= j < n && OrElse(rows[..n][j].list, "") == m;
      assert OrElse(rows[j].list, "") == m && OrElse(rows[n].list, "") == l;
      forall i | 0 <= i < |rows|
        ensures !StrLess(MaxList(rows), OrElse(rows[i].list, ""))
      {
        var x := OrElse(rows[i].list, "");
        if i < n {
          assert rows[..n][i] == rows[i];
          if StrLess(m, l) && StrLess(l, x) { StrLessTrans(m, l, x); }
        }
      }
    }
  }

  // ------------------------------------------------- WHERE clauses on dns rows

  function Span(rows: seq<Row>, lo: int, hi: int): seq<Row> {
    if rows == [] then []
    else
      var r := rows[|rows| - 1];
      Span(rows[..|rows| - 1], lo, hi) + if lo <= r.ts < hi then [r] else []
  }

  function Since(rows: seq<Row>, cut: int): seq<Row> {
    if rows == [] then []
    else
      var r := rows[|rows| - 1];
      Since(rows[..|rows| - 1], cut) + if r.ts < cut then [] else [r]
  }

  function Before(rows: seq<Row>, cut: int): seq<Row> {
    if rows == [] then []
    else
      var r := rows[|rows| - 1];
      Before(rows[..|rows| - 1], cut) + if r.ts < cut then [r] else []
  }

  /** One more record of a batch, as the two loops of AddDNS see it. */
  lemma OldestStep(recs: seq<Record>, i: nat)
    requires i < |recs|
    ensures Oldest(recs[..i + 1]) ==
            var o, t := Oldest(recs[..i]), recs[i].ts;
            if t > 0 && (o == 0 || t < o) then t else o
  {
    assert recs[..i + 1][..i] == recs[..i];
  }

  lemma StoredStep(rows: seq<Row>, recs: seq<Record>, i: nat)
    requires i < |recs|
    ensures rows + StoredAll(recs[..i + 1]) == rows + StoredAll(recs[..i]) + [Stored(recs[i])]
  {
    assert recs[..i + 1][..i] == recs[..i];
  }

  // ------------------------------------------------------------- operations

  /** The smallest positive timestamp of a batch, 0 when there is none. */
  function Oldest(recs: seq<Record>): int {
    if recs == [] then 0
    else
      var o, t := Oldest(recs[..|recs| - 1]), recs[|recs| - 1].ts;
      if t > 0 && (o == 0 || t < o) then t else o
  }

  function MarkDirty(dirty: int, now: int, oldest: int): int {
    if oldest > 0 && oldest < now - 600 && (dirty == 0 || oldest < dirty) then oldest else dirty
  }

  function AfterAdd(db: Db, now: int, recs: seq<Record>): Db {
    db.(dirty := MarkDirty(db.dirty, now, Oldest(recs)), dns := db.dns + StoredAll(recs))
  }

  /** Where a rollup at `now` starts rebuilding. */
  function Start(db: Db, now: int): int {
    var start := if db.last > 0 then db.last - 600 else BucketOf(now) - 86400;
    if db.dirty > 0 && BucketOf(db.dirty) < start then BucketOf(db.dirty) else start
  }

  function Outside(rollup: map<Key, Agg>, lo: int, hi: int): map<Key, Agg> {
    map k | k in rollup && !(lo <= k.bucket < hi) :: rollup[k]
  }

  /** DELETE the window, INSERT its group-by; a primary-key conflict rolls the transaction back. */
  function AfterRollup(db: Db, now: int): Db {
    var start, end := Start(db, now), BucketOf(now);
    if start >= end then db
    else
      var kept, made := Outside(db.rollup, start, end), GroupBy(Span(db.dns, start, end));
      if kept.Keys * made.Keys != {} then db
      else db.(rollup := kept + made, dirty := if db.dirty > 0 then 0 else db.dirty, last := end)
  }

  function Cutoff(now: int, days: int, default: int): int {
    now - (if days <= 0 then default else days) * 86400
  }

  function AfterPrune(db: Db, now: int, dnsDays: int, rollupDays: int): Db {
    var rcut := Cutoff(now, rollupDays, 400);
    db.(dns := Since(db.dns, Cutoff(now, dnsDays, 7)),
        rollup := map k | k in db.rollup && k.bucket >= rcut :: db.rollup[k])
  }

  class Store {
    var dns: seq<Row>
    var rollup: map<Key, Agg>
    var last: int
    var dirty: int

    ghost function Contents(): Db reads this { Db(dns, rollup, last, dirty) }

    constructor ()
      ensures Contents() == Db([], map[], 0, 0)
    {
      dns, rollup, last, dirty := [], map[], 0, 0;
    }

    method AddDNS(now: int, recs: seq<Record>)
      modifies this
      ensures Contents() == AfterAdd(old(Contents()), now, recs)
    {
      if recs == [] {
        return;
      }
      var oldest := 0;
      for i := 0 to |recs|
        invariant oldest == Oldest(recs[..i])
        invariant Contents() == old(Contents())
      {
        OldestStep(recs, i);
        if recs[i].ts > 0 && (oldest == 0 || recs[i].ts < oldest) {
          oldest := recs[i].ts;
        }
      }
      assert recs[..|recs|] == recs;
      assert oldest == Oldest(recs);
      if oldest > 0 && oldest < now - 600 {
        if dirty == 0 || oldest < dirty {
          dirty := oldest;
        }
      }
      assert StoredAll(recs[..0]) == [];
      for i := 0 to |recs|
        invariant dns == old(dns) + StoredAll(recs[..i])
        invariant rollup == old(rollup) && last == old(last)
        invariant dirty == MarkDirty(old(dirty), now, Oldest(recs))
      {
        StoredStep(old(dns), recs, i);
        var r := recs[i];
        if r.action == "" {
          r := r.(action := "pass");
        }
        dns := dns + [Row(r.ts, Nz(r.client), Nz(r.domain), r.action, Nz(r.list))];
      }
    }

    method Rollup(now: int)
      modifies this
      ensures Contents() == AfterRollup(old(Contents()), now)
    {
      var start := BucketOf(now) - 86400;
      if last > 0 {
        start := last - 600;
      }
      if dirty > 0 && BucketOf(dirty) < start {
        start := BucketOf(dirty);
      }
      var end := BucketOf(now);
      if start >= end {
        return;
      }
      assert start == Start(Contents(), now);
      var kept := Outside(rollup, start, end);
      var made := GroupBy(Span(dns, start, end));
      if kept.Keys * made.Keys != {} {
        return;
      }
      rollup := kept + made;
      if dirty > 0 {
        dirty := 0;
      }
      last := end;
    }

    method Prune(now: int, dnsDays: int, rollupDays: int)
      modifies this
      ensures Contents() == AfterPrune(old(Contents()), now, dnsDays, rollupDays)
    {
      dns := Since(dns, Cutoff(now, dnsDays, 7));
      var rcut := Cutoff(now, rollupDays, 400);
      rollup := map k | k in rollup && k.bucket >= rcut :: rollup[k];
    }
  }

  // ------------------------------------------------------ small facts on rows

  lemma BucketFacts(a: int, b: int)
    requires 0 <= a <= b
    ensures 0 <= BucketOf(a) <= a < BucketOf(a) + 300
    ensures BucketOf(a) % 300 == 0
    ensures BucketOf(a) <= BucketOf(b)
  {
  }

  lemma {:induction false} OldestBounds(recs: seq<Record>)
    requires forall r :: r in recs ==> r.ts > 0
    ensures recs != [] ==> Oldest(recs) > 0
    ensures forall r :: r in recs ==> Oldest(recs) <= r.ts
    ensures recs != [] ==> OldestRecord(recs) in recs && OldestRecord(recs).ts == Oldest(recs)
  {
    if recs != [] {
      var n := |recs| - 1;
      OldestBounds(recs[..n]);
      forall r | r in recs
        ensures Oldest(recs) <= r.ts
      {
        var i :| 0 <= i < |recs| && recs[i] == r;
        assert i < n ==> recs[..n][i] in recs[..n];
      }
    }
  }

  ghost function OldestRecord(recs: seq<Record>): Record
    requires recs != []
  {
    var n := |recs| - 1;
    if n == 0 || Oldest(recs[..n]) != Oldest(recs) then recs[n] else OldestRecord(recs[..n])
  }

  lemma {:induction false} OfAppend(a: seq<Row>, b: seq<Row>, k: Key)
    ensures Of(a + b, k) == Of(a, k) + Of(b, k)
  {
    if b == [] {
      assert a + b == a;
    } else {
      var n := |b| - 1;
      OfAppend(a, b[..n], k);
      assert (a + b)[..|a + b| - 1] == a + b[..n];
    }
  }

  lemma WindowHoldsBucket(ts: int, lo: int, hi: int)
    requires 0 <= ts && lo % 300 == 0 && hi % 300 == 0
    ensures lo <= ts < hi <==> lo <= BucketOf(ts) < hi
  {
    BucketFacts(ts, ts);
    var b := BucketOf(ts);
    assert lo <= ts ==> lo <= b;
    assert b < hi ==> b + 300 <= hi;
  }

  lemma OfSnoc(rows: seq<Row>, r: Row, k: Key)
    ensures Of(rows + [r], k) == Of(rows, k) + if KeyOf(r) == k then [r] else []
  {
    assert (rows + [r])[..|rows|] == rows;
  }

  /** A window that holds the whole bucket of a key holds all the rows of its group. */
  lemma {:induction false} OfSpan(rows: seq<Row>, lo: int, hi: int, k: Key)
    requires forall r :: r in rows ==> r.ts > 0
    requires lo % 300 == 0 && hi % 300 == 0
    ensures Of(Span(rows, lo, hi), k) == if lo <= k.bucket < hi then Of(rows, k) else []
  {
    if rows != [] {
      var front, r := rows[..|rows| - 1], rows[|rows| - 1];
      assert rows == front + [r];
      OfSpan(front, lo, hi, k);
      WindowHoldsBucket(r.ts, lo, hi);
      if lo <= r.ts < hi {
        OfSnoc(Span(front, lo, hi), r, k);
      } else {
        assert Span(rows, lo, hi) == Span(front, lo, hi);
      }
      assert Of(front, k) + [] == Of(front, k);
    }
  }

  lemma CutSnoc(rows: seq<Row>, cut: int, k: Key)
    requires rows != []
    ensures var front, r := rows[..|rows| - 1], rows[|rows| - 1];
      && Of(Since(rows, cut), k) == Of(Since(front, cut), k) + (if KeyOf(r) == k && r.ts >= cut then [r] else [])
      && Of(Before(rows, cut), k) == Of(Before(front, cut), k) + (if KeyOf(r) == k && r.ts < cut then [r] else [])
  {
    var front, r := rows[..|rows| - 1], rows[|rows| - 1];
    if r.ts < cut {
      OfSnoc(Before(front, cut), r, k);
      assert Since(rows, cut) == Since(front, cut);
    } else {
      OfSnoc(Since(front, cut), r, k);
      assert Before(rows, cut) == Before(front, cut);
    }
  }

  /** DELETE WHERE ts < cut splits every group into what stays and what goes. */
  lemma {:induction false} OfCut(rows: seq<Row>, cut: int, k: Key)
    ensures |Of(Since(rows, cut), k)| + |Of(Before(rows, cut), k)| == |Of(rows, k)|
    ensures Of(Before(rows, cut), k) == [] ==> Of(Since(rows, cut), k) == Of(rows, k)
  {
    if rows != [] {
      OfCut(rows[..|rows| - 1], cut, k);
      CutSnoc(rows, cut, k);
    }
  }

  /** A group whose bucket starts at or after the cutoff loses nothing. */
  lemma {:induction false} OfBefore(rows: seq<Row>, cut: int, k: Key)
    requires k.bucket >= cut && forall r :: r in rows ==> r.ts > 0
    ensures Of(Before(rows, cut), k) == []
  {
    if rows != [] {
      var front, r := rows[..|rows| - 1], rows[|rows| - 1];
      assert rows == front + [r];
      OfBefore(front, cut, k);
      CutSnoc(rows, cut, k);
      BucketFacts(r.ts, r.ts);
    }
  }

  lemma {:induction false} SinceSubset(rows: seq<Row>, cut: int)
    ensures forall r :: r in Since(rows, cut) ==> r in rows
  {
    if rows != [] {
      SinceSubset(rows[..|rows| - 1], cut);
    }
  }

  // ---------------------------------------------------------- runs and history

  datatype Event =
    | AddRows(now: int, recs: seq<Record>)
    | RollUp(now: int)
    | PruneAll(now: int, dnsDays: int, rollupDays: int)

  /** The store with its whole past: every row ever added, every row pruned,
      the highest cutoffs used so far and the time of the last step. */
  datatype World = World(db: Db, ever: seq<Row>, gone: seq<Row>, rawFloor: int, viewFloor: int, clock: int)

  const GENESIS := World(Db([], map[], 0, 0), [], [], 0, 0, 0)

  function Apply(w: World, e: Event): World {
    match e
    case AddRows(now, recs) =>
      w.(db := AfterAdd(w.db, now, recs), ever := w.ever + StoredAll(recs), clock := now)
    case RollUp(now) =>
      w.(db := AfterRollup(w.db, now), clock := now)
    case PruneAll(now, d, r) =>
      var cut := Cutoff(now, d, 7);
      w.(db := AfterPrune(w.db, now, d, r), gone := w.gone + Before(w.db.dns, cut),
         rawFloor := Max(w.rawFloor, cut), viewFloor := Max(w.viewFloor, Cutoff(now, r, 400)), clock := now)
  }

  function Run(w: World, es: seq<Event>): World {
    if es == [] then w else Apply(Run(w, es[..|es| - 1]), es[|es| - 1])
  }

  /** Positive row times and a clock that does not run backwards: assumed of every run. */
  predicate Timely(w: World, e: Event) {
    && w.clock <= e.now
    && (e.AddRows? ==> forall r :: r in e.recs ==> r.ts > 0)
  }

  /** The conditions under which the incremental view is right: no row older than what retention
      already deleted, the first rollup reaches every row, no prune past the next rollup's start. */
  predicate Admissible(w: World, e: Event) {
    && Timely(w, e)
    && match e
       case AddRows(now, recs) => forall r :: r in recs ==> BucketOf(r.ts) >= w.rawFloor
       case RollUp(now) => w.db.last > 0 || forall r :: r in w.ever ==> BucketOf(r.ts) >= Start(w.db, now)
       case PruneAll(now, d, _) => Cutoff(now, d, 7) <= Start(w.db, now)
  }

  predicate TimelyRun(w: World, es: seq<Event>) {
    es == [] || (TimelyRun(w, es[..|es| - 1]) && Timely(Run(w, es[..|es| - 1]), es[|es| - 1]))
  }

  predicate AdmissibleRun(w: World, es: seq<Event>) {
    es == [] || (AdmissibleRun(w, es[..|es| - 1]) && Admissible(Run(w, es[..|es| - 1]), es[|es| - 1]))
  }

  /** A run grows by one step at its end. */
  lemma RunStep(w: World, es: seq<Event>, e: Event)
    ensures Run(w, es + [e]) == Apply(Run(w, es), e)
    ensures TimelyRun(w, es + [e]) <==> TimelyRun(w, es) && Timely(Run(w, es), e)
    ensures AdmissibleRun(w, es + [e]) <==> AdmissibleRun(w, es) && Admissible(Run(w, es), e)
  {
    assert (es + [e])[..|es|] == es;
  }

  /** The view says about k what the group-by over every row ever added says. */
  predicate Agrees(w: World, k: Key) {
    Lookup(w.db.rollup, k) == Lookup(GroupBy(w.ever), k)
  }

  /** Holds in every timely run: what pruning did to each group. */
  ghost predicate Sane(w: World) {
    && 0 <= w.clock && 0 <= w.db.last <= w.clock && w.db.last % 300 == 0 && 0 <= w.db.dirty
    && (forall r :: r in w.ever ==> r.ts > 0)
    && (forall r :: r in w.db.dns ==> r.ts > 0)
    && (forall k: Key :: |Of(w.ever, k)| == |Of(w.db.dns, k)| + |Of(w.gone, k)|)
    && (forall k: Key :: Of(w.gone, k) == [] ==> Of(w.db.dns, k) == Of(w.ever, k))
    && (forall k: Key :: Of(w.gone, k) != [] ==> k.bucket < w.rawFloor)
    && (w.db.last == 0 ==> w.db.rollup == map[])
  }

  /** The inductive invariant: agreement below exactly the frontier `Start`. */
  ghost predicate Inv(w: World) {
    && Sane(w)
    && w.rawFloor <= Max(0, Start(w.db, w.clock))
    && (w.db.last > 0 ==> forall k: Key :: w.viewFloor <= k.bucket < Start(w.db, w.clock) ==> Agrees(w, k))
  }

  // --------------------------------------------------------- what a step does

  lemma StartFacts(w: World, now: int)
    requires Sane(w) && w.clock <= now
    ensures Start(w.db, now) % 300 == 0
    ensures Start(w.db, w.clock) <= Start(w.db, now) < BucketOf(now)
    ensures w.db.last > 0 ==> Start(w.db, now) == Start(w.db, w.clock)
    ensures w.db.last <= BucketOf(now)
  {
    BucketFacts(w.clock, now);
    BucketFacts(w.db.last, now);
    BucketFacts(w.db.dirty, w.db.dirty);
  }

  /** Every row a batch adds lands at or above the next rollup's start. */
  lemma NewRowsAboveStart(w: World, now: int, recs: seq<Record>, r: Record)
    requires Sane(w) && Timely(w, AddRows(now, recs)) && w.db.last > 0 && r in recs
    ensures BucketOf(r.ts) >= Start(AfterAdd(w.db, now, recs), now)
  {
    OldestBounds(recs);
    StartFacts(w, now);
    var db' := AfterAdd(w.db, now, recs);
    if db'.dirty > 0 && db'.dirty <= r.ts {
      BucketFacts(db'.dirty, r.ts);
    } else {
      assert r.ts >= now - 600;
      BucketFacts(r.ts, r.ts);
    }
  }

  lemma StoredKeys(recs: seq<Record>, k: Key)
    requires forall r :: r in recs ==> BucketOf(r.ts) != k.bucket
    ensures Of(StoredAll(recs), k) == []
  {
    OfNonEmpty(StoredAll(recs), k);
    forall row | row in StoredAll(recs)
      ensures KeyOf(row) != k
    {
      StoredRows(recs, row);
    }
  }

  /** The rebuilt window: its group-by has exactly the keys of its buckets, with all their rows. */
  lemma WindowGroups(w: World, now: int, k: Key)
    requires Sane(w) && w.clock <= now
    ensures var lo, hi := Start(w.db, now), BucketOf(now);
            Lookup(GroupBy(Span(w.db.dns, lo, hi)), k) == if lo <= k.bucket < hi then Expected(w.db.dns, k) else None
  {
    var lo, hi := Start(w.db, now), BucketOf(now);
    StartFacts(w, now);
    BucketFacts(now, now);
    OfSpan(w.db.dns, lo, hi, k);
    var e := Expected(Span(w.db.dns, lo, hi), k);
  }

  lemma NoConflict(w: World, now: int)
    requires Sane(w) && w.clock <= now
    ensures Outside(w.db.rollup, Start(w.db, now), BucketOf(now)).Keys
            * GroupBy(Span(w.db.dns, Start(w.db, now), BucketOf(now))).Keys == {}
  {
    var lo, hi := Start(w.db, now), BucketOf(now);
    var made := GroupBy(Span(w.db.dns, lo, hi));
    forall k | k in made
      ensures lo <= k.bucket < hi
    {
      WindowGroups(w, now, k);
      assert Lookup(made, k).Some?;
    }
  }

  /** A rollup never conflicts, rebuilds exactly its window and leaves the rest of the view alone. */
  lemma RollupEffect(w: World, now: int)
    requires Sane(w) && w.clock <= now
    ensures AfterRollup(w.db, now).last == BucketOf(now) && AfterRollup(w.db, now).dirty == 0
    ensures AfterRollup(w.db, now).dns == w.db.dns
    ensures forall k: Key :: Lookup(AfterRollup(w.db, now).rollup, k) ==
              if Start(w.db, now) <= k.bucket < BucketOf(now) then Expected(w.db.dns, k) else Lookup(w.db.rollup, k)
  {
    var lo, hi := Start(w.db, now), BucketOf(now);
    StartFacts(w, now);
    NoConflict(w, now);
    var kept, made := Outside(w.db.rollup, lo, hi), GroupBy(Span(w.db.dns, lo, hi));
    assert AfterRollup(w.db, now).rollup == kept + made;
    forall k: Key
      ensures Lookup(kept + made, k) ==
              if lo <= k.bucket < hi then Expected(w.db.dns, k) else Lookup(w.db.rollup, k)
    {
      WindowGroups(w, now, k);
      assert Lookup(kept + made, k) == if k in made then Lookup(made, k) else Lookup(kept, k);
    }
  }

  lemma AddKeepsSane(w: World, now: int, recs: seq<Record>)
    requires Sane(w) && Timely(w, AddRows(now, recs))
    ensures Sane(Apply(w, AddRows(now, recs)))
  {
    OldestBounds(recs);
    var rows, w' := StoredAll(recs), Apply(w, AddRows(now, recs));
    forall r | r in rows
      ensures r.ts > 0
    {
      StoredRows(recs, r);
    }
    forall k: Key
      ensures Of(w'.ever, k) == Of(w.ever, k) + Of(rows, k)
      ensures Of(w'.db.dns, k) == Of(w.db.dns, k) + Of(rows, k)
    {
      OfAppend(w.ever, rows, k);
      OfAppend(w.db.dns, rows, k);
    }
  }

  lemma PruneKeepsSane(w: World, now: int, d: int, r: int)
    requires Sane(w) && Timely(w, PruneAll(now, d, r))
    ensures Sane(Apply(w, PruneAll(now, d, r)))
  {
    var cut, w' := Cutoff(now, d, 7), Apply(w, PruneAll(now, d, r));
    SinceSubset(w.db.dns, cut);
    forall k: Key
      ensures |Of(w'.ever, k)| == |Of(w'.db.dns, k)| + |Of(w'.gone, k)|
      ensures Of(w'.gone, k) == [] ==> Of(w'.db.dns, k) == Of(w'.ever, k)
      ensures Of(w'.gone, k) != [] ==> k.bucket < w'.rawFloor
    {
      OfCut(w.db.dns, cut, k);
      if k.bucket >= cut { OfBefore(w.db.dns, cut, k); }
      OfAppend(w.gone, Before(w.db.dns, cut), k);
    }
  }

  lemma RollupKeepsSane(w: World, now: int)
    requires Sane(w) && Timely(w, RollUp(now))
    ensures Sane(Apply(w, RollUp(now)))
  {
    RollupEffect(w, now);
    BucketFacts(now, now);
    StartFacts(w, now);
    if BucketOf(now) == 0 {
      var w' := Apply(w, RollUp(now));
      forall k: Key
        ensures k !in w'.db.rollup
      {
        var l := Lookup(w'.db.rollup, k);
        OfNonEmpty(w.db.dns, k);
        if k in Keys(w.db.dns) {
          var r :| r in w.db.dns && KeyOf(r) == k;
          BucketFacts(r.ts, r.ts);
        }
      }
      assert w'.db.rollup == map[];
    }
  }

  lemma {:induction false} TimelyRunsAreSane(es: seq<Event>)
    requires TimelyRun(GENESIS, es)
    ensures Sane(Run(GENESIS, es))
  {
    if es != [] {
      var w := Run(GENESIS, es[..|es| - 1]);
      TimelyRunsAreSane(es[..|es| - 1]);
      match es[|es| - 1]
      case AddRows(now, recs) => AddKeepsSane(w, now, recs);
      case RollUp(now) => RollupKeepsSane(w, now);
      case PruneAll(now, d, r) => PruneKeepsSane(w, now, d, r);
    }
  }

  // ------------------------------------------------------------ main theorems

  /** In ANY timely run, a rollup leaves one rebuilt group right exactly when no row of it was pruned. */
  lemma RollupExactOnWindow(es: seq<Event>, now: int, k: Key)
    requires TimelyRun(GENESIS, es + [RollUp(now)])
    requires Start(Run(GENESIS, es).db, now) <= k.bucket < BucketOf(now)
    ensures Agrees(Run(GENESIS, es + [RollUp(now)]), k) <==> Of(Run(GENESIS, es).gone, k) == []
  {
    RunStep(GENESIS, es, RollUp(now));
    TimelyRunsAreSane(es);
    var w := Run(GENESIS, es);
    RollupEffect(w, now);
    var a, b := Expected(w.db.dns, k), Expected(w.ever, k);
  }

  /** The other groups keep whatever they said: right exactly when they were right before. */
  lemma RollupExactOutside(es: seq<Event>, now: int, k: Key)
    requires TimelyRun(GENESIS, es + [RollUp(now)])
    requires !(Start(Run(GENESIS, es).db, now) <= k.bucket < BucketOf(now))
    ensures Agrees(Run(GENESIS, es + [RollUp(now)]), k) <==> Agrees(Run(GENESIS, es), k)
  {
    RunStep(GENESIS, es, RollUp(now));
    TimelyRunsAreSane(es);
    RollupEffect(Run(GENESIS, es), now);
  }

  lemma AddLowersStart(w: World, now: int, recs: seq<Record>)
    requires Sane(w) && Timely(w, AddRows(now, recs))
    ensures Start(AfterAdd(w.db, now, recs), now) <= Start(w.db, now)
  {
    var d, d' := w.db.dirty, AfterAdd(w.db, now, recs).dirty;
    if d' != d && d > 0 {
      BucketFacts(d', d);
    }
  }

  /** Adding appends the new group to the old one, so a group with no new row is still right. */
  lemma SameGroupSameAnswer(w: World, now: int, recs: seq<Record>, k: Key)
    requires Of(StoredAll(recs), k) == []
    ensures Agrees(Apply(w, AddRows(now, recs)), k) <==> Agrees(w, k)
  {
    OfAppend(w.ever, StoredAll(recs), k);
    assert Of(w.ever + StoredAll(recs), k) == Of(w.ever, k);
    var a, b := Expected(w.ever, k), Expected(w.ever + StoredAll(recs), k);
  }

  lemma AddKeepsAgreement(w: World, now: int, recs: seq<Record>, k: Key)
    requires Inv(w) && Admissible(w, AddRows(now, recs)) && w.db.last > 0
    requires w.viewFloor <= k.bucket < Start(AfterAdd(w.db, now, recs), now)
    ensures Agrees(Apply(w, AddRows(now, recs)), k)
  {
    StartFacts(w, now);
    AddLowersStart(w, now, recs);
    forall r | r in recs
      ensures BucketOf(r.ts) != k.bucket
    {
      NewRowsAboveStart(w, now, recs, r);
    }
    StoredKeys(recs, k);
    assert Agrees(w, k);
    SameGroupSameAnswer(w, now, recs, k);
  }

  lemma AddKeepsInv(w: World, now: int, recs: seq<Record>)
    requires Inv(w) && Admissible(w, AddRows(now, recs))
    ensures Inv(Apply(w, AddRows(now, recs)))
  {
    AddKeepsSane(w, now, recs);
    OldestBounds(recs);
    StartFacts(w, now);
    var w' := Apply(w, AddRows(now, recs));
    if recs != [] { BucketFacts(Oldest(recs), Oldest(recs)); }
    assert w'.rawFloor <= Max(0, Start(w'.db, now));
    forall k: Key | w.viewFloor <= k.bucket < Start(w'.db, now) && w.db.last > 0
      ensures Agrees(w', k)
    {
      AddKeepsAgreement(w, now, recs, k);
    }
  }

  lemma PruneKeepsInv(w: World, now: int, d: int, r: int)
    requires Inv(w) && Admissible(w, PruneAll(now, d, r))
    ensures Inv(Apply(w, PruneAll(now, d, r)))
  {
    PruneKeepsSane(w, now, d, r);
    StartFacts(w, now);
    var w' := Apply(w, PruneAll(now, d, r));
    forall k: Key | w'.viewFloor <= k.bucket < Start(w.db, now) && w.db.last > 0
      ensures Agrees(w', k)
    {
      assert Agrees(w, k);
    }
  }

  /** After an admissible rollup every retained bucket before the current one is right. */
  lemma RollupRestoresView(w: World, now: int)
    requires Inv(w) && Admissible(w, RollUp(now))
    ensures forall k: Key :: w.viewFloor <= k.bucket < BucketOf(now) ==> Agrees(Apply(w, RollUp(now)), k)
  {
    RollupEffect(w, now);
    StartFacts(w, now);
    var w' := Apply(w, RollUp(now));
    forall k: Key | w.viewFloor <= k.bucket < BucketOf(now)
      ensures Agrees(w', k)
    {
      var a, b := Expected(w.db.dns, k), Expected(w.ever, k);
      OfNonEmpty(w.ever, k);
      if k.bucket < Start(w.db, now) {
        if w.db.last > 0 {
          assert Agrees(w, k);
        } else {
          assert forall r :: r in w.ever ==> KeyOf(r) != k;
        }
      } else if Of(w.gone, k) != [] {
        // Only groups below the raw floor were cut, and that floor is not past the start.
        assert k.bucket < w.rawFloor <= Max(0, Start(w.db, w.clock));
        assert Of(w.ever, k) != [];
        forall r | r in w.ever
          ensures KeyOf(r) != k
        {
          BucketFacts(r.ts, r.ts);
        }
      }
    }
  }

  lemma RollupKeepsInv(w: World, now: int)
    requires Inv(w) && Admissible(w, RollUp(now))
    ensures Inv(Apply(w, RollUp(now)))
  {
    RollupKeepsSane(w, now);
    RollupEffect(w, now);
    RollupRestoresView(w, now);
    StartFacts(w, now);
    BucketFacts(now, now);
  }

  lemma {:induction false} AdmissibleRunsKeepInv(es: seq<Event>)
    requires AdmissibleRun(GENESIS, es)
    ensures Inv(Run(GENESIS, es))
  {
    if es != [] {
      var w := Run(GENESIS, es[..|es| - 1]);
      AdmissibleRunsKeepInv(es[..|es| - 1]);
      match es[|es| - 1]
      case AddRows(now, recs) => AddKeepsInv(w, now, recs);
      case RollUp(now) => RollupKeepsInv(w, now);
      case PruneAll(now, d, r) => PruneKeepsInv(w, now, d, r);
    }
  }

  /** THE VIEW THEOREM: in every admissible run each rollup leaves, for every retained bucket before
      the current one, exactly the group-by of all the rows ever added. */
  lemma ViewIsGroupByOfAllRows(es: seq<Event>, now: int, k: Key)
    requires AdmissibleRun(GENESIS, es + [RollUp(now)])
    requires Run(GENESIS, es).viewFloor <= k.bucket < BucketOf(now)
    ensures Lookup(Run(GENESIS, es + [RollUp(now)]).db.rollup, k)
         == Lookup(GroupBy(Run(GENESIS, es + [RollUp(now)]).ever), k)
  {
    RunStep(GENESIS, es, RollUp(now));
    AdmissibleRunsKeepInv(es);
    RollupRestoresView(Run(GENESIS, es), now);
    assert Agrees(Run(GENESIS, es + [RollUp(now)]), k);
  }

  // ------------------------------------------------ the closed form, in any run

  /** What had been pruned when the bucket of k was last rebuilt, if it ever was. */
  function GoneWhenBuilt(es: seq<Event>, k: Key): Option<seq<Row>> {
    if es == [] then None
    else
      var front, e := es[..|es| - 1], es[|es| - 1];
      var w := Run(GENESIS, front);
      if e.RollUp? && Start(w.db, e.now) <= k.bucket < BucketOf(e.now) then Some(w.gone)
      else GoneWhenBuilt(front, k)
  }

  /** No row of the group was pruned when its bucket was last rebuilt, or it never was and has no row. */
  predicate BuiltWhole(es: seq<Event>, k: Key) {
    match GoneWhenBuilt(es, k)
    case None => Of(Run(GENESIS, es).ever, k) == []
    case Some(gone) => Of(gone, k) == []
  }

  /** Below the start of the next rollup, a retained group is right exactly when it was built whole. */
  ghost predicate Settled(es: seq<Event>, k: Key) {
    var w := Run(GENESIS, es);
    && Sane(w) && w.viewFloor >= 0
    && (w.db.last == 0 ==> GoneWhenBuilt(es, k).None? || k.bucket < 0)
    && (w.db.last > 0 && w.viewFloor <= k.bucket < Start(w.db, w.clock) ==> (Agrees(w, k) <==> BuiltWhole(es, k)))
  }

  lemma BuiltSnoc(es: seq<Event>, e: Event, k: Key)
    ensures var w := Run(GENESIS, es);
            GoneWhenBuilt(es + [e], k) ==
            if e.RollUp? && Start(w.db, e.now) <= k.bucket < BucketOf(e.now) then Some(w.gone) else GoneWhenBuilt(es, k)
  {
    assert (es + [e])[..|es|] == es;
  }

  /** Every group before the current bucket that is retained is settled by a rollup. */
  lemma RollupSettles(es: seq<Event>, now: int, k: Key)
    requires Settled(es, k) && Timely(Run(GENESIS, es), RollUp(now))
    requires Run(GENESIS, es).viewFloor <= k.bucket < BucketOf(now)
    ensures Agrees(Run(GENESIS, es + [RollUp(now)]), k) <==> BuiltWhole(es + [RollUp(now)], k)
  {
    var w := Run(GENESIS, es);
    RunStep(GENESIS, es, RollUp(now));
    BuiltSnoc(es, RollUp(now), k);
    RollupEffect(w, now);
    StartFacts(w, now);
    var a, b := Expected(w.db.dns, k), Expected(w.ever, k);
  }

  lemma AddStaysSettled(es: seq<Event>, now: int, recs: seq<Record>, k: Key)
    requires Settled(es, k) && Timely(Run(GENESIS, es), AddRows(now, recs))
    ensures Settled(es + [AddRows(now, recs)], k)
  {
    var w, e := Run(GENESIS, es), AddRows(now, recs);
    RunStep(GENESIS, es, e);
    BuiltSnoc(es, e, k);
    AddKeepsSane(w, now, recs);
    StartFacts(w, now);
    var w' := Apply(w, e);
    if w.db.last > 0 && w.viewFloor <= k.bucket < Start(w'.db, now) {
      AddLowersStart(w, now, recs);
      forall r | r in recs
        ensures BucketOf(r.ts) != k.bucket
      {
        NewRowsAboveStart(w, now, recs, r);
      }
      StoredKeys(recs, k);
      SameGroupSameAnswer(w, now, recs, k);
      OfAppend(w.ever, StoredAll(recs), k);
    }
  }

  lemma PruneStaysSettled(es: seq<Event>, now: int, d: int, r: int, k: Key)
    requires Settled(es, k) && Timely(Run(GENESIS, es), PruneAll(now, d, r))
    ensures Settled(es + [PruneAll(now, d, r)], k)
  {
    var w, e := Run(GENESIS, es), PruneAll(now, d, r);
    RunStep(GENESIS, es, e);
    BuiltSnoc(es, e, k);
    PruneKeepsSane(w, now, d, r);
    StartFacts(w, now);
  }

  lemma RollupStaysSettled(es: seq<Event>, now: int, k: Key)
    requires Settled(es, k) && Timely(Run(GENESIS, es), RollUp(now))
    ensures Settled(es + [RollUp(now)], k)
  {
    var w, e := Run(GENESIS, es), RollUp(now);
    RunStep(GENESIS, es, e);
    BuiltSnoc(es, e, k);
    RollupKeepsSane(w, now);
    RollupEffect(w, now);
    StartFacts(w, now);
    BucketFacts(now, now);
    var w' := Apply(w, e);
    if w'.db.last > 0 && w.viewFloor <= k.bucket < Start(w'.db, now) {
      StartFacts(w', now);
      RollupSettles(es, now, k);
    }
  }

  lemma {:induction false} TimelyRunsSettle(es: seq<Event>, k: Key)
    requires TimelyRun(GENESIS, es)
    ensures Settled(es, k)
  {
    if es != [] {
      var front, e := es[..|es| - 1], es[|es| - 1];
      assert es == front + [e];
      TimelyRunsSettle(front, k);
      match e
      case AddRows(now, recs) => AddStaysSettled(front, now, recs, k);
      case RollUp(now) => RollupStaysSettled(front, now, k);
      case PruneAll(now, d, r) => PruneStaysSettled(front, now, d, r, k);
    }
  }

  /** CLOSED FORM: in any timely run ending in a rollup, whatever was pruned and however late rows came,
      a retained past group is right if and only if no row of it had been pruned when its bucket was
      last rebuilt, or it was never rebuilt and has no row. */
  lemma RightIffBuiltWhole(es: seq<Event>, now: int, k: Key)
    requires TimelyRun(GENESIS, es + [RollUp(now)])
    requires Run(GENESIS, es).viewFloor <= k.bucket < BucketOf(now)
    ensures Agrees(Run(GENESIS, es + [RollUp(now)]), k) <==> BuiltWhole(es + [RollUp(now)], k)
  {
    RunStep(GENESIS, es, RollUp(now));
    TimelyRunsSettle(es, k);
    RollupSettles(es, now, k);
  }

  // ------------------------------------------- the view in terms of the records

  /** A record of the client, domain and action of k, seen in its five minutes. */
  predicate Matches(r: Record, k: Key) {
    && k.bucket % 300 == 0 && k.bucket <= r.ts < k.bucket + 300
    && r.client == k.client && r.domain == k.domain && (if r.action == "" then "pass" else r.action) == k.action
  }

  function Matching(recs: seq<Record>, k: Key): seq<Record> {
    if recs == [] then []
    else
      var r := recs[|recs| - 1];
      Matching(recs[..|recs| - 1], k) + if Matches(r, k) then [r] else []
  }

  function RecordsOf(es: seq<Event>): seq<Record> {
    if es == [] then []
    else RecordsOf(es[..|es| - 1]) + if es[|es| - 1].AddRows? then es[|es| - 1].recs else []
  }

  lemma MatchesIsKey(r: Record, k: Key)
    requires r.ts > 0
    ensures Matches(r, k) <==> KeyOf(Stored(r)) == k
    ensures OrElse(Stored(r).list, "") == r.list
  {
    BucketFacts(r.ts, r.ts);
  }

  lemma {:induction false} StoredGroup(recs: seq<Record>, k: Key)
    requires forall r :: r in recs ==> r.ts > 0
    ensures Of(StoredAll(recs), k) == StoredAll(Matching(recs, k))
  {
    if recs != [] {
      var front, r := recs[..|recs| - 1], recs[|recs| - 1];
      assert recs == front + [r];
      StoredGroup(front, k);
      MatchesIsKey(r, k);
      OfSnoc(StoredAll(front), Stored(r), k);
      assert Of(StoredAll(front), k) + [] == Of(StoredAll(front), k);
      if Matches(r, k) {
        assert (Matching(front, k) + [r])[..|Matching(front, k)|] == Matching(front, k);
      } else {
        assert Matching(recs, k) == Matching(front, k);
      }
    }
  }

  lemma {:induction false} StoredConcat(a: seq<Record>, b: seq<Record>)
    ensures StoredAll(a + b) == StoredAll(a) + StoredAll(b)
  {
    if b == [] {
      assert a + b == a;
    } else {
      var n := |b| - 1;
      StoredConcat(a, b[..n]);
      assert (a + b)[..|a + b| - 1] == a + b[..n] && (a + b)[|a + b| - 1] == b[n];
      assert StoredAll(a) + (StoredAll(b[..n]) + [Stored(b[n])]) == StoredAll(a) + StoredAll(b[..n]) + [Stored(b[n])];
    }
  }

  lemma {:induction false} EverIsRecords(es: seq<Event>)
    requires TimelyRun(GENESIS, es)
    ensures Run(GENESIS, es).ever == StoredAll(RecordsOf(es))
    ensures forall r :: r in RecordsOf(es) ==> r.ts > 0
  {
    if es != [] {
      var front, e := es[..|es| - 1], es[|es| - 1];
      EverIsRecords(front);
      if e.AddRows? {
        StoredConcat(RecordsOf(front), e.recs);
      } else {
        assert RecordsOf(es) == RecordsOf(front);
      }
    }
  }

  lemma {:induction false} AdmissibleIsTimely(es: seq<Event>)
    requires AdmissibleRun(GENESIS, es)
    ensures TimelyRun(GENESIS, es)
  {
    if es != [] {
      AdmissibleIsTimely(es[..|es| - 1]);
    }
  }

  lemma {:induction false} StoredMax(recs: seq<Record>)
    requires recs != []
    ensures |StoredAll(recs)| == |recs|
    ensures exists r :: r in recs && r.list == MaxList(StoredAll(recs))
    ensures forall r :: r in recs ==> !StrLess(MaxList(StoredAll(recs)), r.list)
  {
    StoredLength(recs);
    MaxListIsMax(StoredAll(recs));
    forall i | 0 <= i < |recs|
      ensures OrElse(StoredAll(recs)[i].list, "") == recs[i].list
    {
      StoredAt(recs, i);
    }
    var i :| 0 <= i < |StoredAll(recs)| && OrElse(StoredAll(recs)[i].list, "") == MaxList(StoredAll(recs));
    assert recs[i] in recs;
  }

  lemma {:induction false} StoredLength(recs: seq<Record>)
    ensures |StoredAll(recs)| == |recs|
  {
    if recs != [] { StoredLength(recs[..|recs| - 1]); }
  }

  lemma {:induction false} StoredAt(recs: seq<Record>, i: nat)
    requires i < |recs| == |StoredAll(recs)|
    ensures StoredAll(recs)[i] == Stored(recs[i])
  {
    if i < |recs| - 1 {
      StoredLength(recs[..|recs| - 1]);
      StoredAt(recs[..|recs| - 1], i);
    } else {
      StoredLength(recs[..i]);
    }
  }

  /** What a reader of the view gets after any admissible run ending in a rollup: a row exactly for the
      clients, domains and actions seen in a retained past five minutes, with the number of records
      ever given and the greatest list name among them. */
  lemma ViewCountsRecords(es: seq<Event>, now: int, k: Key)
    requires AdmissibleRun(GENESIS, es + [RollUp(now)])
    requires Run(GENESIS, es).viewFloor <= k.bucket < BucketOf(now)
    ensures var found, own := Lookup(Run(GENESIS, es + [RollUp(now)]).db.rollup, k), Matching(RecordsOf(es), k);
      && (found.None? <==> own == [])
      && (found.Some? ==>
           && found.value.queries == |own|
           && (exists r :: r in own && r.list == found.value.list)
           && (forall r :: r in own ==> !StrLess(found.value.list, r.list)))
  {
    RunStep(GENESIS, es, RollUp(now));
    AdmissibleIsTimely(es);
    EverIsRecords(es);
    ViewIsGroupByOfAllRows(es, now, k);
    var own := Matching(RecordsOf(es), k);
    StoredGroup(RecordsOf(es), k);
    var x := Expected(Run(GENESIS, es).ever, k);
    if own != [] {
      StoredMax(own);
    }
  }

  // --------------------------------------------------- where the view is wrong

  lemma OneRecord(r: Record)
    ensures StoredAll([r]) == [Stored(r)]
    ensures Oldest([r]) == if r.ts > 0 then r.ts else 0
  {
    assert [r][..0] == [];
  }

  lemma OneRow(r: Row, k: Key)
    ensures Of([r], k) == if KeyOf(r) == k then [r] else []
    ensures forall cut: int :: Before([r], cut) == if r.ts < cut then [r] else []
  {
    assert [r][..0] == [];
  }

  const EARLY := Record(1000000, "c", "d", "", "")
  const LATE := Record(1000000, "c", "e", "", "")
  const LOST := Key(999900, "c", "d", "pass")

  /** One row, rolled up, then deleted by raw retention eight days later: the view still has it. */
  lemma RolledThenPruned() returns (es: seq<Event>)
    ensures TimelyRun(GENESIS, es)
    ensures Run(GENESIS, es).ever == Run(GENESIS, es).gone == [Stored(EARLY)]
    ensures Run(GENESIS, es).db.last == 1000500 && Run(GENESIS, es).db.dirty == 0
    ensures Run(GENESIS, es).clock == 1691200 && Run(GENESIS, es).viewFloor == 0
    ensures Agrees(Run(GENESIS, es), LOST)
  {
    var e1, e2, e3 := AddRows(1000000, [EARLY]), RollUp(1000500), PruneAll(1691200, 0, 0);
    var s1 := [] + [e1];
    var s2 := s1 + [e2];
    es := s2 + [e3];
    RunStep(GENESIS, [], e1);
    RunStep(GENESIS, s1, e2);
    RunStep(GENESIS, s2, e3);
    OneRecord(EARLY);
    OneRow(Stored(EARLY), LOST);
    TimelyRunsAreSane(s1);
    var w1, w2 := Run(GENESIS, s1), Run(GENESIS, s2);
    assert w1.db == Db([Stored(EARLY)], map[], 0, 0);
    RollupEffect(w1, 1000500);
    assert w2.db.dns == [Stored(EARLY)];
    var a := Expected([Stored(EARLY)], LOST);
    assert Agrees(w2, LOST);
  }

  /** Without the condition on old rows the view loses data: after raw retention has deleted the row
      of a group, a late row dirties its bucket and the rollup rebuilds it without that group. */
  lemma LateRowLosesBucket() returns (es: seq<Event>, now: int, k: Key)
    ensures TimelyRun(GENESIS, es + [RollUp(now)])
    ensures Run(GENESIS, es).viewFloor <= k.bucket < BucketOf(now)
    ensures Agrees(Run(GENESIS, es), k) && !Agrees(Run(GENESIS, es + [RollUp(now)]), k)
  {
    var before := RolledThenPruned();
    var e := AddRows(1691200, [LATE]);
    es, now, k := before + [e], 1691500, LOST;
    RunStep(GENESIS, before, e);
    LateRowDirties(before);
    RunStep(GENESIS, es, RollUp(now));
    RollupExactOnWindow(es, now, k);
  }

  lemma LateRowDirties(es: seq<Event>)
    requires TimelyRun(GENESIS, es + [AddRows(1691200, [LATE])])
    requires Run(GENESIS, es).gone == [Stored(EARLY)]
    requires Run(GENESIS, es).db.last == 1000500 && Run(GENESIS, es).db.dirty == 0
    requires Run(GENESIS, es).viewFloor == 0 && Agrees(Run(GENESIS, es), LOST)
    ensures var w := Run(GENESIS, es + [AddRows(1691200, [LATE])]);
      && Agrees(w, LOST) && Of(w.gone, LOST) != []
      && Start(w.db, 1691500) <= LOST.bucket < BucketOf(1691500)
      && w.viewFloor <= LOST.bucket
  {
    RunStep(GENESIS, es, AddRows(1691200, [LATE]));
    OneRecord(LATE);
    OneRow(Stored(LATE), LOST);
    OneRow(Stored(EARLY), LOST);
    SameGroupSameAnswer(Run(GENESIS, es), 1691200, [LATE], LOST);
  }

  /** THE FIRST ROLLUP of any run: a past group is right after it if and only if no row of it was pruned
      and it is empty or lies in the window, which reaches back one day (or to the dirty mark). */
  lemma FirstRollupExactIff(es: seq<Event>, now: int, k: Key)
    requires TimelyRun(GENESIS, es + [RollUp(now)])
    requires Run(GENESIS, es).db.last == 0 && k.bucket < BucketOf(now)
    ensures var w := Run(GENESIS, es);
            Agrees(Run(GENESIS, es + [RollUp(now)]), k) <==>
            Of(w.gone, k) == [] && (k.bucket >= Start(w.db, now) || Of(w.ever, k) == [])
  {
    var w := Run(GENESIS, es);
    TimelyRunsAreSane(es);
    RunStep(GENESIS, es, RollUp(now));
    if Start(w.db, now) <= k.bucket {
      RollupExactOnWindow(es, now, k);
    } else {
      RollupExactOutside(es, now, k);
      var a := Expected(w.ever, k);
    }
  }

  /** A first rollup more than a day after the first rows never sees them. */
  lemma FirstRollupReachesOneDay(ts: int, now: int)
    requires 0 < ts && ts + 87000 <= now
    ensures TimelyRun(GENESIS, [AddRows(ts, [EARLY.(ts := ts)])] + [RollUp(now)])
    ensures !Agrees(Run(GENESIS, [AddRows(ts, [EARLY.(ts := ts)])] + [RollUp(now)]), LOST.(bucket := BucketOf(ts)))
  {
    var r, k := EARLY.(ts := ts), LOST.(bucket := BucketOf(ts));
    var s := [AddRows(ts, [r])];
    RunStep(GENESIS, [], s[0]);
    RunStep(GENESIS, s, RollUp(now));
    assert [] + [s[0]] == s;
    OneRecord(r);
    OneRow(Stored(r), k);
    var w := Run(GENESIS, s);
    assert w.ever == [] + [Stored(r)] && w.db.rollup == map[];
    BucketFacts(ts, now);
    var a := Expected(w.ever, k);
    assert !Agrees(w, k);
    RollupExactOutside(s, now, k);
  }
}
