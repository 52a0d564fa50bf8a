/** Marks, windows and cutoffs of the DNS store in plain numbers (store.go:700-718, 1106-1177). */
module DnsWindows {
  import opened Common
  import opened DnsRollup

  /** A record whose time is positive, over ten minutes past and before the mark. */
  predicate Late(db: Db, now: int, r: Record) {
    0 < r.ts < now - 600 && (db.dirty == 0 || r.ts < db.dirty)
  }

  lemma {:induction false} OldestIsLeast(recs: seq<Record>)
    ensures Oldest(recs) >= 0 && forall r :: r in recs && r.ts > 0 ==> 0 < Oldest(recs) <= r.ts
    ensures Oldest(recs) > 0 ==> exists r :: r in recs && r.ts == Oldest(recs)
  {
    if recs != [] {
      var front, last := recs[..|recs| - 1], recs[|recs| - 1];
      assert recs == front + [last] && last in recs;
      OldestIsLeast(front);
    }
  }

  /** A batch moves the dirty mark to the earliest late record, if there is one, and not otherwise. */
  lemma MarkIsEarliestLate(db: Db, now: int, recs: seq<Record>)
    ensures var d := AfterAdd(db, now, recs).dirty;
      && ((exists r :: r in recs && Late(db, now, r)) ==>
           && (exists r :: r in recs && Late(db, now, r) && r.ts == d)
           && forall r :: r in recs && Late(db, now, r) ==> d <= r.ts)
      && ((forall r :: r in recs ==> !Late(db, now, r)) ==> d == db.dirty)
  {
    OldestIsLeast(recs);
  }

  /** THE WINDOW: in any timely run a rollup at t rebuilds exactly the buckets before that of t and from
      ten minutes before the last one (a day before the first), or from the dirty mark if that is
      earlier, from the rows that are there; nothing else in the view changes. */
  lemma RollupWindow(es: seq<Event>, now: int, k: Key)
    requires TimelyRun(GENESIS, es + [RollUp(now)])
    ensures var w, w' := Run(GENESIS, es), Run(GENESIS, es + [RollUp(now)]);
            var end := now - now % 300;
            var base := if w.db.last > 0 then w.db.last - 600 else end - 86400;
            var mark := w.db.dirty - w.db.dirty % 300;
            var from := if w.db.dirty > 0 && mark < base then mark else base;
      && w'.db.last == end && w'.db.dirty == 0 && w'.db.dns == w.db.dns
      && Lookup(w'.db.rollup, k) == if from <= k.bucket < end then Expected(w.db.dns, k) else Lookup(w.db.rollup, k)
  {
    var w := Run(GENESIS, es);
    RunStep(GENESIS, es, RollUp(now));
    TimelyRunsAreSane(es);
    RollupEffect(w, now);
    BucketFacts(now, now);
    BucketFacts(w.db.dirty, w.db.dirty);
  }

  lemma LastDayInWindow(now: int, ts: int, end: int)
    requires 0 <= now && 0 < ts && end == now - now % 300 && now - 86400 <= ts < end
    ensures end - 86400 <= BucketOf(ts) < end
  {
    BucketFacts(ts, ts);
    BucketFacts(now, now);
  }

  /** A first rollup shows every row of the last day that was not pruned, up to its own bucket. */
  lemma FirstRollupShowsLastDay(es: seq<Event>, now: int, r: Row)
    requires TimelyRun(GENESIS, es + [RollUp(now)]) && Run(GENESIS, es).db.last == 0
    requires r in Run(GENESIS, es).db.dns && now - 86400 <= r.ts < now - now % 300
    ensures var dns, found := Run(GENESIS, es).db.dns, Lookup(Run(GENESIS, es + [RollUp(now)]).db.rollup, KeyOf(r));
            found.Some? && found.value.queries == |Of(dns, KeyOf(r))| > 0
  {
    var w, k := Run(GENESIS, es), KeyOf(r);
    RunStep(GENESIS, es, RollUp(now));
    TimelyRunsAreSane(es);
    LastDayInWindow(now, r.ts, now - now % 300);
    RollupWindow(es, now, k);
    OfNonEmpty(w.db.dns, k);
    assert k in Keys(w.db.dns);
  }

  /** The rows with the given indexes, in order, are exactly those not before the cutoff. */
  ghost predicate Keeps(rows: seq<Row>, kept: seq<Row>, at: seq<nat>, cut: int) {
    && |at| == |kept|
    && (forall i, j :: 0 <= i < j < |at| ==> at[i] < at[j])
    && (forall i :: 0 <= i < |at| ==> at[i] < |rows| && kept[i] == rows[at[i]])
    && forall n: nat :: n < |rows| ==> (n in at <==> rows[n].ts >= cut)
  }

  lemma KeepsSnoc(rows: seq<Row>, r: Row, kept: seq<Row>, at: seq<nat>, cut: int)
    requires Keeps(rows, kept, at, cut)
    ensures r.ts < cut ==> Keeps(rows + [r], kept, at, cut)
    ensures r.ts >= cut ==> Keeps(rows + [r], kept + [r], at + [|rows|], cut)
  {
    var rows' := rows + [r];
    forall n: nat | n < |rows'|
      ensures r.ts < cut ==> (n in at <==> rows'[n].ts >= cut)
      ensures r.ts >= cut ==> (n in at + [|rows|] <==> rows'[n].ts >= cut)
    {
      if n < |rows| { assert rows'[n] == rows[n]; }
    }
  }

  lemma {:induction false} SinceKeeps(rows: seq<Row>, cut: int) returns (at: seq<nat>)
    ensures Keeps(rows, Since(rows, cut), at, cut)
  {
    at := [];
    if rows != [] {
      var front, r := rows[..|rows| - 1], rows[|rows| - 1];
      assert rows == front + [r];
      at := SinceKeeps(front, cut);
      KeepsSnoc(front, r, Since(front, cut), at, cut);
      if r.ts < cut {
        assert Since(rows, cut) == Since(front, cut);
      } else {
        at := at + [|front|];
      }
    }
  }

  /** RETENTION, in plain numbers: exactly the raw rows of the last d days (7 when d is not positive)
      stay, in order, and exactly the view rows whose bucket is in the last r days (400). */
  lemma PruneKeepsExactly(db: Db, now: int, d: int, r: int) returns (at: seq<nat>)
    ensures var p := AfterPrune(db, now, d, r);
            var cut := if d > 0 then now - d * 86400 else now - 7 * 86400;
            var rcut := if r > 0 then now - r * 86400 else now - 400 * 86400;
      && Keeps(db.dns, p.dns, at, cut)
      && (forall k :: k in p.rollup <==> k in db.rollup && k.bucket >= rcut)
      && (forall k :: k in p.rollup ==> p.rollup[k] == db.rollup[k])
      && p.last == db.last && p.dirty == db.dirty
  {
    at := SinceKeeps(db.dns, if d > 0 then now - d * 86400 else now - 7 * 86400);
  }
}
