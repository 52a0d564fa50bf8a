/** The login session table: expiry and a ceiling of a thousand (api.go:735-779). */
module Sessions {

  /** Times are in seconds; a session is good for twelve hours. */
  const LIFETIME := 12 * 3600
  const CEILING := 1000

  datatype Session = Session(user: string, scope: string, expires: int)
  type Table = map<string, Session>

  function Live(t: Table, now: int): Table {
    map k | k in t && t[k].expires >= now :: t[k]
  }

  /** `kept` is what eviction may leave of the live sessions: all of them below the ceiling, otherwise
      the 999 that expire last; ties may fall either way. */
  ghost predicate Evicts(live: Table, kept: Table) {
    && kept.Keys <= live.Keys
    && (forall k :: k in kept ==> kept[k] == live[k])
    && |kept| == (if |live| >= CEILING then CEILING - 1 else |live|)
    && forall e, k :: e in live && e !in kept && k in kept ==> live[e].expires <= live[k].expires
  }

  function Opened(name: string, scope: string, now: int): Session {
    Session("session (" + name + ")", scope, now + LIFETIME)
  }

  /** A login: drop the expired sessions, evict down to room for one, add the new one. */
  ghost predicate LoggedIn(t: Table, now: int, sid: string, s: Session, after: Table) {
    exists kept :: Evicts(Live(t, now), kept) && after == kept[sid := s]
  }

  class Api {
    var sessions: Table

    constructor ()
      ensures sessions == map[]
    {
      sessions := map[];
    }

    /** Login once the token has been matched to `name` ("" when it matches nothing); `sid` is the
        encoding of 32 random bytes. */
    method Login(name: string, scope: string, sid: string, now: int) returns (id: string, ok: bool)
      requires sid != "" && "" !in sessions
      modifies this
      ensures ok == (name != "") && "" !in sessions
      ensures !ok ==> id == "" && sessions == old(sessions)
      ensures ok ==> id == sid && LoggedIn(old(sessions), now, sid, Opened(name, scope, now), sessions)
    {
      if name == "" {
        return "", false;
      }
      var left := sessions.Keys;
      while left != {}
        invariant left <= old(sessions).Keys && sessions.Keys <= old(sessions).Keys
        invariant forall k :: k in sessions ==> sessions[k] == old(sessions)[k]
        invariant forall k :: k in old(sessions).Keys - left ==> (k in sessions <==> old(sessions)[k].expires >= now)
        invariant forall k :: k in left ==> k in sessions
        decreases left
      {
        var k :| k in left;
        left := left - {k};
        if sessions[k].expires < now {
          sessions := sessions - {k};
        }
      }
      assert sessions == Live(old(sessions), now);
      ghost var live := sessions;
      while |sessions| >= CEILING
        invariant Leaves(live, sessions)
        invariant |sessions| >= CEILING - 1 || sessions == live
        decreases |sessions|
      {
        var oldest := SoonestToExpire();
        EvictOne(live, sessions, oldest);
        sessions := sessions - {oldest};
      }
      LeavesIsEvicts(live, sessions);
      sessions := sessions[sid := Opened(name, scope, now)];
      return sid, true;
    }

    /** The scan for the session to drop. */
    method SoonestToExpire() returns (oldest: string)
      requires sessions != map[] && "" !in sessions
      ensures oldest in sessions && forall k :: k in sessions ==> sessions[oldest].expires <= sessions[k].expires
    {
      oldest := "";
      var oldestAt := 0;
      var left := sessions.Keys;
      assert left != {} by {
        assert sessions.Keys == {} ==> sessions == map[];
      }
      while left != {}
        invariant left <= sessions.Keys
        invariant oldest == "" ==> left == sessions.Keys
        invariant oldest != "" ==> oldest in sessions && oldestAt == sessions[oldest].expires
        invariant oldest != "" ==> forall k :: k in sessions.Keys - left ==> oldestAt <= sessions[k].expires
        decreases left
      {
        var k :| k in left;
        left := left - {k};
        if oldest == "" || sessions[k].expires < oldestAt {
          oldest, oldestAt := k, sessions[k].expires;
        }
      }
    }
  }

  /** Part of the eviction loop: what is gone expires no later than what is left. */
  ghost predicate Leaves(live: Table, rest: Table) {
    && rest.Keys <= live.Keys
    && (forall k :: k in rest ==> rest[k] == live[k])
    && forall e, k :: e in live && e !in rest && k in rest ==> live[e].expires <= live[k].expires
  }

  lemma EvictOne(live: Table, rest: Table, oldest: string)
    requires Leaves(live, rest) && oldest in rest
    requires forall k :: k in rest ==> rest[oldest].expires <= rest[k].expires
    ensures Leaves(live, rest - {oldest}) && |rest - {oldest}| == |rest| - 1
  {
    assert (rest - {oldest}).Keys == rest.Keys - {oldest};
    assert |rest.Keys - {oldest}| == |rest.Keys| - 1;
  }

  lemma LeavesIsEvicts(live: Table, rest: Table)
    requires Leaves(live, rest) && |rest| < CEILING && (|rest| >= CEILING - 1 || rest == live)
    ensures Evicts(live, rest)
  {
    Smaller(rest.Keys, live.Keys);
  }

  lemma Smaller<T>(a: set<T>, b: set<T>)
    requires a <= b
    ensures |a| <= |b| && (|a| == |b| ==> a == b)
  {
    assert |b - a| == |b| - |a| by { assert b == a + (b - a); }
    if |a| == |b| { assert b - a == {}; }
  }

  // --------------------------------------------------------------- whole runs

  datatype Event =
    | Login(now: int, sid: string, name: string, scope: string)
    | Logout(now: int, sid: string)

  /** The table, when each session id ever issued was issued, and the time of the last step. */
  datatype World = World(table: Table, born: map<string, int>, clock: int)

  const EMPTY := World(map[], map[], 0)

  /** Steps with a clock that does not run backwards and ids that never repeat. */
  ghost predicate Step(w: World, e: Event, w': World) {
    && w.clock <= e.now == w'.clock
    && match e
       case Login(now, sid, name, scope) =>
         && sid != "" && sid !in w.born && w'.born == w.born[sid := now]
         && LoggedIn(w.table, now, sid, Opened(name, scope, now), w'.table)
       case Logout(_, sid) => w'.table == w.table - {sid} && w'.born == w.born
  }

  ghost predicate IsRun(ws: seq<World>, es: seq<Event>) {
    && |ws| == |es| + 1 && ws[0] == EMPTY
    && forall i :: 0 <= i < |es| ==> Step(ws[i], es[i], ws[i + 1])
  }

  /** Expiry is birth plus the fixed lifetime, and the table respects the ceiling. */
  ghost predicate Inv(w: World) {
    && |w.table| <= CEILING && "" !in w.born && w.table.Keys <= w.born.Keys
    && (forall k :: k in w.table ==> w.table[k].expires == w.born[k] + LIFETIME)
    && forall k :: k in w.born ==> w.born[k] <= w.clock
  }

  /** The table after eviction and insertion, when the new session expires last. */
  lemma TableAfterLogin(live: Table, kept: Table, sid: string, s: Session)
    requires Evicts(live, kept) && sid !in live && forall k :: k in live ==> live[k].expires <= s.expires
    ensures |kept[sid := s]| == |kept| + 1 <= CEILING
    ensures forall e :: e in live && e !in kept ==> |kept[sid := s]| == CEILING
    ensures forall e, k :: e in live && e !in kept && k in kept ==> live[e].expires <= kept[k].expires
  {
    var after := kept[sid := s];
    assert |after| == |kept| + 1 by { assert after.Keys == kept.Keys + {sid} && |after.Keys| == |kept.Keys| + 1; }
    if |live| < CEILING {
      Smaller(kept.Keys, live.Keys);
    }
  }

  lemma LiveExpireBefore(w: World, now: int, k: string)
    requires Inv(w) && w.clock <= now && k in Live(w.table, now)
    ensures k in w.table && w.table[k].expires <= now + LIFETIME
  {
  }

  lemma LoginKeepsInv(w: World, e: Event, w': World)
    requires Inv(w) && e.Login? && Step(w, e, w')
    ensures Inv(w')
  {
    var live, s := Live(w.table, e.now), Opened(e.name, e.scope, e.now);
    var kept :| Evicts(live, kept) && w'.table == kept[e.sid := s];
    forall k | k in live
      ensures live[k].expires <= s.expires
    {
      LiveExpireBefore(w, e.now, k);
    }
    TableAfterLogin(live, kept, e.sid, s);
    forall k | k in w'.table
      ensures k in w'.born && w'.table[k].expires == w'.born[k] + LIFETIME
    {
      if k != e.sid { assert k in kept && k in live && k in w.table; }
    }
  }

  lemma StepKeepsInv(w: World, e: Event, w': World)
    requires Inv(w) && Step(w, e, w')
    ensures Inv(w')
  {
    if e.Login? {
      LoginKeepsInv(w, e, w');
    } else {
      assert w'.table.Keys == w.table.Keys - {e.sid};
      Smaller(w'.table.Keys, w.table.Keys);
    }
  }

  lemma {:induction false} RunKeepsInv(ws: seq<World>, es: seq<Event>, i: nat)
    requires IsRun(ws, es) && i < |ws|
    ensures Inv(ws[i])
  {
    if i > 0 {
      RunKeepsInv(ws, es, i - 1);
      StepKeepsInv(ws[i - 1], es[i - 1], ws[i]);
    }
  }

  function BornAt(w: World, k: string): int { if k in w.born then w.born[k] else w.clock }

  predicate Unexpired(w: World, k: string, now: int) { k in w.table && w.table[k].expires >= now }

  /** What a login does to the table: the new session is good for twelve hours, the rest are unexpired old
      ones as they were; an unexpired one is dropped only when the table is full, and then it expires no
      later and was opened no later than every one kept. */
  ghost predicate OldestFirst(w: World, w': World, e: Event)
    requires e.Login?
  {
    && |w'.table| <= 1000
    && e.sid in w'.table && w'.table[e.sid] == Session("session (" + e.name + ")", e.scope, e.now + 43200)
    && (forall k :: k in w'.table && k != e.sid ==> Unexpired(w, k, e.now) && w'.table[k] == w.table[k])
    && (forall x :: Unexpired(w, x, e.now) && x !in w'.table ==> |w'.table| == 1000)
    && forall x, k :: Unexpired(w, x, e.now) && x !in w'.table && k in w'.table ==>
         w.table[x].expires <= w'.table[k].expires && BornAt(w', x) <= BornAt(w', k)
  }

  /** What is left of the live sessions after one login. */
  lemma LoginKeeps(w: World, e: Event, w': World) returns (kept: Table)
    requires Inv(w) && e.Login? && Step(w, e, w')
    ensures Evicts(Live(w.table, e.now), kept) && w'.table == kept[e.sid := Opened(e.name, e.scope, e.now)]
    ensures e.sid !in w.table && forall k :: k in Live(w.table, e.now) ==> w.table[k].expires <= e.now + LIFETIME
  {
    kept :| Evicts(Live(w.table, e.now), kept) && w'.table == kept[e.sid := Opened(e.name, e.scope, e.now)];
    forall k | k in Live(w.table, e.now)
      ensures w.table[k].expires <= e.now + LIFETIME
    {
      LiveExpireBefore(w, e.now, k);
    }
  }

  lemma LoginOpens(w: World, e: Event, w': World)
    requires Inv(w) && e.Login? && Step(w, e, w')
    ensures e.sid in w'.table && w'.table[e.sid] == Session("session (" + e.name + ")", e.scope, e.now + 43200)
  {
    var kept := LoginKeeps(w, e, w');
  }

  lemma LoginKeepsLive(w: World, e: Event, w': World)
    requires Inv(w) && e.Login? && Step(w, e, w')
    ensures forall k :: k in w'.table && k != e.sid ==> Unexpired(w, k, e.now) && w'.table[k] == w.table[k]
  {
    var kept := LoginKeeps(w, e, w');
    forall k | k in w'.table && k != e.sid
      ensures Unexpired(w, k, e.now) && w'.table[k] == w.table[k]
    {
      assert k in kept && kept[k] == Live(w.table, e.now)[k];
    }
  }

  lemma LoginDropsOldest(w: World, e: Event, w': World)
    requires Inv(w) && e.Login? && Step(w, e, w')
    ensures |w'.table| <= CEILING
    ensures forall x :: x in Live(w.table, e.now) && x !in w'.table ==> |w'.table| == CEILING
    ensures forall x, k :: x in Live(w.table, e.now) && x !in w'.table && k in w'.table ==>
              w.table[x].expires <= w'.table[k].expires
  {
    var live := Live(w.table, e.now);
    var kept := LoginKeeps(w, e, w');
    TableAfterLogin(live, kept, e.sid, Opened(e.name, e.scope, e.now));
    forall x, k | x in live && x !in w'.table && k in w'.table
      ensures w.table[x].expires <= w'.table[k].expires
    {
      assert x !in kept;
      if k != e.sid { assert k in kept; }
    }
  }

  lemma LoginStep(w: World, e: Event, w': World)
    requires Inv(w) && e.Login? && Step(w, e, w')
    ensures OldestFirst(w, w', e)
  {
    LoginOpens(w, e, w');
    LoginKeepsLive(w, e, w');
    LoginDropsOldest(w, e, w');
    LoginKeepsInv(w, e, w');
    BirthFollowsExpiry(w, w', e.sid, e.now);
  }

  /** Who expires no later was born no later. */
  lemma BirthFollowsExpiry(w: World, w': World, sid: string, now: int)
    requires Inv(w) && Inv(w') && sid !in w.born && w'.born == w.born[sid := now]
    ensures forall x, k :: x in w.table && k in w'.table && w.table[x].expires <= w'.table[k].expires ==>
              BornAt(w', x) <= BornAt(w', k)
  {
    forall x, k | x in w.table && k in w'.table && w.table[x].expires <= w'.table[k].expires
      ensures BornAt(w', x) <= BornAt(w', k)
    {
      assert w'.born[x] == w.born[x];
    }
  }

  /** OLDEST LOGIN FIRST: at every login of every run the table ends with at most a thousand sessions,
      none expired; a live session is dropped only when the table is full, and then every session kept
      was opened no earlier and expires no earlier than it. */
  lemma EvictionIsOldestFirst(ws: seq<World>, es: seq<Event>, i: nat)
    requires IsRun(ws, es) && i < |es| && es[i].Login?
    ensures OldestFirst(ws[i], ws[i + 1], es[i])
  {
    RunKeepsInv(ws, es, i);
    assert Step(ws[i], es[i], ws[i + 1]);
    LoginStep(ws[i], es[i], ws[i + 1]);
  }

  function OthersNoOlder(w: World, e: string): set<string> {
    set k | k in w.table && k != e && BornAt(w, k) >= BornAt(w, e)
  }

  /** Until it expires or is logged out, a session is dropped only at a login that finds at least 999
      others opened no earlier. */
  lemma SurvivesWhileFewerAreNewer(ws: seq<World>, es: seq<Event>, i: nat, e: string)
    requires IsRun(ws, es) && i < |es| && es[i].Login?
    requires Unexpired(ws[i], e, es[i].now)
    requires |OthersNoOlder(ws[i], e)| < CEILING - 1
    ensures e in ws[i + 1].table
  {
    RunKeepsInv(ws, es, i);
    EvictionIsOldestFirst(ws, es, i);
    var w, w', sid := ws[i], ws[i + 1], es[i].sid;
    assert Step(w, es[i], w');
    var others := w'.table.Keys - {sid};
    assert |w'.table.Keys| == |others| + 1 by { assert w'.table.Keys == others + {sid}; }
    if e !in w'.table {
      forall k | k in others
        ensures k in OthersNoOlder(w, e)
      {
        assert BornAt(w', e) <= BornAt(w', k);
      }
      Smaller(others, OthersNoOlder(w, e));
    }
  }
}
