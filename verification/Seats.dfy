/** Seat accounting of the license server (flowsight-licensed/main.go:207-268, 581-626). A claim is one
    atomic step; all tables are keyed as in the database. */
module Seats {
  datatype License = License(seats: int, revoked: string)
  datatype Id = Id(key: string, installation: string)
  datatype Activation = Activation(hostname: string, version: string, platform: string,
                                   firstSeen: int, lastSeen: int, released: bool)
  type Activations = map<Id, Activation>

  /** The seats of a key that are taken. */
  function Active(acts: Activations, key: string): set<Id> {
    set id | id in acts && id.key == key && !acts[id].released
  }

  /** The seats other installations take. */
  function Others(acts: Activations, me: Id): set<Id> { Active(acts, me.key) - {me} }

  function Renewed(acts: Activations, me: Id, a: Activation): Activations {
    acts[me := if me in acts then a.(firstSeen := acts[me].firstSeen) else a]
  }

  function Released(acts: Activations, me: Id, now: int): Activations {
    if me in acts then acts[me := acts[me].(released := true, lastSeen := now)] else acts
  }

  datatype Status = Ok | BadRequest | Unknown | Revoked | SeatsTaken

  predicate Blank(s: string) { forall c :: c in s ==> c == ' ' || '\t' <= c <= '\r' }

  lemma BlankChars(s: string)
    ensures Blank(s) <==> forall i :: 0 <= i < |s| ==> s[i] == ' ' || '\t' <= s[i] <= '\r'
  {
    if Blank(s) {
      forall i | 0 <= i < |s|
        ensures s[i] == ' ' || '\t' <= s[i] <= '\r'
      {
        assert s[i] in s;
      }
    }
  }

  lemma CountOne(others: set<Id>, left: set<Id>, id: Id)
    requires id in left
    ensures |others - (left - {id})| == |others - left| + if id in others then 1 else 0
  {
    if id in others {
      assert others - (left - {id}) == (others - left) + {id};
    } else {
      assert others - (left - {id}) == others - left;
    }
  }

  class Store {
    var licenses: map<string, License>
    var acts: Activations

    constructor (licenses: map<string, License>)
      ensures this.licenses == licenses && acts == map[]
    {
      this.licenses := licenses;
      acts := map[];
    }

    /** Counts the other active seats, then upserts the caller's row. */
    method Claim(key: string, seats: int, installation: string, hostname: string, version: string,
                 platform: string, now: int) returns (inUse: int, ok: bool)
      modifies this`acts
      ensures var me := Id(key, installation);
        && ok == (me in old(acts) || |Others(old(acts), me)| < seats)
        && (!ok ==> acts == old(acts) && inUse == |Others(old(acts), me)|)
        && (ok ==> acts == old(acts)[me := Activation(hostname, version, platform,
                                            if me in old(acts) then old(acts)[me].firstSeen else now, now, false)]
                   && inUse == |Others(old(acts), me)| + if me in old(acts) then 0 else 1)
    {
      var me := Id(key, installation);
      var mine: bool;
      inUse, mine := CountOthers(me);
      if !mine && inUse >= seats {
        return inUse, false;
      }
      var a := Activation(hostname, version, platform, now, now, false);
      acts := acts[me := if me in acts then a.(firstSeen := acts[me].firstSeen) else a];
      if !mine {
        inUse := inUse + 1;
      }
      return inUse, true;
    }

    /** The loop over the activations of the key, in any order. */
    method CountOthers(me: Id) returns (inUse: int, mine: bool)
      ensures inUse == |Others(acts, me)| && mine == (me in acts)
    {
      mine := false;
      inUse := 0;
      var rows := set id | id in acts && id.key == me.key;
      var left := rows;
      assert Others(acts, me) - rows == {};
      while left != {}
        invariant left <= rows
        invariant mine <==> me in rows - left
        invariant inUse == |Others(acts, me) - left|
        decreases left
      {
        var id :| id in left;
        CountOne(Others(acts, me), left, id);
        left := left - {id};
        if id.installation == me.installation {
          mine := true;
          continue;
        }
        if !acts[id].released {
          inUse := inUse + 1;
        }
      }
      assert Others(acts, me) - left == Others(acts, me);
    }

    method Release(key: string, installation: string, now: int)
      modifies this`acts
      ensures acts == Released(old(acts), Id(key, installation), now)
      ensures acts.Keys == old(acts).Keys
      ensures forall id :: id in acts ==>
                acts[id] == if id == Id(key, installation) then old(acts)[id].(released := true, lastSeen := now)
                            else old(acts)[id]
    {
      var me := Id(key, installation);
      if me in acts {
        acts := acts[me := acts[me].(released := true, lastSeen := now)];
      }
    }

    /** The activate and refresh handlers, after the key has been normalised. */
    method Activate(key: string, installation: string, hostname: string, version: string, platform: string, now: int)
      returns (status: Status)
      modifies this`acts
      ensures status == BadRequest <==>
                key == "" || forall i :: 0 <= i < |installation| ==>
                               installation[i] == ' ' || '\t' <= installation[i] <= '\r'
      ensures status == Unknown <==> status != BadRequest && key !in licenses
      ensures status == Revoked <==> status != BadRequest && key in licenses && licenses[key].revoked != ""
      ensures status.SeatsTaken? || status.Ok? ==> key in licenses && licenses[key].revoked == ""
      ensures status.SeatsTaken? || status.Ok? ==>
                var me := Id(key, installation);
                status.Ok? <==> me in old(acts) || |Others(old(acts), me)| < licenses[key].seats
      ensures status.Ok? ==>
                var me := Id(key, installation);
                acts == old(acts)[me := Activation(hostname, version, platform,
                                        if me in old(acts) then old(acts)[me].firstSeen else now, now, false)]
      ensures !status.Ok? ==> acts == old(acts)
    {
      BlankChars(installation);
      if key == "" || Blank(installation) {
        return BadRequest;
      }
      if key !in licenses {
        return Unknown;
      }
      if licenses[key].revoked != "" {
        return Revoked;
      }
      var n, ok := Claim(key, licenses[key].seats, installation, hostname, version, platform, now);
      return if ok then Ok else SeatsTaken;
    }
  }

  // -------------------------------------------------------------- one claim

  /** The row a claim writes: the caller's, with the time it was first seen kept. */
  lemma RenewedWrites(acts: Activations, me: Id, hostname: string, version: string, platform: string, now: int)
    ensures Renewed(acts, me, Activation(hostname, version, platform, now, now, false)) ==
            acts[me := Activation(hostname, version, platform,
                                  if me in acts then acts[me].firstSeen else now, now, false)]
  {
  }

  lemma ActiveAfterClaim(acts: Activations, me: Id, a: Activation)
    requires !a.released
    ensures Active(Renewed(acts, me, a), me.key) == Others(acts, me) + {me}
    ensures |Active(Renewed(acts, me, a), me.key)| == |Others(acts, me)| + 1
    ensures forall key :: key != me.key ==> Active(Renewed(acts, me, a), key) == Active(acts, key)
  {
    assert Active(Renewed(acts, me, a), me.key) == Others(acts, me) + {me};
  }

  /** Renewing never changes the count; a first claim or a return adds exactly one seat. */
  lemma RenewalChangesNothing(acts: Activations, me: Id, a: Activation)
    requires !a.released
    ensures me in Active(acts, me.key) ==> Active(Renewed(acts, me, a), me.key) == Active(acts, me.key)
    ensures me !in Active(acts, me.key) ==>
              |Active(Renewed(acts, me, a), me.key)| == |Active(acts, me.key)| + 1
  {
    ActiveAfterClaim(acts, me, a);
    if me !in Active(acts, me.key) {
      assert Others(acts, me) == Active(acts, me.key);
    }
  }

  /** An accepted claim keeps the seats of the key within the limit if and only if the caller was not
      let back in from a released seat while all seats were taken by others. */
  lemma ClaimWithinSeatsIff(acts: Activations, me: Id, a: Activation, seats: int)
    requires !a.released && |Active(acts, me.key)| <= seats
    requires me in acts || |Others(acts, me)| < seats
    ensures |Active(Renewed(acts, me, a), me.key)| <= seats <==>
            !(me in acts && acts[me].released && |Others(acts, me)| >= seats)
  {
    ActiveAfterClaim(acts, me, a);
    if me in Active(acts, me.key) {
      assert Active(acts, me.key) == Others(acts, me) + {me};
    }
  }

  /** The count an accepted claim reports is the number of seats in use after the call only for a first
      claim; a renewal leaves the caller itself out. */
  lemma ReportedIsInUseIff(acts: Activations, me: Id, a: Activation)
    requires !a.released
    ensures |Others(acts, me)| + (if me in acts then 0 else 1) == |Active(Renewed(acts, me, a), me.key)| <==>
            me !in acts
  {
    ActiveAfterClaim(acts, me, a);
  }

  // -------------------------------------------------------------- whole runs

  datatype Event = Claiming(me: Id, a: Activation) | Releasing(me: Id, now: int)

  predicate Accepted(acts: Activations, seats: map<string, int>, me: Id) {
    me.key in seats && (me in acts || |Others(acts, me)| < seats[me.key])
  }

  function Step(acts: Activations, seats: map<string, int>, e: Event): Activations {
    match e
    case Claiming(me, a) => if Accepted(acts, seats, me) then Renewed(acts, me, a) else acts
    case Releasing(me, now) => Released(acts, me, now)
  }

  function Run(seats: map<string, int>, es: seq<Event>): Activations {
    if es == [] then map[] else Step(Run(seats, es[..|es| - 1]), seats, es[|es| - 1])
  }

  /** A released installation claims again only while a seat is free. */
  predicate ReturnsToFreeSeats(acts: Activations, seats: map<string, int>, e: Event) {
    && (e.Claiming? ==> !e.a.released)
    && (e.Claiming? && e.me in acts && acts[e.me].released && e.me.key in seats ==>
          |Others(acts, e.me)| < seats[e.me.key])
  }

  predicate FairRun(seats: map<string, int>, es: seq<Event>) {
    es == [] || (FairRun(seats, es[..|es| - 1])
                 && ReturnsToFreeSeats(Run(seats, es[..|es| - 1]), seats, es[|es| - 1]))
  }

  lemma ReleaseFrees(acts: Activations, me: Id, now: int, key: string)
    ensures Active(Released(acts, me, now), key) == Active(acts, key) - {me}
    ensures |Active(Released(acts, me, now), key)| <= |Active(acts, key)|
  {
    assert Active(Released(acts, me, now), key) == Active(acts, key) - {me};
    if me in Active(acts, key) {
      assert Active(acts, key) == (Active(acts, key) - {me}) + {me};
    } else {
      assert Active(acts, key) - {me} == Active(acts, key);
    }
  }

  /** SEATS: in every run in which returning installations find a free seat, no key ever has more active
      activations than seats. */
  lemma {:induction false} NeverMoreThanSeats(seats: map<string, int>, es: seq<Event>, key: string)
    requires (forall k :: k in seats ==> seats[k] >= 0) && FairRun(seats, es) && key in seats
    ensures |Active(Run(seats, es), key)| <= seats[key]
  {
    if es != [] {
      var acts, e := Run(seats, es[..|es| - 1]), es[|es| - 1];
      NeverMoreThanSeats(seats, es[..|es| - 1], key);
      match e
      case Releasing(me, now) => ReleaseFrees(acts, me, now, key);
      case Claiming(me, a) =>
        if Accepted(acts, seats, me) {
          ActiveAfterClaim(acts, me, a);
          if me.key == key {
            ClaimWithinSeatsIff(acts, me, a, seats[key]);
          }
        }
    }
  }

  lemma RunSnoc(seats: map<string, int>, es: seq<Event>, e: Event)
    ensures Run(seats, es + [e]) == Step(Run(seats, es), seats, e)
  {
    assert (es + [e])[..|es|] == es;
  }

  /** Without that condition the limit is exceeded: A leaves its only seat, B takes it, A comes back. */
  lemma ReturningInstallationExceedsSeats() returns (seats: map<string, int>, es: seq<Event>)
    ensures seats == map["K" := 1] && |Active(Run(seats, es), "K")| == 2
  {
    seats := map["K" := 1];
    var a, b, act := Id("K", "A"), Id("K", "B"), Activation("h", "v", "p", 0, 0, false);
    var out := act.(released := true, lastSeen := 1);
    var e1 := [] + [Claiming(a, act)];
    var e2 := e1 + [Releasing(a, 1)];
    var e3 := e2 + [Claiming(b, act)];
    es := e3 + [Claiming(a, act)];
    RunSnoc(seats, [], Claiming(a, act));
    RunSnoc(seats, e1, Releasing(a, 1));
    RunSnoc(seats, e2, Claiming(b, act));
    RunSnoc(seats, e3, Claiming(a, act));
    assert Others(map[], a) == {};
    assert Run(seats, e1) == map[a := act];
    assert Run(seats, e2) == map[a := out];
    assert Others(map[a := out], b) == {};
    assert Run(seats, e3) == map[a := out, b := act];
    ActiveAfterClaim(Run(seats, e3), a, act);
    assert Others(Run(seats, e3), a) == {b};
  }
}
