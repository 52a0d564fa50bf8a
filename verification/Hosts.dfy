/** The host inventory: an upsert whose identity fields belong to one hardware address
    (store.go:896-995). In ON CONFLICT DO UPDATE every right-hand side reads the old row. */
module Hosts {
  import opened Common

  datatype Update = Update(ip: string, mac: string, name: string, vendor: string, zone: string, os: string,
                           deviceType: string, source: string, bytesIn: int, bytesOut: int, flows: int,
                           blocked: int, alerts: int, isLocal: Option<bool>, lastSeen: int)

  datatype Row = Row(mac: Option<string>, name: Option<string>, vendor: Option<string>, zone: Option<string>,
                     os: Option<string>, deviceType: Option<string>, firstSeen: int, lastSeen: int,
                     bytesIn: int, bytesOut: int, flows: int, blocked: int, alerts: int,
                     isLocal: Option<bool>, source: Option<string>)

  // ------------------------------------------------------- private addresses

  function TrimLeft(s: string): string {
    if s != "" && (s[0] == ' ' || '\t' <= s[0] <= '\r') then TrimLeft(s[1..]) else s
  }

  function HexDigit(c: char): Option<int> {
    if '0' <= c <= '9' then Some(c as int - '0' as int)
    else if 'a' <= c <= 'f' then Some(c as int - 'a' as int + 10)
    else None
  }

  /** Bit 1 of the first byte of a hardware address; trailing space cannot matter. */
  predicate LocallyAdministered(mac: string) {
    var m := TrimLeft(mac);
    && |m| >= 2
    && var a, b := HexDigit(LowerChar(m[0])), HexDigit(LowerChar(m[1]));
       a.Some? && b.Some? && (16 * a.value + b.value) / 2 % 2 == 1
  }

  /** A maker name on a private address is dropped before the row is written. */
  function Vendor(u: Update): string {
    if LocallyAdministered(u.mac) && !Contains(u.vendor, "private address") then "" else u.vendor
  }

  // --------------------------------------------------------------- the upsert

  function SeenAt(u: Update, now: int): int { if u.lastSeen == 0 then now else u.lastSeen }

  predicate MacChanged(row: Row, u: Update) {
    u.mac != "" && row.mac.Some? && Lower(u.mac) != Lower(row.mac.value)
  }

  function Field(changed: bool, given: string, was: Option<string>): Option<string> {
    if changed then Nz(given) else Coalesce(Nz(given), was)
  }

  function Upsert(row: Option<Row>, u: Update, now: int): Row {
    var ls := SeenAt(u, now);
    match row
    case None =>
      Row(Nz(u.mac), Nz(u.name), Nz(Vendor(u)), Nz(u.zone), Nz(u.os), Nz(u.deviceType), ls, ls,
          u.bytesIn, u.bytesOut, u.flows, u.blocked, u.alerts, u.isLocal, Nz(u.source))
    case Some(r) =>
      var c := MacChanged(r, u);
      Row(Coalesce(Nz(u.mac), r.mac), Field(c, u.name, r.name), Field(c, Vendor(u), r.vendor),
          Field(c, u.zone, r.zone), Field(c, u.os, r.os), Field(c, u.deviceType, r.deviceType),
          r.firstSeen, Max(r.lastSeen, ls), r.bytesIn + u.bytesIn, r.bytesOut + u.bytesOut, r.flows + u.flows,
          r.blocked + u.blocked, r.alerts + u.alerts, Coalesce(u.isLocal, r.isLocal), Coalesce(Nz(u.source), r.source))
  }

  /** One update and the time of the batch it came in. */
  datatype Seen = Seen(now: int, u: Update)

  /** What happens to the table: an update, or retention by last-seen time. */
  datatype Event = Told(seen: Seen) | Retain(cut: int)

  function Apply(hosts: map<string, Row>, e: Event): map<string, Row> {
    match e
    case Told(s) => if s.u.ip == "" then hosts else hosts[s.u.ip := Upsert(Lookup(hosts, s.u.ip), s.u, s.now)]
    case Retain(cut) => map k | k in hosts && hosts[k].lastSeen >= cut :: hosts[k]
  }

  /** The table after a history of events, from an empty one. */
  function TableAfter(h: seq<Event>): map<string, Row> {
    if h == [] then map[] else Apply(TableAfter(h[..|h| - 1]), h[|h| - 1])
  }

  function At(now: int, ups: seq<Update>): seq<Event> {
    if ups == [] then [] else At(now, ups[..|ups| - 1]) + [Told(Seen(now, ups[|ups| - 1]))]
  }

  class Inventory {
    var hosts: map<string, Row>
    /** Every update ever given and every prune. */
    ghost var history: seq<Event>

    ghost predicate Valid() reads this { hosts == TableAfter(history) }

    constructor ()
      ensures Valid() && history == []
    {
      hosts, history := map[], [];
    }

    method UpsertHosts(now: int, ups: seq<Update>)
      requires Valid()
      modifies this
      ensures Valid() && history == old(history) + At(now, ups)
    {
      assert At(now, ups[..0]) == [];
      for i := 0 to |ups|
        invariant Valid() && history == old(history) + At(now, ups[..i])
      {
        assert ups[..i + 1][..i] == ups[..i];
        var u := ups[i];
        ghost var e := Told(Seen(now, u));
        assert (history + [e])[..|history|] == history;
        history := history + [e];
        if u.ip == "" {
          continue;
        }
        var v := u;
        if LocallyAdministered(u.mac) && !Contains(u.vendor, "private address") {
          v := v.(vendor := "");
        }
        UpsertSeesCleanVendor(Lookup(hosts, u.ip), u, v, now);
        hosts := hosts[u.ip := Upsert(Lookup(hosts, u.ip), v, now)];
      }
      assert ups[..|ups|] == ups;
    }

    /** Retention drops the hosts not seen since the cutoff. */
    method Prune(now: int, rollupDays: int)
      requires Valid()
      modifies this
      ensures Valid()
      ensures history == old(history) + [Retain(now - (if rollupDays > 0 then rollupDays else 400) * 86400)]
      ensures hosts == map k | k in old(hosts) &&
                old(hosts)[k].lastSeen >= now - (if rollupDays > 0 then rollupDays else 400) * 86400 :: old(hosts)[k]
    {
      var days := rollupDays;
      if days <= 0 {
        days := 400;
      }
      var cut := now - days * 86400;
      assert (history + [Retain(cut)])[..|history|] == history;
      history := history + [Retain(cut)];
      hosts := map k | k in hosts && hosts[k].lastSeen >= cut :: hosts[k];
    }
  }

  lemma UpsertSeesCleanVendor(row: Option<Row>, u: Update, v: Update, now: int)
    requires v == u.(vendor := Vendor(u))
    ensures Upsert(row, v, now) == Upsert(row, u, now)
  {
  }

  // ------------------------------------- what a row says, from the history alone

  datatype Attr = Name | Maker | Zone | Os | Kind

  function Given(u: Update, a: Attr): string {
    match a
    case Name => u.name
    case Maker => Vendor(u)
    case Zone => u.zone
    case Os => u.os
    case Kind => u.deviceType
  }

  function Has(r: Row, a: Attr): Option<string> {
    match a
    case Name => r.name
    case Maker => r.vendor
    case Zone => r.zone
    case Os => r.os
    case Kind => r.deviceType
  }

  /** Retention drops a row by the latest time in its updates. */
  predicate Drops(own: seq<Seen>, cut: int) { own != [] && Latest(own) < cut }

  /** The updates of one address since retention last dropped its row, in order. */
  function About(h: seq<Event>, ip: string): seq<Seen> {
    if h == [] then []
    else
      var own := About(h[..|h| - 1], ip);
      match h[|h| - 1]
      case Told(s) => own + if s.u.ip == ip then [s] else []
      case Retain(cut) => if Drops(own, cut) then [] else own
  }

  /** The hardware address an address is known by: the last one given. */
  function LastMac(h: seq<Seen>): string {
    if h == [] then "" else if h[|h| - 1].u.mac != "" then h[|h| - 1].u.mac else LastMac(h[..|h| - 1])
  }

  function LastSource(h: seq<Seen>): string {
    if h == [] then "" else if h[|h| - 1].u.source != "" then h[|h| - 1].u.source else LastSource(h[..|h| - 1])
  }

  function LastLocal(h: seq<Seen>): Option<bool> {
    if h == [] then None else if h[|h| - 1].u.isLocal.Some? then h[|h| - 1].u.isLocal else LastLocal(h[..|h| - 1])
  }

  /** The last update of h gives a different hardware address from the one known before it. */
  predicate Moves(h: seq<Seen>) {
    && h != [] && h[|h| - 1].u.mac != "" && LastMac(h[..|h| - 1]) != ""
    && Lower(h[|h| - 1].u.mac) != Lower(LastMac(h[..|h| - 1]))
  }

  /** The index of the update at which the address last moved to another device, 0 if it never did. */
  function LastMove(h: seq<Seen>): (i: nat)
    ensures h != [] ==> i < |h|
    ensures i > 0 ==> i < |h| && Moves(h[..i + 1])
  {
    if h == [] then 0
    else if Moves(h) then (assert h[..|h|] == h; |h| - 1)
    else
      var i := LastMove(h[..|h| - 1]);
      assert i > 0 ==> h[..|h| - 1][..i + 1] == h[..i + 1];
      i
  }

  /** No later update moves the address again. */
  lemma {:induction false} NoMoveAfterLast(h: seq<Seen>, j: nat)
    requires LastMove(h) < j < |h|
    ensures !Moves(h[..j + 1])
  {
    assert h[..|h|] == h;
    if j < |h| - 1 {
      NoMoveAfterLast(h[..|h| - 1], j);
      assert h[..|h| - 1][..j + 1] == h[..j + 1];
    }
  }

  /** The last non-empty value of an attribute given at or after index `from`, "" if there is none. */
  function LastGiven(h: seq<Seen>, from: nat, a: Attr): string {
    if |h| <= from then ""
    else if Given(h[|h| - 1].u, a) != "" then Given(h[|h| - 1].u, a)
    else LastGiven(h[..|h| - 1], from, a)
  }

  function Sum(h: seq<Seen>, f: Update -> int): int {
    if h == [] then 0 else Sum(h[..|h| - 1], f) + f(h[|h| - 1].u)
  }

  function Latest(h: seq<Seen>): int
    requires h != []
  {
    var ls := SeenAt(h[|h| - 1].u, h[|h| - 1].now);
    if |h| == 1 then ls else Max(Latest(h[..|h| - 1]), ls)
  }

  const BYTES_IN: Update -> int := (u: Update) => u.bytesIn
  const BYTES_OUT: Update -> int := (u: Update) => u.bytesOut
  const FLOWS: Update -> int := (u: Update) => u.flows
  const BLOCKED: Update -> int := (u: Update) => u.blocked
  const ALERTS: Update -> int := (u: Update) => u.alerts

  /** A row is what the updates of its address say. */
  ghost predicate Says(r: Row, h: seq<Seen>)
    requires h != []
  {
    && r.mac == Nz(LastMac(h)) && r.source == Nz(LastSource(h)) && r.isLocal == LastLocal(h)
    && (forall a: Attr :: Has(r, a) == Nz(LastGiven(h, LastMove(h), a)))
    && r.bytesIn == Sum(h, BYTES_IN) && r.bytesOut == Sum(h, BYTES_OUT) && r.flows == Sum(h, FLOWS)
    && r.blocked == Sum(h, BLOCKED) && r.alerts == Sum(h, ALERTS)
    && r.lastSeen == Latest(h) && r.firstSeen == SeenAt(h[0].u, h[0].now)
  }

  lemma LastGivenFromLast(h: seq<Seen>, a: Attr)
    requires h != []
    ensures LastGiven(h, |h| - 1, a) == Given(h[|h| - 1].u, a)
  {
  }

  /** One more update keeps a row in step with its history. */
  lemma UpsertSays(r: Row, h: seq<Seen>, s: Seen)
    requires h != [] && Says(r, h)
    ensures Says(Upsert(Some(r), s.u, s.now), h + [s])
  {
    var h' := h + [s];
    assert h'[..|h|] == h;
    var c := MacChanged(r, s.u);
    assert c == Moves(h');
    forall a: Attr
      ensures Has(Upsert(Some(r), s.u, s.now), a) == Nz(LastGiven(h', LastMove(h'), a))
    {
      assert Has(Upsert(Some(r), s.u, s.now), a) == Field(c, Given(s.u, a), Has(r, a));
      LastGivenFromLast(h', a);
    }
  }

  lemma FirstSays(s: Seen)
    ensures Says(Upsert(None, s.u, s.now), [s])
  {
    assert [s][..0] == [];
    forall a: Attr
      ensures Has(Upsert(None, s.u, s.now), a) == Nz(LastGiven([s], 0, a))
    {
      LastGivenFromLast([s], a);
    }
  }

  /** PROVENANCE: after any history of updates and prunes, a host has a row exactly when it was told of
      since retention last dropped it, and the row is exactly what those updates say. Its name, maker,
      zone, system and type are the last ones given since the address last moved to another hardware
      address; its counters are the sums; its last-seen time is the latest. */
  lemma {:induction false} RowsSayTheirHistory(h: seq<Event>, ip: string)
    requires ip != ""
    ensures ip in TableAfter(h) <==> About(h, ip) != []
    ensures ip in TableAfter(h) ==> Says(TableAfter(h)[ip], About(h, ip))
  {
    if h != [] {
      var front := h[..|h| - 1];
      var own := About(front, ip);
      RowsSayTheirHistory(front, ip);
      match h[|h| - 1]
      case Told(s) =>
        if s.u.ip != ip {
          assert About(h, ip) == own;
        } else if own == [] {
          assert About(h, ip) == [s];
          FirstSays(s);
        } else {
          UpsertSays(TableAfter(front)[ip], own, s);
        }
      case Retain(_) =>
    }
  }

  lemma {:induction false} LastGivenWasGiven(h: seq<Seen>, from: nat, a: Attr)
    requires LastGiven(h, from, a) != ""
    ensures exists i :: from <= i < |h| && Given(h[i].u, a) == LastGiven(h, from, a)
  {
    if Given(h[|h| - 1].u, a) == "" {
      LastGivenWasGiven(h[..|h| - 1], from, a);
      var i :| from <= i < |h| - 1 && Given(h[..|h| - 1][i].u, a) == LastGiven(h, from, a);
      assert h[i] == h[..|h| - 1][i];
    }
  }

  /** No identity survives a move: every value on a row was given at or after the last move. */
  lemma NothingInherited(h: seq<Event>, ip: string, a: Attr)
    requires ip != "" && ip in TableAfter(h) && Has(TableAfter(h)[ip], a).Some?
    ensures var own := About(h, ip);
      exists i :: LastMove(own) <= i < |own| && Some(Given(own[i].u, a)) == Has(TableAfter(h)[ip], a)
  {
    RowsSayTheirHistory(h, ip);
    var own := About(h, ip);
    LastGivenWasGiven(own, LastMove(own), a);
  }

  // --------------------------------------------------------- in plain terms

  predicate Hex(c: char) { '0' <= c <= '9' || 'a' <= c <= 'f' || 'A' <= c <= 'F' }

  predicate White(c: char) { c == ' ' || '\t' <= c <= '\r' }

  lemma Nibbles(x: int, y: int)
    requires 0 <= x && 0 <= y < 16
    ensures (16 * x + y) / 2 % 2 == y / 2 % 2
  {
    var q, r := y / 2, y % 2;
    assert 16 * x + y == 2 * (8 * x + q) + r;
    assert (16 * x + y) / 2 == 8 * x + q;
    assert 8 * x + q == 2 * (4 * x) + q;
  }

  lemma HexDigits(a: char, b: char)
    ensures HexDigit(LowerChar(a)).Some? <==> Hex(a)
    ensures Hex(a) && Hex(b) ==>
              ((16 * HexDigit(LowerChar(a)).value + HexDigit(LowerChar(b)).value) / 2 % 2 == 1 <==> b in "2367abefABEF")
  {
    HexDigitIs(a);
    HexDigitIs(b);
    if Hex(a) && Hex(b) {
      Nibbles(HexDigit(LowerChar(a)).value, HexDigit(LowerChar(b)).value);
    }
  }

  lemma HexDigitIs(c: char)
    ensures HexDigit(LowerChar(c)).Some? <==> Hex(c)
    ensures Hex(c) ==> 0 <= HexDigit(LowerChar(c)).value < 16
    ensures Hex(c) ==> (HexDigit(LowerChar(c)).value / 2 % 2 == 1 <==> c in "2367abefABEF")
    ensures !Hex(c) ==> c !in "2367abefABEF"
  {
  }

  /** WHICH ADDRESSES ARE PRIVATE: two hexadecimal digits first, the second one 2, 3, 6, 7, a, b, e or f;
      leading white space does not matter. */
  lemma PrivateIff(mac: string)
    ensures mac != "" && White(mac[0]) ==> LocallyAdministered(mac) == LocallyAdministered(mac[1..])
    ensures mac != "" && !White(mac[0]) ==>
              (LocallyAdministered(mac) <==> |mac| >= 2 && Hex(mac[0]) && mac[1] in "2367abefABEF")
    ensures !LocallyAdministered("")
  {
    if |mac| >= 2 {
      HexDigits(mac[0], mac[1]);
      HexDigitIs(mac[1]);
    }
  }

  /** The time an update speaks of: its own, or that of its batch when it has none. */
  predicate SpeaksOf(s: Seen, t: int) { t == if s.u.lastSeen != 0 then s.u.lastSeen else s.now }

  lemma {:induction false} LatestIsGreatest(h: seq<Seen>)
    requires h != []
    ensures exists i :: 0 <= i < |h| && SpeaksOf(h[i], Latest(h))
    ensures forall i, t :: 0 <= i < |h| && SpeaksOf(h[i], t) ==> t <= Latest(h)
  {
    var n := |h| - 1;
    if n > 0 {
      LatestIsGreatest(h[..n]);
      var i :| 0 <= i < n && SpeaksOf(h[..n][i], Latest(h[..n]));
      assert SpeaksOf(h[i], Latest(h[..n])) && SpeaksOf(h[n], SeenAt(h[n].u, h[n].now));
      forall i, t | 0 <= i < |h| && SpeaksOf(h[i], t)
        ensures t <= Latest(h)
      {
        if i < n { assert SpeaksOf(h[..n][i], t); }
      }
    } else {
      assert SpeaksOf(h[0], Latest(h));
    }
  }

  /** A host was first seen at the time its first update speaks of and last seen at the greatest. */
  lemma SeenTimes(h: seq<Event>, ip: string)
    requires ip != "" && ip in TableAfter(h)
    ensures var r, own := TableAfter(h)[ip], About(h, ip);
      && own != [] && SpeaksOf(own[0], r.firstSeen)
      && (exists i :: 0 <= i < |own| && SpeaksOf(own[i], r.lastSeen))
      && forall i, t :: 0 <= i < |own| && SpeaksOf(own[i], t) ==> t <= r.lastSeen
  {
    RowsSayTheirHistory(h, ip);
    LatestIsGreatest(About(h, ip));
  }

  /** A maker on a row was given as such, and not with a private hardware address unless it says so. */
  lemma MakerIsRegistered(h: seq<Event>, ip: string)
    requires ip != "" && ip in TableAfter(h) && TableAfter(h)[ip].vendor.Some?
    ensures var own, maker := About(h, ip), TableAfter(h)[ip].vendor.value;
      exists i :: LastMove(own) <= i < |own| && own[i].u.vendor == maker
                  && (LocallyAdministered(own[i].u.mac) ==> Contains(maker, "private address"))
  {
    var own, maker := About(h, ip), TableAfter(h)[ip].vendor.value;
    RowsSayTheirHistory(h, ip);
    assert Has(TableAfter(h)[ip], Maker) == Nz(LastGiven(own, LastMove(own), Maker));
    LastGivenWasGiven(own, LastMove(own), Maker);
    var i :| LastMove(own) <= i < |own| && Given(own[i].u, Maker) == maker;
    MakerGiven(own[i].u);
  }

  /** Any other maker given with an update is kept: what is dropped is exactly a maker on a private address. */
  lemma MakerGiven(u: Update)
    ensures Given(u, Maker) ==
            if LocallyAdministered(u.mac) && !Contains(u.vendor, "private address") then "" else u.vendor
  {
  }
}
