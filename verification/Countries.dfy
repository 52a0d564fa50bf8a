/** Stamping countries on flows with a memo table (store.go:1214-1271). The two lookups are functions;
    either may be absent. */
module Countries {
  import opened Common

  datatype Flow = Flow(src: string, dst: string, country: string, anycast: bool)

  /** The lookups a call is given, deterministic while it runs. */
  datatype Lookups = Lookups(country: Option<string -> string>, anycast: Option<string -> bool>,
                             isLocal: Option<string -> bool>)

  datatype Answer = Answer(cc: string, anycast: bool)

  const NOTHING := Answer("", false)

  /** Asking both lookups about an address. */
  function Ask(l: Lookups, ip: string): Answer {
    Answer(if l.country.Some? then l.country.value(ip) else "", l.anycast.Some? && l.anycast.value(ip))
  }

  /** An address that is looked up at all: known and not local. */
  predicate Remote(l: Lookups, ip: string) {
    ip != "" && !(l.isLocal.Some? && l.isLocal.value(ip))
  }

  predicate Useful(a: Answer) { a.cc != "" || a.anycast }

  /** The answer for the far end: the destination's if it says anything, else the source's if that does. */
  function FarEnd(l: Lookups, f: Flow): Answer {
    var d := if Remote(l, f.dst) then Ask(l, f.dst) else NOTHING;
    var s := if Remote(l, f.src) then Ask(l, f.src) else NOTHING;
    if Useful(d) then d else if Useful(s) then s else NOTHING
  }

  /** One flow stamped without a memo. */
  function Fill(l: Lookups, f: Flow): Flow {
    var a := FarEnd(l, f);
    if l.country.None? && l.anycast.None? then f
    else Flow(f.src, f.dst, if f.country == "" then a.cc else f.country, f.anycast || a.anycast)
  }

  class Filler {
    const l: Lookups
    var memo: map<string, Answer>

    /** What is remembered is what would be answered. */
    ghost predicate Valid() reads this { forall ip :: ip in memo ==> memo[ip] == Ask(l, ip) }

    constructor (l: Lookups)
      ensures this.l == l && memo == map[] && Valid()
    {
      this.l, memo := l, map[];
    }

    method Far(ip: string) returns (a: Answer, ok: bool)
      requires Valid()
      modifies this`memo
      ensures Valid() && ok == Remote(l, ip) && a == if ok then Ask(l, ip) else NOTHING
    {
      if ip == "" || (l.isLocal.Some? && l.isLocal.value(ip)) {
        return NOTHING, false;
      }
      if ip in memo {
        return memo[ip], true;
      }
      var v := NOTHING;
      if l.country.Some? {
        v := v.(cc := l.country.value(ip));
      }
      if l.anycast.Some? {
        v := v.(anycast := l.anycast.value(ip));
      }
      memo := memo[ip := v];
      return v, true;
    }

    /** Stamps the flows in place. */
    method FillCountries(flows: array<Flow>)
      requires Valid()
      modifies this`memo, flows
      ensures Valid()
      ensures forall i :: 0 <= i < flows.Length ==> flows[i] == Fill(l, old(flows[i]))
    {
      if l.country.None? && l.anycast.None? {
        return;
      }
      for i := 0 to flows.Length
        invariant Valid()
        invariant forall k :: 0 <= k < i ==> flows[k] == Fill(l, old(flows[k]))
        invariant forall k :: i <= k < flows.Length ==> flows[k] == old(flows[k])
      {
        if flows[i].country != "" && flows[i].anycast {
          continue;
        }
        var v, ok := Far(flows[i].dst);
        if !ok || (v.cc == "" && !v.anycast) {
          var v2, ok2 := Far(flows[i].src);
          if ok2 && (v2.cc != "" || v2.anycast) {
            v := v2;
          }
        }
        if flows[i].country == "" {
          flows[i] := flows[i].(country := v.cc);
        }
        if v.anycast {
          flows[i] := flows[i].(anycast := true);
        }
      }
    }
  }

  /** THE STAMP, from the lookups alone: an end is heard when it has an address that is not local and its
      lookups say anything; the destination is heard before the source. An empty country becomes the
      answer of the end heard, and its anycast answer is added to the mark. */
  lemma StampIsFarEnds(l: Lookups, f: Flow)
    ensures var cc := (ip: string) => if l.country.Some? then l.country.value(ip) else "";
            var any := (ip: string) => l.anycast.Some? && l.anycast.value(ip);
            var remote := (ip: string) => ip != "" && (l.isLocal.None? || !l.isLocal.value(ip));
            var heard := (ip: string) => remote(ip) && (cc(ip) != "" || any(ip));
            var g := Fill(l, f);
      && g.src == f.src && g.dst == f.dst
      && g.country == (if f.country != "" then f.country
                       else if heard(f.dst) then cc(f.dst)
                       else if heard(f.src) then cc(f.src) else "")
      && (g.anycast <==> f.anycast || (heard(f.dst) && any(f.dst)) || (!heard(f.dst) && heard(f.src) && any(f.src)))
  {
  }

  /** A known country and an anycast mark stay; stamping twice is stamping once; and a stamp comes from a
      remote end of the flow. */
  lemma FillKeepsAndSettles(l: Lookups, f: Flow)
    ensures f.country != "" ==> Fill(l, f).country == f.country
    ensures f.anycast ==> Fill(l, f).anycast
    ensures Fill(l, Fill(l, f)) == Fill(l, f)
    ensures Fill(l, f).country != f.country ==>
              exists ip :: ip in {f.src, f.dst} && Remote(l, ip) && Ask(l, ip).cc == Fill(l, f).country
    ensures Fill(l, f).anycast && !f.anycast ==>
              exists ip :: ip in {f.src, f.dst} && Remote(l, ip) && Ask(l, ip).anycast
  {
    var g := Fill(l, f);
    assert FarEnd(l, g) == FarEnd(l, f);
    assert f.src in {f.src, f.dst} && f.dst in {f.src, f.dst};
  }
}
