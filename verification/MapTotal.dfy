/** Sums over the rows of a table: SELECT SUM(...) WHERE sel(key). */
module MapTotal {
  import opened Common

  datatype Amount = Amount(bytesIn: int, bytesOut: int, flows: int)

  const ZERO := Amount(0, 0, 0)

  function Plus(a: Amount, b: Amount): Amount {
    Amount(a.bytesIn + b.bytesIn, a.bytesOut + b.bytesOut, a.flows + b.flows)
  }

  lemma PlusAssoc(a: Amount, b: Amount, c: Amount)
    ensures Plus(Plus(a, b), c) == Plus(a, Plus(b, c))
  {
  }

  ghost function Pick<K>(s: set<K>): (k: K)
    requires s != {}
    ensures k in s
  {
    var k :| k in s;
    k
  }

  /** The sum of f over a finite set. */
  ghost function Sum<K(!new)>(s: set<K>, f: K -> Amount): Amount
    decreases |s|
  {
    if s == {} then ZERO else Plus(f(Pick(s)), Sum(s - {Pick(s)}, f))
  }

  /** Any element may be taken out first. */
  lemma {:induction false} SumRemove<K(!new)>(s: set<K>, k: K, f: K -> Amount)
    requires k in s
    ensures Sum(s, f) == Plus(f(k), Sum(s - {k}, f))
    decreases |s|
  {
    var j := Pick(s);
    if j != k {
      SumRemove(s - {j}, k, f);
      SumRemove(s - {k}, j, f);
      assert s - {j} - {k} == s - {k} - {j};
    }
  }

  lemma {:induction false} SumAgree<K(!new)>(s: set<K>, f: K -> Amount, g: K -> Amount)
    requires forall k :: k in s ==> f(k) == g(k)
    ensures Sum(s, f) == Sum(s, g)
    decreases |s|
  {
    if s != {} {
      SumAgree(s - {Pick(s)}, f, g);
    }
  }

  /** Elements that contribute nothing may be added. */
  lemma {:induction false} SumWiden<K(!new)>(s: set<K>, t: set<K>, f: K -> Amount)
    requires s <= t && forall k :: k in t - s ==> f(k) == ZERO
    ensures Sum(s, f) == Sum(t, f)
    decreases |t - s|
  {
    if t - s != {} {
      var k := Pick(t - s);
      SumRemove(t, k, f);
      assert t - {k} - s == (t - s) - {k};
      SumWiden(s, t - {k}, f);
    } else {
      assert s == t;
    }
  }

  /** What row k contributes to a selective sum. */
  function Term<K, V>(m: map<K, V>, sel: K -> bool, amt: V -> Amount): K -> Amount {
    k => if k in m && sel(k) then amt(m[k]) else ZERO
  }

  ghost function Total<K(!new), V>(m: map<K, V>, sel: K -> bool, amt: V -> Amount): Amount {
    Sum(m.Keys, Term(m, sel, amt))
  }

  /** Tables that agree on the selected keys have the same sum. */
  lemma TotalAgree<K(!new), V(!new)>(m: map<K, V>, n: map<K, V>, sel: K -> bool, amt: V -> Amount)
    requires forall k :: sel(k) ==> Lookup(m, k) == Lookup(n, k)
    ensures Total(m, sel, amt) == Total(n, sel, amt)
  {
    var f, g, all := Term(m, sel, amt), Term(n, sel, amt), m.Keys + n.Keys;
    forall k
      ensures f(k) == g(k)
    {
      if sel(k) { assert Lookup(m, k) == Lookup(n, k); }
    }
    SumWiden(m.Keys, all, f);
    SumWiden(n.Keys, all, g);
    SumAgree(all, f, g);
  }

  lemma TermsElsewhere<K(!new), V(!new)>(m: map<K, V>, k: K, v: V, sel: K -> bool, amt: V -> Amount)
    ensures forall j :: j != k ==> Term(m, sel, amt)(j) == Term(m[k := v], sel, amt)(j)
  {
  }

  /** Writing one row moves the sum by the difference of the row. */
  lemma TotalPut<K(!new), V(!new)>(m: map<K, V>, k: K, v: V, sel: K -> bool, amt: V -> Amount)
    ensures Plus(Total(m[k := v], sel, amt), Term(m, sel, amt)(k)) ==
            Plus(Total(m, sel, amt), if sel(k) then amt(v) else ZERO)
  {
    var f, g, all := Term(m, sel, amt), Term(m[k := v], sel, amt), m.Keys + {k};
    assert Total(m[k := v], sel, amt) == Sum(all, g) by { assert m[k := v].Keys == all; }
    assert Total(m, sel, amt) == Sum(all, f) by { SumWiden(m.Keys, all, f); }
    assert Sum(all - {k}, f) == Sum(all - {k}, g) by {
      TermsElsewhere(m, k, v, sel, amt);
      SumAgree(all - {k}, f, g);
    }
    SumRemove(all, k, f);
    SumRemove(all, k, g);
  }
}
