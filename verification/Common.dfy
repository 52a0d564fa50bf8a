/** Shared vocabulary: optional values, Go and SQLite integer arithmetic, byte-wise string order. */
module Common {

  datatype Option<T> = None | Some(value: T)

  /** SQL NULL for the empty string, as `nz` in the store (store.go:489-494). */
  function Nz(s: string): Option<string> {
    if s == "" then None else Some(s)
  }

  /** SQL COALESCE(a, b). */
  function Coalesce<T>(a: Option<T>, b: Option<T>): Option<T> {
    if a.Some? then a else b
  }

  function OrElse<T>(a: Option<T>, default: T): T {
    if a.Some? then a.value else default
  }

  function Lookup<K, V>(m: map<K, V>, k: K): Option<V> {
    if k in m then Some(m[k]) else None
  }

  newtype byte = x: int | 0 <= x < 256

  function Max(a: int, b: int): int { if a < b then b else a }

  /** Integer division truncating toward zero, as in Go and SQLite. */
  function TruncDiv(a: int, b: int): int
    requires b != 0
  {
    if a >= 0 then (if b > 0 then a / b else -(a / -b))
    else (if b > 0 then -(-a / b) else -a / -b)
  }

  const TWO63: int := 0x8000_0000_0000_0000
  const TWO64: int := 0x1_0000_0000_0000_0000

  /** The value of a Go int64 after wrap-around. */
  function Wrap64(x: int): int {
    (x + TWO63) % TWO64 - TWO63
  }

  /** Byte-wise "less than" on strings, as Go's `<` and SQLite's BINARY collation. */
  predicate StrLess(a: string, b: string) {
    b != "" && (a == "" || a[0] < b[0] || (a[0] == b[0] && StrLess(a[1..], b[1..])))
  }

  lemma {:induction false} StrLessTrans(a: string, b: string, c: string)
    requires StrLess(a, b) && StrLess(b, c)
    ensures StrLess(a, c)
  {
    if a != "" && a[0] == b[0] && b[0] == c[0] {
      StrLessTrans(a[1..], b[1..], c[1..]);
    }
  }

  lemma {:induction false} StrLessTotal(a: string, b: string)
    ensures a == b || StrLess(a, b) || StrLess(b, a)
    ensures !(StrLess(a, b) && StrLess(b, a))
    ensures !StrLess(a, a)
  {
    if a != "" && b != "" {
      StrLessTotal(a[1..], b[1..]);
      assert a == [a[0]] + a[1..] && b == [b[0]] + b[1..];
    }
    if a != "" {
      StrLessTotal(a[1..], a[1..]);
    }
  }

  /** ASCII lower case. */
  function LowerChar(c: char): char { if 'A' <= c <= 'Z' then c + ' ' else c }

  function Lower(s: string): (r: string)
    ensures |r| == |s| && forall i :: 0 <= i < |s| ==> r[i] == LowerChar(s[i])
  {
    seq(|s|, i requires 0 <= i < |s| => LowerChar(s[i]))
  }

  /** strings.Contains */
  predicate Contains(s: string, x: string) { exists i | 0 <= i <= |s| :: OccursAt(s, x, i) }

  predicate OccursAt(s: string, x: string, i: int) { 0 <= i <= |s| - |x| && s[i..i + |x|] == x }

  /** Lower case moves the 26 capitals and nothing else. */
  lemma LowerSays(c: char)
    ensures LowerChar(c) as int == c as int + if 65 <= c as int <= 90 then 32 else 0
  {
  }

  /** A string contains another exactly when it is something before it and something after it. */
  lemma ContainsIff(s: string, x: string)
    ensures Contains(s, x) <==> exists a: string, b: string :: s == a + x + b
  {
    if Contains(s, x) {
      var i :| 0 <= i <= |s| && OccursAt(s, x, i);
      assert s == s[..i] + x + s[i + |x|..];
    }
    if exists a: string, b: string :: s == a + x + b {
      var a: string, b: string :| s == a + x + b;
      assert s[|a|..|a| + |x|] == x;
      assert OccursAt(s, x, |a|);
    }
  }
}
