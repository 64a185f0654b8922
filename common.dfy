/**
 * Helpers shared by the launcher modules: optional values, Java-style
 * integer arithmetic, first-match search and the string operations the
 * launcher code uses (substring test, ASCII lower-casing, split and join).
 */
module Common {

  /** A Java/Kotlin reference that may be null. */
  datatype Option<T> = None | Some(value: T)

  /** An outcome that may be an exception thrown by the source. */
  datatype Result<T> = Ok(value: T) | Failure(error: string)

  const INT_MIN: int := -0x8000_0000
  const INT_MAX: int := 0x7FFF_FFFF

  predicate IsInt32(x: int) { INT_MIN <= x <= INT_MAX }

  function Min(a: int, b: int): (r: int)
    ensures r <= a && r <= b && (r == a || r == b)
  {
    if a <= b then a else b
  }

  function Max(a: int, b: int): (r: int)
    ensures r >= a && r >= b && (r == a || r == b)
  {
    if a >= b then a else b
  }

  /** Java's `/` by a positive divisor: the quotient truncated toward zero. */
  function JavaDiv(a: int, b: int): (q: int)
    requires b > 0
    ensures a >= 0 ==> q == a / b
    ensures a < 0 ==> q == -((-a) / b)
  {
    if a >= 0 then a / b else -((-a) / b)
  }

  /** Java's `%` by a positive divisor: the remainder takes the sign of `a`. */
  function JavaRem(a: int, b: int): (r: int)
    requires b > 0
    ensures a == JavaDiv(a, b) * b + r
    ensures a >= 0 ==> 0 <= r < b
    ensures a < 0 ==> -b < r <= 0
  {
    if a >= 0 then a % b else -((-a) % b)
  }

  /** Java's `(int)` of a float or a double: the whole part, rounded toward zero. */
  function JavaIntOf(x: real): (i: int)
    ensures x >= 0.0 ==> i as real <= x < i as real + 1.0
    ensures x < 0.0 ==> i as real - 1.0 < x <= i as real
  {
    if x >= 0.0 then x.Floor else -((-x).Floor)
  }

  // ------------------------------------------------------ integer helpers

  lemma MulMono(a: int, b: int, m: int)
    requires a <= b && m >= 0
    ensures a * m <= b * m
  {
    assert b * m - a * m == (b - a) * m;
  }

  lemma MulSucc(q: int, m: int)
    ensures (q + 1) * m == q * m + m
  {
  }

  lemma DivModIdentity(a: int, m: int)
    requires m > 0
    ensures a == (a / m) * m + a % m && 0 <= a % m < m
  {
  }

  /** Quotient and remainder are determined by `a == q * m + r` with `0 <= r < m`. */
  lemma DivModUnique(a: int, m: int, q: int, r: int)
    requires m > 0 && 0 <= r < m && a == q * m + r
    ensures a / m == q && a % m == r
  {
    var q0, r0 := a / m, a % m;
    if q0 > q {
      MulMono(q + 1, q0, m);
      MulSucc(q, m);
      assert false;
    } else if q0 < q {
      MulMono(q0 + 1, q, m);
      MulSucc(q0, m);
      assert false;
    }
  }

  /** Stepping a natural number by one steps its remainder, wrapping to 0. */
  lemma ModSucc(a: nat, m: nat)
    requires m > 0
    ensures (a + 1) % m == if a % m == m - 1 then 0 else a % m + 1
    ensures (a + 1) / m == if a % m == m - 1 then a / m + 1 else a / m
  {
    MulSucc(a / m, m);
    if a % m == m - 1 {
      DivModUnique(a + 1, m, a / m + 1, 0);
    } else {
      DivModUnique(a + 1, m, a / m, a % m + 1);
    }
  }

  lemma MulStrict(x: int, y: int, m: int)
    requires m > 0 && x * m < y * m
    ensures x < y
  {
    if x >= y {
      MulMono(y, x, m);
    }
  }

  lemma DivMono(a: nat, b: nat, m: nat)
    requires a <= b && m > 0
    ensures a / m <= b / m
  {
    MulSucc(b / m, m);
    MulStrict(a / m, b / m + 1, m);
  }

  /** The first index of `x` in `s`, or -1 (Java's `List.indexOf`). */
  function IndexOf<T(==)>(s: seq<T>, x: T): (r: int)
    ensures -1 <= r < |s|
    ensures r == -1 <==> x !in s
    ensures r >= 0 ==> s[r] == x && forall j :: 0 <= j < r ==> s[j] != x
  {
    if |s| == 0 then -1
    else if s[0] == x then 0
    else
      var k := IndexOf(s[1..], x);
      if k == -1 then -1 else k + 1
  }

  /** A position holding `x` with no `x` before it is where `IndexOf` finds `x`. */
  lemma IndexOfAt<T>(s: seq<T>, x: T, w: nat)
    requires w < |s| && s[w] == x && forall j :: 0 <= j < w ==> s[j] != x
    ensures IndexOf(s, x) == w
  {
    assert x in s;
  }

  /** The last index of `x` in `s`, or -1 (Java's `List.lastIndexOf`). */
  function LastIndexOf<T(==)>(s: seq<T>, x: T): (r: int)
    ensures -1 <= r < |s|
    ensures r == -1 <==> x !in s
    ensures r >= 0 ==> s[r] == x && forall j :: r < j < |s| ==> s[j] != x
  {
    if |s| == 0 then -1
    else if s[|s| - 1] == x then |s| - 1
    else LastIndexOf(s[..|s| - 1], x)
  }

  /** `[lo, lo + 1, ..., hi - 1]`, empty when `hi <= lo`. */
  function Range(lo: int, hi: int): (r: seq<int>)
    ensures |r| == if hi <= lo then 0 else hi - lo
    ensures forall k :: 0 <= k < |r| ==> r[k] == lo + k
    decreases hi - lo
  {
    if hi <= lo then [] else Range(lo, hi - 1) + [hi - 1]
  }

  /** `n` copies of `x`. */
  function Repeat<T>(x: T, n: nat): (r: seq<T>)
    ensures |r| == n && forall k :: 0 <= k < n ==> r[k] == x
  {
    if n == 0 then [] else Repeat(x, n - 1) + [x]
  }

  /** `s` without its element at `i` (`List.remove(int)`). */
  function RemoveAt<T>(s: seq<T>, i: nat): (r: seq<T>)
    requires i < |s|
    ensures |r| == |s| - 1
  {
    s[..i] + s[i + 1..]
  }

  lemma RemoveAtIndex<T>(s: seq<T>, i: nat, k: nat)
    requires i < |s| && k < |s| - 1
    ensures RemoveAt(s, i)[k] == if k < i then s[k] else s[k + 1]
  {
  }

  lemma RemoveAtMultiset<T>(s: seq<T>, i: nat)
    requires i < |s|
    ensures multiset(s) == multiset(RemoveAt(s, i)) + multiset{s[i]}
  {
    assert s == s[..i] + [s[i]] + s[i + 1..];
  }

  /** The number of elements of `s` satisfying the boolean flag. */
  function CountTrue(s: seq<bool>): (n: nat)
    ensures n <= |s|
  {
    if |s| == 0 then 0 else CountTrue(s[..|s| - 1]) + (if s[|s| - 1] then 1 else 0)
  }

  /** Setting one position changes the number of true positions by the difference. */
  lemma {:induction false} CountTrueUpdate(s: seq<bool>, p: nat, b: bool)
    requires p < |s|
    ensures CountTrue(s[p := b]) == CountTrue(s) - (if s[p] then 1 else 0) + (if b then 1 else 0)
    decreases |s|
  {
    var n := |s| - 1;
    var t := s[p := b];
    assert t[..n] == if p < n then s[..n][p := b] else s[..n];
    if p < n {
      CountTrueUpdate(s[..n], p, b);
    }
  }

  // ---------------------------------------------------------------- strings

  /** `s` contains `t` as a contiguous substring (Java's `String.contains`). */
  predicate Contains(s: string, t: string)
  {
    exists i | 0 <= i <= |s| :: OccursAt(s, t, i)
  }

  /** `t` occurs in `s` starting at index `i`. */
  predicate OccursAt(s: string, t: string, i: int)
  {
    0 <= i && i + |t| <= |s| && s[i..i + |t|] == t
  }

  function LowerChar(c: char): (d: char)
    ensures 'A' <= c <= 'Z' ==> d as int == c as int + 32
    ensures !('A' <= c <= 'Z') ==> d == c
  {
    if 'A' <= c <= 'Z' then (c as int + 32) as char else c
  }

  /** `toLowerCase` restricted to ASCII letters. */
  function Lower(s: string): (r: string)
    ensures |r| == |s| && forall k :: 0 <= k < |s| ==> r[k] == LowerChar(s[k])
  {
    if |s| == 0 then [] else Lower(s[..|s| - 1]) + [LowerChar(s[|s| - 1])]
  }

  /**
   * Kotlin's `split(c)`: the maximal separator-free pieces, always at least
   * one (the empty string splits into `[""]`).
   */
  function Split(s: string, c: char): (parts: seq<string>)
    ensures |parts| >= 1
    ensures forall k :: 0 <= k < |parts| ==> c !in parts[k]
    ensures c !in s ==> parts == [s]
    decreases |s|
  {
    if c !in s then [s]
    else
      var i := IndexOf(s, c);
      [s[..i]] + Split(s[i + 1..], c)
  }

  /** `joinToString(c)`: the parts with one separator between neighbours. */
  function Join(parts: seq<string>, c: char): (s: string)
    ensures |parts| == 1 ==> s == parts[0]
  {
    if |parts| == 0 then ""
    else if |parts| == 1 then parts[0]
    else parts[0] + [c] + Join(parts[1..], c)
  }

  /** Splitting undoes joining when no part holds the separator. */
  lemma {:induction false} SplitJoin(parts: seq<string>, c: char)
    requires |parts| >= 1
    requires forall k :: 0 <= k < |parts| ==> c !in parts[k]
    ensures Split(Join(parts, c), c) == parts
    decreases |parts|
  {
    if |parts| > 1 {
      assert [parts[0]] + parts[1..] == parts;
      JoinCons(parts[0], parts[1..], c);
      SplitFirst(parts[0], c, Join(parts[1..], c));
      SplitJoin(parts[1..], c);
    }
  }

  /** A sequence is its part before `i`, its element at `i`, and its part after. */
  lemma Reassemble<T>(s: seq<T>, i: nat)
    requires i < |s|
    ensures s[..i] + [s[i]] + s[i + 1..] == s
  {
  }

  /** Joining a part in front of at least one more puts one separator after it. */
  lemma JoinCons(head: string, rest: seq<string>, c: char)
    requires |rest| >= 1
    ensures Join([head] + rest, c) == head + [c] + Join(rest, c)
  {
    assert ([head] + rest)[1..] == rest;
  }

  /** Joining the pieces of a split gives the string back. */
  lemma {:induction false} JoinSplit(s: string, c: char)
    ensures Join(Split(s, c), c) == s
    decreases |s|
  {
    if c in s {
      var i := IndexOf(s, c);
      var rest := Split(s[i + 1..], c);
      JoinCons(s[..i], rest, c);
      JoinSplit(s[i + 1..], c);
      Reassemble(s, i);
    }
  }

  /** A string whose first separator follows `head` splits into `head` and the pieces of the rest. */
  lemma SplitFirst(head: string, c: char, tail: string)
    requires c !in head
    ensures Split(head + [c] + tail, c) == [head] + Split(tail, c)
  {
    var s := head + [c] + tail;
    assert s[|head|] == c;
    assert IndexOf(s, c) == |head| by {
      assert forall j :: 0 <= j < |head| ==> s[j] == head[j];
    }
    assert s[..|head|] == head;
    assert s[|head| + 1..] == tail;
  }

  /** Kotlin's `isNullOrBlank` for a present string: only whitespace. */
  predicate IsBlank(s: string)
  {
    forall k :: 0 <= k < |s| ==> s[k] == ' ' || s[k] == '\t' || s[k] == '\n' || s[k] == '\r'
  }
}
