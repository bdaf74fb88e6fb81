/** Generic sequence and string helpers shared by the fontdeck model:
    the JavaScript array and string operations the source relies on
    (`filter`, `includes`, `join`, `toLowerCase`, `split('.').pop()`, `Set`
    insertion order), written once here. */
module Common {

  datatype Option<T> = None | Some(value: T) {
    function GetOr(default: T): T {
      match this
      case Some(v) => v
      case None => default
    }
  }

  function OptionToSeq<T>(o: Option<T>): (r: seq<T>)
    ensures |r| <= 1
    ensures o.None? ==> r == []
    ensures o.Some? ==> r == [o.value]
  {
    match o
    case Some(v) => [v]
    case None => []
  }

  // ---------------------------------------------------------------------------
  // Order-preserving subsequences and `Array.prototype.filter`
  // ---------------------------------------------------------------------------

  /** `r` can be obtained from `s` by deleting elements (order preserved). */
  ghost predicate IsSubsequence<T>(r: seq<T>, s: seq<T>)
    decreases |s|
  {
    if r == [] then true
    else if s == [] then false
    else if r[0] == s[0] then IsSubsequence(r[1..], s[1..])
    else IsSubsequence(r, s[1..])
  }

  lemma {:induction false} SubsequenceRefl<T>(s: seq<T>)
    ensures IsSubsequence(s, s)
    decreases |s|
  {
    if s != [] { SubsequenceRefl(s[1..]); }
  }

  /** `s.filter(p)`. */
  function Filter<T(==,!new)>(s: seq<T>, p: T -> bool): (r: seq<T>)
    ensures |r| <= |s|
    ensures forall x :: x in r <==> x in s && p(x)
    decreases |s|
  {
    if s == [] then []
    else
      var rest := Filter(s[1..], p);
      if p(s[0]) then [s[0]] + rest else rest
  }

  /** What `filter` keeps stays in its original order. */
  lemma {:induction false} FilterIsSubsequence<T(!new)>(s: seq<T>, p: T -> bool)
    ensures IsSubsequence(Filter(s, p), s)
    decreases |s|
  {
    if s != [] {
      var rest := Filter(s[1..], p);
      FilterIsSubsequence(s[1..], p);
      if p(s[0]) {
        assert ([s[0]] + rest)[1..] == rest;
      } else if rest != [] {
        assert rest[0] in rest;
      }
    }
  }

  lemma {:induction false} FilterAppend<T(!new)>(a: seq<T>, b: seq<T>, p: T -> bool)
    ensures Filter(a + b, p) == Filter(a, p) + Filter(b, p)
    decreases |a|
  {
    if a == [] {
      assert a + b == b;
    } else {
      assert (a + b)[0] == a[0];
      assert (a + b)[1..] == a[1..] + b;
      FilterAppend(a[1..], b, p);
    }
  }

  /** Filtering with a predicate every element satisfies changes nothing. */
  lemma {:induction false} FilterAllPass<T(!new)>(s: seq<T>, p: T -> bool)
    requires forall i :: 0 <= i < |s| ==> p(s[i])
    ensures Filter(s, p) == s
    decreases |s|
  {
    if s != [] {
      FilterAllPass(s[1..], p);
    }
  }

  /** Filters whose predicates agree on the elements of `s` agree. */
  lemma {:induction false} FilterCongruent<T(!new)>(s: seq<T>, p: T -> bool, q: T -> bool)
    requires forall i :: 0 <= i < |s| ==> p(s[i]) == q(s[i])
    ensures Filter(s, p) == Filter(s, q)
    decreases |s|
  {
    if s != [] {
      FilterCongruent(s[1..], p, q);
    }
  }

  /** Two filters in a row keep what both predicates accept. */
  lemma {:induction false} FilterFilter<T(!new)>(s: seq<T>, p: T -> bool, q: T -> bool, both: T -> bool)
    requires forall i :: 0 <= i < |s| ==> both(s[i]) == (p(s[i]) && q(s[i]))
    ensures Filter(Filter(s, p), q) == Filter(s, both)
    decreases |s|
  {
    if s != [] {
      FilterFilter(s[1..], p, q, both);
      if p(s[0]) {
        assert Filter(s, p) == [s[0]] + Filter(s[1..], p);
        assert Filter(s, p)[1..] == Filter(s[1..], p);
      }
    }
  }

  /** The concatenation of `f(x)` for each `x` of `s`, in order (`flatMap`). */
  function FlatMap<T, U>(s: seq<T>, f: T -> seq<U>): (r: seq<U>)
    decreases |s|
  {
    if s == [] then [] else f(s[0]) + FlatMap(s[1..], f)
  }

  lemma {:induction false} FlatMapAppend<T, U>(a: seq<T>, b: seq<T>, f: T -> seq<U>)
    ensures FlatMap(a + b, f) == FlatMap(a, f) + FlatMap(b, f)
    decreases |a|
  {
    if a == [] {
      assert a + b == b;
    } else {
      assert (a + b)[0] == a[0];
      assert (a + b)[1..] == a[1..] + b;
      FlatMapAppend(a[1..], b, f);
    }
  }

  // ---------------------------------------------------------------------------
  // Insertion-ordered distinct values (`Array.from(new Set(s))`)
  // ---------------------------------------------------------------------------

  predicate NoDuplicates<T(==)>(s: seq<T>) {
    forall i, j :: 0 <= i < j < |s| ==> s[i] != s[j]
  }

  /** Index of the first occurrence of `x` in `s`. */
  function FirstIndex<T(==)>(s: seq<T>, x: T): (k: nat)
    requires x in s
    ensures k < |s| && s[k] == x
    ensures forall j :: 0 <= j < k ==> s[j] != x
    decreases |s|
  {
    if s[0] == x then 0 else 1 + FirstIndex(s[1..], x)
  }

  lemma {:induction false} FirstIndexOfPrefix<T>(s: seq<T>, extra: seq<T>, x: T)
    requires x in s
    ensures x in s + extra && FirstIndex(s + extra, x) == FirstIndex(s, x)
  {
    var k := FirstIndex(s, x);
    var k' := FirstIndex(s + extra, x);
    assert (s + extra)[k] == x;
    assert forall j :: 0 <= j < |s| ==> (s + extra)[j] == s[j];
  }

  /** The values of `s` without repeats, in first-occurrence order: a JavaScript
      `Set` built by adding the elements of `s` one by one. */
  function Distinct<T(==,!new)>(s: seq<T>): (r: seq<T>)
    ensures forall x :: x in r <==> x in s
    decreases |s|
  {
    if s == [] then []
    else
      var d := Distinct(s[..|s| - 1]);
      var last := s[|s| - 1];
      if last in d then d else d + [last]
  }

  /** `Distinct` holds each value once. */
  lemma {:induction false} DistinctNoDuplicates<T(!new)>(s: seq<T>)
    ensures NoDuplicates(Distinct(s))
    decreases |s|
  {
    if s != [] {
      DistinctNoDuplicates(s[..|s| - 1]);
    }
  }

  /** `Distinct` lists the values in the order of their first occurrence. */
  lemma {:induction false} DistinctOrder<T(!new)>(s: seq<T>)
    ensures forall i, j :: 0 <= i < j < |Distinct(s)| ==>
      FirstIndex(s, Distinct(s)[i]) < FirstIndex(s, Distinct(s)[j])
    decreases |s|
  {
    if s != [] {
      var init := s[..|s| - 1];
      var last := s[|s| - 1];
      assert s == init + [last];
      DistinctOrder(init);
      var d := Distinct(init);
      forall x | x in d ensures FirstIndex(s, x) == FirstIndex(init, x) {
        FirstIndexOfPrefix(init, [last], x);
      }
      if last !in d {
        assert FirstIndex(s, last) == |s| - 1;
      }
    }
  }

  // ---------------------------------------------------------------------------
  // Strings
  // ---------------------------------------------------------------------------

  predicate StartsWith(s: string, prefix: string) {
    |prefix| <= |s| && s[..|prefix|] == prefix
  }

  predicate EndsWith(s: string, suffix: string) {
    |suffix| <= |s| && s[|s| - |suffix|..] == suffix
  }

  /** `s.includes(sub)`: `sub` occurs in `s` at some position. */
  predicate Contains(s: string, sub: string)
    decreases |s|
  {
    StartsWith(s, sub) || (|s| > 0 && Contains(s[1..], sub))
  }

  /** `sub` occurs in `s` starting at position `k`. */
  predicate OccursAt(s: string, sub: string, k: int) {
    0 <= k <= |s| - |sub| && s[k..k + |sub|] == sub
  }

  /** Substring occurrence stated with an explicit position. */
  lemma {:induction false} ContainsAt(s: string, sub: string)
    ensures Contains(s, sub) <==> exists k :: OccursAt(s, sub, k)
    decreases |s|
  {
    if StartsWith(s, sub) {
      assert OccursAt(s, sub, 0);
    }
    if |s| > 0 {
      ContainsAt(s[1..], sub);
      if Contains(s[1..], sub) {
        var k :| OccursAt(s[1..], sub, k);
        assert s[k + 1..k + 1 + |sub|] == s[1..][k..k + |sub|];
        assert OccursAt(s, sub, k + 1);
      }
      if k :| OccursAt(s, sub, k) {
        if k > 0 {
          assert s[1..][k - 1..k - 1 + |sub|] == s[k..k + |sub|];
          assert OccursAt(s[1..], sub, k - 1);
        } else {
          assert StartsWith(s, sub);
        }
      }
    } else {
      if k :| OccursAt(s, sub, k) {
        assert StartsWith(s, sub);
      }
    }
  }

  /** An occurrence of `mid` inside an occurrence of `sub` is an occurrence in `s`. */
  lemma ContainsTransitive(s: string, sub: string, mid: string)
    requires Contains(s, sub) && Contains(sub, mid)
    ensures Contains(s, mid)
  {
    ContainsAt(s, sub);
    ContainsAt(sub, mid);
    var k :| OccursAt(s, sub, k);
    var m :| OccursAt(sub, mid, m);
    forall i | 0 <= i < |mid| ensures s[k + m + i] == mid[i] {
      assert s[k + m + i] == s[k..k + |sub|][m + i];
      assert sub[m + i] == sub[m..m + |mid|][i];
    }
    assert s[k + m..k + m + |mid|] == mid;
    assert OccursAt(s, mid, k + m);
    ContainsAt(s, mid);
  }

  lemma EndsWithContains(s: string, suffix: string)
    requires EndsWith(s, suffix)
    ensures Contains(s, suffix)
  {
    ContainsAt(s, suffix);
    assert OccursAt(s, suffix, |s| - |suffix|);
  }

  /** The element strings of `parts` separated by `sep` (`parts.join(sep)`). */
  function Join(parts: seq<string>, sep: string): string
    decreases |parts|
  {
    if parts == [] then ""
    else if |parts| == 1 then parts[0]
    else parts[0] + sep + Join(parts[1..], sep)
  }

  /** ASCII case mapping: `toLowerCase` / `toUpperCase` restricted to A-Z / a-z. */
  function LowerChar(c: char): char {
    if 'A' <= c <= 'Z' then (c as int + 32) as char else c
  }

  function UpperChar(c: char): char {
    if 'a' <= c <= 'z' then (c as int - 32) as char else c
  }

  function ToLower(s: string): (r: string)
    ensures |r| == |s|
    ensures forall i :: 0 <= i < |s| ==> r[i] == LowerChar(s[i])
    decreases |s|
  {
    if s == [] then [] else [LowerChar(s[0])] + ToLower(s[1..])
  }

  function ToUpper(s: string): (r: string)
    ensures |r| == |s|
    ensures forall i :: 0 <= i < |s| ==> r[i] == UpperChar(s[i])
    decreases |s|
  {
    if s == [] then [] else [UpperChar(s[0])] + ToUpper(s[1..])
  }

  lemma ToLowerAppend(a: string, b: string)
    ensures ToLower(a + b) == ToLower(a) + ToLower(b)
  {
    assert forall i :: 0 <= i < |a + b| ==> ToLower(a + b)[i] == (ToLower(a) + ToLower(b))[i];
  }

  /** The text after the last `sep` in `s`, or all of `s` when `sep` does not
      occur: `s.split(sep).pop()`. */
  function LastSegment(s: string, sep: char): (r: string)
    ensures |r| <= |s| && EndsWith(s, r)
    ensures sep !in r
    ensures |r| == |s| || s[|s| - |r| - 1] == sep
    decreases |s|
  {
    if s == [] then []
    else if s[|s| - 1] == sep then []
    else
      var r := LastSegment(s[..|s| - 1], sep) + [s[|s| - 1]];
      assert s[..|s| - 1][|s| - |r|..] + [s[|s| - 1]] == s[|s| - |r|..];
      r
  }

  /** A suffix of `s` without `sep`, preceded by `sep` or making up all of
      `s`, is the last segment. */
  lemma LastSegmentUnique(s: string, sep: char, r: string)
    requires EndsWith(s, r) && sep !in r
    requires |r| == |s| || s[|s| - |r| - 1] == sep
    ensures r == LastSegment(s, sep)
  {
    assert r == s[|s| - |r|..];
  }

  /** Lower-casing keeps exactly the dots. */
  lemma DotsSurviveLowering(s: string)
    ensures '.' in ToLower(s) <==> '.' in s
  {
    var lower := ToLower(s);
    if '.' in s {
      var i :| 0 <= i < |s| && s[i] == '.';
      assert lower[i] == '.';
    }
    if '.' in lower {
      var i :| 0 <= i < |lower| && lower[i] == '.';
      assert s[i] == '.';
    }
  }

  /** Lower-casing does not move any dot. */
  lemma LastSegmentToLower(s: string)
    ensures LastSegment(ToLower(s), '.') == ToLower(LastSegment(s, '.'))
  {
    var t, q := ToLower(s), LastSegment(s, '.');
    var lq := ToLower(q);
    assert t[|t| - |lq|..] == lq;
    DotsSurviveLowering(q);
    LastSegmentUnique(t, '.', lq);
  }

  /** `s` ends in a dot and `ext` exactly when the text after its last dot is
      `ext` (for an `ext` without dots). */
  lemma EndsWithDotExtension(s: string, ext: string)
    requires '.' !in ext
    ensures EndsWith(s, "." + ext) <==> '.' in s && LastSegment(s, '.') == ext
  {
    var r := LastSegment(s, '.');
    if EndsWith(s, "." + ext) {
      assert s[|s| - |ext| - 1] == '.';
      assert s[|s| - |ext|..] == ext;
      LastSegmentUnique(s, '.', ext);
    }
    if '.' in s && r == ext {
      var i :| 0 <= i < |s| && s[i] == '.';
      assert |r| < |s|;
      assert s[|s| - |r| - 1..] == "." + ext;
    }
  }

  /** An occurrence inside a piece is an occurrence in any string built
      around that piece. */
  lemma ContainsInside(pre: string, s: string, post: string, sub: string)
    requires Contains(s, sub)
    ensures Contains(pre + s + post, sub)
  {
    ContainsAt(s, sub);
    var m :| OccursAt(s, sub, m);
    var whole := pre + s + post;
    assert whole[|pre| + m..|pre| + m + |sub|] == s[m..m + |sub|];
    assert OccursAt(whole, sub, |pre| + m);
    ContainsAt(whole, sub);
  }

  /** Each part of `parts.join(sep)` occurs in the joined string. */
  lemma {:induction false} JoinContains(parts: seq<string>, sep: string, k: nat)
    requires k < |parts|
    ensures Contains(Join(parts, sep), parts[k])
    decreases |parts|
  {
    if k == 0 {
      if |parts| == 1 {
        ContainsInside("", parts[0], "", parts[0]) by {
          assert StartsWith(parts[0], parts[0]);
        }
        assert "" + parts[0] + "" == parts[0];
      } else {
        ContainsInside("", parts[0], sep + Join(parts[1..], sep), parts[0]) by {
          assert StartsWith(parts[0], parts[0]);
        }
        assert "" + parts[0] + (sep + Join(parts[1..], sep)) == Join(parts, sep);
      }
    } else {
      JoinContains(parts[1..], sep, k - 1);
      ContainsInside(parts[0] + sep, Join(parts[1..], sep), "", parts[k]);
      assert parts[0] + sep + Join(parts[1..], sep) + "" == Join(parts, sep);
    }
  }

  /** The number a string of decimal digits spells, most significant first. */
  function DecimalValue(s: string): nat
    requires forall i :: 0 <= i < |s| ==> '0' <= s[i] <= '9'
    decreases |s|
  {
    if s == [] then 0
    else DecimalValue(s[..|s| - 1]) * 10 + (s[|s| - 1] as int - '0' as int)
  }

  /** Decimal rendering of a natural number (`String(n)`): digits that spell
      `n`, with no leading zero. */
  function NatToDecimal(n: nat): (r: string)
    ensures |r| > 0
    ensures forall i :: 0 <= i < |r| ==> '0' <= r[i] <= '9'
    ensures DecimalValue(r) == n
    ensures r[0] == '0' ==> r == "0"
    decreases n
  {
    var d := ['0', '1', '2', '3', '4', '5', '6', '7', '8', '9'][n % 10];
    if n < 10 then [d]
    else
      var high := NatToDecimal(n / 10);
      assert (high + [d])[..|high|] == high;
      high + [d]
  }

  function Min(a: int, b: int): int {
    if a <= b then a else b
  }
}
