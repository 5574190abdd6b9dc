/**
  The library sequence and string operations the viewer's code relies on:
  de-duplication through a `Set` (first-appearance order), `Array.prototype.filter`,
  `String.prototype.split` and `Array.prototype.join` on a one-character separator,
  and the decimal rendering of a non-negative integer in a template string.
 */
module Sequences {

  ghost predicate NoDup<T>(s: seq<T>)
  {
    forall i, j :: 0 <= i < j < |s| ==> s[i] != s[j]
  }

  /**
    `r` is `s` with some elements left out: its elements occur in `s` in the
    same order (a subsequence, not necessarily contiguous).
   */
  ghost predicate Subsequence<T>(r: seq<T>, s: seq<T>)
    decreases |s|
  {
    if r == [] then true
    else if s == [] then false
    else (r[0] == s[0] && Subsequence(r[1..], s[1..])) || Subsequence(r, s[1..])
  }

  /** `s.map(f)` */
  function Map<T, U>(f: T -> U, s: seq<T>): (r: seq<U>)
    ensures |r| == |s|
    ensures forall i :: 0 <= i < |s| ==> r[i] == f(s[i])
  {
    seq(|s|, i requires 0 <= i < |s| => f(s[i]))
  }

  /** The distinct elements of `s` that are not in `seen`, in order of first appearance. */
  function DistinctFrom<T(==)>(s: seq<T>, seen: set<T>): (r: seq<T>)
    ensures NoDup(r)
    ensures forall i :: 0 <= i < |r| ==> r[i] in s && r[i] !in seen
    ensures forall i :: 0 <= i < |s| && s[i] !in seen ==> s[i] in r
  {
    if s == [] then []
    else
      assert forall i :: 0 < i < |s| ==> s[i] == s[1..][i - 1];
      if s[0] in seen then DistinctFrom(s[1..], seen)
      else [s[0]] + DistinctFrom(s[1..], seen + {s[0]})
  }

  /** `[...new Set(s)]`, and the key order of `Object.groupBy` for non-integer keys. */
  function Distinct<T(==)>(s: seq<T>): (r: seq<T>)
    ensures NoDup(r)
    ensures forall i :: 0 <= i < |r| ==> r[i] in s
    ensures forall i :: 0 <= i < |s| ==> s[i] in r
  {
    DistinctFrom(s, {})
  }

  /**
    Appending `x` to the input appends it to the result unless it was seen
    before: the order in which a `Set` remembers insertions.
   */
  lemma {:induction false} DistinctFromSnoc<T>(s: seq<T>, seen: set<T>, x: T)
    ensures DistinctFrom(s + [x], seen) == DistinctFrom(s, seen) + (if x in seen || x in s then [] else [x])
  {
    if s == [] {
      assert [x][1..] == [];
    } else {
      assert (s + [x])[0] == s[0] && (s + [x])[1..] == s[1..] + [x];
      assert x in s <==> x == s[0] || x in s[1..];
      if s[0] in seen {
        DistinctFromSnoc(s[1..], seen, x);
      } else {
        DistinctFromSnoc(s[1..], seen + {s[0]}, x);
      }
    }
  }

  /** `[...new Set(s + [x])]` is `[...new Set(s)]`, followed by `x` when `x` is new. */
  lemma DistinctSnoc<T>(s: seq<T>, x: T)
    ensures Distinct(s + [x]) == Distinct(s) + (if x in s then [] else [x])
  {
    DistinctFromSnoc(s, {}, x);
  }

  lemma DistinctHead<T>(s: seq<T>)
    requires s != []
    ensures Distinct(s) != [] && Distinct(s)[0] == s[0]
  {
  }

  /** A value listed twice is kept once. */
  lemma DistinctOfRepeated<T>(x: T)
    ensures Distinct([x, x]) == [x]
  {
    var none: set<T> := {};
    assert [x, x][1..] == [x] && [x][1..] == [];
    assert none + {x} == {x};
    assert DistinctFrom([x], {x}) == [];
    assert DistinctFrom([x, x], none) == [x] + DistinctFrom([x], {x});
  }

  /** Two different values are both kept, in order. */
  lemma DistinctOfTwo<T>(x: T, y: T)
    requires x != y
    ensures Distinct([x, y]) == [x, y]
  {
    var none: set<T> := {};
    assert [x, y][1..] == [y] && [y][1..] == [];
    assert none + {x} == {x};
    assert DistinctFrom([y], {x}) == [y];
    assert DistinctFrom([x, y], none) == [x] + DistinctFrom([y], {x});
  }

  ghost predicate Injective<T(!new), U>(f: T -> U)
  {
    forall a, b :: f(a) == f(b) ==> a == b
  }

  /** De-duplicating the images of an injective function is de-duplicating and then mapping. */
  lemma {:induction false} DistinctFromMap<T(!new), U>(f: T -> U, s: seq<T>, seen: set<T>)
    requires Injective(f)
    ensures DistinctFrom(Map(f, s), set x | x in seen :: f(x)) == Map(f, DistinctFrom(s, seen))
  {
    var image := set x | x in seen :: f(x);
    if s != [] {
      var t := Map(f, s);
      assert t[0] == f(s[0]) && t[1..] == Map(f, s[1..]);
      assert f(s[0]) in image <==> s[0] in seen;
      if s[0] in seen {
        DistinctFromMap(f, s[1..], seen);
      } else {
        var more := seen + {s[0]};
        assert (set x | x in more :: f(x)) == image + {f(s[0])};
        DistinctFromMap(f, s[1..], more);
        var tail := DistinctFrom(s[1..], more);
        assert Map(f, [s[0]] + tail) == [f(s[0])] + Map(f, tail);
      }
    }
  }

  lemma DistinctMap<T(!new), U>(f: T -> U, s: seq<T>)
    requires Injective(f)
    ensures Distinct(Map(f, s)) == Map(f, Distinct(s))
  {
    var none: set<T> := {};
    assert (set x | x in none :: f(x)) == {};
    DistinctFromMap(f, s, none);
  }

  /** `s.filter(p)` */
  function Filter<T>(s: seq<T>, p: T -> bool): (r: seq<T>)
    ensures |r| <= |s|
    ensures forall i :: 0 <= i < |r| ==> r[i] in s && p(r[i])
    ensures forall i :: 0 <= i < |s| && p(s[i]) ==> s[i] in r
  {
    if s == [] then []
    else
      assert forall i :: 0 < i < |s| ==> s[i] == s[1..][i - 1];
      if p(s[0]) then [s[0]] + Filter(s[1..], p) else Filter(s[1..], p)
  }

  /**
    The filter keeps the order of `s`, and keeps every copy of an element that
    passes and none of one that does not.
   */
  lemma FilterOrder<T>(s: seq<T>, p: T -> bool)
    ensures Subsequence(Filter(s, p), s)
    ensures multiset(Filter(s, p)) <= multiset(s)
    ensures forall i :: 0 <= i < |s| ==> multiset(Filter(s, p))[s[i]] == if p(s[i]) then multiset(s)[s[i]] else 0
  {
    FilterSubsequence(s, p);
    FilterCount(s, p);
    forall i | 0 <= i < |s|
      ensures multiset(Filter(s, p))[s[i]] == if p(s[i]) then multiset(s)[s[i]] else 0
    {
      FilterCountOf(s, p, s[i]);
    }
  }

  lemma {:induction false} FilterSubsequence<T>(s: seq<T>, p: T -> bool)
    ensures Subsequence(Filter(s, p), s)
  {
    if s != [] {
      FilterSubsequence(s[1..], p);
      if p(s[0]) {
        var r := Filter(s, p);
        assert r == [s[0]] + Filter(s[1..], p);
        assert r[0] == s[0] && r[1..] == Filter(s[1..], p);
      }
    }
  }

  lemma {:induction false} FilterCount<T>(s: seq<T>, p: T -> bool)
    ensures multiset(Filter(s, p)) <= multiset(s)
  {
    if s != [] {
      assert s == [s[0]] + s[1..];
      FilterCount(s[1..], p);
    }
  }

  lemma {:induction false} FilterCountOf<T>(s: seq<T>, p: T -> bool, x: T)
    ensures multiset(Filter(s, p))[x] == if p(x) then multiset(s)[x] else 0
  {
    if s != [] {
      assert s == [s[0]] + s[1..];
      FilterCountOf(s[1..], p, x);
    }
  }

  /** `s.split(sep)` for a one-character separator. */
  function Split(s: string, sep: char): (r: seq<string>)
    ensures |r| >= 1
    ensures forall i :: 0 <= i < |r| ==> sep !in r[i]
  {
    if s == [] then [""]
    else
      var rest := Split(s[1..], sep);
      if s[0] == sep then [""] + rest
      else [[s[0]] + rest[0]] + rest[1..]
  }

  /** `parts.join(sep)` for a one-character separator. */
  function Join(parts: seq<string>, sep: char): string
  {
    if parts == [] then ""
    else if |parts| == 1 then parts[0]
    else parts[0] + [sep] + Join(parts[1..], sep)
  }

  /** Splitting and joining again on the same separator gives back the string. */
  lemma {:induction false} JoinSplit(s: string, sep: char)
    ensures Join(Split(s, sep), sep) == s
  {
    if s != [] {
      var rest := Split(s[1..], sep);
      JoinSplit(s[1..], sep);
      if s[0] == sep {
        assert Split(s, sep)[1..] == rest;
      } else {
        var parts := Split(s, sep);
        assert parts[1..] == rest[1..];
        if |rest| > 1 {
          assert Join(rest, sep) == rest[0] + [sep] + Join(rest[1..], sep);
        }
      }
    }
  }

  /** Without the separator, `split` returns the whole string as the only part. */
  lemma {:induction false} SplitWithoutSeparator(s: string, sep: char)
    requires sep !in s
    ensures Split(s, sep) == [s]
  {
    if s != [] {
      assert sep !in s[1..] by {
        assert forall i :: 0 <= i < |s| - 1 ==> s[1..][i] == s[i + 1];
      }
      SplitWithoutSeparator(s[1..], sep);
      assert [s[0]] + s[1..] == s;
    }
  }

  /** A part free of the separator, followed by the separator, is split off as the first part. */
  lemma {:induction false} SplitAfterPart(part: string, sep: char, rest: string)
    requires sep !in part
    ensures Split(part + [sep] + rest, sep) == [part] + Split(rest, sep)
  {
    if part == [] {
      assert ([sep] + rest)[1..] == rest;
    } else {
      var s := part + [sep] + rest;
      assert sep !in part[1..] by {
        assert forall i :: 0 <= i < |part| - 1 ==> part[1..][i] == part[i + 1];
      }
      assert s[1..] == part[1..] + [sep] + rest;
      SplitAfterPart(part[1..], sep, rest);
      assert [part[0]] + part[1..] == part;
    }
  }

  /** Joining parts that do not contain the separator and splitting again gives back the parts. */
  lemma {:induction false} SplitJoin(parts: seq<string>, sep: char)
    requires parts != []
    requires forall i :: 0 <= i < |parts| ==> sep !in parts[i]
    ensures Split(Join(parts, sep), sep) == parts
  {
    if |parts| == 1 {
      SplitWithoutSeparator(parts[0], sep);
    } else {
      SplitJoin(parts[1..], sep);
      SplitAfterPart(parts[0], sep, Join(parts[1..], sep));
    }
  }

  predicate IsDigit(c: char)
  {
    '0' <= c <= '9'
  }

  predicate AllDigits(s: string)
  {
    forall i :: 0 <= i < |s| ==> IsDigit(s[i])
  }

  /** The number a string of decimal digits denotes. */
  function DecimalValue(s: string): nat
    requires AllDigits(s)
  {
    if s == [] then 0
    else DecimalValue(s[..|s| - 1]) * 10 + (s[|s| - 1] as int - '0' as int)
  }

  /** `${n}` for a non-negative integer: its decimal digits without leading zeros. */
  function NatToString(n: nat): (r: string)
    ensures r != [] && AllDigits(r)
    ensures DecimalValue(r) == n
    ensures r[0] == '0' ==> n == 0
  {
    var digit := ('0' as int + n % 10) as char;
    if n < 10 then [digit]
    else
      var r := NatToString(n / 10) + [digit];
      assert r[..|r| - 1] == NatToString(n / 10);
      r
  }

  /** Different integers print differently, so labels built from them can be told apart. */
  lemma NatToStringInjective(m: nat, n: nat)
    requires NatToString(m) == NatToString(n)
    ensures m == n
  {
  }
}
