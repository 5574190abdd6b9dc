/**
  Statistics over a brushed segment of the plot (observable/src/segment_table.js):
  the mean, median and standard-deviation helpers, and the two chart handlers
  that record the brushed indices and summarise the segment between them.
 */
module Segments {
  import opened JsValues

  /** Every value is a number (no NaN). */
  predicate AllNum(data: seq<Num>)
  {
    forall i :: 0 <= i < |data| ==> data[i].Num?
  }

  /** The values of NaN-free data. */
  function Values(data: seq<Num>): (r: seq<real>)
    requires AllNum(data)
    ensures |r| == |data| && forall i :: 0 <= i < |r| ==> data[i] == Num(r[i])
  {
    if data == [] then [] else [data[0].value] + Values(data[1..])
  }

  function Sum(s: seq<real>): real
  {
    if s == [] then 0.0 else s[0] + Sum(s[1..])
  }

  /** Between the smallest and the largest possible element, |s| times. */
  lemma {:induction false} SumBounds(s: seq<real>, lo: real, hi: real)
    requires forall i :: 0 <= i < |s| ==> lo <= s[i] <= hi
    ensures |s| as real * lo <= Sum(s) <= |s| as real * hi
  {
    if s != [] {
      SumBounds(s[1..], lo, hi);
      assert |s| as real * lo == lo + (|s| - 1) as real * lo;
      assert |s| as real * hi == hi + (|s| - 1) as real * hi;
    }
  }

  /**
    `#calculateMean`: the sum (starting from 0) divided by the length; 0/0 is
    NaN for an empty list, and a NaN element makes the sum NaN.
   */
  function Mean(data: seq<Num>): (r: Num)
    ensures r.NaN? <==> data == [] || !AllNum(data)
    ensures r.Num? ==> r.value * |data| as real == Sum(Values(data))
  {
    if data == [] || !AllNum(data) then NaN
    else Num(Sum(Values(data)) / |data| as real)
  }

  lemma ScaleBack(m: real, c: real, n: real)
    requires n > 0.0 && m * n <= c * n
    ensures m <= c
  {
    assert (c - m) * n == c * n - m * n;
  }

  /** Dividing bounds of a sum by a positive count. */
  lemma QuotientBounds(sum: real, n: real, lo: real, hi: real)
    requires n > 0.0 && n * lo <= sum <= n * hi
    ensures lo <= sum / n <= hi
  {
    var q := sum / n;
    calc { q * n; == sum; }
    calc { lo * n; == n * lo; <= sum; == q * n; }
    ScaleBack(lo, q, n);
    calc { q * n; == sum; <= n * hi; == hi * n; }
    ScaleBack(q, hi, n);
  }

  lemma QuotientNonNegative(sum: real, n: real)
    requires n > 0.0 && sum >= 0.0
    ensures sum / n >= 0.0
  {
    var q := sum / n;
    calc { 0.0 * n; == 0.0; <= sum; == q * n; }
    ScaleBack(0.0, q, n);
  }

  /** The mean lies between any lower and upper bound of the values. */
  lemma MeanBounds(data: seq<Num>, lo: real, hi: real)
    requires data != [] && AllNum(data)
    requires forall i :: 0 <= i < |data| ==> lo <= data[i].value <= hi
    ensures Mean(data).Num? && lo <= Mean(data).value <= hi
  {
    var v := Values(data);
    SumBounds(v, lo, hi);
    QuotientBounds(Sum(v), |data| as real, lo, hi);
  }

  ghost predicate Sorted(s: seq<real>)
  {
    forall i, j :: 0 <= i < j < |s| ==> s[i] <= s[j]
  }

  /** A lower bound of every element carries over to any permutation. */
  lemma LowerBoundPermuted(lo: real, s: seq<real>, t: seq<real>)
    requires multiset(s) == multiset(t)
    requires forall i :: 0 <= i < |t| ==> lo <= t[i]
    ensures forall k :: 0 <= k < |s| ==> lo <= s[k]
  {
    forall k | 0 <= k < |s|
      ensures lo <= s[k]
    {
      assert s[k] in multiset(t);
    }
  }

  /** An element no larger than every element of an ascending sequence can lead it. */
  lemma SortedCons(x: real, s: seq<real>)
    requires Sorted(s) && forall k :: 0 <= k < |s| ==> x <= s[k]
    ensures Sorted([x] + s)
  {
  }

  /** Insert `x` into an ascending sequence. */
  function Insert(x: real, s: seq<real>): (r: seq<real>)
    requires Sorted(s)
    ensures Sorted(r) && multiset(r) == multiset(s) + multiset{x}
  {
    if s == [] || x <= s[0] then
      SortedCons(x, s);
      [x] + s
    else
      var rest := Insert(x, s[1..]);
      assert s == [s[0]] + s[1..];
      LowerBoundPermuted(s[0], rest, s[1..] + [x]);
      SortedCons(s[0], rest);
      [s[0]] + rest
  }

  /** `[...data].toSorted((a, b) => a - b)` on numbers: an ascending permutation, the input untouched. */
  function SortAscending(s: seq<real>): (r: seq<real>)
    ensures Sorted(r) && multiset(r) == multiset(s)
  {
    if s == [] then []
    else
      assert s == [s[0]] + s[1..];
      Insert(s[0], SortAscending(s[1..]))
  }

  /** Two ascending arrangements of the same values start with the same (least) value. */
  lemma SortedHeads(a: seq<real>, b: seq<real>)
    requires Sorted(a) && Sorted(b) && multiset(a) == multiset(b) && a != []
    ensures b != [] && a[0] == b[0]
  {
    assert a[0] in multiset(b) && b[0] in multiset(a);
    var i :| 0 <= i < |b| && b[i] == a[0];
    var j :| 0 <= j < |a| && a[j] == b[0];
    assert b[0] <= b[i] && a[0] <= a[j];
  }

  /** Removing the same first value from two arrangements of the same values leaves the same values. */
  lemma SameTails(a: seq<real>, b: seq<real>)
    requires a != [] && b != [] && a[0] == b[0] && multiset(a) == multiset(b)
    ensures multiset(a[1..]) == multiset(b[1..])
  {
    assert a == [a[0]] + a[1..] && b == [b[0]] + b[1..];
    assert multiset(a) == multiset{a[0]} + multiset(a[1..]);
    assert multiset(b) == multiset{a[0]} + multiset(b[1..]);
    forall y
      ensures multiset(a[1..])[y] == multiset(b[1..])[y]
    {
      assert multiset(a)[y] == multiset{a[0]}[y] + multiset(a[1..])[y];
      assert multiset(b)[y] == multiset{a[0]}[y] + multiset(b[1..])[y];
    }
  }

  /** Two ascending arrangements of the same values are equal, so sorting is determined by the multiset. */
  lemma {:induction false} SortedUnique(a: seq<real>, b: seq<real>)
    requires Sorted(a) && Sorted(b) && multiset(a) == multiset(b)
    ensures a == b
  {
    if a != [] {
      SortedHeads(a, b);
      SameTails(a, b);
      assert Sorted(a[1..]) && Sorted(b[1..]);
      SortedUnique(a[1..], b[1..]);
      assert a == [a[0]] + a[1..] && b == [b[0]] + b[1..];
    }
  }

  /** The middle element of a sorted list, or the average of the two middle ones. */
  function Middle(sorted: seq<real>): (r: real)
    requires sorted != []
    ensures Sorted(sorted) ==> sorted[0] <= r <= sorted[|sorted| - 1]
  {
    var mid := |sorted| / 2;
    if |sorted| % 2 == 1 then sorted[mid] else (sorted[mid - 1] + sorted[mid]) / 2.0
  }

  /**
    `#calculateMedian`. An empty list reads `sortedData[-1]` and `sortedData[0]`,
    both undefined, whose average is NaN; NaN elements give NaN (see README).
   */
  function Median(data: seq<Num>): (r: Num)
    ensures r.NaN? <==> data == [] || !AllNum(data)
  {
    if data == [] || !AllNum(data) then NaN
    else Num(Middle(SortAscending(Values(data))))
  }

  /** Each value occurs among the values as often as the number occurs in the data. */
  lemma {:induction false} ValuesCount(data: seq<Num>, v: real)
    requires AllNum(data)
    ensures multiset(Values(data))[v] == multiset(data)[Num(v)]
  {
    if data != [] {
      var rest := data[1..];
      ValuesCount(rest, v);
      assert data == [data[0]] + rest;
      assert Values(data) == [data[0].value] + Values(rest);
    }
  }

  /** The median depends only on the multiset of values, not on their order. */
  lemma MedianOrderIndependent(a: seq<Num>, b: seq<Num>)
    requires multiset(a) == multiset(b)
    ensures Median(a) == Median(b)
  {
    assert |a| == |multiset(a)| == |b|;
    if a != [] && AllNum(a) {
      assert AllNum(b) by {
        forall i | 0 <= i < |b|
          ensures b[i].Num?
        {
          assert b[i] in multiset(a);
        }
      }
      forall v
        ensures multiset(Values(a))[v] == multiset(Values(b))[v]
      {
        ValuesCount(a, v);
        ValuesCount(b, v);
      }
      assert multiset(Values(a)) == multiset(Values(b));
      SortedUnique(SortAscending(Values(a)), SortAscending(Values(b)));
    } else if a != [] {
      assert !AllNum(b) by {
        var i :| 0 <= i < |a| && a[i].NaN?;
        assert a[i] in multiset(b);
      }
    }
  }

  /** The median lies between any lower and upper bound of the values. */
  lemma MedianBounds(data: seq<Num>, lo: real, hi: real)
    requires data != [] && AllNum(data)
    requires forall i :: 0 <= i < |data| ==> lo <= data[i].value <= hi
    ensures Median(data).Num? && lo <= Median(data).value <= hi
  {
    var v := Values(data);
    var s := SortAscending(v);
    forall k | 0 <= k < |s|
      ensures lo <= s[k] <= hi
    {
      assert s[k] in multiset(v);
      var i :| 0 <= i < |v| && v[i] == s[k];
    }
  }

  /** The median is the middle of any ascending arrangement of the values. */
  lemma MedianOfArrangement(data: seq<Num>, sorted: seq<real>)
    requires data != [] && AllNum(data)
    requires Sorted(sorted) && multiset(sorted) == multiset(Values(data))
    ensures sorted != [] && Median(data) == Num(Middle(sorted))
  {
    SortedUnique(SortAscending(Values(data)), sorted);
  }

  lemma MiddleOfThree(a: real, b: real, c: real)
    ensures Middle([a, b, c]) == b
  {
  }

  lemma ValuesOfDisplay(data: seq<Num>, v: seq<real>)
    requires |data| == |v| && forall i :: 0 <= i < |v| ==> data[i] == Num(v[i])
    ensures AllNum(data) && Values(data) == v
  {
  }

  /** Odd length: the middle value after sorting. */
  lemma MedianOfThree(lo: real, mid: real, hi: real)
    requires lo < mid < hi
    ensures Median([Num(hi), Num(lo), Num(mid)]) == Num(mid)
  {
    var data := [Num(hi), Num(lo), Num(mid)];
    ValuesOfDisplay(data, [hi, lo, mid]);
    var sorted := [lo, mid, hi];
    assert multiset([hi, lo, mid]) == multiset(sorted);
    assert Sorted(sorted);
    MiddleOfThree(lo, mid, hi);
    MedianOfArrangement(data, sorted);
  }

  /** Even length: the average of the two middle values after sorting. */
  lemma MedianOfTwo(lo: real, hi: real)
    requires lo < hi
    ensures Median([Num(hi), Num(lo)]) == Num((lo + hi) / 2.0)
  {
    var data := [Num(hi), Num(lo)];
    ValuesOfDisplay(data, [hi, lo]);
    var sorted := [lo, hi];
    assert multiset([hi, lo]) == multiset(sorted);
    assert Middle(sorted) == (lo + hi) / 2.0;
    MedianOfArrangement(data, sorted);
  }

  function Square(x: real): real
  {
    x * x
  }

  lemma MulPositive(a: real, b: real)
    requires a > 0.0 && b > 0.0
    ensures a * b > 0.0
  {
  }

  lemma SquareSign(x: real)
    ensures Square(x) >= 0.0 && (Square(x) == 0.0 <==> x == 0.0)
  {
    if x > 0.0 {
      calc { Square(x); == x * x; > { MulPositive(x, x); } 0.0; }
    } else if x < 0.0 {
      calc { Square(x); == x * x; == (-x) * (-x); > { MulPositive(-x, -x); } 0.0; }
    } else {
      calc { Square(x); == 0.0 * 0.0; == 0.0; }
    }
  }

  function SumSquares(s: seq<real>, mean: real): real
  {
    if s == [] then 0.0 else Square(s[0] - mean) + SumSquares(s[1..], mean)
  }

  lemma {:induction false} SumSquaresNonNegative(s: seq<real>, mean: real)
    ensures SumSquares(s, mean) >= 0.0
  {
    if s != [] {
      SquareSign(s[0] - mean);
      SumSquaresNonNegative(s[1..], mean);
    }
  }

  /** The squared deviations add up to 0 exactly when every value equals the mean. */
  lemma {:induction false} SumSquaresZero(s: seq<real>, mean: real)
    ensures SumSquares(s, mean) == 0.0 <==> forall i :: 0 <= i < |s| ==> s[i] == mean
  {
    if s != [] {
      SquareSign(s[0] - mean);
      SumSquaresNonNegative(s[1..], mean);
      SumSquaresZero(s[1..], mean);
      assert (forall i :: 0 <= i < |s| ==> s[i] == mean) <==>
        s[0] == mean && forall i :: 0 <= i < |s| - 1 ==> s[1..][i] == mean;
    }
  }

  /**
    The radicand of `#calculateStd`: the population variance around the given
    mean. `reduce` without an initial value throws on an empty list.
   */
  function Variance(data: seq<Num>, mean: Num): (r: Result<Num, JsError>)
    ensures r.Failure? <==> data == []
    ensures r.Failure? ==> r.error == TypeError
    ensures r.Success? ==> (r.value.NaN? <==> !AllNum(data) || mean.NaN?)
    ensures r.Success? && r.value.Num? ==> r.value.value * |data| as real == SumSquares(Values(data), mean.value)
  {
    if data == [] then Failure(TypeError)
    else if !AllNum(data) || mean.NaN? then Success(NaN)
    else Success(Num(SumSquares(Values(data), mean.value) / |data| as real))
  }

  /** The squared deviations of [0.1, 0.2, 0.3] around their mean 0.2 average to 1/150. */
  lemma VarianceExample()
    ensures Mean([Num(0.1), Num(0.2), Num(0.3)]) == Num(0.2)
    ensures Variance([Num(0.1), Num(0.2), Num(0.3)], Num(0.2)) == Success(Num(1.0 / 150.0))
  {
    var data := [Num(0.1), Num(0.2), Num(0.3)];
    ValuesOfDisplay(data, [0.1, 0.2, 0.3]);
    assert Sum([0.1, 0.2, 0.3]) == 0.6;
    assert SumSquares([0.1, 0.2, 0.3], 0.2) == 0.02;
  }

  /** A variance that is a number is never negative. */
  lemma VarianceNonNegative(data: seq<Num>, mean: Num)
    requires Variance(data, mean).Success? && Variance(data, mean).value.Num?
    ensures Variance(data, mean).value.value >= 0.0
  {
    var v := Values(data);
    SumSquaresNonNegative(v, mean.value);
    QuotientNonNegative(SumSquares(v, mean.value), |data| as real);
  }

  /** Around the list's own mean, the variance is 0 exactly when all values are equal. */
  lemma VarianceZeroIffConstant(data: seq<Num>)
    requires data != [] && AllNum(data)
    ensures Variance(data, Mean(data)).value == Num(0.0) <==> forall i :: 0 <= i < |data| ==> data[i] == Mean(data)
  {
    var v := Values(data);
    SumSquaresZero(v, Mean(data).value);
    assert SumSquares(v, Mean(data).value) / |data| as real == 0.0 <==> SumSquares(v, Mean(data).value) == 0.0;
  }

  /** `s.slice(start, end)` for non-negative indices: clamped to the length, empty when `start >= end`. */
  function JsSlice<T>(s: seq<T>, start: nat, end: nat): (r: seq<T>)
    ensures start >= end ==> r == []
    ensures start < end <= |s| ==> |r| == end - start && forall i :: 0 <= i < |r| ==> r[i] == s[start + i]
  {
    var a := if start < |s| then start else |s|;
    var b := if end < |s| then end else |s|;
    if a < b then s[a..b] else []
  }

  /** The `#rowData` record; `None` is `null`. */
  datatype RowData = RowData(
    chr: Option<string>,
    posStart: Option<Num>,
    posEnd: Option<Num>,
    bafMean: Option<Num>,
    bafMedian: Option<Num>,
    bafStd: Option<Num>,
    drMean: Option<Num>,
    drMedian: Option<Num>,
    drStd: Option<Num>)

  const EmptyRow := RowData(None, None, None, None, None, None, None, None, None)

  /** `!x` is false: neither `null`/`undefined` nor 0. */
  predicate Truthy(x: Option<nat>)
  {
    x.Some? && x.value != 0
  }

  /** The brush handlers and the rows added to the segment table. */
  class SegmentTable {
    const dataTable: seq<DataRow>
    var start: Option<nat>
    var end: Option<nat>
    var rowData: RowData
    /** The rows passed to `addRow`, in order. */
    var rows: seq<RowData>

    constructor (dataTable: seq<DataRow>)
      ensures this.dataTable == dataTable
      ensures start == None && end == None && rowData == EmptyRow && rows == []
    {
      this.dataTable := dataTable;
      start := None;
      end := None;
      rowData := EmptyRow;
      rows := [];
    }

    /**
      The `brushselected` handler: `start` is the first selected index and `end`
      the last, removed from the event's array by `pop()`; an empty selection
      leaves both undefined. The shortened array is returned.
     */
    method BrushSelected(dataIndex: seq<nat>) returns (remaining: seq<nat>)
      modifies this`start, this`end
      ensures dataIndex == [] ==> start == None && end == None && remaining == []
      ensures dataIndex != [] ==> && start == Some(dataIndex[0])
                                  && end == Some(dataIndex[|dataIndex| - 1])
                                  && remaining == dataIndex[..|dataIndex| - 1]
    {
      if dataIndex == [] {
        start, end, remaining := None, None, [];
      } else {
        start := Some(dataIndex[0]);
        end := Some(dataIndex[|dataIndex| - 1]);
        remaining := dataIndex[..|dataIndex| - 1];
      }
    }

    /**
      The `brushEnd` handler. It returns at once unless both indices are truthy
      and `start > end`; `dataTable[start]` past the end throws; otherwise the
      slice `[start, end)` is empty, so the first standard deviation throws
      after `chr`, the positions, the BAF mean and the BAF median were written,
      and `addRow` is never reached.
     */
    method BrushEnd() returns (outcome: Outcome<JsError>)
      modifies this`rowData
      ensures !Truthy(start) || !Truthy(end) || start.value <= end.value ==>
        outcome == Pass && rowData == old(rowData)
      ensures Truthy(start) && Truthy(end) && start.value > end.value && start.value >= |dataTable| ==>
        outcome == Fail(TypeError) && rowData == old(rowData)
      ensures Truthy(start) && Truthy(end) && end.value < start.value < |dataTable| ==>
        && outcome == Fail(TypeError)
        && rowData == old(rowData).(chr := Some(dataTable[start.value].chr),
                                    posStart := Some(Num(dataTable[start.value].pos)),
                                    posEnd := Some(Num(dataTable[end.value].pos)),
                                    bafMean := Some(NaN),
                                    bafMedian := Some(NaN))
    {
      if !Truthy(start) || !Truthy(end) {
        return Pass;
      }
      var s, e := start.value, end.value;
      if s - e <= 0 {
        return Pass;
      }
      if s >= |dataTable| {
        return Fail(TypeError);
      }
      rowData := rowData.(chr := Some(dataTable[s].chr));
      rowData := rowData.(posStart := Some(Num(dataTable[s].pos)));
      rowData := rowData.(posEnd := Some(Num(dataTable[e].pos)));
      var segmentData := JsSlice(dataTable, s, e);
      var bafData := seq(|segmentData|, i requires 0 <= i < |segmentData| => segmentData[i].baf);
      var drData := seq(|segmentData|, i requires 0 <= i < |segmentData| => segmentData[i].dr);
      rowData := rowData.(bafMean := Some(Mean(bafData)));
      rowData := rowData.(bafMedian := Some(Median(bafData)));
      var bafStd := Variance(bafData, rowData.bafMean.value);
      if bafStd.Failure? {
        return Fail(bafStd.error);
      }
      assert false;
    }
  }
}
