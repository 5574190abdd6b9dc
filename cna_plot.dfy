/**
  The region query of the plot (class `CNAPlot`): a position string
  `chrN[:start:end]` is validated against the pattern
  `^chr([1-9XY]|1[0-9]|2[0-2])(:\d+:\d+|$)`, split on `:`, range-checked, and
  the loaded rows of that chromosome (and range) are handed to a new chart
  option. Drawing is external; the plot records the chart options it hands over.
 */
module CnaPlotting {
  import opened JsValues
  import opened Sequences
  import opened TheoreticalDistribution
  import opened ChartData

  const InvalidPattern: string := "Invalid pattern"
  const InvalidRange: string := "The start position must be greater than the end position"

  /** `[1-9XY]|1[0-9]|2[0-2]`: the chromosome names the pattern admits. */
  predicate IsChromosomeName(name: string)
  {
    || (|name| == 1 && ('1' <= name[0] <= '9' || name[0] == 'X' || name[0] == 'Y'))
    || (|name| == 2 && name[0] == '1' && IsDigit(name[1]))
    || (|name| == 2 && name[0] == '2' && '0' <= name[1] <= '2')
  }

  /** The length of the run of decimal digits at the start of `s` (what a greedy `\d+` consumes). */
  function LeadingDigits(s: string): (n: nat)
    ensures n <= |s| && AllDigits(s[..n])
    ensures n < |s| ==> !IsDigit(s[n])
  {
    if s == [] || !IsDigit(s[0]) then 0
    else
      var n := 1 + LeadingDigits(s[1..]);
      assert forall i :: 0 < i < n ==> s[..n][i] == s[1..][..n - 1][i - 1];
      n
  }

  /** `:\d+:\d+` matches at the start of `u` (anything may follow). */
  predicate RangeGroup(u: string)
  {
    && |u| >= 1 && u[0] == ':'
    && var n := LeadingDigits(u[1..]);
      && n >= 1 && n + 2 < |u|
      && u[n + 1] == ':' && IsDigit(u[n + 2])
  }

  /** `(:\d+:\d+|$)` at the start of `u`. */
  predicate RangeOrEnd(u: string)
  {
    u == [] || RangeGroup(u)
  }

  /**
    `position.match(pattern)` is not null. The pattern is anchored at the start
    only; the regular-expression engine tries the one- and the two-character
    chromosome name, and the match exists when either choice lets the
    rest match.
   */
  predicate MatchesPattern(position: string)
  {
    && |position| >= 4 && position[..3] == "chr"
    && (|| (IsChromosomeName(position[3..4]) && RangeOrEnd(position[4..]))
        || (|position| >= 5 && IsChromosomeName(position[3..5]) && RangeOrEnd(position[5..])))
  }

  /** Destructuring `[chr, posStart, posEnd]`: a missing element is `undefined`. */
  function Element(parts: seq<string>, i: nat): Option<string>
  {
    if i < |parts| then Some(parts[i]) else None
  }

  /** Unary `+` on an optional string: `undefined` becomes NaN. */
  function ToNumber(s: Option<string>, toNumber: string -> Num): Num
  {
    if s.None? then NaN else toNumber(s.value)
  }

  /** A string or `undefined` is truthy exactly when it is a non-empty string. */
  predicate Truthy(s: Option<string>)
  {
    s.Some? && s.value != []
  }

  /** `#getFilteredData`: the rows of chromosome `chr`, within the inclusive range when both bounds are given. */
  function FilteredData(dataTable: seq<DataRow>, chr: string, posStart: Option<string>, posEnd: Option<string>,
                        toNumber: string -> Num): (r: seq<DataRow>)
    ensures Truthy(posStart) && Truthy(posEnd) ==>
      forall i :: 0 <= i < |dataTable| ==>
        (dataTable[i] in r <==>
          && dataTable[i].chr == chr
          && NumLe(toNumber(posStart.value), Num(dataTable[i].pos))
          && NumLe(Num(dataTable[i].pos), toNumber(posEnd.value)))
    ensures !(Truthy(posStart) && Truthy(posEnd)) ==>
      forall i :: 0 <= i < |dataTable| ==> (dataTable[i] in r <==> dataTable[i].chr == chr)
    ensures forall i :: 0 <= i < |r| ==> r[i] in dataTable && r[i].chr == chr
    ensures Truthy(posStart) && Truthy(posEnd) ==>
      forall i :: 0 <= i < |r| ==>
        NumLe(toNumber(posStart.value), Num(r[i].pos)) && NumLe(Num(r[i].pos), toNumber(posEnd.value))
  {
    if Truthy(posStart) && Truthy(posEnd) then
      var lo, hi := toNumber(posStart.value), toNumber(posEnd.value);
      Filter(dataTable, (row: DataRow) => row.chr == chr && NumLe(lo, Num(row.pos)) && NumLe(Num(row.pos), hi))
    else
      Filter(dataTable, (row: DataRow) => row.chr == chr)
  }

  /** The filter keeps the order of the table and every copy of a row it keeps. */
  lemma FilteredDataOrder(dataTable: seq<DataRow>, chr: string, posStart: Option<string>, posEnd: Option<string>,
                          toNumber: string -> Num)
    ensures var r := FilteredData(dataTable, chr, posStart, posEnd, toNumber);
      && Subsequence(r, dataTable)
      && forall i :: 0 <= i < |dataTable| && dataTable[i] in r ==> multiset(r)[dataTable[i]] == multiset(dataTable)[dataTable[i]]
  {
    if Truthy(posStart) && Truthy(posEnd) {
      var lo, hi := toNumber(posStart.value), toNumber(posEnd.value);
      FilterOrder(dataTable, (row: DataRow) => row.chr == chr && NumLe(lo, Num(row.pos)) && NumLe(Num(row.pos), hi));
    } else {
      FilterOrder(dataTable, (row: DataRow) => row.chr == chr);
    }
  }

  /** What a call of `rerenderPlot` does: render these rows, or return this message. */
  datatype Rerender = Rendered(rows: seq<DataRow>) | Rejected(message: string)

  /** The message `rerenderPlot` returns: `''` whenever it renders. */
  function Message(r: Rerender): string
  {
    if r.Rendered? then "" else r.message
  }

  /** The decision of `rerenderPlot(position)` on the current rows. */
  function RerenderResult(position: string, dataTable: seq<DataRow>, toNumber: string -> Num): (r: Rerender)
    ensures position == [] ==> r == Rendered(dataTable)
    ensures position != [] && !MatchesPattern(position) ==> r == Rejected(InvalidPattern)
    ensures r.Rejected? ==> r.message == InvalidPattern || r.message == InvalidRange
    ensures r.Rendered? ==> forall i :: 0 <= i < |r.rows| ==> r.rows[i] in dataTable
  {
    if position == [] then Rendered(dataTable)
    else if !MatchesPattern(position) then Rejected(InvalidPattern)
    else
      var parts := Split(position, ':');
      var chr, posStart, posEnd := parts[0], Element(parts, 1), Element(parts, 2);
      if NumLt(Sub(ToNumber(posEnd, toNumber), ToNumber(posStart, toNumber)), Num(0.0)) then
        Rejected(InvalidRange)
      else
        Rendered(FilteredData(dataTable, chr, posStart, posEnd, toNumber))
  }

  /** `Number` on a string of decimal digits is its decimal value. */
  ghost predicate DecimalNumbers(toNumber: string -> Num)
  {
    forall d :: d != [] && AllDigits(d) ==> toNumber(d) == Num(DecimalValue(d) as real)
  }

  /** No chromosome name contains the separator. */
  lemma ChromosomeNameHasNoColon(name: string)
    requires IsChromosomeName(name)
    ensures ':' !in "chr" + name
  {
    assert forall i :: 0 <= i < |"chr" + name| ==> ("chr" + name)[i] != ':';
  }

  /** A digit string has no separator in it. */
  lemma DigitsHaveNoColon(d: string)
    requires AllDigits(d)
    ensures ':' !in d
  {
    assert forall c :: c in d ==> IsDigit(c);
  }

  /** The first part of a string that starts with a non-separator is non-empty and starts with it. */
  lemma SplitFirstPart(s: string, sep: char)
    requires s != [] && s[0] != sep
    ensures Split(s, sep)[0] != [] && Split(s, sep)[0][0] == s[0]
  {
  }

  /** The digits of `d` are all consumed by a greedy `\d+` before a non-digit. */
  lemma {:induction false} LeadingDigitsOf(d: string, rest: string)
    requires AllDigits(d)
    requires rest == [] || !IsDigit(rest[0])
    ensures LeadingDigits(d + rest) == |d|
  {
    if d != [] {
      assert (d + rest)[1..] == d[1..] + rest;
      LeadingDigitsOf(d[1..], rest);
    }
  }

  /** A bare chromosome name matches. */
  lemma BareChromosomeMatches(name: string)
    requires IsChromosomeName(name)
    ensures MatchesPattern("chr" + name)
  {
    var s := "chr" + name;
    assert s[..3] == "chr";
    if |name| == 1 {
      assert s[3..4] == name && s[4..] == [];
    } else {
      assert s[3..5] == name && s[5..] == [];
    }
  }

  /**
    The pattern is not anchored after the range group: whatever follows
    `chrN:start:end` is accepted as well.
   */
  lemma TrailingTextAccepted(name: string, start: string, end: string, rest: string)
    requires IsChromosomeName(name)
    requires start != [] && AllDigits(start) && end != [] && AllDigits(end)
    ensures MatchesPattern("chr" + name + ":" + start + ":" + end + rest)
  {
    var s := "chr" + name + ":" + start + ":" + end + rest;
    var u := ":" + start + ":" + end + rest;
    assert s == "chr" + name + u;
    assert u[1..] == start + (":" + end + rest);
    LeadingDigitsOf(start, ":" + end + rest);
    assert u[|start| + 1] == ':' && u[|start| + 2] == end[0];
    assert RangeGroup(u);
    assert s[..3] == "chr";
    if |name| == 1 {
      assert s[3..4] == name && s[4..] == u;
    } else {
      assert s[3..5] == name && s[5..] == u;
    }
  }

  /** The forms `chr23`, `chr0` and `chr1:5` are rejected. */
  lemma RejectedForms()
    ensures !MatchesPattern("chr23") && !MatchesPattern("chr0") && !MatchesPattern("chr1:5")
  {
    assert "chr23"[3..4] == "2" && "chr23"[4..] == "3" && "chr23"[3..5] == "23";
    assert "chr0"[3..4] == "0";
    var u := "chr1:5"[4..];
    assert u == ":5" && u[1..] == "5";
    assert LeadingDigits("5") == 1 by {
      assert "5"[1..] == [];
    }
    assert "chr1:5"[3..5] == "1:";
  }

  /** Splitting `head:start:rest` where only the two colons shown are separators before `rest`. */
  lemma SplitRange(head: string, start: string, rest: string)
    requires ':' !in head && ':' !in start
    requires rest != [] && rest[0] != ':'
    ensures var parts := Split(head + [':'] + start + [':'] + rest, ':');
      |parts| >= 3 && parts[0] == head && parts[1] == start && parts[2] != [] && parts[2][0] == rest[0]
  {
    SplitAfterPart(start, ':', rest);
    SplitAfterPart(head, ':', start + [':'] + rest);
    assert head + [':'] + start + [':'] + rest == head + [':'] + (start + [':'] + rest);
    SplitFirstPart(rest, ':');
  }

  /** The pattern's match, taken apart: `chr`, a name, and nothing or the range group. */
  lemma MatchedShape(position: string) returns (name: string, u: string)
    requires MatchesPattern(position)
    ensures IsChromosomeName(name) && RangeOrEnd(u) && position == "chr" + name + u
  {
    var k := if IsChromosomeName(position[3..4]) && RangeOrEnd(position[4..]) then 4 else 5;
    name, u := position[3..k], position[k..];
    assert position == position[..3] + position[3..k] + position[k..];
  }

  /**
    What validation guarantees about the split: the first part is
    `chr` and a chromosome name, and either it is the only part or
    there are at least three, the second all digits and the third
    starting with a digit.
   */
  lemma MatchedParts(position: string) returns (name: string)
    requires MatchesPattern(position)
    ensures IsChromosomeName(name)
    ensures var parts := Split(position, ':');
      && parts[0] == "chr" + name
      && (|| |parts| == 1
          || (&& |parts| >= 3
              && parts[1] != [] && AllDigits(parts[1])
              && parts[2] != [] && IsDigit(parts[2][0])))
  {
    var u;
    name, u := MatchedShape(position);
    ChromosomeNameHasNoColon(name);
    if u == [] {
      assert position == "chr" + name;
      SplitWithoutSeparator(position, ':');
    } else {
      var n := LeadingDigits(u[1..]);
      var start, rest := u[1..n + 1], u[n + 2..];
      assert start == u[1..][..n];
      assert u == [':'] + start + [':'] + rest;
      assert position == "chr" + name + [':'] + start + [':'] + rest;
      DigitsHaveNoColon(start);
      SplitRange("chr" + name, start, rest);
    }
  }

  /** The parts of a well-formed `chrN:start:end`. */
  lemma RegionParts(name: string, start: string, end: string)
    requires IsChromosomeName(name)
    requires start != [] && AllDigits(start) && end != [] && AllDigits(end)
    ensures var position := "chr" + name + ":" + start + ":" + end;
      MatchesPattern(position) && Split(position, ':') == ["chr" + name, start, end]
  {
    var position := "chr" + name + ":" + start + ":" + end;
    TrailingTextAccepted(name, start, end, []);
    assert position + [] == position;
    ChromosomeNameHasNoColon(name);
    DigitsHaveNoColon(start);
    DigitsHaveNoColon(end);
    SplitThree("chr" + name, start, end);
  }

  /** Three parts free of the separator, joined by it, split back into the three. */
  lemma SplitThree(head: string, start: string, end: string)
    requires ':' !in head && ':' !in start && ':' !in end
    ensures Split(head + [':'] + start + [':'] + end, ':') == [head, start, end]
  {
    SplitWithoutSeparator(end, ':');
    SplitAfterPart(start, ':', end);
    SplitAfterPart(head, ':', start + [':'] + end);
    assert head + [':'] + start + [':'] + end == head + [':'] + (start + [':'] + end);
  }

  /**
    A well-formed `chrN:start:end` renders exactly the rows of `chrN` with
    `start <= pos <= end` (both ends included), unless `end < start`, which
    returns the range message.
   */
  lemma RegionQuery(name: string, start: string, end: string, dataTable: seq<DataRow>, toNumber: string -> Num)
    requires IsChromosomeName(name) && DecimalNumbers(toNumber)
    requires start != [] && AllDigits(start) && end != [] && AllDigits(end)
    ensures var r := RerenderResult("chr" + name + ":" + start + ":" + end, dataTable, toNumber);
      var lo, hi := DecimalValue(start) as real, DecimalValue(end) as real;
      && (hi < lo ==> r == Rejected(InvalidRange))
      && (lo <= hi ==> r.Rendered? && forall i :: 0 <= i < |dataTable| ==>
            (dataTable[i] in r.rows <==> dataTable[i].chr == "chr" + name && lo <= dataTable[i].pos <= hi))
  {
    RegionParts(name, start, end);
    assert toNumber(start) == Num(DecimalValue(start) as real);
    assert toNumber(end) == Num(DecimalValue(end) as real);
  }

  /** A bound that is not a number selects no row: every comparison with NaN is false. */
  lemma NaNBoundSelectsNothing(dataTable: seq<DataRow>, chr: string, posStart: Option<string>, posEnd: Option<string>,
                               toNumber: string -> Num)
    requires Truthy(posStart) && Truthy(posEnd)
    requires toNumber(posStart.value).NaN? || toNumber(posEnd.value).NaN?
    ensures FilteredData(dataTable, chr, posStart, posEnd, toNumber) == []
  {
  }

  /**
    Text after `chrN:start:end` passes validation, and when it makes the end
    bound unreadable as a number, the plot is redrawn with no rows at all
    instead of reporting an invalid pattern.
   */
  lemma TrailingTextRendersNothing(name: string, start: string, end: string, rest: string,
                                   dataTable: seq<DataRow>, toNumber: string -> Num)
    requires IsChromosomeName(name) && ':' !in rest
    requires start != [] && AllDigits(start) && end != [] && AllDigits(end)
    requires toNumber(end + rest).NaN?
    ensures RerenderResult("chr" + name + ":" + start + ":" + end + rest, dataTable, toNumber) == Rendered([])
  {
    var position := "chr" + name + ":" + start + ":" + end + rest;
    TrailingTextAccepted(name, start, end, rest);
    ChromosomeNameHasNoColon(name);
    DigitsHaveNoColon(start);
    DigitsHaveNoColon(end);
    assert ':' !in end + rest;
    SplitThree("chr" + name, start, end + rest);
    assert position == "chr" + name + [':'] + start + [':'] + (end + rest);
    NaNBoundSelectsNothing(dataTable, "chr" + name, Some(start), Some(end + rest), toNumber);
  }

  /** A bare `chrN` renders exactly the rows of that chromosome. */
  lemma ChromosomeQuery(name: string, dataTable: seq<DataRow>, toNumber: string -> Num)
    requires IsChromosomeName(name)
    ensures var r := RerenderResult("chr" + name, dataTable, toNumber);
      r.Rendered? && forall i :: 0 <= i < |dataTable| ==>
        (dataTable[i] in r.rows <==> dataTable[i].chr == "chr" + name)
  {
    BareChromosomeMatches(name);
    ChromosomeNameHasNoColon(name);
    SplitWithoutSeparator("chr" + name, ':');
  }

  /** `class CNAPlot`, without the chart widget: its tables and the chart options handed to the chart. */
  class CnaPlot {
    const tdTable: seq<Point>
    var dataTable: seq<DataRow>
    /** The options passed to `setOption`, oldest first. */
    var chartOptions: seq<ChartOption>

    constructor (tdTable: seq<Point>, dataTable: seq<DataRow>)
      ensures this.tdTable == tdTable && this.dataTable == dataTable
      ensures chartOptions == [NewChartOption(tdTable, dataTable)]
    {
      this.tdTable := tdTable;
      this.dataTable := dataTable;
      chartOptions := [NewChartOption(tdTable, dataTable)];
    }

    /** `updateDataTable`: replaces the loaded rows; nothing is redrawn. */
    method UpdateDataTable(dataTable: seq<DataRow>)
      modifies this`dataTable
      ensures this.dataTable == dataTable
    {
      this.dataTable := dataTable;
    }

    /**
      `rerenderPlot`: draws the selected rows and returns `''`, or returns a
      message and draws nothing. The loaded rows are never changed.
     */
    method RerenderPlot(position: string, toNumber: string -> Num) returns (message: string)
      modifies this`chartOptions
      ensures var r := RerenderResult(position, dataTable, toNumber);
        && message == Message(r)
        && chartOptions == old(chartOptions) + (if r.Rendered? then [NewChartOption(tdTable, r.rows)] else [])
    {
      if position == [] {
        chartOptions := chartOptions + [NewChartOption(tdTable, dataTable)];
        return "";
      }
      if !MatchesPattern(position) {
        return InvalidPattern;
      }
      var parts := Split(position, ':');
      var chr, posStart, posEnd := parts[0], Element(parts, 1), Element(parts, 2);
      if NumLt(Sub(ToNumber(posEnd, toNumber), ToNumber(posStart, toNumber)), Num(0.0)) {
        return InvalidRange;
      }
      var filtered := FilteredData(dataTable, chr, posStart, posEnd, toNumber);
      chartOptions := chartOptions + [NewChartOption(tdTable, filtered)];
      return "";
    }
  }
}
