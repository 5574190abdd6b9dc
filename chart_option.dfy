/**
  The data the chart is drawn from (class `ChartOption`): the x-axis length,
  the scatter points of the loaded rows and the dashed reference lines of the
  theoretical distribution, one per distinct BAF and one per distinct DR.
  The constructor only stores values computed once, so the chart option is a
  value here and its construction a function.
 */
module ChartData {
  import opened JsValues
  import opened Sequences
  import opened TheoreticalDistribution

  /** A reference-line position and the label drawn at its end. */
  datatype LineItem<L> = LineItem(yValue: real, endLabel: L)

  /** A dashed line series: its grid axes, its end label and its two data points. */
  datatype LineSeries<L> = LineSeries(xAxisIndex: nat, yAxisIndex: nat, endLabel: L, data: seq<(real, real)>)

  datatype ChartOption = ChartOption(
    tdTable: seq<Point>,
    dataTable: seq<DataRow>,
    lineLength: nat,
    scatterBafData: seq<(nat, Num)>,
    scatterDrData: seq<(nat, Num)>,
    bafLines: seq<LineSeries<string>>,
    drLines: seq<LineSeries<Option<nat>>>)

  /** The upper bound of the BAF y axis in the chart option. */
  const BafAxisMax: real := 0.6

  /** `#get_line_length`: 10 for short data, otherwise rounded up to a multiple of 10. */
  function LineLength(length: nat): (r: nat)
    ensures r >= length && r >= 10 && r % 10 == 0
    ensures length >= 10 && length % 10 == 0 ==> r == length
  {
    if length < 10 then 10
    else if length % 10 != 0 then (length / 10 + 1) * 10
    else length
  }

  /** No smaller multiple of 10 covers the data and the minimum of 10. */
  lemma LineLengthLeast(length: nat, m: nat)
    requires m >= length && m >= 10 && m % 10 == 0
    ensures LineLength(length) <= m
  {
    if length >= 10 && length % 10 != 0 {
      assert m / 10 * 10 == m;
      assert m / 10 > length / 10;
    }
  }

  /** `dataTable.map((row, index) => [index, pick(row)])` */
  function Scatter(dataTable: seq<DataRow>, pick: DataRow -> Num): (r: seq<(nat, Num)>)
    ensures |r| == |dataTable|
    ensures forall i :: 0 <= i < |r| ==> r[i].0 == i && r[i].1 == pick(dataTable[i])
  {
    seq(|dataTable|, i requires 0 <= i < |dataTable| => (i, pick(dataTable[i])))
  }

  function RowBaf(row: DataRow): Num { row.baf }
  function RowDr(row: DataRow): Num { row.dr }
  function PointBaf(p: Point): real { p.baf }
  function PointDr(p: Point): real { p.dr }
  function PointTotal(p: Point): nat { p.total }

  /** `${row.minor}/${row.total}` */
  function GenotypeLabel(p: Point): string
  {
    NatToString(p.minor) + "/" + NatToString(p.total)
  }

  /** The label of a genotype splits back into its minor and total counts. */
  lemma GenotypeLabelSplits(p: Point)
    ensures Split(GenotypeLabel(p), '/') == [NatToString(p.minor), NatToString(p.total)]
  {
    var m, t := NatToString(p.minor), NatToString(p.total);
    assert '/' !in m && '/' !in t;
    assert GenotypeLabel(p) == m + ['/'] + t;
    SplitAfterPart(m, '/', t);
    SplitWithoutSeparator(t, '/');
  }

  /** Different genotypes get different labels. */
  lemma GenotypeLabelInjective(p: Point, q: Point)
    requires GenotypeLabel(p) == GenotypeLabel(q)
    ensures p.minor == q.minor && p.total == q.total
  {
    GenotypeLabelSplits(p);
    GenotypeLabelSplits(q);
    NatToStringInjective(p.minor, q.minor);
    NatToStringInjective(p.total, q.total);
  }

  /** The rows of the table whose BAF is `baf`, in table order: one group of `Object.groupBy`. */
  function BafGroup(tdTable: seq<Point>, baf: real): (r: seq<Point>)
    ensures forall i :: 0 <= i < |r| ==> r[i] in tdTable && r[i].baf == baf
    ensures forall i :: 0 <= i < |tdTable| && tdTable[i].baf == baf ==> tdTable[i] in r
  {
    Filter(tdTable, (p: Point) => p.baf == baf)
  }

  /** A group lists its rows in table order, every copy of a row included; the label join follows this order. */
  lemma BafGroupOrder(tdTable: seq<Point>, baf: real)
    ensures var r := BafGroup(tdTable, baf);
      && Subsequence(r, tdTable)
      && forall i :: 0 <= i < |tdTable| && tdTable[i].baf == baf ==> multiset(r)[tdTable[i]] == multiset(tdTable)[tdTable[i]]
  {
    FilterOrder(tdTable, (p: Point) => p.baf == baf);
  }

  /** The labels of a group joined by spaces. */
  function GroupLabel(group: seq<Point>): string
  {
    Join(Map(GenotypeLabel, group), ' ')
  }

  /**
    `#build_unique_baf`: one item per distinct BAF in order of first appearance,
    labelled with the genotypes of every row with that BAF.
   */
  function UniqueBaf(tdTable: seq<Point>): (r: seq<LineItem<string>>)
    ensures |r| == |Distinct(Map(PointBaf, tdTable))|
    ensures forall i :: 0 <= i < |r| ==> r[i].yValue == Distinct(Map(PointBaf, tdTable))[i]
    ensures forall i :: 0 <= i < |r| ==> r[i].endLabel == GroupLabel(BafGroup(tdTable, r[i].yValue))
  {
    var keys := Distinct(Map(PointBaf, tdTable));
    seq(|keys|, i requires 0 <= i < |keys| => LineItem(keys[i], GroupLabel(BafGroup(tdTable, keys[i]))))
  }

  /** Different items have different BAFs. */
  lemma UniqueBafDistinct(tdTable: seq<Point>, i: nat, j: nat)
    requires i < j < |UniqueBaf(tdTable)|
    ensures UniqueBaf(tdTable)[i].yValue != UniqueBaf(tdTable)[j].yValue
  {
    var keys := Distinct(Map(PointBaf, tdTable));
    assert keys[i] != keys[j];
  }

  /** Every row's BAF is the position of an item. */
  lemma UniqueBafCovers(tdTable: seq<Point>, k: nat) returns (i: nat)
    requires k < |tdTable|
    ensures i < |UniqueBaf(tdTable)| && UniqueBaf(tdTable)[i].yValue == tdTable[k].baf
  {
    var bafs := Map(PointBaf, tdTable);
    var keys := Distinct(bafs);
    assert bafs[k] == PointBaf(tdTable[k]) == tdTable[k].baf;
    assert bafs[k] in keys;
    i :| 0 <= i < |keys| && keys[i] == bafs[k];
  }

  /** Every item is the BAF of a row. */
  lemma UniqueBafOrigin(tdTable: seq<Point>, i: nat) returns (k: nat)
    requires i < |UniqueBaf(tdTable)|
    ensures k < |tdTable| && tdTable[k].baf == UniqueBaf(tdTable)[i].yValue
  {
    var bafs := Map(PointBaf, tdTable);
    var keys := Distinct(bafs);
    assert keys[i] in bafs;
    k :| 0 <= k < |bafs| && bafs[k] == keys[i];
    assert bafs[k] == PointBaf(tdTable[k]) == tdTable[k].baf;
  }

  /** An item's label splits on spaces into the genotypes of its group, in table order. */
  lemma UniqueBafLabel(tdTable: seq<Point>, i: nat)
    requires i < |UniqueBaf(tdTable)|
    ensures var item := UniqueBaf(tdTable)[i];
      BafGroup(tdTable, item.yValue) != [] &&
      Split(item.endLabel, ' ') == Map(GenotypeLabel, BafGroup(tdTable, item.yValue))
  {
    var item := UniqueBaf(tdTable)[i];
    var k := UniqueBafOrigin(tdTable, i);
    var group := BafGroup(tdTable, item.yValue);
    assert tdTable[k] in group;
    var parts := Map(GenotypeLabel, group);
    forall j | 0 <= j < |parts|
      ensures ' ' !in parts[j]
    {
      var m, t := NatToString(group[j].minor), NatToString(group[j].total);
      assert ' ' !in m && ' ' !in t by {
        assert forall c :: c in m ==> IsDigit(c);
        assert forall c :: c in t ==> IsDigit(c);
      }
      assert parts[j] == GenotypeLabel(group[j]) == m + ['/'] + t;
    }
    SplitJoin(parts, ' ');
  }

  /**
    `#build_unique_dr`: the distinct DRs in order of first appearance, the
    i-th labelled with the i-th distinct total (undefined past the end).
   */
  function UniqueDr(tdTable: seq<Point>): (r: seq<LineItem<Option<nat>>>)
    ensures var totals := Distinct(Map(PointTotal, tdTable));
      && |r| == |Distinct(Map(PointDr, tdTable))|
      && forall i :: 0 <= i < |r| ==>
        && r[i].yValue == Distinct(Map(PointDr, tdTable))[i]
        && (r[i].endLabel.Some? <==> i < |totals|)
        && (r[i].endLabel.Some? ==> r[i].endLabel.value == totals[i])
  {
    var totals := Distinct(Map(PointTotal, tdTable));
    var drs := Distinct(Map(PointDr, tdTable));
    seq(|drs|, i requires 0 <= i < |drs| =>
      LineItem(drs[i], if i < |totals| then Some(totals[i]) else None))
  }

  /** The DR of a total, with a fixed value where the DR formula is undefined. */
  function DrOf(purity: real, ploidy: real, total: nat): real
  {
    if DrDenominator(purity, ploidy) != 0.0 then DepthRatio(purity, ploidy, total) else 0.0
  }

  /**
    On the builder's table with a positive purity, the DR is a one-to-one
    function of the total, so the distinct DRs and the distinct totals pair up
    one for one and every DR line is labelled with the total it belongs to.
   */
  lemma UniqueDrLabelsTotals(purity: real, ploidy: real, copies: seq<nat>)
    requires purity > 0.0 && Defined(purity, ploidy, copies)
    ensures var td := Distribution(purity, ploidy, copies);
      var r := UniqueDr(td);
      && |r| == |Distinct(Map(PointTotal, td))|
      && forall i :: 0 <= i < |r| ==>
        r[i].endLabel.Some? && DepthRatio(purity, ploidy, r[i].endLabel.value) == r[i].yValue
  {
    var td := Distribution(purity, ploidy, copies);
    var f := (t: nat) => DrOf(purity, ploidy, t);
    forall a: nat, b: nat | f(a) == f(b)
      ensures a == b
    {
      DepthRatioInjective(purity, ploidy, a, b);
    }
    assert Injective(f);
    var totals := Map(PointTotal, td);
    forall i | 0 <= i < |td|
      ensures Map(PointDr, td)[i] == Map(f, totals)[i]
    {
      DistributionEntry(purity, ploidy, copies, i);
      assert Map(PointDr, td)[i] == td[i].dr;
      assert Map(f, totals)[i] == f(td[i].total) == DrOf(purity, ploidy, td[i].total);
    }
    assert Map(PointDr, td) == Map(f, totals);
    DistinctMap(f, totals);
  }

  /** `#generate_lines`: one horizontal line per item, from x = 0 to x = lineLength. */
  function GenerateLines<L>(items: seq<LineItem<L>>, lineLength: nat, xAxisIndex: nat, yAxisIndex: nat)
    : (r: seq<LineSeries<L>>)
    ensures |r| == |items|
    ensures forall i :: 0 <= i < |r| ==>
      && r[i].xAxisIndex == xAxisIndex && r[i].yAxisIndex == yAxisIndex
      && r[i].endLabel == items[i].endLabel
      && r[i].data == [(0.0, items[i].yValue), (lineLength as real, items[i].yValue)]
  {
    seq(|items|, i requires 0 <= i < |items| =>
      LineSeries(xAxisIndex, yAxisIndex, items[i].endLabel,
        [(0.0, items[i].yValue), (lineLength as real, items[i].yValue)]))
  }

  /** `new ChartOption(tdTable, dataTable)` */
  function NewChartOption(tdTable: seq<Point>, dataTable: seq<DataRow>): (c: ChartOption)
    ensures c.tdTable == tdTable && c.dataTable == dataTable
    ensures c.lineLength == LineLength(|dataTable|)
    ensures c.scatterBafData == Scatter(dataTable, RowBaf)
    ensures c.scatterDrData == Scatter(dataTable, RowDr)
    ensures c.bafLines == GenerateLines(UniqueBaf(tdTable), c.lineLength, 0, 0)
    ensures c.drLines == GenerateLines(UniqueDr(tdTable), c.lineLength, 1, 1)
  {
    var lineLength := LineLength(|dataTable|);
    ChartOption(tdTable, dataTable, lineLength,
      Scatter(dataTable, RowBaf), Scatter(dataTable, RowDr),
      GenerateLines(UniqueBaf(tdTable), lineLength, 0, 0),
      GenerateLines(UniqueDr(tdTable), lineLength, 1, 1))
  }

  /** Every reference line spans the x position of every scatter point. */
  lemma LinesSpanScatter(tdTable: seq<Point>, dataTable: seq<DataRow>)
    ensures var c := NewChartOption(tdTable, dataTable);
      && (forall i :: 0 <= i < |c.scatterBafData| ==>
        forall l :: 0 <= l < |c.bafLines| ==>
          c.bafLines[l].data[0].0 <= c.scatterBafData[i].0 as real <= c.bafLines[l].data[1].0)
      && (forall i :: 0 <= i < |c.scatterDrData| ==>
        forall l :: 0 <= l < |c.drLines| ==>
          c.drLines[l].data[0].0 <= c.scatterDrData[i].0 as real <= c.drLines[l].data[1].0)
  {
  }

  /** On the builder's table with purity in (0, 1], every BAF line lies within the BAF axis. */
  lemma BafLinesWithinAxis(purity: real, ploidy: real, copies: seq<nat>, dataTable: seq<DataRow>)
    requires 0.0 < purity <= 1.0 && Defined(purity, ploidy, copies)
    ensures var c := NewChartOption(Distribution(purity, ploidy, copies), dataTable);
      forall l :: 0 <= l < |c.bafLines| ==>
        0.0 <= c.bafLines[l].data[0].1 == c.bafLines[l].data[1].1 <= BafAxisMax
  {
    var td := Distribution(purity, ploidy, copies);
    var items := UniqueBaf(td);
    forall l | 0 <= l < |items|
      ensures 0.0 <= items[l].yValue <= BafAxisMax
    {
      var k := UniqueBafOrigin(td, l);
      DistributionBafBounds(purity, ploidy, copies, k);
    }
  }

  /**
    `Object.keys` lists integer-like keys first. On the builder's table with
    purity in (0, 1] the only possible integer-like BAF is 0, and when it
    occurs it is the first BAF of the table, so the first-appearance order of
    the items is the key order. `IntegerBafsOutsidePurityRange` shows that the
    range matters.
   */
  lemma ZeroBafItemFirst(purity: real, ploidy: real, copies: seq<nat>, j: nat)
    requires 0.0 < purity <= 1.0 && Defined(purity, ploidy, copies)
    requires j < |UniqueBaf(Distribution(purity, ploidy, copies))|
    requires UniqueBaf(Distribution(purity, ploidy, copies))[j].yValue == 0.0
    ensures j == 0
  {
    var td := Distribution(purity, ploidy, copies);
    var items := UniqueBaf(td);
    var k := UniqueBafOrigin(td, j);
    ZeroBafComesFirst(purity, ploidy, copies, k);
    var bafs := Map(PointBaf, td);
    DistinctHead(bafs);
    assert items[0].yValue == 0.0;
  }

  /**
    Outside purity (0, 1] a BAF can be an integer other than 0: purity -1,
    ploidy 2 and copies [2, 3] give the BAFs 1, 1/2, 2, 1, so the items in
    first-appearance order are 1, 1/2, 2, whereas `Object.keys` would list
    the integer-like keys "1" and "2" before "0.5".
   */
  lemma IntegerBafsOutsidePurityRange()
    ensures Defined(-1.0, 2.0, [2, 3])
    ensures var items := UniqueBaf(Distribution(-1.0, 2.0, [2, 3]));
      && |items| == 3
      && items[0].yValue == 1.0 && items[1].yValue == 0.5 && items[2].yValue == 2.0
  {
    assert [2, 3][..1] == [2] && [2][..0] == [];
    assert Group(-1.0, 2.0, 2, 2) == [Point(1.0, 1.0, 2, 0), Point(0.5, 1.0, 2, 1)];
    assert Group(-1.0, 2.0, 3, 2) == [Point(2.0, 0.5, 3, 0), Point(1.0, 0.5, 3, 1)];
    var td := Distribution(-1.0, 2.0, [2, 3]);
    assert td == [Point(1.0, 1.0, 2, 0), Point(0.5, 1.0, 2, 1), Point(2.0, 0.5, 3, 0), Point(1.0, 0.5, 3, 1)];
    assert Map(PointBaf, td) == [1.0, 0.5] + [2.0] + [1.0];
    DistinctOfTwo(1.0, 0.5);
    DistinctSnoc([1.0, 0.5], 2.0);
    DistinctSnoc([1.0, 0.5] + [2.0], 1.0);
  }

  /** The diploid example's table has BAF lines "0/2" at 0 and "1/2" at 1/2. */
  lemma DiploidBafLines()
    ensures UniqueBaf(Distribution(1.0, 2.0, [2])) == [LineItem(0.0, "0/2"), LineItem(0.5, "1/2")]
  {
    DiploidExample();
    var td := [Point(0.0, 1.0, 2, 0), Point(0.5, 1.0, 2, 1)];
    assert Map(PointBaf, td) == [0.0, 0.5];
    DistinctOfTwo(0.0, 0.5);
    assert td[1..] == [td[1]] && [td[1]][1..] == [];
    assert BafGroup(td, 0.0) == [td[0]];
    assert BafGroup(td, 0.5) == [td[1]];
    assert GenotypeLabel(td[0]) == "0/2";
    assert GenotypeLabel(td[1]) == "1/2";
  }

  /** The diploid example's table has one DR line, labelled 2, at 1. */
  lemma DiploidDrLines()
    ensures UniqueDr(Distribution(1.0, 2.0, [2])) == [LineItem(1.0, Some(2))]
  {
    DiploidExample();
    var td := [Point(0.0, 1.0, 2, 0), Point(0.5, 1.0, 2, 1)];
    assert Map(PointDr, td) == [1.0, 1.0];
    assert Map(PointTotal, td) == [2, 2];
    DistinctOfRepeated(1.0);
    DistinctOfRepeated(2);
  }
}
