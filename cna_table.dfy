/**
  The theoretical distribution of (BAF, DR) points implied by a sample's purity,
  ploidy and a list of candidate total copy numbers (class CNATable of
  src/cna_table.js). The builder returns four parallel lists; the matcher and the
  chart read them as a list of rows, which `Zip` and `Unzip` relate.
 */
module TheoreticalDistribution {

  /** One theoretical genotype, read as a row `{BAF, DR, total, minor}`. */
  datatype Point = Point(baf: real, dr: real, total: nat, minor: nat)

  /** The builder's result `{BAF: [], DR: [], total: [], minor: []}`. */
  datatype Columns = Columns(baf: seq<real>, dr: seq<real>, total: seq<nat>, minor: seq<nat>)
  {
    predicate Parallel()
    {
      |baf| == |dr| && |dr| == |total| && |total| == |minor|
    }
  }

  function BafDenominator(purity: real, total: nat): real
  {
    total as real * purity + 2.0 * (1.0 - purity)
  }

  function DrDenominator(purity: real, ploidy: real): real
  {
    ploidy / 2.0 * purity + 1.0 - purity
  }

  /** `#get_b_allele_frequency(minor, purity, total)` */
  function Baf(minor: nat, purity: real, total: nat): real
    requires BafDenominator(purity, total) != 0.0
  {
    (minor as real * purity + (1.0 - purity)) / BafDenominator(purity, total)
  }

  /** `#get_depth_ratio(purity, ploidy, total)`: depends on `total`, not on `minor`. */
  function DepthRatio(purity: real, ploidy: real, total: nat): real
    requires DrDenominator(purity, ploidy) != 0.0
  {
    ((1.0 - purity) + (total as real / 2.0) * purity) / DrDenominator(purity, ploidy)
  }

  /**
    `#get_max_b_num(total)`: `ceil(total/2)` for an odd total, `floor(total/2 + 1)`
    for an even one. Both branches give the number of minor counts m with 2m <= total.
   */
  function MaxB(total: nat): (r: nat)
    ensures r >= 1
    ensures 2 * (r - 1) <= total < 2 * r
  {
    if total % 2 == 1 then (total + 1) / 2 else total / 2 + 1
  }

  /**
    The source divides by both denominators without a guard; the model admits
    only parameters for which every division it performs is defined.
   */
  predicate Defined(purity: real, ploidy: real, copies: seq<nat>)
  {
    && DrDenominator(purity, ploidy) != 0.0
    && forall cn :: cn in copies ==> BafDenominator(purity, cn) != 0.0
  }

  /** The points of one copy number `cn` with minor counts 0 .. n-1, ascending. */
  function Group(purity: real, ploidy: real, cn: nat, n: nat): (r: seq<Point>)
    requires BafDenominator(purity, cn) != 0.0 && DrDenominator(purity, ploidy) != 0.0
    ensures |r| == n
    ensures forall m :: 0 <= m < n ==>
      r[m] == Point(Baf(m, purity, cn), DepthRatio(purity, ploidy, cn), cn, m)
  {
    if n == 0 then []
    else
      Group(purity, ploidy, cn, n - 1) + [Point(Baf(n - 1, purity, cn), DepthRatio(purity, ploidy, cn), cn, n - 1)]
  }

  /**
    The theoretical distribution as a list of rows: one group per entry of
    `copies`, in the order of `copies`, duplicates included.
   */
  function Distribution(purity: real, ploidy: real, copies: seq<nat>): seq<Point>
    requires Defined(purity, ploidy, copies)
  {
    if copies == [] then []
    else
      var cn := copies[|copies| - 1];
      Distribution(purity, ploidy, copies[..|copies| - 1]) + Group(purity, ploidy, cn, MaxB(cn))
  }

  /** The sum of `MaxB(cn)` over the list of copy numbers. */
  function SumMaxB(copies: seq<nat>): nat
  {
    if copies == [] then 0 else SumMaxB(copies[..|copies| - 1]) + MaxB(copies[|copies| - 1])
  }

  /** The four parallel lists of a list of rows. */
  function Unzip(rows: seq<Point>): (c: Columns)
    ensures c.Parallel() && |c.baf| == |rows|
    ensures forall i :: 0 <= i < |rows| ==>
      c.baf[i] == rows[i].baf && c.dr[i] == rows[i].dr && c.total[i] == rows[i].total && c.minor[i] == rows[i].minor
  {
    if rows == [] then Columns([], [], [], [])
    else
      var c := Unzip(rows[..|rows| - 1]);
      var p := rows[|rows| - 1];
      Columns(c.baf + [p.baf], c.dr + [p.dr], c.total + [p.total], c.minor + [p.minor])
  }

  /** The rows `{BAF, DR, total, minor}` read from four parallel lists. */
  function Zip(c: Columns): (rows: seq<Point>)
    requires c.Parallel()
    ensures |rows| == |c.baf|
    ensures forall i :: 0 <= i < |rows| ==> rows[i] == Point(c.baf[i], c.dr[i], c.total[i], c.minor[i])
    decreases |c.baf|
  {
    if c.baf == [] then []
    else
      var n := |c.baf| - 1;
      Zip(Columns(c.baf[..n], c.dr[..n], c.total[..n], c.minor[..n])) + [Point(c.baf[n], c.dr[n], c.total[n], c.minor[n])]
  }

  lemma ZipUnzip(rows: seq<Point>)
    ensures Zip(Unzip(rows)) == rows
  {
  }

  lemma UnzipZip(c: Columns)
    requires c.Parallel()
    ensures Unzip(Zip(c)) == c
  {
    var u := Unzip(Zip(c));
    assert u.baf == c.baf && u.dr == c.dr && u.total == c.total && u.minor == c.minor;
  }

  /** Appending a row appends one entry to each of the four lists. */
  lemma UnzipSnoc(rows: seq<Point>, p: Point)
    ensures Unzip(rows + [p]) == var c := Unzip(rows);
      Columns(c.baf + [p.baf], c.dr + [p.dr], c.total + [p.total], c.minor + [p.minor])
  {
    assert (rows + [p])[..|rows|] == rows;
  }

  lemma DefinedPrefix(purity: real, ploidy: real, copies: seq<nat>, i: nat)
    requires Defined(purity, ploidy, copies) && i <= |copies|
    ensures Defined(purity, ploidy, copies[..i])
  {
    assert forall cn :: cn in copies[..i] ==> cn in copies;
  }

  /** One more copy number appends its group. */
  lemma DistributionSnoc(purity: real, ploidy: real, copies: seq<nat>, i: nat)
    requires Defined(purity, ploidy, copies) && i < |copies|
    ensures Defined(purity, ploidy, copies[..i]) && Defined(purity, ploidy, copies[..i + 1])
    ensures Distribution(purity, ploidy, copies[..i + 1])
      == Distribution(purity, ploidy, copies[..i]) + Group(purity, ploidy, copies[i], MaxB(copies[i]))
  {
    DefinedPrefix(purity, ploidy, copies, i);
    DefinedPrefix(purity, ploidy, copies, i + 1);
    assert copies[..i + 1][..i] == copies[..i];
  }

  /** `#build_cn_table(purity, ploidy, copy_numbers)`: the nested loops that push onto four lists. */
  method BuildCnTable(purity: real, ploidy: real, copies: seq<nat>) returns (table: Columns)
    requires Defined(purity, ploidy, copies)
    ensures table.Parallel()
    ensures table == Unzip(Distribution(purity, ploidy, copies))
  {
    var baf, dr, total, minor := [], [], [], [];
    ghost var rows: seq<Point> := [];
    var i := 0;
    DefinedPrefix(purity, ploidy, copies, 0);
    while i < |copies|
      invariant 0 <= i <= |copies| && Defined(purity, ploidy, copies[..i])
      invariant rows == Distribution(purity, ploidy, copies[..i])
      invariant Columns(baf, dr, total, minor) == Unzip(rows)
    {
      var cn := copies[i];
      DistributionSnoc(purity, ploidy, copies, i);
      assert cn in copies;
      var n := MaxB(cn);
      var b := 0;
      ghost var done := rows;
      while b < n
        invariant 0 <= b <= n
        invariant rows == done + Group(purity, ploidy, cn, b)
        invariant Columns(baf, dr, total, minor) == Unzip(rows)
      {
        var x := Baf(b, purity, cn);
        var d := DepthRatio(purity, ploidy, cn);
        UnzipSnoc(rows, Point(x, d, cn, b));
        assert Group(purity, ploidy, cn, b + 1) == Group(purity, ploidy, cn, b) + [Point(x, d, cn, b)];
        rows := rows + [Point(x, d, cn, b)];
        baf := baf + [x];
        dr := dr + [d];
        total := total + [cn];
        minor := minor + [b];
        b := b + 1;
      }
      i := i + 1;
    }
    assert copies[..i] == copies;
    table := Columns(baf, dr, total, minor);
  }

  /** The table holds one entry per (copy number, minor count) pair, duplicates in `copies` included. */
  lemma {:induction false} DistributionLength(purity: real, ploidy: real, copies: seq<nat>)
    requires Defined(purity, ploidy, copies)
    ensures |Distribution(purity, ploidy, copies)| == SumMaxB(copies)
  {
    if copies != [] {
      DistributionLength(purity, ploidy, copies[..|copies| - 1]);
    }
  }

  /**
    Entry `SumMaxB(copies[..k]) + m` is the point of copy number `copies[k]` with
    minor count `m`: groups follow `copies`, minor counts ascend within a group.
   */
  lemma {:induction false} DistributionAt(purity: real, ploidy: real, copies: seq<nat>, k: nat, m: nat)
    requires Defined(purity, ploidy, copies)
    requires k < |copies| && m < MaxB(copies[k])
    ensures SumMaxB(copies[..k]) + m < |Distribution(purity, ploidy, copies)|
    ensures Distribution(purity, ploidy, copies)[SumMaxB(copies[..k]) + m]
      == Point(Baf(m, purity, copies[k]), DepthRatio(purity, ploidy, copies[k]), copies[k], m)
  {
    var n := |copies| - 1;
    var prefix := copies[..n];
    DistributionLength(purity, ploidy, prefix);
    if k == n {
      assert copies[..k] == prefix;
    } else {
      assert prefix[..k] == copies[..k] && prefix[k] == copies[k];
      DistributionAt(purity, ploidy, prefix, k, m);
    }
  }

  /**
    Every entry is the point of one of the copy numbers, with a minor count
    below `MaxB(total)` (so `2 * minor <= total`), the BAF of its minor count and
    the DR of its total.
   */
  lemma {:induction false} DistributionEntry(purity: real, ploidy: real, copies: seq<nat>, i: nat)
    requires Defined(purity, ploidy, copies)
    requires i < |Distribution(purity, ploidy, copies)|
    ensures var p := Distribution(purity, ploidy, copies)[i];
      && p.total in copies
      && p.minor < MaxB(p.total) && 2 * p.minor <= p.total
      && p.baf == Baf(p.minor, purity, p.total)
      && p.dr == DepthRatio(purity, ploidy, p.total)
  {
    var n := |copies| - 1;
    var prefix := copies[..n];
    DistributionLength(purity, ploidy, prefix);
    if i >= SumMaxB(prefix) {
      assert copies[n] in copies;
    } else {
      DistributionEntry(purity, ploidy, prefix, i);
      assert Distribution(purity, ploidy, prefix)[i].total in prefix;
    }
  }

  /** With purity in (0, 1], the BAF of a minor count at most half the total lies in [0, 1/2]. */
  lemma BafBounds(minor: nat, purity: real, total: nat)
    requires 0.0 < purity <= 1.0 && 2 * minor <= total
    requires BafDenominator(purity, total) != 0.0
    ensures 0.0 <= Baf(minor, purity, total) <= 0.5
  {
    var den := BafDenominator(purity, total);
    var num := minor as real * purity + (1.0 - purity);
    assert total as real * purity >= 0.0;
    assert den > 0.0;
    assert minor as real * purity >= 0.0;
    assert (total as real - 2.0 * minor as real) * purity >= 0.0;
    assert 2.0 * num <= den;
  }

  /** Every BAF of the table lies in [0, 1/2] (below the BAF axis maximum of the chart). */
  lemma DistributionBafBounds(purity: real, ploidy: real, copies: seq<nat>, i: nat)
    requires 0.0 < purity <= 1.0 && Defined(purity, ploidy, copies)
    requires i < |Distribution(purity, ploidy, copies)|
    ensures 0.0 <= Distribution(purity, ploidy, copies)[i].baf <= 0.5
  {
    DistributionEntry(purity, ploidy, copies, i);
    var p := Distribution(purity, ploidy, copies)[i];
    BafBounds(p.minor, purity, p.total);
  }

  /** With purity in (0, 1] and a positive ploidy, the DR denominator is positive. */
  lemma DrDenominatorPositive(purity: real, ploidy: real)
    requires 0.0 < purity <= 1.0 && ploidy > 0.0
    ensures DrDenominator(purity, ploidy) > 0.0
  {
    assert ploidy / 2.0 * purity > 0.0;
  }

  /** With purity in (0, 1], the BAF denominator vanishes exactly for total 0 at purity 1. */
  lemma BafDenominatorZero(purity: real, total: nat)
    requires 0.0 < purity <= 1.0
    ensures BafDenominator(purity, total) == 0.0 <==> total == 0 && purity == 1.0
  {
    assert total as real * purity >= 0.0;
    if total > 0 {
      assert total as real * purity > 0.0;
    }
  }

  /** A sample whose total equals the ploidy has depth ratio 1. */
  lemma DepthRatioAtPloidy(purity: real, ploidy: real, total: nat)
    requires DrDenominator(purity, ploidy) != 0.0 && total as real == ploidy
    ensures DepthRatio(purity, ploidy, total) == 1.0
  {
    assert (1.0 - purity) + (total as real / 2.0) * purity == DrDenominator(purity, ploidy);
  }

  /** For a positive purity, DR grows strictly with the total copy number. */
  lemma DepthRatioIncreasing(purity: real, ploidy: real, t1: nat, t2: nat)
    requires purity > 0.0 && DrDenominator(purity, ploidy) > 0.0 && t1 < t2
    ensures DepthRatio(purity, ploidy, t1) < DepthRatio(purity, ploidy, t2)
  {
    var den := DrDenominator(purity, ploidy);
    var n1 := (1.0 - purity) + (t1 as real / 2.0) * purity;
    var n2 := (1.0 - purity) + (t2 as real / 2.0) * purity;
    assert n2 - n1 == (t2 as real - t1 as real) / 2.0 * purity;
    assert n1 < n2;
    assert n1 / den < n2 / den by {
      assert n2 / den - n1 / den == (n2 - n1) / den;
    }
  }

  /** For a positive purity, different totals have different DRs. */
  lemma DepthRatioInjective(purity: real, ploidy: real, t1: nat, t2: nat)
    requires purity > 0.0 && DrDenominator(purity, ploidy) != 0.0
    requires DepthRatio(purity, ploidy, t1) == DepthRatio(purity, ploidy, t2)
    ensures t1 == t2
  {
    var den := DrDenominator(purity, ploidy);
    var n1 := (1.0 - purity) + (t1 as real / 2.0) * purity;
    var n2 := (1.0 - purity) + (t2 as real / 2.0) * purity;
    assert n1 == n1 / den * den && n2 == n2 / den * den;
    assert n1 == n2;
    assert (t1 as real - t2 as real) * purity == 0.0;
  }

  /** For a positive purity, different minor counts of one total have different BAFs. */
  lemma BafInjective(purity: real, total: nat, m1: nat, m2: nat)
    requires purity > 0.0 && BafDenominator(purity, total) != 0.0
    requires Baf(m1, purity, total) == Baf(m2, purity, total)
    ensures m1 == m2
  {
    var den := BafDenominator(purity, total);
    var n1 := m1 as real * purity + (1.0 - purity);
    var n2 := m2 as real * purity + (1.0 - purity);
    assert n1 == n1 / den * den && n2 == n2 / den * den;
    assert (m1 as real - m2 as real) * purity == 0.0;
  }

  /**
    A BAF of 0 occurs only at purity 1 with minor count 0, and then the very first
    entry of the table has BAF 0 too.
   */
  lemma ZeroBafComesFirst(purity: real, ploidy: real, copies: seq<nat>, i: nat)
    requires 0.0 < purity <= 1.0 && Defined(purity, ploidy, copies)
    requires i < |Distribution(purity, ploidy, copies)|
    requires Distribution(purity, ploidy, copies)[i].baf == 0.0
    ensures purity == 1.0 && Distribution(purity, ploidy, copies)[i].minor == 0
    ensures Distribution(purity, ploidy, copies)[0].baf == 0.0
  {
    DistributionEntry(purity, ploidy, copies, i);
    var p := Distribution(purity, ploidy, copies)[i];
    var den := BafDenominator(purity, p.total);
    var num := p.minor as real * purity + (1.0 - purity);
    assert num == num / den * den;
    assert num == 0.0;
    assert p.minor as real * purity >= 0.0;
    assert purity == 1.0;
    DistributionAt(purity, ploidy, copies, 0, 0);
    assert copies[..0] == [];
  }

  /** Purity 1, ploidy 2 and the single copy number 2 give the points 0/2 and 1/2. */
  lemma DiploidExample()
    ensures Defined(1.0, 2.0, [2])
    ensures Distribution(1.0, 2.0, [2]) == [Point(0.0, 1.0, 2, 0), Point(0.5, 1.0, 2, 1)]
  {
    assert [2][..0] == [];
    assert Group(1.0, 2.0, 2, 2) == [Point(0.0, 1.0, 2, 0), Point(0.5, 1.0, 2, 1)];
  }

  /** `class CNATable`: the parameters and the table built from them once. */
  class CnaTable {
    const purity: real
    const ploidy: real
    const copies: seq<nat>
    const table: Columns

    constructor (purity: real, ploidy: real, copies: seq<nat>)
      requires Defined(purity, ploidy, copies)
      ensures this.purity == purity && this.ploidy == ploidy && this.copies == copies
      ensures table.Parallel() && Zip(table) == Distribution(purity, ploidy, copies)
    {
      var t := BuildCnTable(purity, ploidy, copies);
      ZipUnzip(Distribution(purity, ploidy, copies));
      this.purity := purity;
      this.ploidy := ploidy;
      this.copies := copies;
      this.table := t;
    }
  }
}
