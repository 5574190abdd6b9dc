/**
  The input parsers: `parseForm` turns the web form into purity, ploidy, the
  list of copy numbers and the normal ploidy, and `parseData` turns the rows
  of a CSV file into typed rows. The two copies of `parseForm` (in
  observable/src/parser.js and src/parser.js) are the same code; the two
  copies of `parseData` differ only in which NaN fields they reject, which is
  the `NaNPolicy` parameter here. `parseFloat` and `parseInt` are parameters.
 */
module Parsing {
  import opened JsValues
  import opened Sequences

  const InvalidFormData: string := "Invalid form data"
  const InvalidNumericForm: string := "Invalid numeic data"
  const NoCopyNumbers: string := "No valid copy numbers found"

  /** The form value: not an object (or null), or an object whose fields may be missing. */
  datatype FormData =
    | NotAnObject
    | Form(purity: Option<string>, ploidy: Option<string>, normalPloidy: Option<string>, copyNumbers: Option<string>)

  /** `[purity, ploidy, copyNumbers, normalPloidy]` */
  datatype FormValues = FormValues(purity: real, ploidy: real, copyNumbers: seq<real>, normalPloidy: real)

  /** A thrown `Error` with its message, or the `TypeError` of calling a method on `undefined`. */
  datatype ParseError = Error(message: string) | Raised(error: JsError)

  /** `parse(field)`: a missing field reads as `undefined`, which parses to NaN. */
  function ParseField(parse: string -> Num, field: Option<string>): Num
  {
    if field.None? then NaN else parse(field.value)
  }

  /** The characters `String.prototype.trim` removes: white space and line terminators. */
  predicate IsWhiteSpace(c: char)
  {
    || c == '\t' || c == '\n' || c == '\U{000B}' || c == '\U{000C}' || c == '\r' || c == ' '
    || c == '\U{00A0}' || c == '\U{1680}' || '\U{2000}' <= c <= '\U{200A}'
    || c == '\U{2028}' || c == '\U{2029}' || c == '\U{202F}' || c == '\U{205F}'
    || c == '\U{3000}' || c == '\U{FEFF}'
  }

  /** `s` with its leading white space removed. */
  function TrimStart(s: string): (r: string)
    ensures |r| <= |s|
  {
    if s != [] && IsWhiteSpace(s[0]) then TrimStart(s[1..]) else s
  }

  /** `s` with its trailing white space removed. */
  function TrimEnd(s: string): (r: string)
    ensures |r| <= |s|
  {
    if s != [] && IsWhiteSpace(s[|s| - 1]) then TrimEnd(s[..|s| - 1]) else s
  }

  /** `s.trim()` */
  function Trim(s: string): string
  {
    TrimEnd(TrimStart(s))
  }

  /** `TrimStart` removes exactly the leading run of white space. */
  lemma {:induction false} TrimStartSpec(s: string)
    ensures var r := TrimStart(s);
      && r == s[|s| - |r|..]
      && (forall i :: 0 <= i < |s| - |r| ==> IsWhiteSpace(s[i]))
      && (r == [] || !IsWhiteSpace(r[0]))
  {
    if s != [] && IsWhiteSpace(s[0]) {
      TrimStartSpec(s[1..]);
      assert forall i :: 0 < i < |s| ==> s[i] == s[1..][i - 1];
    }
  }

  /** `TrimEnd` removes exactly the trailing run of white space. */
  lemma {:induction false} TrimEndSpec(s: string)
    ensures var r := TrimEnd(s);
      && r == s[..|r|]
      && (forall i :: |r| <= i < |s| ==> IsWhiteSpace(s[i]))
      && (r == [] || !IsWhiteSpace(r[|r| - 1]))
  {
    if s != [] && IsWhiteSpace(s[|s| - 1]) {
      TrimEndSpec(s[..|s| - 1]);
    }
  }

  /** The trimmed string is a piece of the original with no white space at either end. */
  lemma TrimInfix(s: string) returns (from: nat)
    ensures from + |Trim(s)| <= |s| && Trim(s) == s[from..from + |Trim(s)|]
    ensures Trim(s) == [] || (!IsWhiteSpace(Trim(s)[0]) && !IsWhiteSpace(Trim(s)[|Trim(s)| - 1]))
  {
    var t := TrimStart(s);
    TrimStartSpec(s);
    TrimEndSpec(t);
    from := |s| - |t|;
    var r := Trim(s);
    if r != [] {
      assert r[0] == t[0];
    }
  }

  /** Trimming twice is trimming once. */
  lemma TrimIdempotent(s: string)
    ensures Trim(Trim(s)) == Trim(s)
  {
    var r := Trim(s);
    var _ := TrimInfix(s);
    assert TrimStart(r) == r;
    assert TrimEnd(r) == r;
  }

  /** `copyNumbers.split(',').map(num => parseFloat(num.trim())).filter(num => !isNaN(num))` */
  function CopyNumbers(copyNumbers: string, parseFloat: string -> Num): (r: seq<real>)
    ensures |r| <= |Split(copyNumbers, ',')|
    ensures Subsequence(Map(AsNum, r), PartNumbers(copyNumbers, parseFloat))
  {
    NumbersOf(PartNumbers(copyNumbers, parseFloat))
  }

  /** The values of the numbers that are not NaN, in order. */
  function NumbersOf(nums: seq<Num>): (r: seq<real>)
    ensures |r| <= |nums|
    ensures forall i :: 0 <= i < |r| ==> Num(r[i]) in nums
    ensures forall i :: 0 <= i < |nums| && nums[i].Num? ==> nums[i].value in r
    ensures Subsequence(Map(AsNum, r), nums)
  {
    if nums == [] then []
    else
      assert forall i :: 0 < i < |nums| ==> nums[i] == nums[1..][i - 1];
      assert nums == [nums[0]] + nums[1..];
      var rest := NumbersOf(nums[1..]);
      if nums[0].NaN? then rest
      else
        assert Map(AsNum, [nums[0].value] + rest) == [nums[0]] + Map(AsNum, rest);
        [nums[0].value] + rest
  }

  /** Each value is kept as often as it occurs as a number: nothing but NaN is dropped. */
  lemma {:induction false} NumbersOfCount(nums: seq<Num>, v: real)
    ensures multiset(NumbersOf(nums))[v] == multiset(nums)[Num(v)]
  {
    if nums != [] {
      assert nums == [nums[0]] + nums[1..];
      NumbersOfCount(nums[1..], v);
    }
  }

  /** A value as a JS number. */
  function AsNum(v: real): Num
  {
    Num(v)
  }

  /** When no number is NaN, none is dropped and the order is kept. */
  lemma {:induction false} NumbersOfAllNumbers(nums: seq<Num>)
    requires forall i :: 0 <= i < |nums| ==> nums[i].Num?
    ensures |NumbersOf(nums)| == |nums|
    ensures forall i :: 0 <= i < |nums| ==> NumbersOf(nums)[i] == nums[i].value
  {
    if nums != [] {
      NumbersOfAllNumbers(nums[1..]);
    }
  }

  /** Only NaN numbers leave nothing. */
  lemma {:induction false} NumbersOfNoNumbers(nums: seq<Num>)
    requires forall i :: 0 <= i < |nums| ==> nums[i].NaN?
    ensures NumbersOf(nums) == []
  {
    if nums != [] {
      NumbersOfNoNumbers(nums[1..]);
    }
  }

  /** `parseForm(formData)` */
  function ParseForm(formData: FormData, parseFloat: string -> Num, parseInt: string -> Num)
    : (r: Result<FormValues, ParseError>)
    ensures formData.NotAnObject? <==> r == Failure(Error(InvalidFormData))
    ensures formData.Form? ==>
      var purity, ploidy := ParseField(parseFloat, formData.purity), ParseField(parseFloat, formData.ploidy);
      var normalPloidy := ParseField(parseInt, formData.normalPloidy);
      && (r == Failure(Error(InvalidNumericForm)) <==> purity.NaN? || ploidy.NaN? || normalPloidy.NaN?)
      && (purity.Num? && ploidy.Num? && normalPloidy.Num? ==>
            && (r == Failure(Raised(TypeError)) <==> formData.copyNumbers.None?)
            && (r == Failure(Error(NoCopyNumbers)) <==>
                  formData.copyNumbers.Some? && CopyNumbers(formData.copyNumbers.value, parseFloat) == []))
      && (r.Success? ==>
            && Num(r.value.purity) == purity && Num(r.value.ploidy) == ploidy
            && Num(r.value.normalPloidy) == normalPloidy
            && formData.copyNumbers.Some?
            && r.value.copyNumbers == CopyNumbers(formData.copyNumbers.value, parseFloat)
            && r.value.copyNumbers != [])
    ensures r.Failure? ==> r.error in {Error(InvalidFormData), Error(InvalidNumericForm), Raised(TypeError), Error(NoCopyNumbers)}
  {
    if formData.NotAnObject? then Failure(Error(InvalidFormData))
    else
      var purity := ParseField(parseFloat, formData.purity);
      var ploidy := ParseField(parseFloat, formData.ploidy);
      var normalPloidy := ParseField(parseInt, formData.normalPloidy);
      if purity.NaN? || ploidy.NaN? || normalPloidy.NaN? then Failure(Error(InvalidNumericForm))
      else if formData.copyNumbers.None? then Failure(Raised(TypeError))
      else
        var copyNumbers := CopyNumbers(formData.copyNumbers.value, parseFloat);
        if copyNumbers == [] then Failure(Error(NoCopyNumbers))
        else Success(FormValues(purity.value, ploidy.value, copyNumbers, normalPloidy.value))
  }

  /** No range check is applied: any numbers the parsers return are accepted. */
  lemma ParseFormNoRangeCheck(purity: string, ploidy: string, normalPloidy: string, copyNumbers: string,
                              parseFloat: string -> Num, parseInt: string -> Num)
    requires parseFloat(purity).Num? && parseFloat(ploidy).Num? && parseInt(normalPloidy).Num?
    requires CopyNumbers(copyNumbers, parseFloat) != []
    ensures ParseForm(Form(Some(purity), Some(ploidy), Some(normalPloidy), Some(copyNumbers)), parseFloat, parseInt)
      == Success(FormValues(parseFloat(purity).value, parseFloat(ploidy).value,
                            CopyNumbers(copyNumbers, parseFloat), parseInt(normalPloidy).value))
  {
  }

  /** The number each comma-separated part parses to, after trimming. */
  function PartNumbers(copyNumbers: string, parseFloat: string -> Num): (r: seq<Num>)
    ensures var parts := Split(copyNumbers, ',');
      |r| == |parts| && forall i :: 0 <= i < |parts| ==> r[i] == parseFloat(Trim(parts[i]))
  {
    Map((part: string) => parseFloat(Trim(part)), Split(copyNumbers, ','))
  }

  /** When every comma-separated part parses, the copy numbers are the parsed parts, one per part and in order. */
  lemma CopyNumbersAllParse(copyNumbers: string, parseFloat: string -> Num)
    requires forall i :: 0 <= i < |Split(copyNumbers, ',')| ==> parseFloat(Trim(Split(copyNumbers, ',')[i])).Num?
    ensures var parts := Split(copyNumbers, ',');
      && |CopyNumbers(copyNumbers, parseFloat)| == |parts|
      && forall i :: 0 <= i < |parts| ==> CopyNumbers(copyNumbers, parseFloat)[i] == parseFloat(Trim(parts[i])).value
  {
    var parts, nums := Split(copyNumbers, ','), PartNumbers(copyNumbers, parseFloat);
    forall i | 0 <= i < |nums|
      ensures nums[i].Num?
    {
      assert nums[i] == parseFloat(Trim(parts[i]));
    }
    NumbersOfAllNumbers(nums);
  }

  /** When no part parses, no copy number is left, and the form is rejected. */
  lemma CopyNumbersNoneParse(copyNumbers: string, parseFloat: string -> Num)
    requires forall i :: 0 <= i < |Split(copyNumbers, ',')| ==> parseFloat(Trim(Split(copyNumbers, ',')[i])).NaN?
    ensures CopyNumbers(copyNumbers, parseFloat) == []
  {
    var parts, nums := Split(copyNumbers, ','), PartNumbers(copyNumbers, parseFloat);
    forall i | 0 <= i < |nums|
      ensures nums[i].NaN?
    {
      assert nums[i] == parseFloat(Trim(parts[i]));
    }
    NumbersOfNoNumbers(nums);
  }

  /** A row of the CSV file: every field is text. */
  datatype CsvRow = CsvRow(chr: string, pos: string, baf: string, dr: string)

  /** Which NaN fields `parseData` rejects. */
  datatype NaNPolicy =
    | PositionOnly  // observable/src/parser.js: only a NaN position throws
    | AllFields     // src/parser.js: a NaN position, BAF or DR throws

  /**
    `row.chr.len`: a JavaScript string has no property `len` (its length is
    `length`), so this is always `undefined`, whatever the label.
   */
  function LenProperty(chr: string): Option<nat>
  {
    None
  }

  predicate WrongChr(chr: string)
  {
    LenProperty(chr).Some? && LenProperty(chr).value < 4
  }

  /**
    The chromosome guard `row.chr.len < 4` is vacuous: it compares `undefined`
    with 4, which is false, so it never throws, whatever the label. This holds
    only because strings have no `len` property (`LenProperty` is `None`).
   */
  lemma ChrGuardVacuous(chr: string)
    ensures !WrongChr(chr)
  {
  }

  /** `Wrong chr record at row ${idx}` */
  function WrongChrMessage(idx: nat): string
  {
    "Wrong chr record at row " + NatToString(idx)
  }

  /** `Invalid numeric data at row ${idx}` */
  function InvalidRowMessage(idx: nat): string
  {
    "Invalid numeric data at row " + NatToString(idx)
  }

  /** The message names the row: different rows give different messages. */
  lemma InvalidRowMessageInjective(i: nat, j: nat)
    requires InvalidRowMessage(i) == InvalidRowMessage(j)
    ensures i == j
  {
    var prefix := "Invalid numeric data at row ";
    assert NatToString(i) == InvalidRowMessage(i)[|prefix|..];
    assert NatToString(j) == InvalidRowMessage(j)[|prefix|..];
    NatToStringInjective(i, j);
  }

  /** Whether the callback throws on a row whose fields parsed to these numbers. */
  predicate Rejects(policy: NaNPolicy, pos: Num, baf: Num, dr: Num)
  {
    pos.NaN? || (policy == AllFields && (baf.NaN? || dr.NaN?))
  }

  /** The callback of `data.map` on row `idx`. */
  function ParseRow(row: CsvRow, idx: nat, policy: NaNPolicy, parseFloat: string -> Num, parseInt: string -> Num)
    : (r: Result<DataRow, string>)
    ensures r.Failure? <==> Rejects(policy, parseInt(row.pos), parseFloat(row.baf), parseFloat(row.dr))
    ensures r.Failure? ==> r.error == InvalidRowMessage(idx)
    ensures r.Success? ==>
      && r.value.chr == row.chr && Num(r.value.pos) == parseInt(row.pos)
      && r.value.baf == parseFloat(row.baf) && r.value.dr == parseFloat(row.dr)
  {
    if WrongChr(row.chr) then Failure(WrongChrMessage(idx))
    else
      var pos, baf, dr := parseInt(row.pos), parseFloat(row.baf), parseFloat(row.dr);
      if Rejects(policy, pos, baf, dr) then Failure(InvalidRowMessage(idx))
      else Success(DataRow(row.chr, pos.value, baf, dr))
  }

  /** `data.map(callback)` on the first `n` rows: the rows parsed, or the error of the first row that throws. */
  function ParsePrefix(data: seq<CsvRow>, n: nat, policy: NaNPolicy, parseFloat: string -> Num, parseInt: string -> Num)
    : (r: Result<seq<DataRow>, string>)
    requires n <= |data|
    ensures r.Success? ==>
      && |r.value| == n
      && forall i :: 0 <= i < n ==> ParseRow(data[i], i, policy, parseFloat, parseInt) == Success(r.value[i])
    ensures r.Failure? ==>
      exists i ::
        && 0 <= i < n
        && ParseRow(data[i], i, policy, parseFloat, parseInt) == Failure(r.error)
        && (forall j :: 0 <= j < i ==> ParseRow(data[j], j, policy, parseFloat, parseInt).Success?)
  {
    if n == 0 then Success([])
    else
      var before := ParsePrefix(data, n - 1, policy, parseFloat, parseInt);
      if before.Failure? then before
      else
        var last := ParseRow(data[n - 1], n - 1, policy, parseFloat, parseInt);
        if last.Failure? then Failure(last.error)
        else Success(before.value + [last.value])
  }

  /** `parseData(data)` */
  function ParseData(data: seq<CsvRow>, policy: NaNPolicy, parseFloat: string -> Num, parseInt: string -> Num)
    : (r: Result<seq<DataRow>, string>)
    ensures r.Success? ==> |r.value| == |data|
    ensures r.Failure? ==> exists i :: 0 <= i < |data| && r.error == InvalidRowMessage(i)
  {
    ParsePrefix(data, |data|, policy, parseFloat, parseInt)
  }

  /**
    A successful parse keeps the length and the order of the rows and copies
    each label unchanged; under the strict policy no BAF or DR is NaN.
   */
  lemma ParseDataRows(data: seq<CsvRow>, policy: NaNPolicy, parseFloat: string -> Num, parseInt: string -> Num)
    requires ParseData(data, policy, parseFloat, parseInt).Success?
    ensures var rows := ParseData(data, policy, parseFloat, parseInt).value;
      && |rows| == |data|
      && forall i :: 0 <= i < |data| ==>
        && rows[i].chr == data[i].chr
        && Num(rows[i].pos) == parseInt(data[i].pos)
        && rows[i].baf == parseFloat(data[i].baf) && rows[i].dr == parseFloat(data[i].dr)
        && (policy == AllFields ==> rows[i].baf.Num? && rows[i].dr.Num?)
  {
    var rows := ParseData(data, policy, parseFloat, parseInt).value;
    forall i | 0 <= i < |data|
      ensures ParseRow(data[i], i, policy, parseFloat, parseInt) == Success(rows[i])
    {
    }
  }

  /**
    The parse fails exactly when some row's position (or, under the strict
    policy, its BAF or DR) is NaN, and the message names the first such row.
   */
  lemma ParseDataFailure(data: seq<CsvRow>, policy: NaNPolicy, parseFloat: string -> Num, parseInt: string -> Num)
    ensures var r := ParseData(data, policy, parseFloat, parseInt);
      && (r.Failure? <==>
            exists i ::
              0 <= i < |data| && Rejects(policy, parseInt(data[i].pos), parseFloat(data[i].baf), parseFloat(data[i].dr)))
      && (r.Failure? ==>
            exists i ::
              && 0 <= i < |data|
              && Rejects(policy, parseInt(data[i].pos), parseFloat(data[i].baf), parseFloat(data[i].dr))
              && (forall j :: 0 <= j < i ==>
                    !Rejects(policy, parseInt(data[j].pos), parseFloat(data[j].baf), parseFloat(data[j].dr)))
              && r.error == InvalidRowMessage(i))
  {
    var r := ParseData(data, policy, parseFloat, parseInt);
    if r.Failure? {
      var i :| 0 <= i < |data|
        && ParseRow(data[i], i, policy, parseFloat, parseInt) == Failure(r.error)
        && (forall j :: 0 <= j < i ==> ParseRow(data[j], j, policy, parseFloat, parseInt).Success?);
      assert Rejects(policy, parseInt(data[i].pos), parseFloat(data[i].baf), parseFloat(data[i].dr));
    } else {
      forall i | 0 <= i < |data|
        ensures !Rejects(policy, parseInt(data[i].pos), parseFloat(data[i].baf), parseFloat(data[i].dr))
      {
        assert ParseRow(data[i], i, policy, parseFloat, parseInt) == Success(r.value[i]);
      }
    }
  }

  /** The lenient parser keeps a row whose BAF and DR do not parse, as NaN; the strict one rejects it. */
  lemma NaNValuesPolicy(row: CsvRow, parseFloat: string -> Num, parseInt: string -> Num)
    requires parseInt(row.pos).Num? && parseFloat(row.baf).NaN? && parseFloat(row.dr).NaN?
    ensures ParseData([row], PositionOnly, parseFloat, parseInt)
      == Success([DataRow(row.chr, parseInt(row.pos).value, NaN, NaN)])
    ensures ParseData([row], AllFields, parseFloat, parseInt) == Failure(InvalidRowMessage(0))
  {
    var parsed := DataRow(row.chr, parseInt(row.pos).value, NaN, NaN);
    assert ParseRow(row, 0, PositionOnly, parseFloat, parseInt) == Success(parsed);
    assert ParsePrefix([row], 0, PositionOnly, parseFloat, parseInt) == Success([]);
    assert [] + [parsed] == [parsed];
  }
}
