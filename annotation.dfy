/**
  Gene annotation of data records (observable/src/utils/annotation.js). The
  records are shared objects whose `geneName` is written in place; an
  annotation entry is `[chr, start, end, geneName]`.
 */
module Annotation {
  import opened JsValues
  import opened Sequences

  /** One annotation entry `[chr, start, end, geneName]`. */
  datatype Interval = Interval(chr: string, start: real, end: real, geneName: string)

  /** A data record; only `geneName` is written, the other fields are read. */
  class Record {
    const chr: string
    const pos: real
    var geneName: Option<string>

    constructor (chr: string, pos: real)
      ensures this.chr == chr && this.pos == pos && geneName == None
    {
      this.chr := chr;
      this.pos := pos;
      geneName := None;
    }
  }

  /** `starts.findLastIndex(start => start <= pos)`: the largest index whose start is at most `pos`, or -1. */
  function LastIndexAtMost(starts: seq<real>, pos: real): (r: int)
    ensures -1 <= r < |starts|
    ensures r >= 0 ==> starts[r] <= pos
    ensures forall j :: r < j < |starts| ==> starts[j] > pos
  {
    if starts == [] then -1
    else if starts[|starts| - 1] <= pos then |starts| - 1
    else LastIndexAtMost(starts[..|starts| - 1], pos)
  }

  /** `annotation.map(ann => ann[1])` */
  function Starts(intervals: seq<Interval>): (r: seq<real>)
    ensures |r| == |intervals| && forall i :: 0 <= i < |r| ==> r[i] == intervals[i].start
  {
    Map((a: Interval) => a.start, intervals)
  }

  /** The gene name one record receives from the intervals of its chromosome. */
  function GeneFor(intervals: seq<Interval>, pos: real): (r: Option<string>)
    ensures r.Some? ==> exists i ::
      && 0 < i < |intervals|
      && intervals[i].start <= pos <= intervals[i].end
      && r.value == intervals[i].geneName
  {
    var index := LastIndexAtMost(Starts(intervals), pos);
    if index > 0 && pos <= intervals[index].end then Some(intervals[index].geneName) else None
  }

  /**
    A name is given exactly when the last interval starting at or before `pos`
    is not the first one and ends at or after `pos`; it is that interval's name.
   */
  lemma GeneForCharacterised(intervals: seq<Interval>, pos: real, i: nat)
    requires i < |intervals| && intervals[i].start <= pos
    requires forall j :: i < j < |intervals| ==> intervals[j].start > pos
    ensures GeneFor(intervals, pos) == if i > 0 && pos <= intervals[i].end then Some(intervals[i].geneName) else None
  {
    assert LastIndexAtMost(Starts(intervals), pos) == i;
  }

  /** A position before every start gets `null`. */
  lemma BeforeEveryStart(intervals: seq<Interval>, pos: real)
    requires forall j :: 0 <= j < |intervals| ==> intervals[j].start > pos
    ensures GeneFor(intervals, pos) == None
  {
    assert LastIndexAtMost(Starts(intervals), pos) == -1;
  }

  /** The interval at index 0 never annotates, even when it contains the position. */
  lemma FirstIntervalNeverAnnotates(intervals: seq<Interval>, pos: real)
    requires forall j :: 0 < j < |intervals| ==> intervals[j].start > pos
    ensures GeneFor(intervals, pos) == None
  {
    assert LastIndexAtMost(Starts(intervals), pos) <= 0;
  }

  /** With strictly ascending starts, a position inside interval i (i > 0, before the next start) gets its name. */
  lemma SortedSelectsContainingInterval(intervals: seq<Interval>, pos: real, i: nat)
    requires forall a, b :: 0 <= a < b < |intervals| ==> intervals[a].start < intervals[b].start
    requires 0 < i < |intervals| && intervals[i].start <= pos <= intervals[i].end
    requires i + 1 == |intervals| || pos < intervals[i + 1].start
    ensures GeneFor(intervals, pos) == Some(intervals[i].geneName)
  {
    GeneForCharacterised(intervals, pos, i);
  }

  /**
    Only the candidate found by the last-start lookup is checked: when the
    last interval starting at or before `pos` ends before it, the record gets
    `null`, even though an earlier interval `i` (not the first) contains `pos`.
   */
  lemma OnlyTheCandidateIsChecked(intervals: seq<Interval>, pos: real, i: nat, j: nat)
    requires 0 < i < j < |intervals|
    requires intervals[i].start <= pos <= intervals[i].end
    requires intervals[j].start <= pos
    requires intervals[j].end < pos
    requires forall k :: j < k < |intervals| ==> intervals[k].start > pos
    ensures GeneFor(intervals, pos) == None
  {
    GeneForCharacterised(intervals, pos, j);
  }

  /**
    `annotateChromosome(data, annotation)`. An undefined annotation (`None`)
    makes `annotation.map` throw before any record is written.
   */
  method AnnotateChromosome(data: seq<Record>, annotation: Option<seq<Interval>>) returns (outcome: Outcome<JsError>)
    modifies data`geneName
    ensures annotation.None? ==> outcome == Fail(TypeError)
    ensures annotation.None? ==> forall i :: 0 <= i < |data| ==> data[i].geneName == old(data[i].geneName)
    ensures annotation.Some? ==> outcome == Pass
    ensures annotation.Some? ==> forall i :: 0 <= i < |data| ==> data[i].geneName == GeneFor(annotation.value, data[i].pos)
  {
    if annotation.None? {
      return Fail(TypeError);
    }
    var intervals := annotation.value;
    var startPoints := Starts(intervals);
    for k := 0 to |data|
      invariant forall i :: 0 <= i < k ==> data[i].geneName == GeneFor(intervals, data[i].pos)
    {
      var record := data[k];
      var pos := record.pos;
      var index := LastIndexAtMost(startPoints, pos);
      if index > 0 && pos <= intervals[index].end {
        record.geneName := Some(intervals[index].geneName);
      } else {
        record.geneName := None;
      }
    }
    outcome := Pass;
  }

  /** The chromosome of a record. */
  function ChrOf(r: Record): string
  {
    r.chr
  }

  /** `Object.keys(dataByChr)`: the chromosomes of the data in order of first appearance. */
  function Chromosomes(data: seq<Record>): (r: seq<string>)
    ensures forall i :: 0 <= i < |data| ==> data[i].chr in r
  {
    var chrs := Map(ChrOf, data);
    assert forall i :: 0 <= i < |data| ==> chrs[i] == data[i].chr;
    Distinct(chrs)
  }

  /** Each chromosome is visited once, and only chromosomes of the data are visited. */
  lemma ChromosomesOnce(data: seq<Record>)
    ensures NoDup(Chromosomes(data))
    ensures forall c :: 0 <= c < |Chromosomes(data)| ==> exists i :: 0 <= i < |data| && data[i].chr == Chromosomes(data)[c]
  {
    var chrs := Map(ChrOf, data);
    assert forall c :: 0 <= c < |Chromosomes(data)| ==> Chromosomes(data)[c] in chrs;
  }

  /** `dataByChr[chr]`: the records of one chromosome, in data order, as the same objects. */
  function RecordsOn(data: seq<Record>, chr: string): (r: seq<Record>)
    ensures forall j :: 0 <= j < |r| ==> r[j] in data && r[j].chr == chr
    ensures forall i :: 0 <= i < |data| && data[i].chr == chr ==> data[i] in r
  {
    Filter(data, (d: Record) => d.chr == chr)
  }

  /** `annotationByChr[chr]`: the intervals of one chromosome, or undefined when it has none. */
  function IntervalsOn(annotation: seq<Interval>, chr: string): (r: Option<seq<Interval>>)
    ensures r.Some? <==> exists i :: 0 <= i < |annotation| && annotation[i].chr == chr
  {
    var on := Filter(annotation, (a: Interval) => a.chr == chr);
    if on == [] then
      assert forall i :: 0 <= i < |annotation| ==> annotation[i].chr != chr;
      None
    else
      assert on[0] in annotation && on[0].chr == chr;
      Some(on)
  }

  /** A chromosome's group holds exactly the intervals of that chromosome, in annotation order. */
  lemma IntervalsOnSelects(annotation: seq<Interval>, chr: string)
    requires IntervalsOn(annotation, chr).Some?
    ensures var on := IntervalsOn(annotation, chr).value;
      && (forall j :: 0 <= j < |on| ==> on[j] in annotation && on[j].chr == chr)
      && (forall i :: 0 <= i < |annotation| && annotation[i].chr == chr ==> annotation[i] in on)
      && Subsequence(on, annotation)
      && (forall i :: 0 <= i < |annotation| && annotation[i].chr == chr ==>
            multiset(on)[annotation[i]] == multiset(annotation)[annotation[i]])
  {
    FilterOrder(annotation, (a: Interval) => a.chr == chr);
  }

  /** The chromosomes handled before position `f` of the iteration order. */
  function Before(chrs: seq<string>, f: nat): set<string>
    requires f <= |chrs|
  {
    set g | 0 <= g < f :: chrs[g]
  }

  lemma BeforeNext(chrs: seq<string>, f: nat)
    requires f < |chrs|
    ensures Before(chrs, f + 1) == Before(chrs, f) + {chrs[f]}
  {
  }

  /** A record carries the name its chromosome's intervals give it. */
  ghost predicate Annotated(annotation: seq<Interval>, r: Record)
    reads r
  {
    IntervalsOn(annotation, r.chr).Some? && r.geneName == GeneFor(IntervalsOn(annotation, r.chr).value, r.pos)
  }

  /**
    The `forEach` callback of `annotate` for one chromosome: look up both
    groups and annotate the data group with the annotation group.
   */
  method AnnotateGroup(data: seq<Record>, annotation: seq<Interval>, chr: string) returns (outcome: Outcome<JsError>)
    modifies data`geneName
    ensures outcome.Pass? <==> IntervalsOn(annotation, chr).Some?
    ensures outcome.Fail? ==> outcome.error == TypeError
    ensures forall i :: 0 <= i < |data| && data[i].chr == chr && outcome.Pass? ==> Annotated(annotation, data[i])
    ensures forall i :: 0 <= i < |data| && (data[i].chr != chr || outcome.Fail?) ==>
      data[i].geneName == old(data[i].geneName)
  {
    var chrData := RecordsOn(data, chr);
    var chrAnnotation := IntervalsOn(annotation, chr);
    outcome := AnnotateChromosome(chrData, chrAnnotation);
    forall i | 0 <= i < |data| && data[i] in chrData
      ensures outcome.Pass? ==> Annotated(annotation, data[i])
      ensures outcome.Fail? ==> data[i].geneName == old(data[i].geneName)
    {
      var j :| 0 <= j < |chrData| && chrData[j] == data[i];
    }
  }

  /**
    Since the start of `annotate`, the records of the chromosomes in `done`
    were annotated and every other record kept its `geneName`.
   */
  twostate predicate AnnotatedExactly(data: seq<Record>, annotation: seq<Interval>, done: set<string>)
    reads set i | 0 <= i < |data| :: data[i]
  {
    forall i :: 0 <= i < |data| ==>
      if data[i].chr in done then Annotated(annotation, data[i])
      else data[i].geneName == old(data[i].geneName)
  }

  /**
    `annotate(data, annotation)`. Chromosome groups are annotated in order of
    first appearance; the first chromosome without intervals throws, after the
    groups before it were annotated and with the groups after it untouched.
   */
  method Annotate(data: seq<Record>, annotation: seq<Interval>) returns (outcome: Outcome<JsError>)
    modifies data`geneName
    ensures outcome.Pass? <==> forall c :: 0 <= c < |Chromosomes(data)| ==> IntervalsOn(annotation, Chromosomes(data)[c]).Some?
    ensures outcome.Pass? ==> forall i :: 0 <= i < |data| ==> Annotated(annotation, data[i])
    ensures outcome.Fail? ==> outcome.error == TypeError && exists f ::
      && 0 <= f < |Chromosomes(data)|
      && IntervalsOn(annotation, Chromosomes(data)[f]).None?
      && (forall c :: 0 <= c < f ==> IntervalsOn(annotation, Chromosomes(data)[c]).Some?)
      && AnnotatedExactly(data, annotation, Before(Chromosomes(data), f))
  {
    var chrs := Chromosomes(data);
    for c := 0 to |chrs|
      invariant forall g :: 0 <= g < c ==> IntervalsOn(annotation, chrs[g]).Some?
      invariant AnnotatedExactly(data, annotation, Before(chrs, c))
    {
      var result := AnnotateGroup(data, annotation, chrs[c]);
      if result.Fail? {
        assert IntervalsOn(annotation, chrs[c]).None?;
        return result;
      }
      BeforeNext(chrs, c);
    }
    forall i | 0 <= i < |data|
      ensures data[i].chr in Before(chrs, |chrs|)
    {
      var k :| 0 <= k < |chrs| && chrs[k] == data[i].chr;
    }
    outcome := Pass;
  }
}
