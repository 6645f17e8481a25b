module Chunking {
  // The two independent chunkers of the conversation pipeline: `source_units` of
  // scripts/extract_knowledge_candidates.py builds a list, `_source_units` of
  // scripts/review_knowledge_candidates.py builds a dictionary keyed by unit id.

  import opened Common
  import opened Text
  import opened Batching

  const MAX_SOURCE_UNIT_CHARS := 20_000

  /** The fields of a corpus record that the chunkers read; `text` may be absent. */
  datatype CorpusRecord = CorpusRecord(kind: string, sender: string, text: Option<string>, conversation: string, message: string)

  predicate Selected(r: CorpusRecord) {
    r.kind == "message_text" && r.sender == "assistant"
  }

  // ---------------------------------------------------------------- identifiers

  function Decimal(n: nat): (s: string)
    ensures s != "" && forall i :: 0 <= i < |s| ==> '0' <= s[i] <= '9'
  {
    if n < 10 then [DigitChar(n)] else Decimal(n / 10) + [DigitChar(n % 10)]
  }

  function DigitChar(d: nat): (c: char)
    requires d < 10
    ensures '0' <= c <= '9'
  {
    '0' + d as char
  }

  /** `f"{n:0{width}d}"`. */
  function Padded(n: nat, width: nat): (s: string)
    ensures forall i :: 0 <= i < |s| ==> '0' <= s[i] <= '9'
  {
    var digits := Decimal(n);
    if |digits| >= width then digits else Zeros(width - |digits|) + digits
  }

  function Zeros(n: nat): (s: string)
    ensures |s| == n && forall i :: 0 <= i < n ==> s[i] == '0'
  {
    seq(n, i => '0')
  }

  /** The number that a digit string stands for; leading zeros do not matter. */
  function Numeral(s: string): nat
    requires forall i :: 0 <= i < |s| ==> '0' <= s[i] <= '9'
  {
    if s == "" then 0 else 10 * Numeral(s[..|s| - 1]) + (s[|s| - 1] - '0') as nat
  }

  lemma {:induction false} NumeralOfDecimal(n: nat)
    ensures Numeral(Decimal(n)) == n
  {
    if n >= 10 {
      NumeralOfDecimal(n / 10);
      assert Decimal(n)[..|Decimal(n)| - 1] == Decimal(n / 10);
    } else {
      assert Decimal(n)[..0] == "";
    }
  }

  lemma {:induction false} NumeralIgnoresZeros(k: nat, s: string)
    requires forall i :: 0 <= i < |s| ==> '0' <= s[i] <= '9'
    ensures Numeral(Zeros(k) + s) == Numeral(s)
  {
    if s == "" {
      assert Zeros(k) + s == Zeros(k);
      NumeralOfZeros(k);
    } else {
      NumeralIgnoresZeros(k, s[..|s| - 1]);
      assert (Zeros(k) + s)[..k + |s| - 1] == Zeros(k) + s[..|s| - 1];
    }
  }

  lemma {:induction false} NumeralOfZeros(k: nat)
    ensures Numeral(Zeros(k)) == 0
  {
    if k > 0 {
      NumeralOfZeros(k - 1);
      assert Zeros(k)[..k - 1] == Zeros(k - 1);
    }
  }

  lemma PaddedInjective(m: nat, n: nat, width: nat)
    requires Padded(m, width) == Padded(n, width)
    ensures m == n
  {
    forall k | k in {m, n}
      ensures Numeral(Padded(k, width)) == k
    {
      NumeralOfDecimal(k);
      if |Decimal(k)| < width {
        NumeralIgnoresZeros(width - |Decimal(k)|, Decimal(k));
      }
    }
  }

  /** `f"r{record_index:06d}p{part:03d}"`. */
  function UnitId(record: nat, part: nat): string {
    "r" + Padded(record, 6) + "p" + Padded(part, 3)
  }

  /** Ids never collide, even where a number outgrows its padding. */
  lemma UnitIdInjective(r1: nat, p1: nat, r2: nat, p2: nat)
    requires UnitId(r1, p1) == UnitId(r2, p2)
    ensures r1 == r2 && p1 == p2
  {
    var a1, b1, a2, b2 := "r" + Padded(r1, 6), Padded(p1, 3), "r" + Padded(r2, 6), Padded(p2, 3);
    assert UnitId(r1, p1) == a1 + ['p'] + b1 && UnitId(r2, p2) == a2 + ['p'] + b2;
    SplitAppend(a1, 'p', b1);
    SplitAppend(a2, 'p', b2);
    SplitFree(a1, 'p');
    SplitFree(a2, 'p');
    SplitFree(b1, 'p');
    SplitFree(b2, 'p');
    assert ([a1] + [b1])[0] == ([a2] + [b2])[0] && ([a1] + [b1])[1] == ([a2] + [b2])[1];
    assert Padded(r1, 6) == a1[1..] && Padded(r2, 6) == a2[1..];
    PaddedInjective(r1, r2, 6);
    PaddedInjective(p1, p2, 3);
  }

  // --------------------------------------------------------------------- slices

  function Min(a: nat, b: nat): nat {
    if a <= b then a else b
  }

  /** The unit for the part of a text that starts at `start`. */
  function UnitAt(r: CorpusRecord, record: nat, part: nat, text: string, start: nat): Unit
    requires start < |text|
  {
    var end := Min(start + MAX_SOURCE_UNIT_CHARS, |text|);
    Unit(UnitId(record, part), record, r.conversation, r.message, start, end, text[start..end])
  }

  /** The units of a text from `start` on, numbered from `part + 1`. */
  function UnitsFrom(r: CorpusRecord, record: nat, part: nat, text: string, start: nat): seq<Unit>
    decreases if start < |text| then |text| - start else 0
  {
    if start >= |text| then []
    else [UnitAt(r, record, part + 1, text, start)] +
         UnitsFrom(r, record, part + 1, text, start + MAX_SOURCE_UNIT_CHARS)
  }

  function RecordUnits(r: CorpusRecord, record: nat): seq<Unit> {
    if Selected(r) && r.text.Some? then UnitsFrom(r, record, 0, r.text.value, 0) else []
  }

  /** All units of a corpus; records are numbered from 1. */
  function AllUnits(corpus: seq<CorpusRecord>): seq<Unit> {
    if corpus == [] then []
    else
      var n := |corpus| - 1;
      AllUnits(corpus[..n]) + RecordUnits(corpus[n], n + 1)
  }

  /** The slices of a text: not empty, bounded, contiguous from `start` to the end. */
  ghost predicate Slices(units: seq<Unit>, text: string, start: nat) {
    && (forall i :: 0 <= i < |units| ==>
          && units[i].charStart < units[i].charEnd <= |text|
          && units[i].charEnd - units[i].charStart <= MAX_SOURCE_UNIT_CHARS
          && units[i].text == text[units[i].charStart..units[i].charEnd])
    && (forall i :: 0 <= i < |units| - 1 ==> units[i + 1].charStart == units[i].charEnd)
    && (units != [] ==> units[0].charStart == start && units[|units| - 1].charEnd == |text|)
    && (units == [] ==> start >= |text|)
  }

  function ConcatTexts(units: seq<Unit>): string {
    if units == [] then "" else units[0].text + ConcatTexts(units[1..])
  }

  lemma SlicesCons(unit: Unit, rest: seq<Unit>, text: string, start: nat)
    requires unit.charStart == start < unit.charEnd <= |text| && unit.charEnd - start <= MAX_SOURCE_UNIT_CHARS
    requires unit.text == text[start..unit.charEnd] && Slices(rest, text, unit.charEnd)
    ensures Slices([unit] + rest, text, start)
  {
    var units := [unit] + rest;
    forall i | 0 <= i < |units| - 1
      ensures units[i + 1].charStart == units[i].charEnd
    {
      if i > 0 {
        assert rest[i - 1 + 1].charStart == rest[i - 1].charEnd;
      }
    }
  }

  lemma {:induction false} UnitsFromSlices(r: CorpusRecord, record: nat, part: nat, text: string, start: nat)
    requires start <= |text|
    ensures Slices(UnitsFrom(r, record, part, text, start), text, start)
    ensures ConcatTexts(UnitsFrom(r, record, part, text, start)) == text[start..]
    decreases |text| - start
  {
    hide UnitId, Slices;
    if start < |text| {
      var unit := UnitAt(r, record, part + 1, text, start);
      var end := unit.charEnd;
      UnitsFromSlices(r, record, part + 1, text, end);
      var rest := UnitsFrom(r, record, part + 1, text, start + MAX_SOURCE_UNIT_CHARS);
      assert rest == UnitsFrom(r, record, part + 1, text, end);
      SlicesCons(unit, rest, text, start);
      assert ([unit] + rest)[1..] == rest;
      assert text[start..end] + text[end..] == text[start..];
    } else {
      NoSlices(text, start);
    }
  }

  lemma NoSlices(text: string, start: nat)
    requires start >= |text|
    ensures Slices([], text, start)
  {
  }

  /** A selected record's text is cut into slices that concatenate back to it. */
  lemma RecordIsReassembled(r: CorpusRecord, record: nat)
    requires Selected(r) && r.text.Some?
    ensures Slices(RecordUnits(r, record), r.text.value, 0)
    ensures ConcatTexts(RecordUnits(r, record)) == r.text.value
  {
    UnitsFromSlices(r, record, 0, r.text.value, 0);
  }

  // ------------------------------------------------------------------ unique ids

  /** The unit is the given part of the given record. */
  predicate IsPart(unit: Unit, record: nat, part: nat) {
    unit.recordIndex == record && unit.id == UnitId(record, part)
  }

  lemma {:induction false} UnitsFromId(r: CorpusRecord, record: nat, part: nat, text: string, start: nat, i: nat)
    requires i < |UnitsFrom(r, record, part, text, start)|
    ensures IsPart(UnitsFrom(r, record, part, text, start)[i], record, part + 1 + i)
    decreases i
  {
    hide UnitId;
    if i > 0 {
      UnitsFromId(r, record, part + 1, text, start + MAX_SOURCE_UNIT_CHARS, i - 1);
    }
  }

  lemma RecordUnitIds(r: CorpusRecord, record: nat)
    ensures forall i :: 0 <= i < |RecordUnits(r, record)| ==> IsPart(RecordUnits(r, record)[i], record, 1 + i)
  {
    hide IsPart, UnitsFrom;
    forall i | 0 <= i < |RecordUnits(r, record)|
      ensures IsPart(RecordUnits(r, record)[i], record, 1 + i)
    {
      UnitsFromId(r, record, 0, r.text.value, 0, i);
    }
  }

  ghost predicate UniqueIds(units: seq<Unit>) {
    forall i, j :: 0 <= i < j < |units| ==> units[i].id != units[j].id
  }

  /** The id of a unit tells its record. */
  ghost predicate Labelled(units: seq<Unit>, records: nat) {
    forall i :: 0 <= i < |units| ==> LabelledUnit(units[i], records)
  }

  ghost predicate LabelledUnit(unit: Unit, records: nat) {
    exists record: nat, part: nat :: 1 <= record <= records && IsPart(unit, record, part)
  }

  lemma DifferentParts(a: Unit, b: Unit, r1: nat, p1: nat, r2: nat, p2: nat)
    requires IsPart(a, r1, p1) && IsPart(b, r2, p2) && (r1 != r2 || p1 != p2)
    ensures a.id != b.id
  {
    if a.id == b.id {
      UnitIdInjective(r1, p1, r2, p2);
    }
  }

  lemma {:induction false} AllUnitsHaveUniqueIds(corpus: seq<CorpusRecord>)
    ensures UniqueIds(AllUnits(corpus)) && Labelled(AllUnits(corpus), |corpus|)
  {
    hide IsPart, RecordUnits;
    if corpus != [] {
      var n := |corpus| - 1;
      AllUnitsHaveUniqueIds(corpus[..n]);
      RecordUnitIds(corpus[n], n + 1);
      AddRecord(AllUnits(corpus[..n]), RecordUnits(corpus[n], n + 1), n);
    }
  }

  lemma AddRecord(before: seq<Unit>, units: seq<Unit>, n: nat)
    requires UniqueIds(before) && Labelled(before, n)
    requires forall i :: 0 <= i < |units| ==> IsPart(units[i], n + 1, 1 + i)
    ensures UniqueIds(before + units) && Labelled(before + units, n + 1)
  {
    hide IsPart;
    var all := before + units;
    forall i, j | 0 <= i < j < |all|
      ensures all[i].id != all[j].id
    {
      if j >= |before| {
        var b := units[j - |before|];
        assert all[j] == b && IsPart(b, n + 1, 1 + (j - |before|));
        if i >= |before| {
          var a := units[i - |before|];
          assert all[i] == a && IsPart(a, n + 1, 1 + (i - |before|));
          DifferentParts(a, b, n + 1, 1 + (i - |before|), n + 1, 1 + (j - |before|));
        } else {
          assert LabelledUnit(before[i], n);
          var record: nat, part: nat :| 1 <= record <= n && IsPart(before[i], record, part);
          DifferentParts(before[i], b, record, part, n + 1, 1 + (j - |before|));
        }
      }
    }
    forall i | 0 <= i < |all|
      ensures LabelledUnit(all[i], n + 1)
    {
      if i < |before| {
        assert LabelledUnit(before[i], n);
      } else {
        assert IsPart(units[i - |before|], n + 1, 1 + (i - |before|));
      }
    }
  }

  // -------------------------------------------------------------- a whole corpus

  /** The units of one record, in order. */
  function UnitsOf(units: seq<Unit>, record: nat): seq<Unit> {
    if units == [] then []
    else
      var n := |units| - 1;
      UnitsOf(units[..n], record) + (if units[n].recordIndex == record then [units[n]] else [])
  }

  lemma {:induction false} UnitsOfAppend(a: seq<Unit>, b: seq<Unit>, record: nat)
    ensures UnitsOf(a + b, record) == UnitsOf(a, record) + UnitsOf(b, record)
  {
    if b == [] {
      assert a + b == a;
    } else {
      var n := |b| - 1;
      UnitsOfAppend(a, b[..n], record);
      assert (a + b)[..|a + b| - 1] == a + b[..n];
    }
  }

  lemma {:induction false} UnitsOfOwn(units: seq<Unit>, own: nat, record: nat)
    requires forall i :: 0 <= i < |units| ==> units[i].recordIndex == own
    ensures UnitsOf(units, record) == if own == record then units else []
  {
    if units != [] {
      UnitsOfOwn(units[..|units| - 1], own, record);
    }
  }

  /** The unit is the given part of its record and names the record's conversation and message. */
  ghost predicate Labels(unit: Unit, r: CorpusRecord, record: nat, part: nat) {
    && unit.recordIndex == record && unit.id == UnitId(record, part)
    && unit.conversation == r.conversation && unit.message == r.message
  }

  lemma {:induction false} UnitsFromLabels(r: CorpusRecord, record: nat, part: nat, text: string, start: nat, i: nat)
    requires i < |UnitsFrom(r, record, part, text, start)|
    ensures Labels(UnitsFrom(r, record, part, text, start)[i], r, record, part + 1 + i)
    decreases i
  {
    hide UnitId;
    if i > 0 {
      UnitsFromLabels(r, record, part + 1, text, start + MAX_SOURCE_UNIT_CHARS, i - 1);
    }
  }

  lemma RecordUnitsLabels(r: CorpusRecord, record: nat)
    ensures forall i :: 0 <= i < |RecordUnits(r, record)| ==> Labels(RecordUnits(r, record)[i], r, record, 1 + i)
  {
    hide Labels, UnitsFrom;
    forall i | 0 <= i < |RecordUnits(r, record)|
      ensures Labels(RecordUnits(r, record)[i], r, record, 1 + i)
    {
      UnitsFromLabels(r, record, 0, r.text.value, 0, i);
    }
  }

  lemma {:induction false} CorpusRecordUnits(corpus: seq<CorpusRecord>, record: nat)
    ensures UnitsOf(AllUnits(corpus), record) == if 1 <= record <= |corpus| then RecordUnits(corpus[record - 1], record) else []
  {
    hide RecordUnits, UnitId;
    if corpus != [] {
      var n := |corpus| - 1;
      CorpusRecordUnits(corpus[..n], record);
      RecordUnitsLabels(corpus[n], n + 1);
      UnitsOfAppend(AllUnits(corpus[..n]), RecordUnits(corpus[n], n + 1), record);
      UnitsOfOwn(RecordUnits(corpus[n], n + 1), n + 1, record);
    }
  }

  /**
   * The units of a corpus, record by record: those of a selected record with text
   * are slices that concatenate to the text, numbered from 1 under the record's
   * number, with its conversation and message; other records have none.
   */
  lemma CorpusIsReassembled(corpus: seq<CorpusRecord>, record: nat)
    ensures var units := UnitsOf(AllUnits(corpus), record);
            if 1 <= record <= |corpus| && corpus[record - 1].kind == "message_text" && corpus[record - 1].sender == "assistant"
               && corpus[record - 1].text.Some? then
              var r := corpus[record - 1];
              && Slices(units, r.text.value, 0) && ConcatTexts(units) == r.text.value
              && forall i :: 0 <= i < |units| ==> Labels(units[i], r, record, 1 + i)
            else units == []
  {
    hide Slices, ConcatTexts, Labels, UnitsFrom;
    CorpusRecordUnits(corpus, record);
    if 1 <= record <= |corpus| {
      var r := corpus[record - 1];
      RecordUnitsLabels(r, record);
      if Selected(r) && r.text.Some? {
        RecordIsReassembled(r, record);
      }
    }
  }

  // ---------------------------------------------------------------- the chunkers

  /** A selected record without a text field makes the extractor raise. */
  ghost predicate AllHaveText(corpus: seq<CorpusRecord>) {
    forall r :: r in corpus && Selected(r) ==> r.text.Some?
  }

  /** `source_units`: Err is the index of the first selected record without text. */
  method SourceUnits(corpus: seq<CorpusRecord>) returns (result: Result<seq<Unit>, nat>)
    ensures AllHaveText(corpus) ==> result == Ok(AllUnits(corpus))
    ensures result.Err? <==> !AllHaveText(corpus)
    ensures result.Err? ==>
              && result.error < |corpus| && Selected(corpus[result.error]) && corpus[result.error].text.None?
              && AllHaveText(corpus[..result.error])
  {
    var units: seq<Unit> := [];
    for k := 0 to |corpus|
      invariant units == AllUnits(corpus[..k])
      invariant AllHaveText(corpus[..k])
    {
      assert corpus[..k + 1][..k] == corpus[..k];
      assert corpus[..k + 1] == corpus[..k] + [corpus[k]];
      var record := corpus[k];
      if !Selected(record) {
        continue;
      }
      if record.text.None? {
        assert record in corpus;
        return Err(k);
      }
      var text := record.text.value;
      var part := 0;
      var start := 0;
      ghost var before := units;
      while start < |text|
        invariant units + UnitsFrom(record, k + 1, part, text, start) == before + UnitsFrom(record, k + 1, 0, text, 0)
      {
        part := part + 1;
        var unit := UnitAt(record, k + 1, part, text, start);
        assert UnitsFrom(record, k + 1, part - 1, text, start) ==
               [unit] + UnitsFrom(record, k + 1, part, text, start + MAX_SOURCE_UNIT_CHARS);
        units := units + [unit];
        start := start + MAX_SOURCE_UNIT_CHARS;
      }
    }
    assert corpus[..|corpus|] == corpus;
    result := Ok(units);
  }

  /** The dictionary of a list of units: a later unit with the same id would win. */
  function ById(units: seq<Unit>): map<string, Unit> {
    if units == [] then map[]
    else ById(units[..|units| - 1])[units[|units| - 1].id := units[|units| - 1]]
  }

  lemma ByIdNext(units: seq<Unit>, unit: Unit)
    ensures ById(units + [unit]) == ById(units)[unit.id := unit]
    ensures ById([]) == map[]
  {
    assert (units + [unit])[..|units|] == units;
  }

  lemma UnitsFromNext(r: CorpusRecord, record: nat, part: nat, text: string, start: nat)
    ensures UnitsFrom(r, record, part, text, start) ==
            if start >= |text| then []
            else [UnitAt(r, record, part + 1, text, start)] +
                 UnitsFrom(r, record, part + 1, text, start + MAX_SOURCE_UNIT_CHARS)
  {
    hide UnitAt;
  }

  lemma AllUnitsNext(corpus: seq<CorpusRecord>, k: nat)
    requires k < |corpus|
    ensures AllUnits(corpus[..k + 1]) == AllUnits(corpus[..k]) + RecordUnits(corpus[k], k + 1)
    ensures AllUnits([]) == []
  {
    hide RecordUnits;
    assert corpus[..k + 1][..k] == corpus[..k];
  }

  /** The inner loop of `_source_units`: the slices of one record. */
  method AddSlices(record: CorpusRecord, index: nat, text: string, ghost before: seq<Unit>, units0: map<string, Unit>)
    returns (units: map<string, Unit>)
    requires units0 == ById(before)
    ensures units == ById(before + UnitsFrom(record, index, 0, text, 0))
  {
    hide ById, UnitsFrom, UnitAt;
    units := units0;
    var part := 0;
    var start := 0;
    ghost var done := before;
    ghost var all := before + UnitsFrom(record, index, 0, text, 0);
    while start < |text|
      invariant units == ById(done)
      invariant done + UnitsFrom(record, index, part, text, start) == all
    {
      UnitsFromNext(record, index, part, text, start);
      part := part + 1;
      var unit := UnitAt(record, index, part, text, start);
      ByIdNext(done, unit);
      start := start + MAX_SOURCE_UNIT_CHARS;
      assert done + [unit] + UnitsFrom(record, index, part, text, start) == all;
      done := done + [unit];
      units := units[unit.id := unit];
    }
    UnitsFromNext(record, index, part, text, start);
    assert done == all;
  }

  /** `_source_units`: an absent text counts as empty, and the units go into a dictionary. */
  method ReviewUnits(corpus: seq<CorpusRecord>) returns (units: map<string, Unit>)
    ensures units == ById(AllUnits(corpus))
  {
    hide ById, AllUnits, UnitsFrom;
    units := map[];
    NoUnits();
    for k := 0 to |corpus|
      invariant units == ById(AllUnits(corpus[..k]))
    {
      AllUnitsNext(corpus, k);
      var record := corpus[k];
      if !Selected(record) {
        assert AllUnits(corpus[..k]) + [] == AllUnits(corpus[..k]);
        continue;
      }
      var text := if record.text.Some? then record.text.value else "";
      UnitsFromNext(record, k + 1, 0, "", 0);
      units := AddSlices(record, k + 1, text, AllUnits(corpus[..k]), units);
    }
    assert corpus[..|corpus|] == corpus;
  }

  lemma NoUnits()
    ensures ById(AllUnits([])) == map[]
  {
  }

  lemma {:induction false} ByIdKeys(units: seq<Unit>)
    ensures forall id :: id in ById(units) <==> exists i :: 0 <= i < |units| && units[i].id == id
  {
    if units != [] {
      var n := |units| - 1;
      ByIdKeys(units[..n]);
      assert forall i :: 0 <= i < n ==> units[..n][i] == units[i];
      forall id
        ensures id in ById(units) <==> exists i :: 0 <= i < |units| && units[i].id == id
      {
        if id in ById(units[..n]) {
          var i :| 0 <= i < n && units[..n][i].id == id;
          assert units[i].id == id;
        }
        if i :| 0 <= i < |units| && units[i].id == id {
          if i < n {
            assert units[..n][i].id == id;
          }
        }
      }
    }
  }

  lemma LastIsNew(units: seq<Unit>)
    requires UniqueIds(units) && units != []
    ensures units[|units| - 1].id !in ById(units[..|units| - 1])
  {
    var n := |units| - 1;
    ByIdKeys(units[..n]);
    assert forall i :: 0 <= i < n ==> units[..n][i] == units[i];
  }

  lemma {:induction false} ByIdFinds(units: seq<Unit>)
    requires UniqueIds(units)
    ensures |ById(units)| == |units|
    ensures forall i :: 0 <= i < |units| ==> units[i].id in ById(units) && ById(units)[units[i].id] == units[i]
  {
    if units != [] {
      var n := |units| - 1;
      var before := ById(units[..n]);
      ByIdFinds(units[..n]);
      LastIsNew(units);
      assert forall i :: 0 <= i < n ==> units[..n][i] == units[i];
    }
  }

  /**
   * The chunkers agree: whenever the extractor does not raise, the review script's
   * dictionary holds exactly the extractor's units, each under its own id.
   */
  method ChunkersAgree(corpus: seq<CorpusRecord>) returns (extracted: Result<seq<Unit>, nat>, reviewed: map<string, Unit>)
    ensures extracted.Ok? <==> AllHaveText(corpus)
    ensures extracted.Ok? ==>
              var units := extracted.value;
              && UniqueIds(units) && |reviewed| == |units|
              && (forall i :: 0 <= i < |units| ==> units[i].id in reviewed && reviewed[units[i].id] == units[i])
              && (forall id :: id in reviewed ==> exists i :: 0 <= i < |units| && units[i].id == id)
  {
    extracted := SourceUnits(corpus);
    reviewed := ReviewUnits(corpus);
    AllUnitsHaveUniqueIds(corpus);
    ByIdFinds(AllUnits(corpus));
    ByIdKeys(AllUnits(corpus));
  }

  /** Every unit fits a batch, so every batch that the packer makes of a corpus is within the limit. */
  lemma CorpusBatchesFit(corpus: seq<CorpusRecord>)
    ensures forall k :: 0 <= k < |Packed(AllUnits(corpus))| ==> Total(Packed(AllUnits(corpus))[k]) <= MAX_BATCH_CHARS
  {
    UnitsAreBounded(corpus);
    WithinLimitIffUnits(AllUnits(corpus));
  }

  lemma {:induction false} UnitsAreBounded(corpus: seq<CorpusRecord>)
    ensures forall u :: u in AllUnits(corpus) ==> 0 < |u.text| <= MAX_SOURCE_UNIT_CHARS
  {
    if corpus != [] {
      var n := |corpus| - 1;
      UnitsAreBounded(corpus[..n]);
      if Selected(corpus[n]) && corpus[n].text.Some? {
        RecordIsReassembled(corpus[n], n + 1);
      }
    }
  }
}
