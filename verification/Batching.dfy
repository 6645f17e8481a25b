module Batching {
  // `build_batches` of scripts/extract_knowledge_candidates.py: an
  // order-preserving greedy packer, and the proof that no packing uses fewer
  // batches.

  import opened Common

  const MAX_BATCH_CHARS := 100_000

  datatype Unit = Unit(
    id: string,
    recordIndex: nat,
    conversation: string,
    message: string,
    charStart: nat,
    charEnd: nat,
    text: string)

  datatype Batch = Batch(
    number: nat,
    conversation: string,
    unitIds: seq<string>,
    characters: nat,
    units: seq<Unit>)

  // ---------------------------------------------------------------- partitions

  function Total(units: seq<Unit>): nat {
    if units == [] then 0 else Total(units[..|units| - 1]) + |units[|units| - 1].text|
  }

  function Flatten(parts: seq<seq<Unit>>): seq<Unit> {
    if parts == [] then [] else Flatten(parts[..|parts| - 1]) + parts[|parts| - 1]
  }

  ghost predicate OneConversation(part: seq<Unit>) {
    forall i, j :: 0 <= i < |part| && 0 <= j < |part| ==> part[i].conversation == part[j].conversation
  }

  /** A batch that may be sent: not empty, one conversation, within the limit unless it is a single unit. */
  ghost predicate Sendable(part: seq<Unit>) {
    part != [] && OneConversation(part) && (Total(part) <= MAX_BATCH_CHARS || |part| == 1)
  }

  /** An order-preserving partition into sendable batches. */
  ghost predicate IsPacking(parts: seq<seq<Unit>>, units: seq<Unit>) {
    Flatten(parts) == units && forall k :: 0 <= k < |parts| ==> Sendable(parts[k])
  }

  // ------------------------------------------------------------- greedy packing

  predicate MustFlush(current: seq<Unit>, unit: Unit) {
    current != [] &&
    (unit.conversation != current[0].conversation || Total(current) + |unit.text| > MAX_BATCH_CHARS)
  }

  /** The parts that the loop has closed, and the part it is still filling. */
  function Greedy(units: seq<Unit>): (r: (seq<seq<Unit>>, seq<Unit>))
    ensures units != [] ==> r.1 != []
  {
    if units == [] then ([], [])
    else
      var unit := units[|units| - 1];
      var (closed, current) := Greedy(units[..|units| - 1]);
      if MustFlush(current, unit) then (closed + [current], [unit]) else (closed, current + [unit])
  }

  function Packed(units: seq<Unit>): seq<seq<Unit>> {
    var (closed, current) := Greedy(units);
    if current == [] then closed else closed + [current]
  }

  function Ids(units: seq<Unit>): seq<string> {
    seq(|units|, i requires 0 <= i < |units| => units[i].id)
  }

  /** The batch record of the `k`-th part. */
  function BatchOf(part: seq<Unit>, k: nat): Batch
    requires part != []
  {
    Batch(k + 1, part[0].conversation, Ids(part), Total(part), part)
  }

  ghost predicate Records(batches: seq<Batch>, parts: seq<seq<Unit>>) {
    && |batches| == |parts|
    && forall k :: 0 <= k < |parts| ==> parts[k] != [] && batches[k] == BatchOf(parts[k], k)
  }

  /** The inner `flush`. */
  method Flush(batches: seq<Batch>, current: seq<Unit>, currentChars: nat, currentConversation: Option<string>,
               ghost parts: seq<seq<Unit>>)
    returns (batches': seq<Batch>, current': seq<Unit>, currentChars': nat, currentConversation': Option<string>)
    requires Records(batches, parts) && currentChars == Total(current)
    requires current != [] ==> currentConversation == Some(current[0].conversation)
    ensures Records(batches', if current == [] then parts else parts + [current])
    ensures current == [] ==> current' == current && currentChars' == currentChars && currentConversation' == currentConversation
    ensures current != [] ==> current' == [] && currentChars' == 0 && currentConversation' == None
  {
    if current == [] {
      return batches, current, currentChars, currentConversation;
    }
    var number := |batches| + 1;
    batches' := batches + [Batch(number, currentConversation.value, Ids(current), currentChars, current)];
    return batches', [], 0, None;
  }

  lemma NoBatches()
    ensures Records([], []) && Total([]) == 0
  {
  }

  method BuildBatches(units: seq<Unit>) returns (batches: seq<Batch>)
    ensures Records(batches, Packed(units)) && Batches(batches, units)
  {
    hide Batches, Records, Ids, BatchOf, Total;
    NoBatches();
    batches := [];
    var current: seq<Unit> := [];
    var currentChars := 0;
    var currentConversation: Option<string> := None;
    for k := 0 to |units|
      invariant Greedy(units[..k]).1 == current
      invariant Records(batches, Greedy(units[..k]).0)
      invariant currentChars == Total(current)
      invariant current != [] ==> currentConversation == Some(current[0].conversation)
    {
      var unit := units[k];
      assert units[..k + 1][..k] == units[..k];
      ghost var (closed, open) := Greedy(units[..k]);
      if current != [] && (Some(unit.conversation) != currentConversation || currentChars + |unit.text| > MAX_BATCH_CHARS) {
        batches, current, currentChars, currentConversation :=
          Flush(batches, current, currentChars, currentConversation, closed);
      }
      if current == [] {
        currentConversation := Some(unit.conversation);
      }
      TotalLast(current, unit);
      current := current + [unit];
      currentChars := currentChars + |unit.text|;
    }
    assert units[..|units|] == units;
    batches, current, currentChars, currentConversation :=
      Flush(batches, current, currentChars, currentConversation, Greedy(units).0);
    RecordsArePacking(batches, units);
  }

  // ------------------------------------------------------------------ a packing

  lemma TotalLast(units: seq<Unit>, unit: Unit)
    ensures Total(units + [unit]) == Total(units) + |unit.text|
  {
    assert (units + [unit])[..|units|] == units;
  }

  lemma FlattenLast(parts: seq<seq<Unit>>, part: seq<Unit>)
    ensures Flatten(parts + [part]) == Flatten(parts) + part
  {
    assert (parts + [part])[..|parts|] == parts;
  }

  lemma SingleIsSendable(unit: Unit)
    ensures Sendable([unit])
  {
  }

  lemma ExtendSendable(current: seq<Unit>, unit: Unit)
    requires Sendable(current) && !MustFlush(current, unit)
    ensures Sendable(current + [unit])
  {
    TotalLast(current, unit);
    var longer := current + [unit];
    forall i | 0 <= i < |longer|
      ensures longer[i].conversation == current[0].conversation
    {
    }
  }

  /** The closed parts and the open one together are the units so far, each of them sendable. */
  ghost predicate Filling(closed: seq<seq<Unit>>, current: seq<Unit>, units: seq<Unit>) {
    && Flatten(closed) + current == units
    && (forall k :: 0 <= k < |closed| ==> Sendable(closed[k]))
    && (current != [] ==> Sendable(current))
  }

  lemma FillingCloses(closed: seq<seq<Unit>>, current: seq<Unit>, units: seq<Unit>, unit: Unit)
    requires Filling(closed, current, units) && MustFlush(current, unit)
    ensures Filling(closed + [current], [unit], units + [unit])
  {
    hide Sendable, MustFlush, Flatten;
    FlushMeansOpen(current, unit);
    SingleIsSendable(unit);
    FlattenLast(closed, current);
  }

  lemma FillingGrows(closed: seq<seq<Unit>>, current: seq<Unit>, units: seq<Unit>, unit: Unit)
    requires Filling(closed, current, units) && !MustFlush(current, unit)
    ensures Filling(closed, current + [unit], units + [unit])
  {
    hide Sendable, MustFlush, Flatten;
    assert Flatten(closed) + (current + [unit]) == Flatten(closed) + current + [unit];
    if current == [] {
      SingleIsSendable(unit);
      assert current + [unit] == [unit];
    } else {
      ExtendSendable(current, unit);
    }
  }

  lemma {:induction false} GreedyIsPacking(units: seq<Unit>)
    ensures Filling(Greedy(units).0, Greedy(units).1, units)
  {
    hide Sendable, MustFlush;
    if units != [] {
      hide Filling;
      var n := |units| - 1;
      var unit := units[n];
      GreedyIsPacking(units[..n]);
      var (closed, current) := Greedy(units[..n]);
      assert units == units[..n] + [unit];
      if MustFlush(current, unit) {
        FillingCloses(closed, current, units[..n], unit);
      } else {
        FillingGrows(closed, current, units[..n], unit);
      }
    }
  }

  lemma FlushMeansOpen(current: seq<Unit>, unit: Unit)
    requires MustFlush(current, unit)
    ensures current != []
  {
  }

  /** The batches are an order-preserving partition of the units into sendable batches. */
  lemma PackedIsPacking(units: seq<Unit>)
    ensures IsPacking(Packed(units), units)
  {
    hide Sendable, Greedy, Flatten;
    GreedyIsPacking(units);
    var (closed, current) := Greedy(units);
    FlattenLast(closed, current);
    assert current == [] ==> Flatten(closed) + current == Flatten(closed);
  }

  /** The parts that the batch records hold. */
  ghost function Parts(batches: seq<Batch>): seq<seq<Unit>> {
    seq(|batches|, k requires 0 <= k < |batches| => batches[k].units)
  }

  /** A batch record describes its units: their number, conversation, ids and total length. */
  ghost predicate Describes(batch: Batch, number: nat) {
    && batch.number == number
    && (forall i :: 0 <= i < |batch.units| ==> batch.units[i].conversation == batch.conversation)
    && |batch.unitIds| == |batch.units| && (forall i :: 0 <= i < |batch.units| ==> batch.unitIds[i] == batch.units[i].id)
    && batch.characters == Total(batch.units)
  }

  /** The batch records, numbered from 1, describe the parts they hold, and these are a packing of the units. */
  ghost predicate Batches(batches: seq<Batch>, units: seq<Unit>) {
    && IsPacking(Parts(batches), units)
    && forall k :: 0 <= k < |batches| ==> Describes(batches[k], k + 1)
  }

  lemma RecordDescribes(part: seq<Unit>, k: nat)
    requires part != [] && OneConversation(part)
    ensures BatchOf(part, k).units == part && Describes(BatchOf(part, k), k + 1)
  {
    hide Total;
  }

  lemma RecordsArePacking(batches: seq<Batch>, units: seq<Unit>)
    requires Records(batches, Packed(units))
    ensures Batches(batches, units)
  {
    hide Total, Describes, Packed, Flatten, BatchOf;
    PackedIsPacking(units);
    var parts := Packed(units);
    forall k | 0 <= k < |parts|
      ensures batches[k].units == parts[k] && Describes(batches[k], k + 1)
    {
      assert Sendable(parts[k]);
      RecordDescribes(parts[k], k);
    }
    assert Parts(batches) == parts;
  }

  lemma {:induction false} PartsOfFlatten(parts: seq<seq<Unit>>, k: nat, i: nat)
    requires k < |parts| && i < |parts[k]|
    ensures parts[k][i] in Flatten(parts)
  {
    if k < |parts| - 1 {
      PartsOfFlatten(parts[..|parts| - 1], k, i);
    }
  }

  lemma SingleTotal(part: seq<Unit>)
    requires |part| == 1
    ensures Total(part) == |part[0].text|
  {
    assert part[..0] == [];
  }

  /** Every batch is within the limit exactly when every unit is. */
  lemma WithinLimitIffUnits(units: seq<Unit>)
    ensures (forall k :: 0 <= k < |Packed(units)| ==> Total(Packed(units)[k]) <= MAX_BATCH_CHARS) <==>
            (forall u :: u in units ==> |u.text| <= MAX_BATCH_CHARS)
  {
    PackedIsPacking(units);
    var parts := Packed(units);
    if forall u :: u in units ==> |u.text| <= MAX_BATCH_CHARS {
      forall k | 0 <= k < |parts|
        ensures Total(parts[k]) <= MAX_BATCH_CHARS
      {
        assert Sendable(parts[k]);
        if |parts[k]| == 1 {
          SingleTotal(parts[k]);
          PartsOfFlatten(parts, k, 0);
        }
      }
    }
    if forall k :: 0 <= k < |parts| ==> Total(parts[k]) <= MAX_BATCH_CHARS {
      forall u | u in units
        ensures |u.text| <= MAX_BATCH_CHARS
      {
        var k := PartHolding(parts, u);
        TotalAtLeast(parts[k], u);
      }
    }
  }

  lemma {:induction false} PartHolding(parts: seq<seq<Unit>>, u: Unit) returns (k: nat)
    requires u in Flatten(parts)
    ensures k < |parts| && u in parts[k]
  {
    var n := |parts| - 1;
    if u in parts[n] {
      k := n;
    } else {
      k := PartHolding(parts[..n], u);
    }
  }

  lemma {:induction false} TotalAtLeast(part: seq<Unit>, u: Unit)
    requires u in part
    ensures |u.text| <= Total(part)
  {
    var n := |part| - 1;
    if part[n] != u {
      assert u in part[..n];
      TotalAtLeast(part[..n], u);
    }
  }

  // ------------------------------------------------------------------ optimality

  lemma {:induction false} TotalSuffix(part: seq<Unit>, i: nat)
    requires i <= |part|
    ensures Total(part[i..]) <= Total(part)
  {
    if i < |part| {
      var n := |part| - 1;
      TotalSuffix(part[..n], i);
      assert part[i..][..n - i] == part[..n][i..];
    }
  }

  /** A packing without its last unit is a packing of the units before. */
  lemma DropLastUnit(parts: seq<seq<Unit>>, units: seq<Unit>) returns (parts': seq<seq<Unit>>)
    requires IsPacking(parts, units) && units != []
    ensures parts != [] && IsPacking(parts', units[..|units| - 1])
    ensures var last := parts[|parts| - 1];
            && last != [] && last[|last| - 1] == units[|units| - 1]
            && (if |last| == 1 then parts' == parts[..|parts| - 1]
                else |parts'| == |parts| && parts'[|parts| - 1] == last[..|last| - 1])
  {
    var n := |parts| - 1;
    var last := parts[n];
    assert Sendable(last);
    assert units == Flatten(parts[..n]) + last;
    if |last| == 1 {
      parts' := parts[..n];
      assert units[..|units| - 1] == Flatten(parts[..n]);
    } else {
      var shorter := last[..|last| - 1];
      parts' := parts[..n] + [shorter];
      FlattenLast(parts[..n], shorter);
      assert units[..|units| - 1] == Flatten(parts[..n]) + shorter;
    }
  }

  /** Two parts at the end of the same units: the shorter is a suffix of the longer. */
  lemma LastIsSuffix(parts: seq<seq<Unit>>, closed: seq<seq<Unit>>, current: seq<Unit>, units: seq<Unit>)
    requires parts != [] && Flatten(parts) == units && Flatten(closed) + current == units
    requires |current| <= |parts[|parts| - 1]|
    ensures var last := parts[|parts| - 1]; current == last[|last| - |current|..]
  {
    var last := parts[|parts| - 1];
    assert units == Flatten(parts[..|parts| - 1]) + last;
    assert current == units[|units| - |current|..];
    assert last == units[|units| - |last|..];
  }

  /** When a sendable part could take the unit, so could every suffix of what it holds. */
  lemma SuffixTakesUnit(last: seq<Unit>, current: seq<Unit>, unit: Unit)
    requires Sendable(last + [unit]) && |current| <= |last| && current == last[|last| - |current|..]
    ensures !MustFlush(current, unit)
  {
    if current != [] {
      TotalLast(last, unit);
      TotalSuffix(last, |last| - |current|);
      var longer := last + [unit];
      assert longer[|last| - |current|] == current[0] && longer[|last|] == unit;
    }
  }

  lemma FirstUnit(unit: Unit)
    ensures !MustFlush([], unit)
  {
  }

  lemma PackingParts(parts: seq<seq<Unit>>, units: seq<Unit>)
    requires IsPacking(parts, units)
    ensures Flatten(parts) == units && forall k :: 0 <= k < |parts| ==> Sendable(parts[k])
  {
  }

  /** Greedy stays ahead: it never has more parts than another packing, and with as many its last part is no longer. */
  lemma {:induction false} GreedyStaysAhead(parts: seq<seq<Unit>>, units: seq<Unit>)
    requires IsPacking(parts, units) && units != []
    ensures parts != []
    ensures var (closed, current) := Greedy(units);
            |closed| + 1 < |parts| || (|closed| + 1 == |parts| && |current| <= |parts[|parts| - 1]|)
    decreases |units|
  {
    hide Sendable, MustFlush, Flatten, IsPacking;
    var n := |units| - 1;
    var unit := units[n];
    var parts' := DropLastUnit(parts, units);
    var last := parts[|parts| - 1];
    if n == 0 {
      assert units[..0] == [];
      FirstUnit(unit);
    } else {
      GreedyStaysAhead(parts', units[..n]);
      var (closed, current) := Greedy(units[..n]);
      if |last| > 1 && |closed| + 1 == |parts'| {
        var last' := parts'[|parts'| - 1];
        GreedyIsPacking(units[..n]);
        PackingParts(parts, units);
        PackingParts(parts', units[..n]);
        LastIsSuffix(parts', closed, current, units[..n]);
        assert last == last' + [unit];
        SuffixTakesUnit(last', current, unit);
      }
    }
  }

  /** No order-preserving packing into sendable batches uses fewer batches. */
  lemma GreedyIsOptimal(parts: seq<seq<Unit>>, units: seq<Unit>)
    requires IsPacking(parts, units)
    ensures |Packed(units)| <= |parts|
  {
    if units != [] {
      GreedyStaysAhead(parts, units);
    }
  }
}
