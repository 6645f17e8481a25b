module ExportAudit {
  // The parent-link part of `audit_export` in scripts/audit_conversation_export.py:
  // the message counters, the per-conversation cycle count and the two readiness
  // flags computed from them.

  import opened Common
  import opened CycleCount

  // ------------------------------------------------------------------ payload

  /** A JSON field: null or absent, a string, or a value of another type. */
  datatype Field = Absent | Text(s: string) | OtherType

  datatype RawMessage = NotAnObject | Message(uuid: Field, parent: Field)

  datatype RawConversation =
    | NotADict
    | NoMessageArray
    | Conversation(messages: seq<RawMessage>)

  /** One entry of `parent_records`. */
  datatype Record = Record(owner: nat, index: nat, id: Id, parent: Option<Id>)

  datatype Report = Report(
    duplicateMessages: nat,
    missingUuid: nat,
    missingParents: nat,
    externalRoots: nat,
    orphaned: nat,
    crossConversation: nat,
    selfParents: nat,
    parentCycles: nat,
    provenanceUsable: bool,
    exactThreadUsable: bool)

  predicate ValidUuid(m: RawMessage) {
    m.Message? && m.uuid.Text? && m.uuid.s != ""
  }

  function ParentOf(m: RawMessage): Option<Id>
    requires m.Message?
  {
    if m.parent.Text? then Some(m.parent.s) else None
  }

  function ConversationRecords(owner: nat, ms: seq<RawMessage>): seq<Record> {
    if ms == [] then []
    else
      var n := |ms| - 1;
      ConversationRecords(owner, ms[..n]) +
      (if ValidUuid(ms[n]) then [Record(owner, n, ms[n].uuid.s, ParentOf(ms[n]))] else [])
  }

  function Records(payload: seq<RawConversation>): seq<Record> {
    if payload == [] then []
    else
      var n := |payload| - 1;
      Records(payload[..n]) +
      (if payload[n].Conversation? then ConversationRecords(n, payload[n].messages) else [])
  }

  function MissingIn(ms: seq<RawMessage>): nat {
    if ms == [] then 0
    else
      var n := |ms| - 1;
      MissingIn(ms[..n]) + (if ms[n].Message? && !ValidUuid(ms[n]) then 1 else 0)
  }

  function MissingUuids(payload: seq<RawConversation>): nat {
    if payload == [] then 0
    else
      var n := |payload| - 1;
      MissingUuids(payload[..n]) + (if payload[n].Conversation? then MissingIn(payload[n].messages) else 0)
  }

  // ---------------------------------------------------------- what is counted

  function Ids(recs: seq<Record>): (ids: seq<Id>)
    ensures |ids| == |recs|
    ensures forall i :: 0 <= i < |recs| ==> ids[i] == recs[i].id
  {
    seq(|recs|, i requires 0 <= i < |recs| => recs[i].id)
  }

  ghost predicate DistinctIds(recs: seq<Record>) {
    forall i, j :: 0 <= i < j < |recs| ==> recs[i].id != recs[j].id
  }

  ghost predicate Recorded(recs: seq<Record>, id: Id) {
    exists r :: r in recs && r.id == id
  }

  /** `message_owner[id]`: the conversation that used the id first. */
  ghost function FirstOwner(recs: seq<Record>, id: Id): Option<nat> {
    if recs == [] then None
    else if recs[0].id == id then Some(recs[0].owner)
    else FirstOwner(recs[1..], id)
  }

  /** `local_parents` of one conversation: the last record of an id wins. */
  ghost function LocalParents(recs: seq<Record>, owner: nat): Parents {
    if recs == [] then map[]
    else
      var n := |recs| - 1;
      var before := LocalParents(recs[..n], owner);
      if recs[n].owner == owner then before[recs[n].id := recs[n].parent] else before
  }

  datatype LinkKind = Root | SelfLink | External | Orphan | Cross | Sound

  ghost function Kind(recs: seq<Record>, r: Record): LinkKind {
    if r.parent.None? then Root
    else if r.parent.value == r.id then SelfLink
    else if !Recorded(recs, r.parent.value) then (if r.index == 0 then External else Orphan)
    else if FirstOwner(recs, r.parent.value) != Some(r.owner) then Cross
    else Sound
  }

  ghost function CountKind(recs: seq<Record>, part: seq<Record>, k: LinkKind): (c: nat)
    ensures c == 0 <==> forall r :: r in part ==> Kind(recs, r) != k
  {
    if part == [] then 0
    else
      var n := |part| - 1;
      assert part == part[..n] + [part[n]];
      CountKind(recs, part[..n], k) + (if Kind(recs, part[n]) == k then 1 else 0)
  }

  /** The number of parent cycles inside one conversation. */
  ghost function LocalCycles(recs: seq<Record>, owner: nat): nat {
    |Cycles(LocalParents(recs, owner))|
  }

  ghost function CycleTotal(recs: seq<Record>, owners: nat): (c: nat)
    ensures c == 0 <==> forall o: nat :: o < owners ==> LocalCycles(recs, o) == 0
  {
    if owners == 0 then 0
    else CycleTotal(recs, owners - 1) + LocalCycles(recs, owners - 1)
  }

  // ------------------------------------------------------------- small lemmas

  lemma {:induction false} FirstOwnerRecorded(recs: seq<Record>, id: Id)
    ensures FirstOwner(recs, id).Some? <==> Recorded(recs, id)
    ensures FirstOwner(recs, id).Some? ==>
              exists r :: r in recs && r.id == id && r.owner == FirstOwner(recs, id).value
  {
    if recs != [] {
      assert recs == [recs[0]] + recs[1..];
      FirstOwnerRecorded(recs[1..], id);
      if recs[0].id == id {
        assert recs[0] in recs;
      }
    }
  }

  lemma {:induction false} FirstOwnerExtend(recs: seq<Record>, r: Record, id: Id)
    ensures FirstOwner(recs + [r], id) ==
            if FirstOwner(recs, id).Some? then FirstOwner(recs, id)
            else if r.id == id then Some(r.owner) else None
  {
    if recs == [] {
      assert recs + [r] == [r];
    } else {
      assert (recs + [r])[1..] == recs[1..] + [r];
      FirstOwnerExtend(recs[1..], r, id);
    }
  }

  lemma {:induction false} LocalParentsKeys(recs: seq<Record>, owner: nat)
    ensures forall id :: id in LocalParents(recs, owner) ==>
              exists r :: r in recs && r.owner == owner && r.id == id && r.parent == LocalParents(recs, owner)[id]
    ensures forall r :: r in recs && r.owner == owner ==> r.id in LocalParents(recs, owner)
  {
    if recs != [] {
      var n := |recs| - 1;
      LocalParentsKeys(recs[..n], owner);
      assert recs == recs[..n] + [recs[n]];
      var before := LocalParents(recs[..n], owner);
      forall id | id in LocalParents(recs, owner)
        ensures exists r :: r in recs && r.owner == owner && r.id == id && r.parent == LocalParents(recs, owner)[id]
      {
        if recs[n].owner == owner && recs[n].id == id {
          assert recs[n] in recs;
        } else {
          var r :| r in recs[..n] && r.owner == owner && r.id == id && r.parent == before[id];
          assert r in recs;
        }
      }
    }
  }

  lemma LocalParentsExtend(recs: seq<Record>, r: Record, owner: nat)
    ensures LocalParents(recs + [r], owner) ==
            if r.owner == owner then LocalParents(recs, owner)[r.id := r.parent] else LocalParents(recs, owner)
  {
    assert (recs + [r])[..|recs|] == recs;
  }

  /** Two record lists give the first conversations the same parent tables. */
  ghost predicate SameLocals(recs: seq<Record>, recs': seq<Record>, owners: nat) {
    forall o: nat :: o < owners ==> LocalParents(recs, o) == LocalParents(recs', o)
  }

  lemma SameLocalsExtend(recs0: seq<Record>, recs: seq<Record>, r: Record)
    requires SameLocals(recs0, recs, r.owner)
    ensures SameLocals(recs0, recs + [r], r.owner)
  {
    forall o: nat | o < r.owner
      ensures LocalParents(recs0, o) == LocalParents(recs + [r], o)
    {
      LocalParentsExtend(recs, r, o);
    }
  }

  lemma {:induction false} CycleTotalFrame(recs: seq<Record>, recs': seq<Record>, owners: nat)
    requires SameLocals(recs, recs', owners)
    ensures CycleTotal(recs, owners) == CycleTotal(recs', owners)
  {
    if owners > 0 {
      CycleTotalFrame(recs, recs', owners - 1);
    }
  }

  // ------------------------------------------------------------------ the audit

  /** `sum(count - 1 for count in message_ids.values() if count > 1)`. */
  method CountDuplicates(counts: map<Id, nat>, ghost ids: seq<Id>) returns (dup: nat)
    requires forall id :: id in counts <==> id in ids
    requires forall id :: id in counts ==> counts[id] == multiset(ids)[id]
    ensures dup == |ids| - |Elements(ids)|
  {
    dup := 0;
    var left := counts.Keys;
    ghost var bag := multiset(ids);
    ghost var done: nat := 0;
    assert forall id :: id in ids <==> id in multiset(ids);
    while left != {}
      invariant forall id :: id in bag <==> id in left
      invariant forall id :: id in left ==> id in counts && bag[id] == counts[id]
      invariant done + |left| == |counts.Keys|
      invariant dup == |ids| - |bag| - done
      decreases left
    {
      var id :| id in left;
      assert bag[id] >= 1;
      if counts[id] > 1 {
        dup := dup + (counts[id] - 1);
      }
      bag := bag[id := 0];
      left := left - {id};
      done := done + 1;
    }
    assert bag == multiset{};
    assert counts.Keys == Elements(ids);
  }

  lemma ScanNext(owner: nat, ms: seq<RawMessage>, i: nat)
    requires i < |ms|
    ensures ValidUuid(ms[i]) ==> ms[i].Message? && ms[i].uuid.Text?
    ensures ConversationRecords(owner, ms[..i + 1]) ==
            if ValidUuid(ms[i]) then ConversationRecords(owner, ms[..i]) + [Record(owner, i, ms[i].uuid.s, ParentOf(ms[i]))]
            else ConversationRecords(owner, ms[..i])
    ensures MissingIn(ms[..i + 1]) == MissingIn(ms[..i]) + if ms[i].Message? && !ValidUuid(ms[i]) then 1 else 0
  {
    assert ms[..i + 1][..i] == ms[..i];
  }

  lemma NothingScanned(recs: seq<Record>, owner: nat)
    ensures ConversationRecords(owner, []) == [] && MissingIn([]) == 0 && SameLocals(recs, recs, owner)
    ensures recs + [] == recs
  {
  }

  /** The message loop for one conversation, followed by its cycle count. */
  method ScanConversation(owner: nat, ms: seq<RawMessage>, recs0: seq<Record>, counts0: map<Id, nat>,
                          owners0: map<Id, nat>)
    returns (recs: seq<Record>, counts: map<Id, nat>, owners: map<Id, nat>, missing: nat, cycles: nat)
    requires forall r :: r in recs0 ==> r.owner < owner
    requires Tallied(recs0, counts0, owners0)
    ensures recs == recs0 + ConversationRecords(owner, ms)
    ensures Tallied(recs, counts, owners)
    ensures missing == MissingIn(ms)
    ensures cycles == LocalCycles(recs, owner)
    ensures SameLocals(recs0, recs, owner)
  {
    hide ConversationRecords, MissingIn, LocalParents, Tallied, SameLocals, ValidUuid;
    recs, counts, owners, missing := recs0, counts0, owners0, 0;
    var parents: Parents := map[];
    var order: seq<Id> := [];
    NoOwnRecords(recs0, owner);
    NothingScanned(recs0, owner);
    for i := 0 to |ms|
      invariant recs == recs0 + ConversationRecords(owner, ms[..i])
      invariant Tallied(recs, counts, owners)
      invariant missing == MissingIn(ms[..i])
      invariant parents == LocalParents(recs, owner)
      invariant forall x :: x in order <==> x in parents
      invariant SameLocals(recs0, recs, owner)
    {
      ScanNext(owner, ms, i);
      if ms[i].NotAnObject? {
        continue;
      }
      if ValidUuid(ms[i]) {
        var r := Record(owner, i, ms[i].uuid.s, ParentOf(ms[i]));
        LocalParentsExtend(recs, r, owner);
        SameLocalsExtend(recs0, recs, r);
        assert recs + [r] == recs0 + (ConversationRecords(owner, ms[..i]) + [r]);
        if r.id !in parents {
          order := order + [r.id];
        }
        parents := parents[r.id := r.parent];
        recs, counts, owners := AddRecord(recs, counts, owners, r);
      } else {
        missing := missing + 1;
      }
    }
    assert ms[..|ms|] == ms;
    cycles := CountCycles(parents, order);
  }

  /** `message_ids[id] += 1`, `message_owner.setdefault(id, owner)` and `parent_records.append(...)`. */
  method AddRecord(recs: seq<Record>, counts: map<Id, nat>, owners: map<Id, nat>, r: Record)
    returns (recs': seq<Record>, counts': map<Id, nat>, owners': map<Id, nat>)
    requires Tallied(recs, counts, owners)
    ensures recs' == recs + [r] && Tallied(recs', counts', owners')
  {
    CountedExtend(recs, counts, r);
    OwnedExtend(recs, owners, r);
    counts' := counts[r.id := (if r.id in counts then counts[r.id] else 0) + 1];
    owners' := if r.id in owners then owners else owners[r.id := r.owner];
    recs' := recs + [r];
  }

  /** `message_ids` after the given records. */
  ghost predicate Counted(recs: seq<Record>, counts: map<Id, nat>) {
    && (forall id :: id in counts <==> id in Ids(recs))
    && (forall id :: id in counts ==> counts[id] == multiset(Ids(recs))[id])
  }

  /** `message_owner` after the given records. */
  ghost predicate Owned(recs: seq<Record>, owners: map<Id, nat>) {
    forall id :: FirstOwner(recs, id) == if id in owners then Some(owners[id]) else None
  }

  ghost predicate Tallied(recs: seq<Record>, counts: map<Id, nat>, owners: map<Id, nat>) {
    Counted(recs, counts) && Owned(recs, owners)
  }

  lemma CountedExtend(recs: seq<Record>, counts: map<Id, nat>, r: Record)
    requires Counted(recs, counts)
    ensures Counted(recs + [r], counts[r.id := (if r.id in counts then counts[r.id] else 0) + 1])
  {
    assert Ids(recs + [r]) == Ids(recs) + [r.id];
  }

  lemma OwnedExtend(recs: seq<Record>, owners: map<Id, nat>, r: Record)
    requires Owned(recs, owners)
    ensures Owned(recs + [r], if r.id in owners then owners else owners[r.id := r.owner])
  {
    forall id: Id
      ensures FirstOwner(recs + [r], id) ==
              if FirstOwner(recs, id).Some? then FirstOwner(recs, id)
              else if r.id == id then Some(r.owner) else None
    {
      FirstOwnerExtend(recs, r, id);
    }
  }

  lemma TalliedRecorded(recs: seq<Record>, counts: map<Id, nat>, owners: map<Id, nat>, id: Id)
    requires Tallied(recs, counts, owners)
    ensures id in counts <==> Recorded(recs, id)
    ensures id in owners <==> Recorded(recs, id)
  {
    FirstOwnerRecorded(recs, id);
    if id in counts {
      var i :| 0 <= i < |recs| && Ids(recs)[i] == id;
      assert recs[i] in recs;
    }
    if Recorded(recs, id) {
      var r :| r in recs && r.id == id;
      var i :| 0 <= i < |recs| && recs[i] == r;
      assert Ids(recs)[i] == id;
    }
  }

  lemma NothingTallied()
    ensures Tallied([], map[], map[])
  {
  }

  /** The conversation loop. */
  method ScanExport(payload: seq<RawConversation>)
    returns (recs: seq<Record>, counts: map<Id, nat>, owners: map<Id, nat>, missingUuid: nat, parentCycles: nat)
    ensures recs == Records(payload)
    ensures Tallied(recs, counts, owners)
    ensures missingUuid == MissingUuids(payload)
    ensures parentCycles == CycleTotal(recs, |payload|)
  {
    hide Tallied, LocalParents, LocalCycles, MissingIn, ConversationRecords, SameLocals;
    NothingTallied();
    recs, counts, owners, missingUuid, parentCycles := [], map[], map[], 0, 0;
    for c := 0 to |payload|
      invariant recs == Records(payload[..c])
      invariant Tallied(recs, counts, owners)
      invariant missingUuid == MissingUuids(payload[..c])
      invariant parentCycles == CycleTotal(recs, c)
    {
      assert payload[..c + 1][..c] == payload[..c];
      RecordOwners(payload[..c]);
      if !payload[c].Conversation? {
        NoOwnRecords(recs, c);
        continue;
      }
      ghost var before := recs;
      var missing, cycles;
      recs, counts, owners, missing, cycles := ScanConversation(c, payload[c].messages, recs, counts, owners);
      missingUuid := missingUuid + missing;
      CycleTotalFrame(before, recs, c);
      if cycles != 0 {
        parentCycles := parentCycles + cycles;
      }
    }
    assert payload[..|payload|] == payload;
  }

  lemma CountKindStep(recs: seq<Record>, k: nat)
    requires k < |recs|
    ensures forall kind :: CountKind(recs, recs[..k + 1], kind)
                        == CountKind(recs, recs[..k], kind) + (if Kind(recs, recs[k]) == kind then 1 else 0)
  {
    assert recs[..k + 1][..k] == recs[..k];
  }

  /** The branches of the link loop, read off the tables. */
  lemma KindByTables(recs: seq<Record>, counts: map<Id, nat>, owners: map<Id, nat>, r: Record)
    requires Tallied(recs, counts, owners)
    ensures r.parent.Some? ==> (r.parent.value in counts <==> r.parent.value in owners)
    ensures Kind(recs, r) ==
            if r.parent.None? then Root
            else if r.parent.value == r.id then SelfLink
            else if r.parent.value !in counts then (if r.index == 0 then External else Orphan)
            else if owners[r.parent.value] != r.owner then Cross
            else Sound
  {
    if r.parent.Some? {
      TalliedRecorded(recs, counts, owners, r.parent.value);
    }
  }

  /** The loop over `parent_records`. */
  method ClassifyLinks(recs: seq<Record>, counts: map<Id, nat>, owners: map<Id, nat>)
    returns (missing: nat, external: nat, orphaned: nat, cross: nat, selfs: nat)
    requires Tallied(recs, counts, owners)
    ensures external == CountKind(recs, recs, External)
    ensures orphaned == CountKind(recs, recs, Orphan)
    ensures missing == external + orphaned
    ensures cross == CountKind(recs, recs, Cross)
    ensures selfs == CountKind(recs, recs, SelfLink)
  {
    missing, external, orphaned, cross, selfs := 0, 0, 0, 0, 0;
    for k := 0 to |recs|
      invariant external == CountKind(recs, recs[..k], External)
      invariant orphaned == CountKind(recs, recs[..k], Orphan)
      invariant missing == external + orphaned
      invariant cross == CountKind(recs, recs[..k], Cross)
      invariant selfs == CountKind(recs, recs[..k], SelfLink)
    {
      var r := recs[k];
      CountKindStep(recs, k);
      KindByTables(recs, counts, owners, r);
      if r.parent.None? {
        continue;
      }
      if r.parent.value == r.id {
        selfs := selfs + 1;
      } else if r.parent.value !in counts {
        missing := missing + 1;
        if r.index == 0 {
          external := external + 1;
        } else {
          orphaned := orphaned + 1;
        }
      } else if owners[r.parent.value] != r.owner {
        cross := cross + 1;
      }
    }
    assert recs[..|recs|] == recs;
  }

  method AuditLinks(payload: seq<RawConversation>) returns (report: Report)
    ensures var recs := Records(payload);
            && report.missingUuid == MissingUuids(payload)
            && report.duplicateMessages == |recs| - |Elements(Ids(recs))|
            && report.selfParents == CountKind(recs, recs, SelfLink)
            && report.externalRoots == CountKind(recs, recs, External)
            && report.orphaned == CountKind(recs, recs, Orphan)
            && report.missingParents == report.externalRoots + report.orphaned
            && report.crossConversation == CountKind(recs, recs, Cross)
            && report.parentCycles == CycleTotal(recs, |payload|)
            && (report.provenanceUsable <==> report.duplicateMessages == 0 && report.missingUuid == 0)
            && (report.exactThreadUsable <==> LinksUsable(recs, |payload|))
  {
    var recs, counts, owners, missingUuid, parentCycles := ScanExport(payload);
    var duplicates := CountDuplicates(counts, Ids(recs));
    var missing, external, orphaned, cross, selfs := ClassifyLinks(recs, counts, owners);
    report := Report(duplicates, missingUuid, missing, external, orphaned, cross, selfs, parentCycles,
                     duplicates == 0 && missingUuid == 0,
                     missing == 0 && cross == 0 && selfs == 0 && parentCycles == 0);
  }

  lemma NoOwnRecords(recs: seq<Record>, owner: nat)
    requires forall r :: r in recs ==> r.owner != owner
    ensures LocalParents(recs, owner) == map[] && LocalCycles(recs, owner) == 0
  {
    LocalParentsKeys(recs, owner);
    assert LocalParents(recs, owner).Keys == {};
    assert Cycles(LocalParents(recs, owner)) == {};
  }

  // ------------------------------------------------------------ what it means

  /** A chain of records, each the parent of the one before, inside one conversation, ending at a root. */
  ghost predicate RootedPath(recs: seq<Record>, path: seq<Record>) {
    && path != []
    && (forall i :: 0 <= i < |path| ==> path[i] in recs)
    && (forall i {:trigger path[i].parent} :: 0 <= i < |path| - 1 ==>
          path[i].parent == Some(path[i + 1].id) && path[i].owner == path[i + 1].owner)
    && path[|path| - 1].parent.None?
  }

  ghost predicate Rooted(recs: seq<Record>, r: Record) {
    exists path :: RootedPath(recs, path) && path[0] == r
  }

  /** Every conversation is a rooted forest. */
  ghost predicate IsForest(recs: seq<Record>) {
    forall r :: r in recs ==> Rooted(recs, r)
  }

  ghost predicate LinksUsable(recs: seq<Record>, owners: nat) {
    && CountKind(recs, recs, External) == 0
    && CountKind(recs, recs, Orphan) == 0
    && CountKind(recs, recs, Cross) == 0
    && CountKind(recs, recs, SelfLink) == 0
    && CycleTotal(recs, owners) == 0
  }

  lemma UniqueRecord(recs: seq<Record>, r: Record, q: Record)
    requires DistinctIds(recs) && r in recs && q in recs && r.id == q.id
    ensures r == q
  {
    var i :| 0 <= i < |recs| && recs[i] == r;
    var j :| 0 <= j < |recs| && recs[j] == q;
  }

  lemma LocalParentsDistinct(recs: seq<Record>, r: Record)
    requires DistinctIds(recs) && r in recs
    ensures r.id in LocalParents(recs, r.owner) && LocalParents(recs, r.owner)[r.id] == r.parent
    ensures FirstOwner(recs, r.id) == Some(r.owner)
  {
    LocalParentsKeys(recs, r.owner);
    var p := LocalParents(recs, r.owner);
    var q :| q in recs && q.owner == r.owner && q.id == r.id && q.parent == p[r.id];
    UniqueRecord(recs, r, q);
    FirstOwnerRecorded(recs, r.id);
    assert Recorded(recs, r.id);
    var f :| f in recs && f.id == r.id && f.owner == FirstOwner(recs, r.id).value;
    UniqueRecord(recs, r, f);
  }

  lemma RootedByParent(recs: seq<Record>, r: Record, q: Record)
    requires r in recs && Rooted(recs, q) && r.parent == Some(q.id) && r.owner == q.owner
    ensures Rooted(recs, r)
  {
    var path: seq<Record> :| RootedPath(recs, path) && path[0] == q;
    var longer := [r] + path;
    assert longer[0] == r && longer[1..] == path && |longer| == |path| + 1;
    forall i | 0 <= i < |longer| - 1
      ensures longer[i].parent == Some(longer[i + 1].id) && longer[i].owner == longer[i + 1].owner
    {
      if i == 0 {
        assert longer[1] == path[0];
      } else {
        assert longer[i] == path[i - 1] && longer[i + 1] == path[i - 1 + 1];
        assert path[i - 1].parent == Some(path[i - 1 + 1].id);
      }
    }
    forall i | 0 <= i < |longer|
      ensures longer[i] in recs
    {
      if i > 0 {
        assert longer[i] == path[i - 1];
      }
    }
    assert longer[|longer| - 1] == path[|path| - 1];
    assert RootedPath(recs, longer);
  }

  /** Along a rooted path the walk through the conversation's own table ends in None. */
  lemma {:induction false} WalkFromRooted(recs: seq<Record>, path: seq<Record>)
    requires DistinctIds(recs) && RootedPath(recs, path)
    ensures Walk(LocalParents(recs, path[0].owner), path[0].id, |path|).None?
  {
    var r := path[0];
    var p := LocalParents(recs, r.owner);
    LocalParentsDistinct(recs, r);
    assert Walk(p, r.id, 0) == Some(r.id);
    assert Walk(p, r.id, 1) == r.parent;
    if |path| > 1 {
      var rest := path[1..];
      forall i | 0 <= i < |rest| - 1
        ensures rest[i].parent == Some(rest[i + 1].id) && rest[i].owner == rest[i + 1].owner
      {
        assert path[i + 1].parent == Some(path[i + 2].id);
      }
      assert path[0].parent == Some(path[1].id);
      WalkFromRooted(recs, rest);
      WalkAdds(p, r.id, 1, |rest|);
    }
  }

  lemma RootedIsSound(recs: seq<Record>, r: Record)
    requires DistinctIds(recs) && r in recs && Rooted(recs, r)
    ensures Kind(recs, r) == Root || Kind(recs, r) == Sound
    ensures Leaves(LocalParents(recs, r.owner), r.id)
  {
    var path: seq<Record> :| RootedPath(recs, path) && path[0] == r;
    WalkFromRooted(recs, path);
    var p := LocalParents(recs, r.owner);
    assert Outside(p, Walk(p, r.id, |path|));
    if r.parent.Some? {
      assert path[0].parent == Some(path[1].id) && path[0].owner == path[1].owner;
      var q := path[1];
      assert q in recs && Recorded(recs, q.id);
      LocalParentsDistinct(recs, q);
      if q.id == r.id {
        UniqueRecord(recs, r, q);
        SelfLinkIsCycle(recs, r);
        TrappedIsNotOnCycle(p, {}, r.id, |path|);
      }
    }
  }

  lemma SelfLinkIsCycle(recs: seq<Record>, r: Record)
    requires DistinctIds(recs) && r in recs && r.parent == Some(r.id)
    ensures OnCycle(LocalParents(recs, r.owner), r.id) && r.id in LocalParents(recs, r.owner)
  {
    LocalParentsDistinct(recs, r);
    var p := LocalParents(recs, r.owner);
    assert Walk(p, r.id, 0) == Some(r.id);
    assert Walk(p, r.id, 1) == Some(r.id);
  }

  /** A sound or root link points to another id, which the conversation used first. */
  lemma LinkFacts(recs: seq<Record>, r: Record, id: Id)
    requires r.parent == Some(id) && (Kind(recs, r) == Root || Kind(recs, r) == Sound)
    ensures FirstOwner(recs, id) == Some(r.owner) && r.id != id
  {
  }

  lemma RootIsRooted(recs: seq<Record>, r: Record)
    requires r in recs && r.parent.None?
    ensures Rooted(recs, r)
  {
    assert RootedPath(recs, [r]);
  }

  /** A sound link leads to an id of the same conversation's table, whether or not ids repeat. */
  lemma SoundIsLocal(recs: seq<Record>, r: Record)
    requires r.parent.Some? && FirstOwner(recs, r.parent.value) == Some(r.owner)
    ensures r.parent.value in LocalParents(recs, r.owner)
  {
    hide LocalParents, FirstOwner;
    var x := r.parent.value;
    FirstOwnerRecorded(recs, x);
    var f :| f in recs && f.id == x && f.owner == r.owner;
    LocalParentsKeys(recs, r.owner);
  }

  /** Where the walk from an id leaves the table, the record that the table keeps for the id is rooted. */
  lemma {:induction false} RootedFromTable(recs: seq<Record>, o: nat, x: Id, n: nat) returns (q: Record)
    requires forall r :: r in recs ==> Kind(recs, r) == Root || Kind(recs, r) == Sound
    requires x in LocalParents(recs, o) && Outside(LocalParents(recs, o), Walk(LocalParents(recs, o), x, n))
    ensures q in recs && q.owner == o && q.id == x && Rooted(recs, q)
    decreases n
  {
    hide LocalParents, Rooted, FirstOwner, Recorded;
    var p := LocalParents(recs, o);
    LocalParentsKeys(recs, o);
    q :| q in recs && q.owner == o && q.id == x && q.parent == p[x];
    assert Walk(p, x, 0) == Some(x);
    if q.parent.None? {
      RootIsRooted(recs, q);
    } else {
      LinkFacts(recs, q, q.parent.value);
      SoundIsLocal(recs, q);
      assert Walk(p, x, 1) == q.parent;
      WalkAdds(p, x, 1, n - 1);
      var parent := RootedFromTable(recs, o, q.parent.value, n - 1);
      RootedByParent(recs, q, parent);
    }
  }

  /** Whatever ids repeat, zero counters leave every record with a path to a root inside its conversation. */
  lemma UsableIsForest(recs: seq<Record>, owners: nat)
    requires LinksUsable(recs, owners) && forall r :: r in recs ==> r.owner < owners
    ensures IsForest(recs)
  {
    hide Kind, Rooted, LocalParents, FirstOwner;
    forall r | r in recs
      ensures Rooted(recs, r)
    {
      UsableLinks(recs, owners);
      if r.parent.None? {
        RootIsRooted(recs, r);
      } else {
        LinkFacts(recs, r, r.parent.value);
        var p := LocalParents(recs, r.owner);
        assert LocalCycles(recs, r.owner) == 0;
        NoCyclesIffAllLeave(p);
        SoundIsLocal(recs, r);
        var n: nat :| Outside(p, Walk(p, r.parent.value, n));
        var q := RootedFromTable(recs, r.owner, r.parent.value, n);
        RootedByParent(recs, r, q);
      }
    }
  }

  /** With distinct ids the five zero counters mean exactly that every conversation is a rooted forest. */
  lemma UsableIffForest(recs: seq<Record>, owners: nat)
    requires DistinctIds(recs) && forall r :: r in recs ==> r.owner < owners
    ensures LinksUsable(recs, owners) <==> IsForest(recs)
  {
    if LinksUsable(recs, owners) {
      UsableIsForest(recs, owners);
    }
    if IsForest(recs) {
      forall r | r in recs
        ensures Kind(recs, r) == Root || Kind(recs, r) == Sound
      {
        RootedIsSound(recs, r);
      }
      forall o: nat | o < owners
        ensures LocalCycles(recs, o) == 0
      {
        ForestHasNoCycles(recs, o);
      }
    }
  }

  lemma ForestHasNoCycles(recs: seq<Record>, o: nat)
    requires DistinctIds(recs) && IsForest(recs)
    ensures LocalCycles(recs, o) == 0
  {
    var p := LocalParents(recs, o);
    LocalParentsKeys(recs, o);
    forall x | x in p
      ensures Leaves(p, x)
    {
      var r :| r in recs && r.owner == o && r.id == x && r.parent == p[x];
      RootedIsSound(recs, r);
    }
    NoCyclesIffAllLeave(p);
  }

  // -------------------------------------------------------- cycles of records

  /** Records of one conversation, each the parent of the one before, and the first the parent of the last. */
  ghost predicate RecordCycle(recs: seq<Record>, cycle: seq<Record>) {
    && cycle != []
    && (forall i :: 0 <= i < |cycle| ==> cycle[i] in recs && cycle[i].owner == cycle[0].owner)
    && (forall i {:trigger cycle[i].parent} :: 0 <= i < |cycle| - 1 ==> cycle[i].parent == Some(cycle[i + 1].id))
    && cycle[|cycle| - 1].parent == Some(cycle[0].id)
  }

  ghost predicate HasRecordCycle(recs: seq<Record>) {
    exists cycle :: RecordCycle(recs, cycle)
  }

  /** Two records of the conversation have the id. */
  ghost predicate Repeated(recs: seq<Record>, o: nat, a: Id) {
    exists i, j :: 0 <= i < j < |recs| && OfId(recs[i], o, a) && OfId(recs[j], o, a)
  }

  predicate OfId(r: Record, o: nat, a: Id) {
    r.owner == o && r.id == a
  }

  /** A repeated id beside another id, both used first by the conversation. */
  ghost predicate RepeatBeside(recs: seq<Record>, o: nat, a: Id, b: Id) {
    a != b && FirstOwner(recs, a) == Some(o) && FirstOwner(recs, b) == Some(o) && Repeated(recs, o, a)
  }

  ghost predicate CanHideCycle(recs: seq<Record>) {
    exists o, a, b :: RepeatBeside(recs, o, a, b)
  }

  /** The same messages with other parents. */
  ghost predicate SameMessages(recs: seq<Record>, recs': seq<Record>) {
    |recs| == |recs'| && forall i :: 0 <= i < |recs| ==> recs'[i] == recs[i].(parent := recs'[i].parent)
  }

  /** An id that is not repeated keeps its only record's parent in the table. */
  lemma TableKeepsOnly(recs: seq<Record>, r: Record)
    requires r in recs && !Repeated(recs, r.owner, r.id)
    ensures r.id in LocalParents(recs, r.owner) && LocalParents(recs, r.owner)[r.id] == r.parent
  {
    LocalParentsKeys(recs, r.owner);
    var p := LocalParents(recs, r.owner);
    var q :| q in recs && q.owner == r.owner && q.id == r.id && q.parent == p[r.id];
    var i :| 0 <= i < |recs| && recs[i] == r;
    var j :| 0 <= j < |recs| && recs[j] == q;
    assert OfId(recs[i], r.owner, r.id) && OfId(recs[j], r.owner, r.id);
  }

  /** Around a cycle of records that the table keeps, the walk follows the records. */
  lemma {:induction false} WalkCycle(recs: seq<Record>, cycle: seq<Record>, k: nat)
    requires RecordCycle(recs, cycle) && k < |cycle|
    requires forall i :: 0 <= i < |cycle| ==> !Repeated(recs, cycle[i].owner, cycle[i].id)
    ensures Walk(LocalParents(recs, cycle[0].owner), cycle[0].id, k) == Some(cycle[k].id)
  {
    if k > 0 {
      WalkCycle(recs, cycle, k - 1);
      TableKeepsOnly(recs, cycle[k - 1]);
      assert cycle[k - 1].parent == Some(cycle[k - 1 + 1].id);
    }
  }

  ghost predicate NoneRepeated(recs: seq<Record>, cycle: seq<Record>) {
    forall i :: 0 <= i < |cycle| ==> !Repeated(recs, cycle[i].owner, cycle[i].id)
  }

  /** A cycle of records without a repeated id is a cycle of its conversation's table. */
  lemma UnrepeatedCycle(recs: seq<Record>, cycle: seq<Record>)
    requires RecordCycle(recs, cycle) && NoneRepeated(recs, cycle)
    ensures LocalCycles(recs, cycle[0].owner) != 0
  {
    var n := |cycle|;
    var p, x := LocalParents(recs, cycle[0].owner), cycle[0].id;
    WalkCycle(recs, cycle, n - 1);
    TableKeepsOnly(recs, cycle[n - 1]);
    TableKeepsOnly(recs, cycle[0]);
    assert Walk(p, x, n) == Some(x);
    NoCyclesIffAllLeave(p);
    if Leaves(p, x) {
      var m: nat :| Outside(p, Walk(p, x, m));
      TrappedIsNotOnCycle(p, {}, x, m);
    }
  }

  /** Each id on a cycle of sound links is another than the one before and was used first by the conversation. */
  lemma CycleLink(recs: seq<Record>, cycle: seq<Record>, i: nat)
    requires RecordCycle(recs, cycle) && i < |cycle|
    requires forall r :: r in recs ==> Kind(recs, r) == Root || Kind(recs, r) == Sound
    ensures FirstOwner(recs, cycle[i].id) == Some(cycle[0].owner)
    ensures exists b :: b != cycle[i].id && FirstOwner(recs, b) == Some(cycle[0].owner)
  {
    hide Kind, FirstOwner;
    var n := |cycle|;
    var before := if i > 0 then i - 1 else n - 1;
    var next := if i < n - 1 then i + 1 else 0;
    assert cycle[before].parent == Some(cycle[i].id);
    assert cycle[i].parent == Some(cycle[next].id);
    LinkFacts(recs, cycle[before], cycle[i].id);
    LinkFacts(recs, cycle[i], cycle[next].id);
  }

  lemma UsableLinks(recs: seq<Record>, owners: nat)
    requires LinksUsable(recs, owners)
    ensures forall r :: r in recs ==> Kind(recs, r) == Root || Kind(recs, r) == Sound
  {
  }

  lemma RepeatIsNotDistinct(recs: seq<Record>, o: nat, a: Id)
    requires Repeated(recs, o, a)
    ensures !DistinctIds(recs)
  {
    var j, k :| 0 <= j < k < |recs| && OfId(recs[j], o, a) && OfId(recs[k], o, a);
    assert recs[j].id == recs[k].id;
  }

  /** Zero counters and a cycle of records need a repeated id beside another one. */
  lemma CycleNeedsRepeat(recs: seq<Record>, owners: nat)
    requires LinksUsable(recs, owners) && (forall r :: r in recs ==> r.owner < owners) && HasRecordCycle(recs)
    ensures CanHideCycle(recs) && !DistinctIds(recs)
  {
    hide Kind, FirstOwner, Repeated, LocalCycles;
    var cycle: seq<Record> :| RecordCycle(recs, cycle);
    var o := cycle[0].owner;
    assert cycle[0] in recs && LocalCycles(recs, o) == 0;
    if NoneRepeated(recs, cycle) {
      UnrepeatedCycle(recs, cycle);
    }
    var i :| 0 <= i < |cycle| && Repeated(recs, cycle[i].owner, cycle[i].id);
    UsableLinks(recs, owners);
    CycleLink(recs, cycle, i);
    var b :| b != cycle[i].id && FirstOwner(recs, b) == Some(o);
    assert RepeatBeside(recs, o, cycle[i].id, b);
    RepeatIsNotDistinct(recs, o, cycle[i].id);
  }

  // The parents that hide a cycle: every record of `a` but the last points to `b`,
  // every record of `b` points to `a`, and everything else is a root.

  predicate LaterOfId(recs: seq<Record>, o: nat, a: Id, i: nat) {
    exists j :: i < j < |recs| && OfId(recs[j], o, a)
  }

  function HidingParent(recs: seq<Record>, o: nat, a: Id, b: Id, i: nat): Option<Id>
    requires i < |recs|
  {
    if OfId(recs[i], o, a) && LaterOfId(recs, o, a, i) then Some(b)
    else if OfId(recs[i], o, b) then Some(a)
    else None
  }

  function Hiding(recs: seq<Record>, o: nat, a: Id, b: Id): (r: seq<Record>)
    ensures |r| == |recs|
    ensures forall i :: 0 <= i < |r| ==> r[i] == recs[i].(parent := HidingParent(recs, o, a, b, i))
  {
    seq(|recs|, i requires 0 <= i < |recs| => recs[i].(parent := HidingParent(recs, o, a, b, i)))
  }

  lemma {:induction false} SameFirstOwner(recs: seq<Record>, recs': seq<Record>, id: Id)
    requires SameMessages(recs, recs')
    ensures FirstOwner(recs', id) == FirstOwner(recs, id)
  {
    if recs != [] {
      assert recs'[0] == recs[0].(parent := recs'[0].parent);
      forall i | 0 <= i < |recs[1..]|
        ensures recs'[1..][i] == recs[1..][i].(parent := recs'[1..][i].parent)
      {
        assert recs'[i + 1] == recs[i + 1].(parent := recs'[i + 1].parent);
      }
      SameFirstOwner(recs[1..], recs'[1..], id);
    }
  }

  /** What the table keeps for an id is the parent of its last record. */
  lemma {:induction false} TableKeepsLast(recs: seq<Record>, o: nat, a: Id, i: nat)
    requires i < |recs| && OfId(recs[i], o, a) && forall j :: i < j < |recs| ==> !OfId(recs[j], o, a)
    ensures a in LocalParents(recs, o) && LocalParents(recs, o)[a] == recs[i].parent
  {
    var n := |recs| - 1;
    if i < n {
      assert !OfId(recs[n], o, a);
      TableKeepsLast(recs[..n], o, a, i);
    }
  }

  lemma {:induction false} LastOfId(recs: seq<Record>, o: nat, a: Id, i: nat) returns (k: nat)
    requires i < |recs| && OfId(recs[i], o, a)
    ensures i <= k < |recs| && OfId(recs[k], o, a) && forall j :: k < j < |recs| ==> !OfId(recs[j], o, a)
    decreases |recs| - i
  {
    if j :| i < j < |recs| && OfId(recs[j], o, a) {
      k := LastOfId(recs, o, a, j);
    } else {
      k := i;
    }
  }

  /** In the table the repeated id is a root, so its chain and every other one leaves. */
  lemma HidingLeaves(recs: seq<Record>, o: nat, a: Id, b: Id, owner: nat)
    requires RepeatBeside(recs, o, a, b)
    ensures LocalCycles(Hiding(recs, o, a, b), owner) == 0
  {
    var hidden := Hiding(recs, o, a, b);
    var p := LocalParents(hidden, owner);
    var i, j :| 0 <= i < j < |recs| && OfId(recs[i], o, a) && OfId(recs[j], o, a);
    LocalParentsKeys(hidden, owner);
    if owner == o {
      var k := LastOfId(hidden, o, a, j);
      TableKeepsLast(hidden, o, a, k);
      assert forall j :: k < j < |recs| ==> OfId(recs[j], o, a) == OfId(hidden[j], o, a);
      assert OfId(recs[k], o, a) && !LaterOfId(recs, o, a, k);
      assert p[a] == None;
      LeavesByParent(p, a);
    }
    forall x | x in p
      ensures Leaves(p, x)
    {
      var r :| r in hidden && r.owner == owner && r.id == x && r.parent == p[x];
      if owner != o || x != a {
        assert r.parent.None? || (owner == o && r.parent == Some(a));
        LeavesByParent(p, x);
      }
    }
    NoCyclesIffAllLeave(p);
  }

  /** Every link of the hiding parents is sound. */
  lemma HidingLinks(recs: seq<Record>, o: nat, a: Id, b: Id)
    requires RepeatBeside(recs, o, a, b)
    ensures var hidden := Hiding(recs, o, a, b);
            forall r :: r in hidden ==> Kind(hidden, r) == Root || Kind(hidden, r) == Sound
  {
    var hidden := Hiding(recs, o, a, b);
    SameFirstOwner(recs, hidden, a);
    SameFirstOwner(recs, hidden, b);
    FirstOwnerRecorded(hidden, a);
    FirstOwnerRecorded(hidden, b);
    hide FirstOwner, LaterOfId, Repeated;
  }

  lemma HidingIsUsable(recs: seq<Record>, o: nat, a: Id, b: Id, owners: nat)
    requires RepeatBeside(recs, o, a, b)
    ensures LinksUsable(Hiding(recs, o, a, b), owners)
  {
    hide Hiding, FirstOwner, Kind, RepeatBeside, LocalCycles;
    var hidden := Hiding(recs, o, a, b);
    HidingLinks(recs, o, a, b);
    forall owner: nat | owner < owners
      ensures LocalCycles(hidden, owner) == 0
    {
      HidingLeaves(recs, o, a, b, owner);
    }
  }

  /** An early record with the repeated id and one with the other id point at each other. */
  lemma HidingPair(recs: seq<Record>, o: nat, a: Id, b: Id) returns (i: nat, k: nat)
    requires RepeatBeside(recs, o, a, b)
    ensures i < |recs| && k < |recs| && OfId(recs[i], o, a) && OfId(recs[k], o, b)
    ensures HidingParent(recs, o, a, b, i) == Some(b) && HidingParent(recs, o, a, b, k) == Some(a)
  {
    hide FirstOwner;
    var j;
    i, j :| 0 <= i < j < |recs| && OfId(recs[i], o, a) && OfId(recs[j], o, a);
    assert LaterOfId(recs, o, a, i);
    FirstOwnerRecorded(recs, b);
    var r :| r in recs && r.id == b && r.owner == o;
    k :| 0 <= k < |recs| && recs[k] == r;
  }

  lemma PairIsCycle(recs: seq<Record>, r: Record, q: Record)
    requires r in recs && q in recs && r.owner == q.owner && r.parent == Some(q.id) && q.parent == Some(r.id)
    ensures HasRecordCycle(recs)
  {
    assert RecordCycle(recs, [r, q]);
  }

  lemma HidingHasCycle(recs: seq<Record>, o: nat, a: Id, b: Id)
    requires RepeatBeside(recs, o, a, b)
    ensures HasRecordCycle(Hiding(recs, o, a, b))
  {
    hide FirstOwner, HidingParent, HasRecordCycle, RecordCycle, RepeatBeside;
    var hidden := Hiding(recs, o, a, b);
    var i, k := HidingPair(recs, o, a, b);
    assert hidden[i] in hidden && hidden[k] in hidden;
    PairIsCycle(hidden, hidden[i], hidden[k]);
  }

  /**
   * When the second flag alone does not exclude a cycle of records: some parents
   * of the given messages leave all its counters at zero and still form a cycle
   * exactly when a conversation repeats an id beside another id and has used
   * both first.
   */
  lemma HiddenCycleIff(recs: seq<Record>, owners: nat)
    requires forall r :: r in recs ==> r.owner < owners
    ensures (exists recs': seq<Record> :: SameMessages(recs, recs') && LinksUsable(recs', owners) && HasRecordCycle(recs')) <==>
            CanHideCycle(recs)
  {
    hide LinksUsable, HasRecordCycle, CanHideCycle, SameMessages;
    if recs': seq<Record> :| SameMessages(recs, recs') && LinksUsable(recs', owners) && HasRecordCycle(recs') {
      SameOwners(recs, recs', owners);
      CycleNeedsRepeat(recs', owners);
      SameRepeats(recs, recs');
    }
    if CanHideCycle(recs) {
      var o, a, b := RepeatWitness(recs);
      HidingIsUsable(recs, o, a, b, owners);
      HidingHasCycle(recs, o, a, b);
      HidingIsSame(recs, o, a, b);
    }
  }

  lemma RepeatWitness(recs: seq<Record>) returns (o: nat, a: Id, b: Id)
    requires CanHideCycle(recs)
    ensures RepeatBeside(recs, o, a, b)
  {
    o, a, b :| RepeatBeside(recs, o, a, b);
  }

  lemma HidingIsSame(recs: seq<Record>, o: nat, a: Id, b: Id)
    ensures SameMessages(recs, Hiding(recs, o, a, b))
  {
  }

  lemma SameOwners(recs: seq<Record>, recs': seq<Record>, owners: nat)
    requires SameMessages(recs, recs') && forall r :: r in recs ==> r.owner < owners
    ensures forall r :: r in recs' ==> r.owner < owners
  {
    forall r | r in recs'
      ensures r.owner < owners
    {
      var i :| 0 <= i < |recs'| && recs'[i] == r;
      assert recs[i] in recs;
    }
  }

  lemma SameRepeats(recs: seq<Record>, recs': seq<Record>)
    requires SameMessages(recs, recs') && CanHideCycle(recs')
    ensures CanHideCycle(recs)
  {
    var o, a, b := RepeatWitness(recs');
    SameFirstOwner(recs, recs', a);
    SameFirstOwner(recs, recs', b);
    var i, j :| 0 <= i < j < |recs'| && OfId(recs'[i], o, a) && OfId(recs'[j], o, a);
    assert OfId(recs[i], o, a) && OfId(recs[j], o, a);
    assert RepeatBeside(recs, o, a, b);
  }

  lemma {:induction false} ConversationOwners(owner: nat, ms: seq<RawMessage>)
    ensures forall r :: r in ConversationRecords(owner, ms) ==> r.owner == owner
  {
    if ms != [] {
      ConversationOwners(owner, ms[..|ms| - 1]);
    }
  }

  lemma {:induction false} RecordOwners(payload: seq<RawConversation>)
    ensures forall r :: r in Records(payload) ==> r.owner < |payload|
  {
    if payload != [] {
      var n := |payload| - 1;
      RecordOwners(payload[..n]);
      if payload[n].Conversation? {
        ConversationOwners(n, payload[n].messages);
      }
    }
  }

  /**
   * Readiness: `exact_thread_reconstruction_usable` always means that every
   * recorded message has ancestors inside its conversation that end at a
   * parentless root; once `message_uuid_provenance_usable` holds too, it means
   * exactly that.
   */
  method AuditReadiness(payload: seq<RawConversation>) returns (report: Report)
    ensures report.provenanceUsable <==> DistinctIds(Records(payload)) && MissingUuids(payload) == 0
    ensures report.exactThreadUsable ==> IsForest(Records(payload))
    ensures report.provenanceUsable ==> (report.exactThreadUsable <==> IsForest(Records(payload)))
    ensures report.provenanceUsable && report.exactThreadUsable ==> !HasRecordCycle(Records(payload))
  {
    report := AuditLinks(payload);
    DistinctBySize(Ids(Records(payload)));
    RecordOwners(payload);
    if report.exactThreadUsable {
      UsableIsForest(Records(payload), |payload|);
    }
    if report.provenanceUsable && report.exactThreadUsable && HasRecordCycle(Records(payload)) {
      CycleNeedsRepeat(Records(payload), |payload|);
    }
    if report.provenanceUsable {
      UsableIffForest(Records(payload), |payload|);
    }
  }

  // A conversation whose third message reuses the id of the first.
  const ReusedId: seq<RawMessage> :=
    [Message(Text("a"), Text("b")), Message(Text("b"), Text("a")), Message(Text("a"), Absent)]
  const FirstA := Record(0, 0, "a", Some("b"))
  const OnlyB := Record(0, 1, "b", Some("a"))
  const SecondA := Record(0, 2, "a", None)

  lemma ReusedIdRecords()
    ensures Records([Conversation(ReusedId)]) == [FirstA, OnlyB, SecondA]
  {
    var ms := ReusedId;
    assert ms[..2][..1] == ms[..1] && ms[..1][..0] == [];
    assert ConversationRecords(0, ms[..1]) == [FirstA];
    assert ConversationRecords(0, ms[..2]) == [FirstA, OnlyB];
    assert ConversationRecords(0, ms) == [FirstA, OnlyB, SecondA];
    var payload := [Conversation(ms)];
    assert payload[..0] == [];
    assert Records(payload) == Records([]) + ConversationRecords(0, ms);
  }

  lemma ReusedIdLocals()
    ensures LocalCycles([FirstA, OnlyB, SecondA], 0) == 0
  {
    var recs := [FirstA, OnlyB, SecondA];
    assert recs[..2] == [FirstA, OnlyB] && [FirstA, OnlyB][..1] == [FirstA] && [FirstA][..0] == [];
    assert LocalParents([FirstA], 0) == map["a" := Some("b")];
    assert LocalParents([FirstA, OnlyB], 0) == map["a" := Some("b"), "b" := Some("a")];
    var p := LocalParents(recs, 0);
    assert p == map["a" := None, "b" := Some("a")];
    LeavesByParent(p, "a");
    LeavesByParent(p, "b");
    NoCyclesIffAllLeave(p);
  }

  /**
   * With a repeated id the second flag alone can hold although one recorded
   * message is its own grandparent: the forest and the cycle differ in which of
   * the two records of an id they take.
   */
  lemma RepeatedIdHidesCycle()
    ensures var recs := Records([Conversation(ReusedId)]);
            && LinksUsable(recs, 1)
            && !DistinctIds(recs)
            && recs[0].parent == Some(recs[1].id) && recs[1].parent == Some(recs[0].id)
            && IsForest(recs) && HasRecordCycle(recs)
  {
    hide LinksUsable, IsForest, HasRecordCycle, Records;
    ReusedIdRecords();
    ReusedIdUsable();
    var recs := [FirstA, OnlyB, SecondA];
    assert recs[0].id == recs[2].id;
    UsableIsForest(recs, 1);
    ReusedIdCycle();
  }

  lemma ReusedIdCycle()
    ensures HasRecordCycle([FirstA, OnlyB, SecondA])
  {
    var recs := [FirstA, OnlyB, SecondA];
    assert FirstA in recs && OnlyB in recs;
    assert RecordCycle(recs, [FirstA, OnlyB]);
  }

  lemma ReusedIdUsable()
    ensures LinksUsable([FirstA, OnlyB, SecondA], 1)
  {
    ReusedIdLocals();
    var recs := [FirstA, OnlyB, SecondA];
    assert CycleTotal(recs, 1) == 0;
    assert recs[1..] == [OnlyB, SecondA];
    assert FirstOwner(recs, "a") == Some(0);
    assert FirstOwner(recs, "b") == Some(0);
    assert FirstA in recs && OnlyB in recs;
    assert Recorded(recs, "a") && Recorded(recs, "b");
  }
}
