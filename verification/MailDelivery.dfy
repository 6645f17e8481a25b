module MailDelivery {
  // The folding loop of `iter_messages` in mail_lib/thunderbird.py, and what it
  // delivers, said about the copies in the folders: which ids come out, in which
  // order, and from which copies every field is taken.

  import opened Common
  import opened MailMerge

  // ------------------------------------------------------------ what is delivered

  /** A copy where it lies. */
  datatype Place = Place(folder: Folder, raw: RawCopy)

  /** The copy has an id, is dated at or after the cutoff, and is listed by its folder's summary file if that lists anything. */
  ghost predicate Counts(p: Place, cutoff: Option<int>) {
    && p.raw.id != ""
    && (cutoff.Some? ==> p.raw.instant.Some? && p.raw.instant.value >= cutoff.value)
    && (p.folder.msfRead != map[] ==> p.raw.id in p.folder.msfRead)
  }

  /** The copies that count, in the order of reading. */
  ghost function CountedIn(folder: Folder, copies: seq<RawCopy>, cutoff: Option<int>): seq<Place> {
    if copies == [] then []
    else
      var n := |copies| - 1;
      var p := Place(folder, copies[n]);
      CountedIn(folder, copies[..n], cutoff) + (if Counts(p, cutoff) then [p] else [])
  }

  ghost function Counted(folders: seq<Folder>, cutoff: Option<int>): seq<Place> {
    if folders == [] then []
    else
      var n := |folders| - 1;
      Counted(folders[..n], cutoff) + CountedIn(folders[n], folders[n].copies, cutoff)
  }

  ghost function OfId(places: seq<Place>, id: string): seq<Place> {
    if places == [] then []
    else
      var n := |places| - 1;
      OfId(places[..n], id) + (if places[n].raw.id == id then [places[n]] else [])
  }

  /** The result is the first value that is not among the empty ones, or the last value if all are. */
  ghost predicate FirstOf<T>(values: seq<T>, empty: set<T>, r: T) {
    exists k :: 0 <= k < |values| && values[k] == r
      && (forall j :: 0 <= j < k ==> values[j] in empty) && (r !in empty || k == |values| - 1)
  }

  ghost function Froms(places: seq<Place>): seq<string> {
    seq(|places|, i requires 0 <= i < |places| => if places[i].raw.from != [] then places[i].raw.from[0] else "")
  }

  ghost function Tos(places: seq<Place>): seq<seq<string>> {
    seq(|places|, i requires 0 <= i < |places| => places[i].raw.to)
  }

  ghost function Dates(places: seq<Place>): seq<Option<string>> {
    seq(|places|, i requires 0 <= i < |places| => places[i].raw.date)
  }

  ghost function SourceNames(places: seq<Place>): seq<Option<string>> {
    seq(|places|, i requires 0 <= i < |places| => if places[i].folder.isSource then Some(places[i].folder.name) else None)
  }

  /** The names of the folders that are no source folders. */
  ghost function SignalNames(places: seq<Place>): seq<string> {
    if places == [] then []
    else
      var n := |places| - 1;
      SignalNames(places[..n]) + (if places[n].folder.isSource then [] else [places[n].folder.name])
  }

  ghost predicate Listed(p: Place) {
    p.raw.id in p.folder.msfRead
  }

  ghost predicate ReadAt(p: Place) {
    if Listed(p) then p.folder.msfRead[p.raw.id] else p.raw.mozillaRead
  }

  /** The message is read where the summary files say so everywhere, or everywhere at all when none lists it. */
  ghost predicate ReadEverywhere(places: seq<Place>) {
    if exists p :: p in places && Listed(p) then forall p :: p in places && Listed(p) ==> ReadAt(p)
    else forall p :: p in places ==> ReadAt(p)
  }

  /** Subject, body and mailbox come from one copy: the first with a body, else the last. */
  ghost predicate BodyFrom(m: MailMessage, places: seq<Place>) {
    exists k :: 0 <= k < |places|
      && m.subject == places[k].raw.subject && m.body == places[k].raw.body
      && m.mboxPath == Some(places[k].folder.mboxPath)
      && (forall j :: 0 <= j < k ==> places[j].raw.body == "") && (m.body != "" || k == |places| - 1)
  }

  /** Where each field of a delivered message comes from, given all the copies that count and the metadata under its id. */
  ghost predicate MergedFrom(m: MailMessage, places: seq<Place>, meta: Option<Metadata>) {
    && BodyFrom(m, places)
    && m.metadata == meta
    && (if meta.Some? && meta.value.sender.Some? then m.sender == meta.value.sender.value else FirstOf(Froms(places), {""}, m.sender))
    && (if meta.Some? && meta.value.recipients != [] then m.recipients == meta.value.recipients
        else FirstOf(Tos(places), {[]}, m.recipients))
    && FirstOf(Dates(places), {None, Some("")}, m.date)
    && FirstOf(SourceNames(places), {None, Some("")}, m.sourceFolder)
    && m.signalFolders == Dedup(SignalNames(places))
    && (m.localRead <==> ReadEverywhere(places))
    && (m.readStateSource == MSF <==> exists p :: p in places && Listed(p))
  }

  ghost function PlaceIds(places: seq<Place>): seq<string> {
    seq(|places|, i requires 0 <= i < |places| => places[i].raw.id)
  }

  ghost function MessageIds(messages: seq<MailMessage>): seq<string> {
    seq(|messages|, i requires 0 <= i < |messages| => messages[i].id)
  }

  function MetaOf(metadata: map<string, Metadata>, id: string): Option<Metadata> {
    if id in metadata then Some(metadata[id]) else None
  }

  /** One message per id that has a copy that counts, in the order of the first such copies, each merged from all of them. */
  ghost predicate Delivers(result: seq<MailMessage>, folders: seq<Folder>, metadata: map<string, Metadata>, cutoff: Option<int>) {
    && MessageIds(result) == Dedup(PlaceIds(Counted(folders, cutoff)))
    && forall m :: m in result ==> MergedFrom(m, OfId(Counted(folders, cutoff), m.id), MetaOf(metadata, m.id))
  }

  // ------------------------------------------------------------------ survivors

  /** The copies of one mailbox that get past the filters. */
  function Survives(raw: RawCopy, folder: Folder, metadata: map<string, Metadata>, cutoff: Option<int>): Option<MailMessage> {
    if cutoff.Some? && (raw.instant.None? || raw.instant.value < cutoff.value) then None
    else if folder.msfRead != map[] && raw.id !in folder.msfRead then None
    else FromMbox(raw, folder, if raw.id in metadata then Some(metadata[raw.id]) else None)
  }

  function FolderSurvivors(folder: Folder, copies: seq<RawCopy>, metadata: map<string, Metadata>, cutoff: Option<int>): seq<MailMessage> {
    if copies == [] then []
    else
      var n := |copies| - 1;
      var m := Survives(copies[n], folder, metadata, cutoff);
      FolderSurvivors(folder, copies[..n], metadata, cutoff) + (if m.Some? then [m.value] else [])
  }

  function Survivors(folders: seq<Folder>, metadata: map<string, Metadata>, cutoff: Option<int>): seq<MailMessage> {
    if folders == [] then []
    else
      var n := |folders| - 1;
      Survivors(folders[..n], metadata, cutoff) + FolderSurvivors(folders[n], folders[n].copies, metadata, cutoff)
  }

  // ------------------------------------------------------------------- grouping

  function CopiesOf(all: seq<MailMessage>, id: string): seq<MailMessage> {
    if all == [] then []
    else
      var n := |all| - 1;
      CopiesOf(all[..n], id) + (if all[n].id == id then [all[n]] else [])
  }

  /** The ids in first-appearance order. */
  function FirstIds(all: seq<MailMessage>): seq<string> {
    if all == [] then []
    else
      var n := |all| - 1;
      var ids := FirstIds(all[..n]);
      if all[n].id in ids then ids else ids + [all[n].id]
  }

  lemma {:induction false} FirstIdsHaveCopies(all: seq<MailMessage>, id: string)
    ensures id in FirstIds(all) <==> CopiesOf(all, id) != []
  {
    if all != [] {
      FirstIdsHaveCopies(all[..|all| - 1], id);
    }
  }

  /** Grouping by Message-ID in first-appearance order, each group folded. */
  function Grouped(all: seq<MailMessage>): seq<MailMessage> {
    var ids := FirstIds(all);
    seq(|ids|, i requires 0 <= i < |ids| => FirstIdsHaveCopies(all, ids[i]); Fold(CopiesOf(all, ids[i])))
  }

  /** What the dictionary of the loop holds for one id. */
  ghost predicate Entry(all: seq<MailMessage>, messages: map<string, MailMessage>, id: string) {
    && (id in messages <==> CopiesOf(all, id) != [])
    && (id in messages ==> messages[id] == Fold(CopiesOf(all, id)))
  }

  /** The dictionary of the loop, with its keys in insertion order. */
  ghost predicate Table(all: seq<MailMessage>, order: seq<string>, messages: map<string, MailMessage>) {
    order == FirstIds(all) && forall id: string :: Entry(all, messages, id)
  }

  lemma CopiesNext(all: seq<MailMessage>, m: MailMessage, id: string)
    ensures CopiesOf(all + [m], id) == if m.id == id then CopiesOf(all, id) + [m] else CopiesOf(all, id)
  {
    assert (all + [m])[..|all|] == all;
  }

  lemma FoldNext(copies: seq<MailMessage>, m: MailMessage)
    ensures Fold(copies + [m]) == if copies == [] then m else Merge(Fold(copies), m)
  {
    assert (copies + [m])[..|copies|] == copies;
  }

  /** The dictionary after one more copy. */
  function Added(messages: map<string, MailMessage>, m: MailMessage): map<string, MailMessage> {
    messages[m.id := if m.id in messages then Merge(messages[m.id], m) else m]
  }

  lemma EntryNext(all: seq<MailMessage>, messages: map<string, MailMessage>, m: MailMessage, id: string)
    requires Entry(all, messages, id)
    ensures Entry(all + [m], Added(messages, m), id)
  {
    hide Merge, Fold, CopiesOf;
    CopiesNext(all, m, id);
    FoldNext(CopiesOf(all, id), m);
  }

  lemma TableNext(all: seq<MailMessage>, order: seq<string>, messages: map<string, MailMessage>, m: MailMessage)
    requires Table(all, order, messages)
    ensures Table(all + [m], if m.id in messages then order else order + [m.id], Added(messages, m))
  {
    hide Added;
    assert (all + [m])[..|all|] == all;
    FirstIdsHaveCopies(all, m.id);
    assert Entry(all, messages, m.id);
    forall id: string
      ensures Entry(all + [m], Added(messages, m), id)
    {
      EntryNext(all, messages, m, id);
    }
  }

  lemma TableEnd(all: seq<MailMessage>, order: seq<string>, messages: map<string, MailMessage>)
    requires Table(all, order, messages)
    ensures forall i :: 0 <= i < |order| ==> order[i] in messages
    ensures |order| == |Grouped(all)| && forall i :: 0 <= i < |order| ==> messages[order[i]] == Grouped(all)[i]
  {
    hide Fold, CopiesOf;
    forall i | 0 <= i < |order|
      ensures order[i] in messages && messages[order[i]] == Grouped(all)[i]
    {
      FirstIdsHaveCopies(all, order[i]);
      assert Entry(all, messages, order[i]);
    }
  }

  lemma TableStart()
    ensures Table([], [], map[])
  {
  }

  /** The folding loop of `iter_messages`. */
  method IterMessages(folders: seq<Folder>, metadata: map<string, Metadata>, cutoff: Option<int>)
    returns (result: seq<MailMessage>)
    ensures result == Grouped(Survivors(folders, metadata, cutoff))
    ensures Delivers(result, folders, metadata, cutoff)
  {
    hide Table, Survives, Merge, Grouped, Delivers;
    var messages: map<string, MailMessage> := map[];
    var order: seq<string> := [];
    ghost var all: seq<MailMessage> := [];
    TableStart();
    for f := 0 to |folders|
      invariant all == Survivors(folders[..f], metadata, cutoff)
      invariant Table(all, order, messages)
    {
      var folder := folders[f];
      assert folders[..f + 1][..f] == folders[..f];
      ghost var before := all;
      for k := 0 to |folder.copies|
        invariant all == before + FolderSurvivors(folder, folder.copies[..k], metadata, cutoff)
        invariant Table(all, order, messages)
      {
        assert folder.copies[..k + 1][..k] == folder.copies[..k];
        var m := Survives(folder.copies[k], folder, metadata, cutoff);
        if m.None? {
          continue;
        }
        TableNext(all, order, messages, m.value);
        all := all + [m.value];
        if m.value.id in messages {
          messages := messages[m.value.id := Merge(messages[m.value.id], m.value)];
        } else {
          messages := messages[m.value.id := m.value];
          order := order + [m.value.id];
        }
      }
      assert folder.copies[..|folder.copies|] == folder.copies;
    }
    assert folders[..|folders|] == folders;
    TableEnd(all, order, messages);
    result := seq(|order|, i requires 0 <= i < |order| && order[i] in messages => messages[order[i]]);
    GroupedDelivers(folders, metadata, cutoff);
  }

  // ------------------------------------------------------------- what comes out

  lemma {:induction false} FirstIdsDistinct(all: seq<MailMessage>)
    ensures NoRepeats(FirstIds(all))
  {
    if all != [] {
      FirstIdsDistinct(all[..|all| - 1]);
    }
  }

  lemma {:induction false} CopiesHaveId(all: seq<MailMessage>, id: string)
    ensures forall c :: c in CopiesOf(all, id) <==> c in all && c.id == id
  {
    if all != [] {
      var n := |all| - 1;
      CopiesHaveId(all[..n], id);
      assert all == all[..n] + [all[n]];
    }
  }

  /** Exactly one message per Message-ID that survived, and its read flag speaks for all of its copies. */
  lemma OneMessagePerId(all: seq<MailMessage>)
    ensures var out := Grouped(all);
            && (forall i, j :: 0 <= i < j < |out| ==> out[i].id != out[j].id)
            && (forall c :: c in all ==> exists i :: 0 <= i < |out| && out[i].id == c.id)
            && (forall i :: 0 <= i < |out| ==> (out[i].localRead <==> AllRead(CopiesOf(all, out[i].id))))
  {
    var ids, out := FirstIds(all), Grouped(all);
    FirstIdsDistinct(all);
    forall i | 0 <= i < |out|
      ensures out[i].id == ids[i] && (out[i].localRead <==> AllRead(CopiesOf(all, ids[i])))
    {
      var copies := CopiesOf(all, ids[i]);
      FirstIdsHaveCopies(all, ids[i]);
      CopiesHaveId(all, ids[i]);
      FoldId(copies);
      FoldRead(copies);
      assert copies[0] in copies;
    }
    forall c | c in all
      ensures exists i :: 0 <= i < |out| && out[i].id == c.id
    {
      CopiesHaveId(all, c.id);
      assert c in CopiesOf(all, c.id);
      FirstIdsHaveCopies(all, c.id);
      var i :| 0 <= i < |ids| && ids[i] == c.id;
      assert out[i].id == c.id;
    }
  }

  // ---------------------------------------------------------------- from places

  /** The message is this copy as read from its mailbox. */
  ghost predicate CopyOf(m: MailMessage, p: Place, metadata: map<string, Metadata>) {
    var meta := MetaOf(metadata, p.raw.id);
    && m.id == p.raw.id && m.subject == p.raw.subject && m.body == p.raw.body && m.date == p.raw.date
    && m.metadata == meta && m.mboxPath == Some(p.folder.mboxPath)
    && m.sender == (if meta.Some? && meta.value.sender.Some? then meta.value.sender.value
                    else if p.raw.from != [] then p.raw.from[0] else "")
    && m.recipients == (if meta.Some? && meta.value.recipients != [] then meta.value.recipients else p.raw.to)
    && m.sourceFolder == (if p.folder.isSource then Some(p.folder.name) else None)
    && m.signalFolders == (if p.folder.isSource then [] else [p.folder.name])
    && m.localRead == ReadAt(p) && (m.readStateSource == MSF <==> Listed(p))
  }

  ghost predicate CopiesOfPlaces(ms: seq<MailMessage>, places: seq<Place>, metadata: map<string, Metadata>) {
    |ms| == |places| && forall i :: 0 <= i < |ms| ==> CopyOf(ms[i], places[i], metadata)
  }

  /** The filters of the loop keep exactly the copies that count. */
  lemma SurvivesCounts(raw: RawCopy, folder: Folder, metadata: map<string, Metadata>, cutoff: Option<int>)
    ensures var m := Survives(raw, folder, metadata, cutoff);
            && (m.Some? <==> Counts(Place(folder, raw), cutoff))
            && (m.Some? ==> CopyOf(m.value, Place(folder, raw), metadata))
  {
  }

  lemma {:induction false} FolderCounted(folder: Folder, copies: seq<RawCopy>, metadata: map<string, Metadata>, cutoff: Option<int>)
    ensures CopiesOfPlaces(FolderSurvivors(folder, copies, metadata, cutoff), CountedIn(folder, copies, cutoff), metadata)
  {
    hide Survives, Counts, CopyOf;
    if copies != [] {
      var n := |copies| - 1;
      FolderCounted(folder, copies[..n], metadata, cutoff);
      SurvivesCounts(copies[n], folder, metadata, cutoff);
    }
  }

  lemma {:induction false} SurvivorsCounted(folders: seq<Folder>, metadata: map<string, Metadata>, cutoff: Option<int>)
    ensures CopiesOfPlaces(Survivors(folders, metadata, cutoff), Counted(folders, cutoff), metadata)
  {
    hide CopyOf, FolderSurvivors, CountedIn;
    if folders != [] {
      var n := |folders| - 1;
      SurvivorsCounted(folders[..n], metadata, cutoff);
      FolderCounted(folders[n], folders[n].copies, metadata, cutoff);
    }
  }

  lemma {:induction false} SelectPlaces(ms: seq<MailMessage>, places: seq<Place>, metadata: map<string, Metadata>, id: string)
    requires CopiesOfPlaces(ms, places, metadata)
    ensures CopiesOfPlaces(CopiesOf(ms, id), OfId(places, id), metadata)
  {
    hide CopyOf;
    if ms != [] {
      var n := |ms| - 1;
      SelectPlaces(ms[..n], places[..n], metadata, id);
      SameId(ms[n], places[n], metadata);
    }
  }

  lemma SameId(m: MailMessage, p: Place, metadata: map<string, Metadata>)
    requires CopyOf(m, p, metadata)
    ensures m.id == p.raw.id
  {
  }

  lemma PlaceIdsNext(places: seq<Place>)
    requires places != []
    ensures var n := |places| - 1;
            Dedup(PlaceIds(places)) ==
              Dedup(PlaceIds(places[..n])) + (if places[n].raw.id in Dedup(PlaceIds(places[..n])) then [] else [places[n].raw.id])
  {
    var n, ids := |places| - 1, PlaceIds(places);
    assert ids[..n] == PlaceIds(places[..n]);
    assert ids[n] == places[n].raw.id;
  }

  lemma {:induction false} IdsOfPlaces(ms: seq<MailMessage>, places: seq<Place>, metadata: map<string, Metadata>)
    requires CopiesOfPlaces(ms, places, metadata)
    ensures FirstIds(ms) == Dedup(PlaceIds(places))
  {
    hide CopyOf, Dedup, PlaceIds;
    if ms != [] {
      var n := |ms| - 1;
      IdsOfPlaces(ms[..n], places[..n], metadata);
      SameId(ms[n], places[n], metadata);
      PlaceIdsNext(places);
    } else {
      NoPlaceIds(places);
    }
  }

  lemma NoPlaceIds(places: seq<Place>)
    requires places == []
    ensures Dedup(PlaceIds(places)) == []
  {
  }

  lemma FirstOfNext<T>(values: seq<T>, v: T, empty: set<T>, r: T)
    requires FirstOf(values, empty, r)
    ensures FirstOf(values + [v], empty, if r in empty then v else r)
  {
    var k :| 0 <= k < |values| && values[k] == r
      && (forall j :: 0 <= j < k ==> values[j] in empty) && (r !in empty || k == |values| - 1);
    var all := values + [v];
    if r in empty {
      assert all[|values|] == v;
    } else {
      assert all[k] == r;
    }
  }

  lemma FirstOfOne<T>(v: T, empty: set<T>)
    ensures FirstOf([v], empty, v)
  {
    assert [v][0] == v;
  }

  ghost function Mapped<T>(ms: seq<MailMessage>, field: MailMessage -> T): seq<T> {
    seq(|ms|, i requires 0 <= i < |ms| => field(ms[i]))
  }

  /** Merging two messages keeps the first one's field unless it is empty. */
  ghost predicate KeepsFirst<T(!new)>(field: MailMessage -> T, empty: set<T>) {
    forall a, b :: field(Merge(a, b)) == if field(a) in empty then field(b) else field(a)
  }

  /** Such a field of a fold is the first non-empty one. */
  lemma {:induction false} FoldFirst<T(!new)>(ms: seq<MailMessage>, field: MailMessage -> T, empty: set<T>)
    requires ms != [] && KeepsFirst(field, empty)
    ensures FirstOf(Mapped(ms, field), empty, field(Fold(ms)))
  {
    hide FirstOf, Merge;
    var n := |ms| - 1;
    if n == 0 {
      FirstOfOne(field(ms[0]), empty);
      assert Mapped(ms, field) == [field(ms[0])];
    } else {
      FoldFirst(ms[..n], field, empty);
      FirstOfNext(Mapped(ms[..n], field), field(ms[n]), empty, field(Fold(ms[..n])));
      assert Mapped(ms, field) == Mapped(ms[..n], field) + [field(ms[n])];
    }
  }

  lemma FieldsKeepFirst()
    ensures KeepsFirst((m: MailMessage) => m.sender, {""})
    ensures KeepsFirst((m: MailMessage) => m.recipients, {[]})
    ensures KeepsFirst((m: MailMessage) => m.date, {None, Some("")})
    ensures KeepsFirst((m: MailMessage) => m.sourceFolder, {None, Some("")})
    ensures KeepsFirst((m: MailMessage) => m.metadata, {None})
  {
    hide Dedup, MergeRead;
  }

  lemma MergeSignals(a: MailMessage, b: MailMessage)
    ensures Merge(a, b).signalFolders == Dedup(a.signalFolders + b.signalFolders)
  {
    hide Dedup, OrText, MergeRead;
  }

  lemma SignalNamesNext(places: seq<Place>)
    requires places != []
    ensures var n := |places| - 1;
            SignalNames(places) == SignalNames(places[..n]) + (if places[n].folder.isSource then [] else [places[n].folder.name])
  {
  }

  /** The signal folders of a fold are those of its copies, each once. */
  lemma {:induction false} FoldSignals(ms: seq<MailMessage>, places: seq<Place>, metadata: map<string, Metadata>)
    requires ms != [] && CopiesOfPlaces(ms, places, metadata)
    ensures Fold(ms).signalFolders == Dedup(SignalNames(places))
  {
    hide Dedup, Merge, CopyOf, SignalNames;
    var n := |ms| - 1;
    SignalsOfCopy(ms[n], places[n], metadata);
    SignalNamesNext(places);
    if n == 0 {
      NoSignals(places[..0]);
    } else {
      FoldSignals(ms[..n], places[..n], metadata);
      MergeSignals(Fold(ms[..n]), ms[n]);
      DedupLeft(SignalNames(places[..n]), ms[n].signalFolders);
    }
  }

  lemma NoSignals(places: seq<Place>)
    requires places == []
    ensures SignalNames(places) == [] && forall x: seq<string> :: SignalNames(places) + x == x
  {
  }

  lemma SignalsOfCopy(m: MailMessage, p: Place, metadata: map<string, Metadata>)
    requires CopyOf(m, p, metadata)
    ensures m.signalFolders == (if p.folder.isSource then [] else [p.folder.name]) == Dedup(m.signalFolders)
  {
    if !p.folder.isSource {
      var one := [p.folder.name];
      assert one[..0] == [];
      assert Dedup(one) == Dedup([]) + [p.folder.name];
    }
  }

  /** The read state of a fold, told by its copies' places. */
  lemma FoldReadAt(ms: seq<MailMessage>, places: seq<Place>, metadata: map<string, Metadata>)
    requires ms != [] && CopiesOfPlaces(ms, places, metadata)
    ensures Fold(ms).localRead <==> ReadEverywhere(places)
    ensures Fold(ms).readStateSource == MSF <==> exists p :: p in places && Listed(p)
  {
    hide Fold, ReadAt, Listed;
    FoldRead(ms);
    forall i | 0 <= i < |ms|
      ensures ms[i].localRead == ReadAt(places[i]) && (ms[i].readStateSource == MSF <==> Listed(places[i]))
    {
      ReadOfCopy(ms[i], places[i], metadata);
    }
    hide CopyOf;
    assert HasMsf(ms) <==> exists p :: p in places && Listed(p) by {
      if p :| p in places && Listed(p) {
        var i :| 0 <= i < |places| && places[i] == p;
        assert ms[i] in ms;
      }
      if HasMsf(ms) {
        var c :| c in ms && c.readStateSource == MSF;
        var i :| 0 <= i < |ms| && ms[i] == c;
        assert places[i] in places;
      }
    }
    AllReadAt(ms, places);
  }

  lemma ReadOfCopy(m: MailMessage, p: Place, metadata: map<string, Metadata>)
    requires CopyOf(m, p, metadata)
    ensures m.localRead == ReadAt(p) && (m.readStateSource == MSF <==> Listed(p))
  {
  }

  lemma AllReadAt(ms: seq<MailMessage>, places: seq<Place>)
    requires |ms| == |places|
    requires HasMsf(ms) <==> exists p :: p in places && Listed(p)
    requires forall i :: 0 <= i < |ms| ==> ms[i].localRead == ReadAt(places[i]) && (ms[i].readStateSource == MSF <==> Listed(places[i]))
    ensures AllRead(ms) <==> ReadEverywhere(places)
  {
    hide ReadAt, Listed;
    if AllRead(ms) {
      forall p | p in places && (HasMsf(ms) ==> Listed(p))
        ensures ReadAt(p)
      {
        var i :| 0 <= i < |places| && places[i] == p;
        assert ms[i] in ms;
      }
    }
    if ReadEverywhere(places) {
      forall c | c in ms && (HasMsf(ms) ==> c.readStateSource == MSF)
        ensures c.localRead
      {
        var i :| 0 <= i < |ms| && ms[i] == c;
        assert places[i] in places;
      }
    }
  }

  lemma FirstOfAll<T>(values: seq<T>, empty: set<T>, r: T, v: T)
    requires FirstOf(values, empty, r) && forall i :: 0 <= i < |values| ==> values[i] == v
    ensures r == v
  {
  }

  /** The address fields of a fold: from the metadata when it has them, else from the first copy that has. */
  lemma FoldAddresses(ms: seq<MailMessage>, places: seq<Place>, metadata: map<string, Metadata>, id: string)
    requires ms != [] && CopiesOfPlaces(ms, places, metadata) && forall p :: p in places ==> p.raw.id == id
    ensures var m, meta := Fold(ms), MetaOf(metadata, id);
            && (if meta.Some? && meta.value.sender.Some? then m.sender == meta.value.sender.value
                else FirstOf(Froms(places), {""}, m.sender))
            && (if meta.Some? && meta.value.recipients != [] then m.recipients == meta.value.recipients
                else FirstOf(Tos(places), {[]}, m.recipients))
  {
    hide Fold, FirstOf, KeepsFirst, ReadAt, Listed;
    var m, meta := Fold(ms), MetaOf(metadata, id);
    FieldsKeepFirst();
    var sender, recipients := (m: MailMessage) => m.sender, (m: MailMessage) => m.recipients;
    FoldFirst(ms, sender, {""});
    FoldFirst(ms, recipients, {[]});
    assert forall i :: 0 <= i < |places| ==> places[i] in places;
    if meta.Some? && meta.value.sender.Some? {
      FirstOfAll(Mapped(ms, sender), {""}, m.sender, meta.value.sender.value);
    } else {
      assert Mapped(ms, sender) == Froms(places);
    }
    if meta.Some? && meta.value.recipients != [] {
      FirstOfAll(Mapped(ms, recipients), {[]}, m.recipients, meta.value.recipients);
    } else {
      assert Mapped(ms, recipients) == Tos(places);
    }
  }

  lemma FoldOthers(ms: seq<MailMessage>, places: seq<Place>, metadata: map<string, Metadata>, id: string)
    requires ms != [] && CopiesOfPlaces(ms, places, metadata) && forall p :: p in places ==> p.raw.id == id
    ensures var m := Fold(ms);
            && m.metadata == MetaOf(metadata, id)
            && FirstOf(Dates(places), {None, Some("")}, m.date)
            && FirstOf(SourceNames(places), {None, Some("")}, m.sourceFolder)
  {
    hide Fold, FirstOf, KeepsFirst, ReadAt, Listed;
    var m := Fold(ms);
    FieldsKeepFirst();
    var date, source, meta := (m: MailMessage) => m.date, (m: MailMessage) => m.sourceFolder, (m: MailMessage) => m.metadata;
    FoldFirst(ms, date, {None, Some("")});
    FoldFirst(ms, source, {None, Some("")});
    FoldFirst(ms, meta, {None});
    assert forall i :: 0 <= i < |places| ==> places[i] in places;
    assert Mapped(ms, date) == Dates(places) && Mapped(ms, source) == SourceNames(places);
    FirstOfAll(Mapped(ms, meta), {None}, m.metadata, MetaOf(metadata, id));
  }

  lemma FoldBodyFrom(ms: seq<MailMessage>, places: seq<Place>, metadata: map<string, Metadata>)
    requires ms != [] && CopiesOfPlaces(ms, places, metadata)
    ensures BodyFrom(Fold(ms), places)
  {
    hide Fold, ReadAt, Listed;
    var k := FoldBody(ms);
    assert forall j :: 0 <= j < |ms| ==> ms[j].body == places[j].raw.body;
    assert Fold(ms).subject == places[k].raw.subject && Fold(ms).body == places[k].raw.body;
    assert Fold(ms).mboxPath == Some(places[k].folder.mboxPath);
  }

  /** A fold takes its fields as promised. */
  lemma FoldMerged(ms: seq<MailMessage>, places: seq<Place>, metadata: map<string, Metadata>, id: string)
    requires ms != [] && CopiesOfPlaces(ms, places, metadata) && forall p :: p in places ==> p.raw.id == id
    ensures MergedFrom(Fold(ms), places, MetaOf(metadata, id))
  {
    hide Fold, FirstOf, CopiesOfPlaces, BodyFrom, ReadEverywhere, Listed, Dedup;
    FoldBodyFrom(ms, places, metadata);
    FoldAddresses(ms, places, metadata, id);
    FoldOthers(ms, places, metadata, id);
    FoldSignals(ms, places, metadata);
    FoldReadAt(ms, places, metadata);
  }

  lemma {:induction false} OfIdMembers(places: seq<Place>, id: string)
    ensures forall p :: p in OfId(places, id) <==> p in places && p.raw.id == id
  {
    if places != [] {
      var n := |places| - 1;
      OfIdMembers(places[..n], id);
      assert places == places[..n] + [places[n]];
    }
  }

  lemma GroupedIds(all: seq<MailMessage>, i: nat)
    requires i < |FirstIds(all)|
    ensures |Grouped(all)| == |FirstIds(all)| && CopiesOf(all, FirstIds(all)[i]) != []
    ensures Grouped(all)[i] == Fold(CopiesOf(all, FirstIds(all)[i])) && Grouped(all)[i].id == FirstIds(all)[i]
  {
    hide Fold, CopiesOf, FirstIds;
    var id := FirstIds(all)[i];
    FirstIdsHaveCopies(all, id);
    CopiesHaveId(all, id);
    assert CopiesOf(all, id)[0] in CopiesOf(all, id);
    FoldId(CopiesOf(all, id));
  }

  /** What the loop delivers, said about the copies in the folders. */
  lemma GroupedDelivers(folders: seq<Folder>, metadata: map<string, Metadata>, cutoff: Option<int>)
    ensures Delivers(Grouped(Survivors(folders, metadata, cutoff)), folders, metadata, cutoff)
  {
    hide Fold, CopiesOf, FirstIds, Dedup, Grouped, CopiesOfPlaces, MergedFrom, PlaceIds, OfId, Counted, Survivors;
    var all, places := Survivors(folders, metadata, cutoff), Counted(folders, cutoff);
    var result, ids := Grouped(all), FirstIds(all);
    SurvivorsCounted(folders, metadata, cutoff);
    IdsOfPlaces(all, places, metadata);
    if ids == [] {
      NothingGrouped(all);
    }
    forall i: nat | i < |ids|
      ensures |result| == |ids| && result[i].id == ids[i] && MergedFrom(result[i], OfId(places, ids[i]), MetaOf(metadata, ids[i]))
    {
      GroupedIds(all, i);
      SelectPlaces(all, places, metadata, ids[i]);
      OfIdMembers(places, ids[i]);
      FoldMerged(CopiesOf(all, ids[i]), OfId(places, ids[i]), metadata, ids[i]);
    }
    assert ids != [] ==> |result| == |ids| by {
      if ids != [] {
        GroupedIds(all, 0);
      }
    }
    assert MessageIds(result) == ids;
  }

  lemma NothingGrouped(all: seq<MailMessage>)
    requires FirstIds(all) == []
    ensures Grouped(all) == []
  {
  }

  lemma {:induction false} CountedInMembers(folder: Folder, copies: seq<RawCopy>, cutoff: Option<int>, p: Place)
    ensures p in CountedIn(folder, copies, cutoff) <==> p.folder == folder && p.raw in copies && Counts(p, cutoff)
  {
    hide Counts;
    if copies != [] {
      var n := |copies| - 1;
      CountedInMembers(folder, copies[..n], cutoff, p);
      assert copies == copies[..n] + [copies[n]];
    }
  }

  lemma {:induction false} CountedMembers(folders: seq<Folder>, cutoff: Option<int>, p: Place)
    ensures p in Counted(folders, cutoff) <==> p.folder in folders && p.raw in p.folder.copies && Counts(p, cutoff)
  {
    hide Counts, CountedIn;
    if folders != [] {
      var n := |folders| - 1;
      CountedMembers(folders[..n], cutoff, p);
      CountedInMembers(folders[n], folders[n].copies, cutoff, p);
      assert folders == folders[..n] + [folders[n]];
    }
  }

  /** The folder holds a copy with this id that is recent enough and listed where there is a list. */
  ghost predicate Holds(folder: Folder, raw: RawCopy, cutoff: Option<int>, id: string) {
    && raw in folder.copies && raw.id == id && id != ""
    && (cutoff.Some? ==> raw.instant.Some? && raw.instant.value >= cutoff.value)
    && (folder.msfRead != map[] ==> id in folder.msfRead)
  }

  /** An id is delivered exactly when some folder holds a copy of it that counts, and then once. */
  lemma DeliveredIds(result: seq<MailMessage>, folders: seq<Folder>, metadata: map<string, Metadata>, cutoff: Option<int>, id: string)
    requires Delivers(result, folders, metadata, cutoff)
    ensures NoRepeats(MessageIds(result))
    ensures id in MessageIds(result) <==> exists folder, raw :: folder in folders && Holds(folder, raw, cutoff, id)
  {
    hide MergedFrom, Counted, Dedup;
    var places := Counted(folders, cutoff);
    DedupDistinct(PlaceIds(places));
    if id in MessageIds(result) {
      assert id in PlaceIds(places);
      var i :| 0 <= i < |places| && PlaceIds(places)[i] == id;
      CountedMembers(folders, cutoff, places[i]);
      assert places[i] in places;
      assert Holds(places[i].folder, places[i].raw, cutoff, id);
    }
    if folder, raw :| folder in folders && Holds(folder, raw, cutoff, id) {
      CountedMembers(folders, cutoff, Place(folder, raw));
      var i :| 0 <= i < |places| && places[i] == Place(folder, raw);
      assert PlaceIds(places)[i] == id;
    }
  }
}
