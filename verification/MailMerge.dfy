/**
 * Merging mailbox copies of one message in mail_lib/thunderbird.py:
 * `_message_from_mbox`, `_merge_messages` and its fold over any number of
 * copies.  Message-IDs come in already normalised.
 */
module MailMerge {
  import opened Common

  // ------------------------------------------------------------------ messages

  /** A Gloda row; only the addresses are read here. */
  datatype Metadata = Metadata(key: int, sender: Option<string>, recipients: seq<string>)

  datatype MailMessage = MailMessage(
    id: string,
    subject: string,
    body: string,
    sender: string,
    recipients: seq<string>,
    date: Option<string>,
    sourceFolder: Option<string>,
    signalFolders: seq<string>,
    metadata: Option<Metadata>,
    mboxPath: Option<string>,
    localRead: bool,
    readStateSource: string)

  /** A message as the mailbox reader returns it. */
  datatype RawCopy = RawCopy(
    id: string,
    subject: string,
    body: string,
    from: seq<string>,
    to: seq<string>,
    date: Option<string>,
    instant: Option<int>,
    mozillaRead: bool)

  datatype Folder = Folder(name: string, isSource: bool, mboxPath: string, copies: seq<RawCopy>, msfRead: map<string, bool>)

  const MSF := "msf"
  const MBOX := "mbox"

  /** `_message_from_mbox`. */
  function FromMbox(raw: RawCopy, folder: Folder, metadata: Option<Metadata>): Option<MailMessage> {
    if raw.id == "" then None
    else
      var msf := if raw.id in folder.msfRead then Some(folder.msfRead[raw.id]) else None;
      Some(MailMessage(
        raw.id,
        raw.subject,
        raw.body,
        if metadata.Some? && metadata.value.sender.Some? then metadata.value.sender.value
        else if raw.from != [] then raw.from[0] else "",
        if metadata.Some? && metadata.value.recipients != [] then metadata.value.recipients else raw.to,
        raw.date,
        if folder.isSource then Some(folder.name) else None,
        if folder.isSource then [] else [folder.name],
        metadata,
        Some(folder.mboxPath),
        if msf.Some? then msf.value else raw.mozillaRead,
        if msf.Some? then MSF else MBOX))
  }

  // --------------------------------------------------------------------- merge

  /** `a or b` for an optional text: an empty text is not kept. */
  function OrText(a: Option<string>, b: Option<string>): Option<string> {
    if a.Some? && a.value != "" then a else b
  }

  /** `tuple(dict.fromkeys(s))`: first occurrences in order. */
  function Dedup(s: seq<string>): (r: seq<string>)
    ensures forall x :: x in r <==> x in s
  {
    if s == [] then []
    else
      var n := |s| - 1;
      assert s == s[..n] + [s[n]];
      Dedup(s[..n]) + (if s[n] in s[..n] then [] else [s[n]])
  }

  /** The read flag and its source: states from a summary file outrank the others. */
  function MergeRead(a: MailMessage, b: MailMessage): (bool, string) {
    if a.readStateSource == MSF && b.readStateSource == MSF then (a.localRead && b.localRead, MSF)
    else if a.readStateSource == MSF then (a.localRead, MSF)
    else if b.readStateSource == MSF then (b.localRead, MSF)
    else (a.localRead && b.localRead, a.readStateSource)
  }

  /** `_merge_messages`. */
  function Merge(existing: MailMessage, new': MailMessage): MailMessage {
    var bodySource := if existing.body != "" then existing else new';
    var (read, source) := MergeRead(existing, new');
    MailMessage(
      existing.id,
      bodySource.subject,
      bodySource.body,
      if existing.sender != "" then existing.sender else new'.sender,
      if existing.recipients != [] then existing.recipients else new'.recipients,
      OrText(existing.date, new'.date),
      OrText(existing.sourceFolder, new'.sourceFolder),
      Dedup(existing.signalFolders + new'.signalFolders),
      if existing.metadata.Some? then existing.metadata else new'.metadata,
      bodySource.mboxPath,
      read,
      source)
  }

  lemma {:induction false} DedupLeft(a: seq<string>, b: seq<string>)
    ensures Dedup(Dedup(a) + b) == Dedup(a + b)
  {
    if b == [] {
      assert a + b == a && Dedup(a) + b == Dedup(a);
      DedupTwice(a);
    } else {
      var n := |b| - 1;
      DedupLeft(a, b[..n]);
      assert (Dedup(a) + b)[..|Dedup(a) + b| - 1] == Dedup(a) + b[..n];
      assert (a + b)[..|a + b| - 1] == a + b[..n];
    }
  }

  lemma {:induction false} DedupDistinct(a: seq<string>)
    ensures NoRepeats(Dedup(a))
  {
    if a != [] {
      DedupDistinct(a[..|a| - 1]);
    }
  }

  lemma {:induction false} DistinctUnchanged(a: seq<string>)
    requires NoRepeats(a)
    ensures Dedup(a) == a
  {
    if a != [] {
      var n := |a| - 1;
      DistinctUnchanged(a[..n]);
      assert a[n] !in a[..n];
      assert a == a[..n] + [a[n]];
    }
  }

  lemma DedupTwice(a: seq<string>)
    ensures Dedup(Dedup(a)) == Dedup(a)
  {
    DedupDistinct(a);
    DistinctUnchanged(Dedup(a));
  }

  lemma {:induction false} DedupRight(a: seq<string>, b: seq<string>)
    ensures Dedup(a + Dedup(b)) == Dedup(a + b)
  {
    if b != [] {
      var n := |b| - 1;
      DedupRight(a, b[..n]);
      assert (a + b)[..|a + b| - 1] == a + b[..n];
      if b[n] !in b[..n] {
        assert Dedup(b) == Dedup(b[..n]) + [b[n]];
        assert (a + Dedup(b))[..|a + Dedup(b)| - 1] == a + Dedup(b[..n]);
      } else {
        assert Dedup(b) == Dedup(b[..n]);
      }
    }
  }

  lemma SignalsAssociative(a: seq<string>, b: seq<string>, c: seq<string>)
    ensures Dedup(Dedup(a + b) + c) == Dedup(a + Dedup(b + c))
  {
    hide Dedup;
    DedupLeft(a + b, c);
    DedupRight(a, b + c);
    assert a + b + c == a + (b + c);
  }

  /** Merging is associative. */
  lemma MergeAssociative(a: MailMessage, b: MailMessage, c: MailMessage)
    ensures Merge(Merge(a, b), c) == Merge(a, Merge(b, c))
  {
    hide Dedup;
    SignalsAssociative(a.signalFolders, b.signalFolders, c.signalFolders);
  }

  // ---------------------------------------------------------------------- fold

  function Fold(copies: seq<MailMessage>): MailMessage
    requires copies != []
  {
    if |copies| == 1 then copies[0] else Merge(Fold(copies[..|copies| - 1]), copies[|copies| - 1])
  }

  /** Groups of folders can be merged separately and the results merged afterwards. */
  lemma {:induction false} FoldSplits(a: seq<MailMessage>, b: seq<MailMessage>)
    requires a != [] && b != []
    ensures Fold(a + b) == Merge(Fold(a), Fold(b))
  {
    hide Merge;
    var n := |b| - 1;
    assert (a + b)[..|a + b| - 1] == a + b[..n];
    if n == 0 {
      assert a + b[..n] == a;
    } else {
      FoldSplits(a, b[..n]);
      MergeAssociative(Fold(a), Fold(b[..n]), b[n]);
    }
  }

  ghost predicate HasMsf(copies: seq<MailMessage>) {
    exists c :: c in copies && c.readStateSource == MSF
  }

  /** Conjunction over the summary-file copies if there are any, else over all copies. */
  ghost predicate AllRead(copies: seq<MailMessage>) {
    forall c :: c in copies && (HasMsf(copies) ==> c.readStateSource == MSF) ==> c.localRead
  }

  lemma {:induction false} FoldRead(copies: seq<MailMessage>)
    requires copies != []
    ensures (Fold(copies).readStateSource == MSF) <==> HasMsf(copies)
    ensures Fold(copies).localRead <==> AllRead(copies)
  {
    hide Dedup, OrText;
    var n := |copies| - 1;
    var last := copies[n];
    assert copies == copies[..n] + [last];
    if n == 0 {
      assert copies[0] in copies;
    } else {
      FoldRead(copies[..n]);
      assert last in copies;
      assert forall c :: c in copies <==> c in copies[..n] || c == last;
      assert HasMsf(copies) <==> HasMsf(copies[..n]) || last.readStateSource == MSF;
      ReadGrows(copies[..n], last);
    }
  }

  lemma ReadGrows(front: seq<MailMessage>, last: MailMessage)
    ensures AllRead(front + [last]) <==>
            if HasMsf(front) && last.readStateSource == MSF then AllRead(front) && last.localRead
            else if HasMsf(front) then AllRead(front)
            else if last.readStateSource == MSF then last.localRead
            else AllRead(front) && last.localRead
  {
    var all := front + [last];
    assert forall c :: c in all <==> c in front || c == last;
    assert last in all;
    assert HasMsf(all) <==> HasMsf(front) || last.readStateSource == MSF;
  }

  /** The read state does not depend on the order in which folders are read. */
  lemma ReadIgnoresOrder(copies: seq<MailMessage>, others: seq<MailMessage>)
    requires copies != [] && multiset(copies) == multiset(others)
    ensures others != []
    ensures Fold(copies).localRead == Fold(others).localRead
    ensures (Fold(copies).readStateSource == MSF) == (Fold(others).readStateSource == MSF)
  {
    assert copies[0] in multiset(copies);
    FoldRead(copies);
    FoldRead(others);
    forall c
      ensures c in copies <==> c in others
    {
      assert c in copies <==> c in multiset(copies);
      assert c in others <==> c in multiset(others);
    }
  }

  /** Subject, body and mailbox path come from one copy: the first with a body, else the last. */
  lemma {:induction false} FoldBody(copies: seq<MailMessage>) returns (k: nat)
    requires copies != []
    ensures k < |copies|
    ensures Fold(copies).subject == copies[k].subject && Fold(copies).body == copies[k].body
         && Fold(copies).mboxPath == copies[k].mboxPath
    ensures forall j :: 0 <= j < k ==> copies[j].body == ""
    ensures copies[k].body != "" || k == |copies| - 1
  {
    hide Dedup, OrText, MergeRead;
    var n := |copies| - 1;
    if n == 0 {
      k := 0;
    } else {
      k := FoldBody(copies[..n]);
      if copies[k].body == "" {
        k := n;
      }
    }
  }

  lemma {:induction false} FoldId(copies: seq<MailMessage>)
    requires copies != []
    ensures Fold(copies).id == copies[0].id
  {
    hide Dedup, OrText, MergeRead;
    if |copies| > 1 {
      FoldId(copies[..|copies| - 1]);
    }
  }
}
