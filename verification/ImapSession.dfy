/**
 * The IMAP session behind a Trash move: `_ImapTrashSession`,
 * `_search_message_uids` and `_locate_message_uids` in
 * examples/mail_assistant/imap_trash.py.  The server answers every command as
 * it likes; its mailboxes change only through MOVE.
 */
module ImapSession {
  import opened Common
  import opened ImapText

  datatype Account = Account(host: string, username: string, passwordEnv: string, trashFolder: string, port: int)

  datatype Message = Message(headerId: string, subject: string, folderUri: Option<string>, path: string)

  datatype TrashError =
    | NoUniqueAccount | NoSourceFolder | AlreadyInTrash | BadText(text: TextError)
    | PasswordUnset(name: string) | LoginFailed | CapabilityFailed | NoMove
    | SelectFailed | SearchFailed | ListFailed | NotOneAllMail(count: nat) | SelectAllFailed
    | NotFound | UnexpectedCount(count: nat) | MoveFailed | Exception(detail: string)

  datatype Candidate = Candidate(message: Message, account: Account, folder: string, id: string)

  // ------------------------------------------------------------------- the server

  /** A message in a mailbox of the server. */
  datatype Slot = Slot(account: Account, folder: string, uid: nat)

  datatype Command =
    | Connect(account: Account) | Login(name: string) | Capability
    | SelectFolder(folder: string, readonly: bool) | Search(key: string) | List | Move(uid: nat, target: string)

  /** `status == "OK"`, another status, or an exception while waiting for the reply. */
  datatype Status = Accepted | Refused | Raised(detail: string)

  /** `applied` says whether a MOVE whose reply was lost took effect. */
  datatype Reply = Reply(status: Status, uids: seq<nat>, words: seq<string>, applied: bool)

  datatype MoveRecord = MoveRecord(candidate: Candidate, folder: string, uids: seq<nat>, target: string, accepted: bool)

  datatype World = World(box: map<Slot, string>, nextUid: nat, step: nat, moves: seq<MoveRecord>)

  /** What the session cannot see into: replies, passwords, account lookup, `casefold` and `strip`. */
  datatype Env = Env(
    script: (nat, Command) -> Reply,
    hasPassword: Account -> bool,
    accountFor: Message -> Result<(Account, string), TrashError>,
    fold: string -> string,
    strip: string -> string)

  ghost predicate ValidWorld(w: World) {
    forall s :: s in w.box ==> s.uid < w.nextUid
  }

  /** Nothing but the number of commands differs. */
  predicate SameMail(w: World, w': World) {
    w'.box == w.box && w'.nextUid == w.nextUid && w'.moves == w.moves && w.step <= w'.step
  }

  datatype Ran<+T> = Ran(world: World, result: Result<T, TrashError>)

  /** A command other than MOVE. */
  function Ask(env: Env, w: World, command: Command, refusal: TrashError): (r: Ran<Reply>)
    ensures SameMail(w, r.world)
    ensures r.result.Ok? ==> r.result.value.status.Accepted?
  {
    var reply := env.script(w.step, command);
    Ran(w.(step := w.step + 1),
        match reply.status
        case Accepted => Ok(reply)
        case Refused => Err(refusal)
        case Raised(detail) => Err(Exception(detail)))
  }

  // ------------------------------------------------------------------ the session

  /** `__enter__`: whether the server has Gmail's search extension, or why there is no session. */
  function Enter(env: Env, w: World, a: Account): (r: Ran<bool>)
    ensures SameMail(w, r.world)
  {
    if !env.hasPassword(a) then Ran(w, Err(PasswordUnset(a.passwordEnv)))
    else
      var connect := Ask(env, w, Connect(a), Exception("connection refused"));
      if connect.result.Err? then Ran(connect.world, Err(connect.result.error))
      else
        var login := Ask(env, connect.world, Login(a.username), LoginFailed);
        if login.result.Err? then Ran(login.world, Err(login.result.error))
        else
          var capability := Ask(env, login.world, Capability, CapabilityFailed);
          if capability.result.Err? then Ran(capability.world, Err(capability.result.error))
          else if "MOVE" !in capability.result.value.words then Ran(capability.world, Err(NoMove))
          else Ran(capability.world, Ok("X-GM-EXT-1" in capability.result.value.words))
  }

  /** The search arguments in the order of `_search_message_uids`. */
  function SearchKeys(id: string, gmail: bool): seq<string> {
    (if gmail then ["X-GM-RAW rfc822msgid:" + id, "X-GM-RAW rfc822msgid:<" + id + ">"] else [])
    + ["HEADER Message-ID <" + id + ">", "HEADER Message-ID " + id]
  }

  /** The first non-empty answer, in order. */
  function SearchUids(env: Env, w: World, keys: seq<string>): (r: Ran<seq<nat>>)
    ensures SameMail(w, r.world)
    decreases |keys|
  {
    if keys == [] then Ran(w, Ok([]))
    else
      var found := Ask(env, w, Search(keys[0]), SearchFailed);
      if found.result.Err? then Ran(found.world, Err(found.result.error))
      else if found.result.value.uids != [] then Ran(found.world, Ok(found.result.value.uids))
      else SearchUids(env, found.world, keys[1..])
  }

  /** Selecting a folder and searching it. */
  function SearchIn(env: Env, w: World, folder: string, id: string, gmail: bool, readonly: bool, refusal: TrashError): (r: Ran<seq<nat>>)
    ensures SameMail(w, r.world)
  {
    var selected := Ask(env, w, SelectFolder(folder, readonly), refusal);
    if selected.result.Err? then Ran(selected.world, Err(selected.result.error))
    else SearchUids(env, selected.world, SearchKeys(id, gmail))
  }

  /** `_locate_message_uids`: the message's folder, then Gmail's All Mail. */
  function Locate(env: Env, w: World, folder: string, id: string, gmail: bool, readonly: bool): (r: Ran<(string, seq<nat>)>)
    ensures SameMail(w, r.world)
  {
    var first := SearchIn(env, w, folder, id, gmail, readonly, SelectFailed);
    if first.result.Err? then Ran(first.world, Err(first.result.error))
    else if first.result.value != [] || !gmail then Ran(first.world, Ok((folder, first.result.value)))
    else
      var listed := Ask(env, first.world, List, ListFailed);
      if listed.result.Err? then Ran(listed.world, Err(listed.result.error))
      else if |listed.result.value.words| != 1 then Ran(listed.world, Err(NotOneAllMail(|listed.result.value.words|)))
      else
        var all := listed.result.value.words[0];
        var second := SearchIn(env, listed.world, all, id, true, readonly, SelectAllFailed);
        if second.result.Err? then Ran(second.world, Err(second.result.error))
        else Ran(second.world, Ok((all, second.result.value)))
  }

  /** `_uids`: the selected folder and exactly one match. */
  function UniqueMatch(env: Env, w: World, c: Candidate, gmail: bool, readonly: bool): (r: Ran<(string, seq<nat>)>)
    ensures SameMail(w, r.world)
    ensures r.result.Ok? ==> |r.result.value.1| == 1
  {
    var located := Locate(env, w, c.folder, c.id, gmail, readonly);
    if located.result.Err? then located
    else
      var n := |located.result.value.1|;
      if n == 1 then located
      else Ran(located.world, Err(if n == 0 then NotFound else UnexpectedCount(n)))
  }

  /** UID MOVE on the server (section 3.2 of RFC 6851): a missing UID is no error. */
  function Rehouse(w: World, a: Account, folder: string, uid: nat, target: string): World {
    var slot := Slot(a, folder, uid);
    if slot in w.box then
      w.(box := (w.box - {slot})[Slot(a, target, w.nextUid) := w.box[slot]], nextUid := w.nextUid + 1)
    else w
  }

  /** `move`; None is success. */
  function MoveOne(env: Env, w: World, c: Candidate, gmail: bool): (World, Option<TrashError>) {
    var unique := UniqueMatch(env, w, c, gmail, false);
    if unique.result.Err? then (unique.world, Some(unique.result.error))
    else
      var (folder, uids) := unique.result.value;
      var reply := env.script(unique.world.step, Move(uids[0], c.account.trashFolder));
      var record := MoveRecord(c, folder, uids, c.account.trashFolder, reply.status.Accepted?);
      var sent := unique.world.(step := unique.world.step + 1, moves := unique.world.moves + [record]);
      var after := if reply.status.Accepted? || (reply.status.Raised? && reply.applied)
                   then Rehouse(sent, c.account, folder, uids[0], c.account.trashFolder) else sent;
      (after, match reply.status
              case Accepted => None
              case Refused => Some(MoveFailed)
              case Raised(detail) => Some(Exception(detail)))
  }

  // --------------------------------------------------------------- candidates

  /** `_move_candidate` with `validate_move_candidate`. */
  function MoveCandidate(env: Env, m: Message): Result<Candidate, TrashError> {
    var found := env.accountFor(m);
    if found.Err? then Err(found.error)
    else
      var (account, folder) := found.value;
      if folder == "" then Err(NoSourceFolder)
      else if env.fold(folder) == env.fold(account.trashFolder) then Err(AlreadyInTrash)
      else
        var id := ValidatedId(env.strip, m.headerId);
        if id.Err? then Err(BadText(id.error))
        else if !OneLine(folder) || !OneLine(account.trashFolder) then Err(BadText(LineBreakInMailbox))
        else Ok(Candidate(m, account, folder, id.value))
  }

  /** Every accepted candidate can be sent: its texts are quotable and its folder is not the Trash. */
  lemma CandidateIsSafe(env: Env, m: Message)
    requires MoveCandidate(env, m).Ok?
    ensures var c := MoveCandidate(env, m).value;
            && c.message == m
            && Quoted(c.folder).Ok? && Quoted(c.account.trashFolder).Ok? && Quoted(c.id).Ok?
            && c.folder != c.account.trashFolder
  {
    var c := MoveCandidate(env, m).value;
    hide Quoted, ValidatedId, OneLine;
    ValidatedIdIsPlain(env.strip, m.headerId);
    QuotedRoundTrip(c.folder, "");
    QuotedRoundTrip(c.account.trashFolder, "");
  }

  /**
   * A message is accepted exactly when it belongs to an account, its folder is named
   * and is not the Trash whatever the case, its Message-ID is valid and neither
   * mailbox name has a line break; then the candidate names just these.
   */
  lemma CandidateMeans(env: Env, m: Message, c: Candidate)
    ensures MoveCandidate(env, m) == Ok(c) <==>
              && c.message == m && env.accountFor(m) == Ok((c.account, c.folder))
              && c.folder != "" && env.fold(c.folder) != env.fold(c.account.trashFolder)
              && ValidatedId(env.strip, m.headerId) == Ok(c.id)
              && OneLine(c.folder) && OneLine(c.account.trashFolder)
  {
    hide ValidatedId, OneLine;
    var found := env.accountFor(m);
    if found.Ok? {
      var (account, folder) := found.value;
      assert found == Ok((account, folder));
    }
  }

  // ------------------------------------------------------------- one move, in short

  /** A move command that the program may send. */
  predicate RightMove(r: MoveRecord) {
    |r.uids| == 1 && r.target == r.candidate.account.trashFolder
  }

  function SlotOf(r: MoveRecord): Slot
    requires RightMove(r)
  {
    Slot(r.candidate.account, r.folder, r.uids[0])
  }

  /** The messages that an account holds with one content. */
  function Holding(box: map<Slot, string>, a: Account, content: string): set<Slot> {
    set s | s in box && s.account == a && box[s] == content
  }

  /** Every account still holds each message as often as before. */
  ghost predicate Conserved(box: map<Slot, string>, box': map<Slot, string>) {
    forall a, content :: |Holding(box', a, content)| == |Holding(box, a, content)|
  }

  /** Messages leave only the slots named by the new move commands, and arrive only in the Trash of their account. */
  ghost predicate Accounted(w: World, w': World) {
    && w.moves <= w'.moves && w.nextUid <= w'.nextUid
    && (forall s :: s in w.box && s !in w'.box ==> exists r :: r in w'.moves[|w.moves|..] && RightMove(r) && SlotOf(r) == s)
    && (forall s :: s in w.box && s in w'.box ==> w'.box[s] == w.box[s])
    && (forall s :: s in w'.box && s !in w.box ==> s.folder == s.account.trashFolder && s.uid >= w.nextUid)
  }

  lemma HoldingSwap(box: map<Slot, string>, old': Slot, new': Slot, a: Account, content: string)
    requires old' in box && new' !in box && old'.account == new'.account
    ensures |Holding((box - {old'})[new' := box[old']], a, content)| == |Holding(box, a, content)|
  {
    var after := (box - {old'})[new' := box[old']];
    var before, now := Holding(box, a, content), Holding(after, a, content);
    if old'.account == a && box[old'] == content {
      assert now == (before - {old'}) + {new'};
      assert new' !in before - {old'} && old' in before;
    } else {
      assert now == before;
    }
  }

  lemma RehouseConserves(w: World, a: Account, folder: string, uid: nat, target: string)
    requires ValidWorld(w)
    ensures var after := Rehouse(w, a, folder, uid, target);
            ValidWorld(after) && Conserved(w.box, after.box) && after.moves == w.moves
  {
    hide Holding;
    var slot, arrival := Slot(a, folder, uid), Slot(a, target, w.nextUid);
    if slot in w.box {
      forall b, content
        ensures |Holding(Rehouse(w, a, folder, uid, target).box, b, content)| == |Holding(w.box, b, content)|
      {
        HoldingSwap(w.box, slot, arrival, b, content);
      }
    }
  }

  /** The effect of one move: at most one command, which is right, and the message counts stay. */
  lemma MoveOneFacts(env: Env, w: World, c: Candidate, gmail: bool)
    requires ValidWorld(w)
    ensures var (w', error) := MoveOne(env, w, c, gmail);
            && ValidWorld(w') && Conserved(w.box, w'.box)
            && (w'.moves == w.moves ==> error.Some?)
            && (w'.moves != w.moves ==>
                exists r :: w'.moves == w.moves + [r] && r.candidate == c && RightMove(r) && (r.accepted <==> error.None?))
  {
    hide UniqueMatch, Rehouse, Conserved, ValidWorld;
    var unique := UniqueMatch(env, w, c, gmail, false);
    SameMailIsValid(w, unique.world);
    if unique.result.Ok? {
      var (folder, uids) := unique.result.value;
      var reply := env.script(unique.world.step, Move(uids[0], c.account.trashFolder));
      var record := MoveRecord(c, folder, uids, c.account.trashFolder, reply.status.Accepted?);
      var sent := unique.world.(step := unique.world.step + 1, moves := unique.world.moves + [record]);
      SameBoxIsValid(w, sent);
      RehouseConserves(sent, c.account, folder, uids[0], c.account.trashFolder);
      assert MoveOne(env, w, c, gmail).0.moves == w.moves + [record];
    }
  }

  lemma SameBoxIsValid(w: World, w': World)
    requires w.box == w'.box && w.nextUid == w'.nextUid && ValidWorld(w)
    ensures ValidWorld(w') && Conserved(w.box, w'.box)
  {
  }

  lemma SameMailIsValid(w: World, w': World)
    requires SameMail(w, w') && ValidWorld(w)
    ensures ValidWorld(w') && Conserved(w.box, w'.box)
  {
  }

  lemma MoveOneAccounted(env: Env, w: World, c: Candidate, gmail: bool)
    requires ValidWorld(w)
    ensures Accounted(w, MoveOne(env, w, c, gmail).0)
  {
    hide UniqueMatch;
    var unique := UniqueMatch(env, w, c, gmail, false);
    var after := MoveOne(env, w, c, gmail).0;
    if unique.result.Ok? {
      var (folder, uids) := unique.result.value;
      var reply := env.script(unique.world.step, Move(uids[0], c.account.trashFolder));
      var record := MoveRecord(c, folder, uids, c.account.trashFolder, reply.status.Accepted?);
      assert after.moves == w.moves + [record];
      assert after.moves[|w.moves|..] == [record];
      assert record in after.moves[|w.moves|..] && RightMove(record);
      assert SlotOf(record) == Slot(c.account, folder, uids[0]);
    }
  }

  lemma ConservedTrans(a: map<Slot, string>, b: map<Slot, string>, c: map<Slot, string>)
    requires Conserved(a, b) && Conserved(b, c)
    ensures Conserved(a, c)
  {
    hide Holding;
  }

  lemma AccountedSame(w: World, w': World)
    requires SameMail(w, w')
    ensures Accounted(w, w')
  {
  }

  lemma MovesSplit(w: World, w': World, w'': World)
    requires w.moves <= w'.moves <= w''.moves
    ensures w''.moves[|w.moves|..] == w'.moves[|w.moves|..] + w''.moves[|w'.moves|..]
  {
  }

  lemma AccountedTrans(w: World, w': World, w'': World)
    requires Accounted(w, w') && Accounted(w', w'') && ValidWorld(w)
    ensures Accounted(w, w'')
  {
    hide RightMove, SlotOf;
    MovesSplit(w, w', w'');
    forall s | s in w.box && s !in w''.box
      ensures exists r :: r in w''.moves[|w.moves|..] && RightMove(r) && SlotOf(r) == s
    {
      if s in w'.box {
        var r :| r in w''.moves[|w'.moves|..] && RightMove(r) && SlotOf(r) == s;
        assert r in w''.moves[|w.moves|..];
      } else {
        var r :| r in w'.moves[|w.moves|..] && RightMove(r) && SlotOf(r) == s;
        assert r in w''.moves[|w.moves|..];
      }
    }
  }
}
