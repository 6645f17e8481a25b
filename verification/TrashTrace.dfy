module TrashTrace {
  // The commands behind every UID MOVE of a Trash batch and behind every preflight
  // (examples/mail_assistant/imap_trash.py:282-531), read off the server's
  // replies: a session whose server announced MOVE, a folder in which a search for
  // the Message-ID was answered, and the MOVE right after it.

  import opened Common
  import opened ImapSession
  import opened TrashBatch
  import opened TrashResults
  import opened TrashWorkflow

  // ------------------------------------------------------------------- commands

  ghost predicate OkAt(env: Env, n: nat, command: Command) {
    env.script(n, command).status.Accepted?
  }

  /** From step `n` on the server was connected, took the login and answered CAPABILITY with MOVE. */
  ghost predicate SessionAt(env: Env, a: Account, n: nat, gmail: bool) {
    && env.hasPassword(a)
    && OkAt(env, n, Connect(a)) && OkAt(env, n + 1, Login(a.username)) && OkAt(env, n + 2, Capability)
    && "MOVE" in env.script(n + 2, Capability).words
    && (gmail <==> "X-GM-EXT-1" in env.script(n + 2, Capability).words)
  }

  /** A session opens exactly when all of this holds; without MOVE it never does. */
  lemma EnterMeans(env: Env, w: World, a: Account, gmail: bool)
    ensures Enter(env, w, a).result == Ok(gmail) <==> SessionAt(env, a, w.step, gmail)
    ensures Enter(env, w, a).result.Ok? ==> Enter(env, w, a).world.step == w.step + 3
    ensures "MOVE" !in env.script(w.step + 2, Capability).words ==> Enter(env, w, a).result.Err?
  {
  }

  /** From step `n` on the first `t` keys were searched for in vain, and the next one, if any, gave the UIDs. */
  ghost predicate Answers(env: Env, keys: seq<string>, n: nat, t: nat, uids: seq<nat>, end: nat) {
    && t <= |keys|
    && (forall j :: 0 <= j < t ==> OkAt(env, n + j, Search(keys[j])) && env.script(n + j, Search(keys[j])).uids == [])
    && if t == |keys| then uids == [] && end == n + t
       else OkAt(env, n + t, Search(keys[t])) && env.script(n + t, Search(keys[t])).uids == uids != [] && end == n + t + 1
  }

  ghost predicate AnsweredFrom(env: Env, keys: seq<string>, n: nat, uids: seq<nat>, end: nat) {
    exists t: nat :: Answers(env, keys, n, t, uids, end)
  }

  lemma {:induction false} SearchMeans(env: Env, w: World, keys: seq<string>) returns (t: nat)
    requires SearchUids(env, w, keys).result.Ok?
    ensures Answers(env, keys, w.step, t, SearchUids(env, w, keys).result.value, SearchUids(env, w, keys).world.step)
    decreases |keys|
  {
    t := 0;
    if keys != [] {
      var found := Ask(env, w, Search(keys[0]), SearchFailed);
      if found.result.value.uids == [] {
        hide Answers;
        var rest := SearchMeans(env, found.world, keys[1..]);
        t := rest + 1;
        AnswersLater(env, keys, w.step, rest, SearchUids(env, w, keys).result.value, SearchUids(env, w, keys).world.step);
      }
    }
  }

  lemma AnswersLater(env: Env, keys: seq<string>, n: nat, t: nat, uids: seq<nat>, end: nat)
    requires keys != [] && OkAt(env, n, Search(keys[0])) && env.script(n, Search(keys[0])).uids == []
    requires Answers(env, keys[1..], n + 1, t, uids, end)
    ensures Answers(env, keys, n, t + 1, uids, end)
  {
    var rest := keys[1..];
    assert t < |rest| ==> rest[t] == keys[t + 1] && n + 1 + t == n + (t + 1);
    hide OkAt;
    forall j | 0 <= j < t + 1
      ensures OkAt(env, n + j, Search(keys[j])) && env.script(n + j, Search(keys[j])).uids == []
    {
      if j > 0 {
        assert rest[j - 1] == keys[j] && n + 1 + (j - 1) == n + j;
        assert OkAt(env, n + 1 + (j - 1), Search(rest[j - 1]));
      }
    }
  }

  /** The keys ask for the Message-ID, in Gmail's own form only where the server has that extension. */
  lemma KeysMean(id: string, gmail: bool, key: string)
    ensures key in SearchKeys(id, gmail) <==>
              || key == "HEADER Message-ID <" + id + ">" || key == "HEADER Message-ID " + id
              || (gmail && (key == "X-GM-RAW rfc822msgid:" + id || key == "X-GM-RAW rfc822msgid:<" + id + ">"))
  {
  }

  /** At step `i` the folder was selected, and the searches in it gave the UIDs. */
  ghost predicate Searched(env: Env, folder: string, readonly: bool, keys: seq<string>, i: nat, uids: seq<nat>, end: nat) {
    OkAt(env, i, SelectFolder(folder, readonly)) && AnsweredFrom(env, keys, i + 1, uids, end)
  }

  lemma SearchInMeans(env: Env, w: World, folder: string, id: string, gmail: bool, readonly: bool, refusal: TrashError)
    requires SearchIn(env, w, folder, id, gmail, readonly, refusal).result.Ok?
    ensures var r := SearchIn(env, w, folder, id, gmail, readonly, refusal);
            Searched(env, folder, readonly, SearchKeys(id, gmail), w.step, r.result.value, r.world.step)
  {
    hide Answers;
    var selected := Ask(env, w, SelectFolder(folder, readonly), refusal);
    var t := SearchMeans(env, selected.world, SearchKeys(id, gmail));
  }

  /** The server named `all` as its only All Mail mailbox. */
  ghost predicate AllMailAt(env: Env, n: nat, all: string) {
    OkAt(env, n, List) && env.script(n, List).words == [all]
  }

  /** After nothing was found in the message's own folder, the mailbox named as All Mail was searched. */
  ghost predicate FellBack(env: Env, home: string, id: string, readonly: bool, i: nat, m: nat, folder: string, uids: seq<nat>, end: nat) {
    && Searched(env, home, readonly, SearchKeys(id, true), i, [], m)
    && AllMailAt(env, m, folder)
    && Searched(env, folder, readonly, SearchKeys(id, true), m + 1, uids, end)
  }

  /** The UIDs were found in the message's own folder, or on Gmail in All Mail after that. */
  ghost predicate LocatedAt(env: Env, home: string, id: string, gmail: bool, readonly: bool, i: nat, folder: string, uids: seq<nat>, end: nat) {
    || (folder == home && (uids != [] || !gmail) && Searched(env, folder, readonly, SearchKeys(id, gmail), i, uids, end))
    || (gmail && exists m: nat :: FellBack(env, home, id, readonly, i, m, folder, uids, end))
  }

  lemma LocateMeans(env: Env, w: World, home: string, id: string, gmail: bool, readonly: bool)
    requires Locate(env, w, home, id, gmail, readonly).result.Ok?
    ensures var r := Locate(env, w, home, id, gmail, readonly);
            LocatedAt(env, home, id, gmail, readonly, w.step, r.result.value.0, r.result.value.1, r.world.step)
  {
    hide Searched, SearchIn, SearchKeys;
    var first := SearchIn(env, w, home, id, gmail, readonly, SelectFailed);
    SearchInMeans(env, w, home, id, gmail, readonly, SelectFailed);
    if first.result.value == [] && gmail {
      var listed := Ask(env, first.world, List, ListFailed);
      var all := listed.result.value.words[0];
      assert listed.result.value.words == [all];
      SearchInMeans(env, listed.world, all, id, true, readonly, SelectAllFailed);
      var r := Locate(env, w, home, id, gmail, readonly);
      assert FellBack(env, home, id, readonly, w.step, first.world.step, all, r.result.value.1, r.world.step);
    }
  }

  // ------------------------------------------------------------ behind every move

  /**
   * The move at step `k`: in a session opened at step `n` a search begun at step
   * `i` found exactly one UID, and that one was moved to the account's Trash.
   */
  ghost predicate MovedAt(env: Env, r: MoveRecord, n: nat, i: nat, k: nat, gmail: bool) {
    && n + 3 <= i && SessionAt(env, r.candidate.account, n, gmail)
    && LocatedAt(env, r.candidate.folder, r.candidate.id, gmail, false, i, r.folder, r.uids, k)
    && |r.uids| == 1 && r.target == r.candidate.account.trashFolder
    && (r.accepted <==> OkAt(env, k, Move(r.uids[0], r.target)))
  }

  /** Between two moments all this happened for the move. */
  ghost predicate Proper(env: Env, from: nat, to: nat, r: MoveRecord) {
    exists n: nat, i: nat, k: nat, gmail: bool :: from <= n && k < to && MovedAt(env, r, n, i, k, gmail)
  }

  ghost predicate Traced(env: Env, from: nat, w: World, w': World) {
    && w.moves <= w'.moves && w.step <= w'.step
    && forall r :: r in NewMoves(w, w') ==> Proper(env, from, w'.step, r)
  }

  lemma ProperLonger(env: Env, from: nat, to: nat, to': nat, r: MoveRecord)
    requires Proper(env, from, to, r) && to <= to'
    ensures Proper(env, from, to', r)
  {
    hide MovedAt;
  }

  lemma TracedTrans(env: Env, from: nat, w: World, w': World, w'': World)
    requires Traced(env, from, w, w') && Traced(env, from, w', w'')
    ensures Traced(env, from, w, w'')
  {
    hide Proper;
    MovesSplit(w, w', w'');
    forall r | r in NewMoves(w, w'')
      ensures Proper(env, from, w''.step, r)
    {
      if r in NewMoves(w, w') {
        ProperLonger(env, from, w'.step, w''.step, r);
      }
    }
  }

  lemma EarlierStart(env: Env, from: nat, from': nat, w: World, w': World)
    requires Traced(env, from', w, w') && from <= from'
    ensures Traced(env, from, w, w')
  {
    hide MovedAt;
    forall r | r in NewMoves(w, w')
      ensures Proper(env, from, w'.step, r)
    {
      assert Proper(env, from', w'.step, r);
    }
  }

  lemma QuietTraced(env: Env, from: nat, w: World, w': World)
    requires SameMail(w, w')
    ensures Traced(env, from, w, w')
  {
    assert NewMoves(w, w') == [];
  }

  lemma OneTraced(env: Env, n: nat, w: World, c: Candidate, gmail: bool)
    requires SessionAt(env, c.account, n, gmail) && n + 3 <= w.step
    ensures Traced(env, n, w, MoveOne(env, w, c, gmail).0)
  {
    hide SessionAt, Locate, LocatedAt;
    var unique := UniqueMatch(env, w, c, gmail, false);
    var after := MoveOne(env, w, c, gmail).0;
    if unique.result.Err? {
      QuietTraced(env, n, w, after);
    } else {
      LocateMeans(env, w, c.folder, c.id, gmail, false);
      var k := unique.world.step;
      var r := after.moves[|w.moves|];
      assert after.moves == w.moves + [r] && NewMoves(w, after) == [r];
      assert MovedAt(env, r, n, w.step, k, gmail);
      assert k < after.step;
    }
  }

  lemma {:induction false} CandidatesTraced(env: Env, n: nat, w: World, candidates: seq<Candidate>, gmail: bool, a: Account)
    requires SessionAt(env, a, n, gmail) && n + 3 <= w.step
    requires forall c :: c in candidates ==> c.account == a
    ensures Traced(env, n, w, MoveCandidates(env, w, candidates, gmail).world)
  {
    hide SessionAt, MoveOne, Proper;
    if candidates == [] {
      QuietTraced(env, n, w, w);
    } else {
      var last := |candidates| - 1;
      CandidatesTraced(env, n, w, candidates[..last], gmail, a);
      var front := MoveCandidates(env, w, candidates[..last], gmail).world;
      OneTraced(env, n, front, candidates[last], gmail);
      TracedTrans(env, n, w, front, MoveOne(env, front, candidates[last], gmail).0);
    }
  }

  lemma GroupTraced(env: Env, w: World, g: Group)
    requires RightGroup(env, g)
    ensures Traced(env, w.step, w, MoveGroup(env, w, g).world)
  {
    hide Enter, MoveCandidates, Traced, SessionAt, MoveCandidate;
    var session := Enter(env, w, g.account);
    QuietTraced(env, w.step, w, session.world);
    if session.result.Ok? {
      EnterMeans(env, w, g.account, session.result.value);
      CandidatesTraced(env, w.step, session.world, g.candidates, session.result.value, g.account);
      TracedTrans(env, w.step, w, session.world, MoveGroup(env, w, g).world);
    }
  }

  lemma {:induction false} GroupsTraced(env: Env, w: World, groups: seq<Group>)
    requires WellGrouped(env, groups)
    ensures Traced(env, w.step, w, MoveGroups(env, w, groups).world)
  {
    hide MoveGroup, Proper, RightGroup;
    if groups == [] {
      QuietTraced(env, w.step, w, w);
    } else {
      var n := |groups| - 1;
      GroupsTraced(env, w, groups[..n]);
      var front := MoveGroups(env, w, groups[..n]).world;
      GroupTraced(env, front, groups[n]);
      EarlierStart(env, w.step, front.step, front, MoveGroup(env, front, groups[n]).world);
      TracedTrans(env, w.step, w, front, MoveGroup(env, front, groups[n]).world);
    }
  }

  /** Every move command of a batch was sent as promised, within the batch. */
  lemma BatchIsTraced(env: Env, w: World, messages: seq<Message>)
    ensures Traced(env, w.step, w, MoveAll(env, w, messages).world)
  {
    hide MoveGroups, SortMessages, Traced, WellGrouped;
    SortedCover(env, messages);
    GroupsTraced(env, w, SortMessages(env, messages).groups);
  }

  /** A move command is only ever sent in a session whose server has announced MOVE during the batch. */
  lemma MoveNeedsCapability(env: Env, w: World, messages: seq<Message>, r: MoveRecord)
    requires var after := MoveAll(env, w, messages).world; w.moves <= after.moves && r in NewMoves(w, after)
    ensures exists n: nat, gmail: bool ::
              w.step <= n < MoveAll(env, w, messages).world.step && SessionAt(env, r.candidate.account, n, gmail)
    ensures exists n: nat ::
              w.step <= n < MoveAll(env, w, messages).world.step && "MOVE" in env.script(n, Capability).words
  {
    hide MoveAll, LocatedAt;
    BatchIsTraced(env, w, messages);
    var after := MoveAll(env, w, messages).world;
    var n: nat, i: nat, k: nat, gmail: bool :| w.step <= n && k < after.step && MovedAt(env, r, n, i, k, gmail);
    LocatedLater(env, r.candidate.folder, r.candidate.id, gmail, false, i, r.folder, r.uids, k);
    assert "MOVE" in env.script(n + 2, Capability).words;
  }

  lemma LocatedLater(env: Env, home: string, id: string, gmail: bool, readonly: bool, i: nat, folder: string, uids: seq<nat>, end: nat)
    requires LocatedAt(env, home, id, gmail, readonly, i, folder, uids, end)
    ensures i < end
  {
    hide SearchKeys;
  }

  // --------------------------------------------------------------- preflights

  /** One match, none or several, as located; a search that found nothing is the only way to `NotFound`. */
  lemma UniqueMeans(env: Env, w: World, c: Candidate, gmail: bool, readonly: bool)
    ensures var r := UniqueMatch(env, w, c, gmail, readonly);
            && (r.result.Ok? ==>
                  && |r.result.value.1| == 1
                  && LocatedAt(env, c.folder, c.id, gmail, readonly, w.step, r.result.value.0, r.result.value.1, r.world.step))
            && (r.result == Err(NotFound) ==>
                  exists folder :: LocatedAt(env, c.folder, c.id, gmail, readonly, w.step, folder, [], r.world.step))
            && (r.result.Err? && r.result.error.UnexpectedCount? ==>
                  exists folder, uids: seq<nat> :: |uids| == r.result.error.count >= 2
                    && LocatedAt(env, c.folder, c.id, gmail, readonly, w.step, folder, uids, r.world.step))
  {
    hide LocatedAt, Locate;
    var located := Locate(env, w, c.folder, c.id, gmail, readonly);
    if located.result.Ok? {
      LocateMeans(env, w, c.folder, c.id, gmail, readonly);
    } else {
      LocateErrors(env, w, c.folder, c.id, gmail, readonly);
    }
  }

  lemma {:induction false} SearchErrors(env: Env, w: World, keys: seq<string>)
    requires SearchUids(env, w, keys).result.Err?
    ensures SearchUids(env, w, keys).result.error == SearchFailed || SearchUids(env, w, keys).result.error.Exception?
    decreases |keys|
  {
    if keys != [] {
      var found := Ask(env, w, Search(keys[0]), SearchFailed);
      if found.result.Ok? && found.result.value.uids == [] {
        SearchErrors(env, found.world, keys[1..]);
      }
    }
  }

  lemma SearchInErrors(env: Env, w: World, folder: string, id: string, gmail: bool, readonly: bool, refusal: TrashError)
    requires SearchIn(env, w, folder, id, gmail, readonly, refusal).result.Err?
    requires refusal == SelectFailed || refusal == SelectAllFailed
    ensures var e := SearchIn(env, w, folder, id, gmail, readonly, refusal).result.error; !e.NotFound? && !e.UnexpectedCount?
  {
    var selected := Ask(env, w, SelectFolder(folder, readonly), refusal);
    if selected.result.Ok? {
      SearchErrors(env, selected.world, SearchKeys(id, gmail));
    }
  }

  lemma LocateErrors(env: Env, w: World, home: string, id: string, gmail: bool, readonly: bool)
    requires Locate(env, w, home, id, gmail, readonly).result.Err?
    ensures var e := Locate(env, w, home, id, gmail, readonly).result.error; !e.NotFound? && !e.UnexpectedCount?
  {
    hide SearchIn;
    var first := SearchIn(env, w, home, id, gmail, readonly, SelectFailed);
    if first.result.Err? {
      SearchInErrors(env, w, home, id, gmail, readonly, SelectFailed);
    } else if first.result.value == [] && gmail {
      var listed := Ask(env, first.world, List, ListFailed);
      if listed.result.Ok? && |listed.result.value.words| == 1 {
        var all := listed.result.value.words[0];
        if SearchIn(env, listed.world, all, id, true, readonly, SelectAllFailed).result.Err? {
          SearchInErrors(env, listed.world, all, id, true, readonly, SelectAllFailed);
        }
      }
    }
  }

  /** In a read-only session opened at step `n` of the stretch the candidate's searches gave these UIDs. */
  ghost predicate Surveyed(env: Env, from: nat, to: nat, c: Candidate, n: nat, i: nat, gmail: bool, folder: string, uids: seq<nat>, end: nat) {
    && from <= n && n + 3 <= i && end <= to && SessionAt(env, c.account, n, gmail)
    && LocatedAt(env, c.folder, c.id, gmail, true, i, folder, uids, end)
  }

  /** What the preflight found is one UID that the server gave. */
  lemma FoundIsLocated(env: Env, w: World, w': World, m: Message)
    requires FoundIn(env, w, w', m)
    ensures exists n: nat, i: nat, gmail: bool, folder, uids: seq<nat>, end: nat ::
              |uids| == 1 && Surveyed(env, w.step, w'.step, MoveCandidate(env, m).value, n, i, gmail, folder, uids, end)
  {
    hide MoveCandidate, Enter, UniqueMatch, LocatedAt, SessionAt;
    var c := MoveCandidate(env, m).value;
    var before: World, v: World, gmail: bool :| SeenAt(env, w, before, v, w', c, gmail);
    EnterMeans(env, before, c.account, gmail);
    UniqueMeans(env, v, c, gmail, true);
    var found := UniqueMatch(env, v, c, gmail, true);
    assert Surveyed(env, w.step, w'.step, c, before.step, v.step, gmail, found.result.value.0, found.result.value.1, found.world.step);
  }

  /** What a proposal skips, the server did not have: the searches of its own preflight all came back empty. */
  lemma MissedIsAbsent(env: Env, w: World, w': World, m: Message)
    requires MissedIn(env, w, w', m) && env.accountFor(m) != Err(NotFound)
    ensures MoveCandidate(env, m).Ok?
    ensures exists n: nat, i: nat, gmail: bool, folder, end: nat ::
              Surveyed(env, w.step, w'.step, MoveCandidate(env, m).value, n, i, gmail, folder, [], end)
  {
    hide MoveCandidate, Enter, UniqueMatch, LocatedAt, SessionAt, Verify;
    var v: World :| MissedAt(env, w, v, w', m);
    PreflightOfOne(env, v, m);
    var c := MoveCandidate(env, m).value;
    var session := Enter(env, v, c.account);
    EnterErrors(env, v, c.account);
    var gmail := session.result.value;
    EnterMeans(env, v, c.account, gmail);
    UniqueMeans(env, session.world, c, gmail, true);
    var found := UniqueMatch(env, session.world, c, gmail, true);
    var folder :| LocatedAt(env, c.folder, c.id, gmail, true, session.world.step, folder, [], found.world.step);
    assert Surveyed(env, w.step, w'.step, c, v.step, session.world.step, gmail, folder, [], found.world.step);
  }

  /** The preflight of a single message, which ended in `NotFound`. */
  lemma PreflightOfOne(env: Env, v: World, m: Message)
    requires Verify(env, v, [m]).1 == Some(NotFound) && env.accountFor(m) != Err(NotFound)
    ensures MoveCandidate(env, m).Ok?
    ensures var session := Enter(env, v, MoveCandidate(env, m).value.account);
            && session.result.Ok?
            && var found := UniqueMatch(env, session.world, MoveCandidate(env, m).value, session.result.value, true);
               found.result == Err(NotFound) && Verify(env, v, [m]).0 == found.world
  {
    hide MoveCandidate, Enter, UniqueMatch;
    CandidateErrors(env, m);
    assert [m][..0] == [];
    assert SortMessages(env, [m]) == SortNext(env, Sorted([], []), m);
    var c := MoveCandidate(env, m).value;
    CandidateIsSafe(env, m);
    var groups := SortMessages(env, [m]).groups;
    assert groups == [Group(c.account, [c])];
    EnterErrors(env, v, c.account);
    var session := Enter(env, v, c.account);
    OneGroup(env, v, Group(c.account, [c]));
    if session.result.Ok? {
      OneCandidate(env, session.world, c, session.result.value);
    }
  }

  lemma OneGroup(env: Env, w: World, g: Group)
    ensures var session := Enter(env, w, g.account);
            VerifyGroups(env, w, [g]) ==
              if session.result.Err? then (session.world, Some(session.result.error))
              else VerifyCandidates(env, session.world, g.candidates, session.result.value)
  {
    hide Enter, VerifyCandidates;
    assert [g][1..] == [];
    var session := Enter(env, w, g.account);
    if session.result.Ok? {
      var (after, error) := VerifyCandidates(env, session.world, g.candidates, session.result.value);
      assert VerifyGroups(env, after, []) == (after, None);
    }
  }

  lemma OneCandidate(env: Env, w: World, c: Candidate, gmail: bool)
    ensures var found := UniqueMatch(env, w, c, gmail, true);
            VerifyCandidates(env, w, [c], gmail) ==
              (found.world, if found.result.Err? then Some(found.result.error) else None)
  {
    hide UniqueMatch;
    assert [c][1..] == [];
  }

  lemma EnterErrors(env: Env, w: World, a: Account)
    ensures Enter(env, w, a).result != Err(NotFound)
  {
  }

  lemma CandidateErrors(env: Env, m: Message)
    requires env.accountFor(m) != Err(NotFound)
    ensures MoveCandidate(env, m) != Err(NotFound)
  {
  }
}
