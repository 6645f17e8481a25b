module TrashResults {
  // What the outcomes of a Trash batch say about the servers.

  import opened Common
  import opened ImapText
  import opened ImapSession
  import opened TrashBatch

  // ------------------------------------------------------------------ move records

  /** The move commands sent between two worlds. */
  function NewMoves(w: World, w': World): seq<MoveRecord>
    requires w.moves <= w'.moves
  {
    w'.moves[|w.moves|..]
  }

  function SentFor(records: seq<MoveRecord>): seq<Message> {
    if records == [] then [] else SentFor(records[..|records| - 1]) + [records[|records| - 1].candidate.message]
  }

  /** The messages whose UID MOVE the server answered with OK. */
  function AcceptedFor(records: seq<MoveRecord>): seq<Message> {
    if records == [] then []
    else
      var r := records[|records| - 1];
      AcceptedFor(records[..|records| - 1]) + (if r.accepted then [r.candidate.message] else [])
  }

  /** The messages whose attempt ended without an error. */
  function Succeeded(attempts: seq<Attempt>): seq<Message> {
    if attempts == [] then []
    else
      var a := attempts[|attempts| - 1];
      Succeeded(attempts[..|attempts| - 1]) + (if a.error.None? then [a.message] else [])
  }

  lemma {:induction false} RecordsAppend(a: seq<MoveRecord>, b: seq<MoveRecord>)
    ensures SentFor(a + b) == SentFor(a) + SentFor(b)
    ensures AcceptedFor(a + b) == AcceptedFor(a) + AcceptedFor(b)
  {
    if b == [] {
      assert a + b == a;
    } else {
      var n := |b| - 1;
      assert (a + b)[..|a + b| - 1] == a + b[..n];
      RecordsAppend(a, b[..n]);
    }
  }

  lemma {:induction false} SucceededAppend(a: seq<Attempt>, b: seq<Attempt>)
    ensures Succeeded(a + b) == Succeeded(a) + Succeeded(b)
  {
    if b == [] {
      assert a + b == a;
    } else {
      var n := |b| - 1;
      assert (a + b)[..|a + b| - 1] == a + b[..n];
      SucceededAppend(a, b[..n]);
    }
  }

  lemma {:induction false} AcceptedMembers(records: seq<MoveRecord>, m: Message)
    ensures m in AcceptedFor(records) <==> exists r :: r in records && r.accepted && r.candidate.message == m
    ensures forall r :: r in records ==> r.candidate.message in SentFor(records)
  {
    if records != [] {
      AcceptedMembers(records[..|records| - 1], m);
      assert records == records[..|records| - 1] + [records[|records| - 1]];
    }
  }

  lemma {:induction false} SucceededMembers(attempts: seq<Attempt>, m: Message)
    ensures m in Succeeded(attempts) <==> exists a :: a in attempts && a.error.None? && a.message == m
  {
    if attempts != [] {
      SucceededMembers(attempts[..|attempts| - 1], m);
      assert attempts == attempts[..|attempts| - 1] + [attempts[|attempts| - 1]];
    }
  }

  // ------------------------------------------------------------- a faithful stretch

  /** Only right commands for accepted candidates. */
  ghost predicate RightMoves(env: Env, records: seq<MoveRecord>) {
    forall r :: r in records ==> RightMove(r) && MoveCandidate(env, r.candidate.message) == Ok(r.candidate)
  }

  /** The attempts succeed exactly as the servers accept, in the same order, and nothing else happens to the mail. */
  ghost predicate Faithful(env: Env, w: World, d: Done) {
    && ValidWorld(d.world) && Conserved(w.box, d.world.box) && Accounted(w, d.world)
    && RightMoves(env, NewMoves(w, d.world))
    && AcceptedFor(NewMoves(w, d.world)) == Succeeded(d.attempts)
    && multiset(SentFor(NewMoves(w, d.world))) <= multiset(Tried(d.attempts))
  }

  lemma FaithfulTrans(env: Env, w: World, d: Done, e: Done)
    requires ValidWorld(w) && Faithful(env, w, d) && Faithful(env, d.world, e)
    ensures Faithful(env, w, Done(e.world, d.attempts + e.attempts))
  {
    hide ValidWorld, Conserved, AcceptedFor, SentFor, Succeeded, Tried, RightMove, MoveCandidate;
    ConservedTrans(w.box, d.world.box, e.world.box);
    AccountedTrans(w, d.world, e.world);
    MovesSplit(w, d.world, e.world);
    RecordsAppend(NewMoves(w, d.world), NewMoves(d.world, e.world));
    SucceededAppend(d.attempts, e.attempts);
    TriedAppend(d.attempts, e.attempts);
  }

  /** A stretch that fails without touching the mail. */
  lemma FaithfulSilence(env: Env, w: World, d: Done)
    requires ValidWorld(w) && SameMail(w, d.world) && Succeeded(d.attempts) == []
    ensures Faithful(env, w, d)
  {
    hide Conserved, ValidWorld, Accounted;
    SameMailIsValid(w, d.world);
    AccountedSame(w, d.world);
    assert NewMoves(w, d.world) == [];
  }

  lemma FaithfulOne(env: Env, w: World, c: Candidate, gmail: bool)
    requires ValidWorld(w) && MoveCandidate(env, c.message) == Ok(c)
    ensures var (after, error) := MoveOne(env, w, c, gmail); Faithful(env, w, Done(after, [Attempt(c.message, error)]))
  {
    hide MoveOne, MoveCandidate, ValidWorld, Conserved;
    var (after, error) := MoveOne(env, w, c, gmail);
    MoveOneFacts(env, w, c, gmail);
    MoveOneAccounted(env, w, c, gmail);
    var attempt := Attempt(c.message, error);
    OneAttempt(attempt);
    var records := NewMoves(w, after);
    if after.moves != w.moves {
      var r :| after.moves == w.moves + [r] && r.candidate == c && RightMove(r) && (r.accepted <==> error.None?);
      assert records == [r];
      OneRecord(r);
    } else {
      assert records == [];
    }
  }

  lemma OneAttempt(a: Attempt)
    ensures Succeeded([a]) == (if a.error.None? then [a.message] else []) && Tried([a]) == [a.message]
  {
    assert [a][..0] == [];
    assert Succeeded([a]) == [] + (if a.error.None? then [a.message] else []);
    assert Tried([a]) == [] + [a.message];
  }

  lemma OneRecord(r: MoveRecord)
    ensures AcceptedFor([r]) == (if r.accepted then [r.candidate.message] else []) && SentFor([r]) == [r.candidate.message]
  {
    assert [r][..0] == [];
    assert AcceptedFor([r]) == [] + (if r.accepted then [r.candidate.message] else []);
    assert SentFor([r]) == [] + [r.candidate.message];
  }

  lemma {:induction false} CandidatesFaithful(env: Env, w: World, candidates: seq<Candidate>, gmail: bool)
    requires ValidWorld(w) && forall c :: c in candidates ==> MoveCandidate(env, c.message) == Ok(c)
    ensures Faithful(env, w, MoveCandidates(env, w, candidates, gmail))
    ensures Tried(MoveCandidates(env, w, candidates, gmail).attempts) == MessagesOf(candidates)
  {
    hide Faithful, MoveCandidate, MoveOne, ValidWorld;
    if candidates == [] {
      FaithfulSilence(env, w, Done(w, []));
    } else {
      var n := |candidates| - 1;
      CandidatesFaithful(env, w, candidates[..n], gmail);
      var front := MoveCandidates(env, w, candidates[..n], gmail);
      FaithfulIsValid(env, w, front);
      var (after, error) := MoveOne(env, front.world, candidates[n], gmail);
      FaithfulOne(env, front.world, candidates[n], gmail);
      FaithfulTrans(env, w, front, Done(after, [Attempt(candidates[n].message, error)]));
      TriedNext(front.attempts, Attempt(candidates[n].message, error));
    }
  }

  lemma FaithfulIsValid(env: Env, w: World, d: Done)
    requires Faithful(env, w, d)
    ensures ValidWorld(d.world)
  {
  }

  lemma FaithfulMoves(env: Env, w: World, d: Done)
    requires Faithful(env, w, d)
    ensures w.moves <= d.world.moves
  {
  }

  lemma {:induction false} FailAllFacts(candidates: seq<Candidate>, e: TrashError)
    ensures Succeeded(FailAll(candidates, e)) == [] && Tried(FailAll(candidates, e)) == MessagesOf(candidates)
  {
    if candidates != [] {
      var n := |candidates| - 1;
      FailAllFacts(candidates[..n], e);
      var failed := Attempt(candidates[n].message, Some(e));
      OneAttempt(failed);
      SucceededAppend(FailAll(candidates[..n], e), [failed]);
      TriedNext(FailAll(candidates[..n], e), failed);
    }
  }

  lemma GroupFaithful(env: Env, w: World, g: Group)
    requires ValidWorld(w) && RightGroup(env, g)
    ensures Faithful(env, w, MoveGroup(env, w, g))
    ensures Tried(MoveGroup(env, w, g).attempts) == MessagesOf(g.candidates)
  {
    hide Faithful, ValidWorld, Conserved, Enter, MoveCandidates, FailAll, MoveCandidate, Tried, MessagesOf, Succeeded;
    var session := Enter(env, w, g.account);
    SameMailIsValid(w, session.world);
    match session.result
    case Err(e) =>
      FailAllFacts(g.candidates, e);
      FaithfulSilence(env, w, MoveGroup(env, w, g));
    case Ok(gmail) =>
      CandidatesFaithful(env, session.world, g.candidates, gmail);
      var quiet := Done(session.world, []);
      NoAttempts();
      FaithfulSilence(env, w, quiet);
      var moved := MoveCandidates(env, session.world, g.candidates, gmail);
      FaithfulTrans(env, w, quiet, moved);
      assert quiet.attempts + moved.attempts == moved.attempts;
      assert Done(moved.world, quiet.attempts + moved.attempts) == moved;
  }

  lemma NoAttempts()
    ensures Succeeded([]) == [] && Tried([]) == []
  {
  }

  lemma {:induction false} GroupedAppend(a: seq<Group>, b: seq<Group>)
    ensures GroupedMessages(a + b) == GroupedMessages(a) + GroupedMessages(b)
  {
    hide MessagesOf;
    if a == [] {
      assert a + b == b;
    } else {
      assert (a + b)[1..] == a[1..] + b;
      GroupedAppend(a[1..], b);
    }
  }

  lemma {:induction false} GroupsFaithful(env: Env, w: World, groups: seq<Group>)
    requires ValidWorld(w) && WellGrouped(env, groups)
    ensures Faithful(env, w, MoveGroups(env, w, groups))
    ensures Tried(MoveGroups(env, w, groups).attempts) == GroupedMessages(groups)
  {
    hide Faithful, ValidWorld, MoveGroup, RightGroup, GroupedMessages, MessagesOf, Tried, Succeeded;
    if groups == [] {
      NoAttempts();
      FaithfulSilence(env, w, Done(w, []));
      NoGroupedMessages();
    } else {
      var n := |groups| - 1;
      GroupsFaithful(env, w, groups[..n]);
      var front := MoveGroups(env, w, groups[..n]);
      FaithfulIsValid(env, w, front);
      GroupFaithful(env, front.world, groups[n]);
      var last := MoveGroup(env, front.world, groups[n]);
      FaithfulTrans(env, w, front, last);
      TriedAppend(front.attempts, last.attempts);
      GroupedStep(groups[n], []);
      NoGroupedMessages();
      GroupedAppend(groups[..n], [groups[n]]);
      assert groups == groups[..n] + [groups[n]];
      assert [groups[n]] + [] == [groups[n]];
    }
  }

  lemma NoGroupedMessages()
    ensures GroupedMessages([]) == []
  {
  }

  lemma {:induction false} RejectedFail(attempts: seq<Attempt>)
    requires forall a :: a in attempts ==> a.error.Some?
    ensures Succeeded(attempts) == []
  {
    if attempts != [] {
      RejectedFail(attempts[..|attempts| - 1]);
      assert attempts[|attempts| - 1] in attempts;
    }
  }

  /**
   * The whole batch: one attempt for every message; successes exactly where a server accepted the move; every move
   * after exactly one match, into that account's Trash; all mail conserved.
   */
  lemma BatchIsFaithful(env: Env, w: World, messages: seq<Message>)
    requires ValidWorld(w)
    ensures Faithful(env, w, MoveAll(env, w, messages))
    ensures multiset(Tried(MoveAll(env, w, messages).attempts)) == multiset(messages)
  {
    hide Faithful, ValidWorld, MoveGroups, SortMessages, Tried, Succeeded, WellGrouped, DistinctAccounts, GroupedMessages;
    SortedCover(env, messages);
    var sorted := SortMessages(env, messages);
    var first := Done(w, sorted.rejected);
    RejectedFail(sorted.rejected);
    FaithfulSilence(env, w, first);
    GroupsFaithful(env, w, sorted.groups);
    var moved := MoveGroups(env, w, sorted.groups);
    FaithfulTrans(env, w, first, moved);
    TriedAppend(sorted.rejected, moved.attempts);
  }

  // -------------------------------------------------------------------- the outcomes

  /** The last attempt with the id. */
  ghost predicate LastWith(attempts: seq<Attempt>, id: string, k: nat) {
    && k < |attempts| && attempts[k].message.headerId == id
    && forall j :: k < j < |attempts| ==> attempts[j].message.headerId != id
  }

  /** The reported outcome of an id is that of the last attempt with it. */
  lemma {:induction false} LastAttemptDecides(outcomes: Outcomes, attempts: seq<Attempt>, id: string, k: nat)
    requires LastWith(attempts, id, k)
    ensures id in Assign(outcomes, attempts) && Assign(outcomes, attempts)[id] == attempts[k].error
  {
    var n := |attempts| - 1;
    if k < n {
      LastAttemptDecides(outcomes, attempts[..n], id, k);
    }
  }

  lemma {:induction false} LastExists(attempts: seq<Attempt>, id: string, i: nat) returns (k: nat)
    requires i < |attempts| && attempts[i].message.headerId == id
    ensures LastWith(attempts, id, k)
  {
    var n := |attempts| - 1;
    if attempts[n].message.headerId == id {
      k := n;
    } else {
      k := LastExists(attempts[..n], id, i);
    }
  }

  /** The outcomes tell for every attempt whether it succeeded. */
  ghost predicate Truthful(outcomes: Outcomes, attempts: seq<Attempt>) {
    forall i :: 0 <= i < |attempts| ==>
      var id := attempts[i].message.headerId;
      id in outcomes && (outcomes[id].None? <==> attempts[i].error.None?)
  }

  ghost predicate SharersAgree(attempts: seq<Attempt>) {
    forall i, j :: 0 <= i < |attempts| && 0 <= j < |attempts| && attempts[i].message.headerId == attempts[j].message.headerId ==>
      (attempts[i].error.None? <==> attempts[j].error.None?)
  }

  /** The outcomes are truthful exactly when messages that share an id share their fate. */
  lemma TruthfulIff(outcomes: Outcomes, attempts: seq<Attempt>)
    ensures Truthful(Assign(outcomes, attempts), attempts) <==> SharersAgree(attempts)
  {
    hide Assign;
    forall i | 0 <= i < |attempts|
      ensures var id := attempts[i].message.headerId;
              id in Assign(outcomes, attempts) && exists k: nat :: LastWith(attempts, id, k) && Assign(outcomes, attempts)[id] == attempts[k].error
    {
      var id := attempts[i].message.headerId;
      var k := LastExists(attempts, id, i);
      LastAttemptDecides(outcomes, attempts, id, k);
    }
  }

  ghost predicate DistinctIds(messages: seq<Message>) {
    forall i, j :: 0 <= i < j < |messages| ==> messages[i].headerId != messages[j].headerId
  }

  lemma {:induction false} CountOnce(messages: seq<Message>, m: Message)
    requires DistinctIds(messages)
    ensures multiset(messages)[m] <= 1
  {
    if messages != [] {
      var n := |messages| - 1;
      CountOnce(messages[..n], m);
      assert messages == messages[..n] + [messages[n]];
      if messages[n] == m {
        assert m !in messages[..n];
      }
    }
  }

  lemma CountTwice(messages: seq<Message>, i: nat, j: nat)
    requires i < j < |messages| && messages[i] == messages[j]
    ensures multiset(messages)[messages[i]] >= 2
  {
    assert messages == messages[..j] + [messages[j]] + messages[j + 1..];
    assert messages[i] in messages[..j];
  }

  /** Messages drawn without repetition from distinct ones are distinct. */
  lemma DrawnAreDistinct(drawn: seq<Message>, messages: seq<Message>)
    requires DistinctIds(messages) && multiset(drawn) <= multiset(messages)
    ensures DistinctIds(drawn)
  {
    forall i, j | 0 <= i < j < |drawn|
      ensures drawn[i].headerId != drawn[j].headerId
    {
      assert drawn[i] in multiset(drawn) && drawn[j] in multiset(drawn);
      assert drawn[i] in messages && drawn[j] in messages;
      if drawn[i] == drawn[j] {
        CountOnce(messages, drawn[i]);
        CountTwice(drawn, i, j);
      }
    }
  }

  lemma {:induction false} TriedAt(attempts: seq<Attempt>, i: nat)
    requires i < |attempts|
    ensures Tried(attempts)[i] == attempts[i].message
  {
    if i < |attempts| - 1 {
      TriedAt(attempts[..|attempts| - 1], i);
    }
  }

  /** With distinct Message-IDs every outcome is that of the message's only attempt. */
  lemma DistinctIsTruthful(env: Env, w: World, messages: seq<Message>)
    requires ValidWorld(w) && DistinctIds(messages)
    ensures Truthful(MoveOutcomes(env, w, messages), MoveAll(env, w, messages).attempts)
  {
    hide MoveAll, Tried, DistinctIds, Truthful, Assign;
    var attempts := MoveAll(env, w, messages).attempts;
    BatchIsFaithful(env, w, messages);
    DrawnAreDistinct(Tried(attempts), messages);
    DistinctAgree(attempts);
    TruthfulIff(Initial(messages), attempts);
  }

  lemma DistinctAgree(attempts: seq<Attempt>)
    requires DistinctIds(Tried(attempts))
    ensures SharersAgree(attempts)
  {
    hide Tried;
    forall i, j | 0 <= i < j < |attempts|
      ensures attempts[i].message.headerId != attempts[j].message.headerId
    {
      TriedAt(attempts, i);
      TriedAt(attempts, j);
    }
  }

  /** The program sent a UID MOVE for the message and the server said OK. */
  ghost predicate MovedOnServer(w: World, w': World, m: Message)
    requires w.moves <= w'.moves
  {
    exists r :: r in NewMoves(w, w') && r.accepted && r.candidate.message == m
  }

  /** With distinct Message-IDs an outcome is None exactly when the message's UID MOVE returned OK. */
  lemma OutcomeNoneIffMoved(env: Env, w: World, messages: seq<Message>, m: Message)
    requires ValidWorld(w) && DistinctIds(messages) && m in messages
    ensures w.moves <= MoveAll(env, w, messages).world.moves
    ensures var outcomes := MoveOutcomes(env, w, messages);
            m.headerId in outcomes && (outcomes[m.headerId].None? <==> MovedOnServer(w, MoveAll(env, w, messages).world, m))
  {
    hide MoveAll, Tried, DistinctIds, MoveOutcomes, RightMoves, AcceptedFor, Succeeded, Assign;
    BatchIsFaithful(env, w, messages);
    DistinctIsTruthful(env, w, messages);
    var d := MoveAll(env, w, messages);
    assert m in multiset(Tried(d.attempts));
    var i := FindTried(d.attempts, m);
    DrawnAreDistinct(Tried(d.attempts), messages);
    AcceptedMembers(NewMoves(w, d.world), m);
    SucceededMembers(d.attempts, m);
    OnlyAttempt(d.attempts, i);
  }

  lemma {:induction false} FindTried(attempts: seq<Attempt>, m: Message) returns (i: nat)
    requires m in Tried(attempts)
    ensures i < |attempts| && attempts[i].message == m
  {
    var n := |attempts| - 1;
    if attempts[n].message == m {
      i := n;
    } else {
      i := FindTried(attempts[..n], m);
    }
  }

  lemma SameMessageSameAttempt(attempts: seq<Attempt>, i: nat, j: nat)
    requires i < |attempts| && j < |attempts| && DistinctIds(Tried(attempts)) && attempts[i].message == attempts[j].message
    ensures i == j
  {
    hide Tried;
    TriedAt(attempts, i);
    TriedAt(attempts, j);
  }

  lemma OnlyAttempt(attempts: seq<Attempt>, i: nat)
    requires i < |attempts| && DistinctIds(Tried(attempts))
    ensures (exists a :: a in attempts && a.error.None? && a.message == attempts[i].message) <==> attempts[i].error.None?
  {
    hide Tried, DistinctIds;
    if exists a :: a in attempts && a.error.None? && a.message == attempts[i].message {
      var a :| a in attempts && a.error.None? && a.message == attempts[i].message;
      var j: nat :| j < |attempts| && attempts[j] == a;
      SameMessageSameAttempt(attempts, i, j);
    }
    assert attempts[i] in attempts;
  }

  /** With distinct Message-IDs no message is the subject of two move commands. */
  lemma MovedAtMostOnce(env: Env, w: World, messages: seq<Message>)
    requires ValidWorld(w) && DistinctIds(messages)
    ensures w.moves <= MoveAll(env, w, messages).world.moves
    ensures DistinctIds(SentFor(NewMoves(w, MoveAll(env, w, messages).world)))
  {
    hide MoveAll, DistinctIds, SentFor, RightMoves;
    BatchIsFaithful(env, w, messages);
    DrawnAreDistinct(SentFor(NewMoves(w, MoveAll(env, w, messages).world)), messages);
  }

  // ------------------------------------------------------------ shared message ids

  /** Two messages with one id on two accounts: the first session fails, the second move succeeds, both look moved. */
  lemma SharedIdHidesFailure(env: Env, w: World, a: Message, b: Message)
    requires ValidWorld(w) && a != b && a.headerId == b.headerId
    requires MoveCandidate(env, a).Ok? && MoveCandidate(env, b).Ok?
    requires MoveCandidate(env, a).value.account != MoveCandidate(env, b).value.account
    requires var first := Enter(env, w, MoveCandidate(env, a).value.account);
             var second := Enter(env, first.world, MoveCandidate(env, b).value.account);
             first.result.Err? && second.result.Ok? && MoveOne(env, second.world, MoveCandidate(env, b).value, second.result.value).1.None?
    ensures w.moves <= MoveAll(env, w, [a, b]).world.moves
    ensures a.headerId in MoveOutcomes(env, w, [a, b]) && MoveOutcomes(env, w, [a, b])[a.headerId] == None
    ensures !MovedOnServer(w, MoveAll(env, w, [a, b]).world, a)
  {
    hide MoveCandidate, Enter, MoveOne, ValidWorld, Conserved, Accounted, RightMoves, Assign, Tried, AcceptedFor, SentFor, MoveAll;
    CandidateIsSafe(env, a);
    CandidateIsSafe(env, b);
    TwoMoves(env, w, a, b);
    BatchIsFaithful(env, w, [a, b]);
    var d := MoveAll(env, w, [a, b]);
    assert w.moves <= d.world.moves by { FaithfulMoves(env, w, d); }
    var e := d.attempts[0].error;
    assert d.attempts == [Attempt(a, e), Attempt(b, None)];
    LastAttemptDecides(Initial([a, b]), d.attempts, a.headerId, 1);
    AcceptedMembers(NewMoves(w, d.world), a);
    SucceededMembers(d.attempts, a);
  }

  lemma TwoGroups(env: Env, a: Message, b: Message)
    requires MoveCandidate(env, a).Ok? && MoveCandidate(env, b).Ok?
    requires MoveCandidate(env, a).value.account != MoveCandidate(env, b).value.account
    ensures var c, d := MoveCandidate(env, a).value, MoveCandidate(env, b).value;
            SortMessages(env, [a, b]) == Sorted([Group(c.account, [c]), Group(d.account, [d])], [])
  {
    hide MoveCandidate;
    var c, d := MoveCandidate(env, a).value, MoveCandidate(env, b).value;
    assert [a, b][..1] == [a] && [a][..0] == [];
    assert SortMessages(env, [a]) == Sorted([Group(c.account, [c])], []);
    assert AddCandidate([], d) == [Group(d.account, [d])];
    assert AddCandidate([Group(c.account, [c])], d) == [Group(c.account, [c])] + AddCandidate([], d);
  }

  lemma TwoMoves(env: Env, w: World, a: Message, b: Message)
    requires MoveCandidate(env, a).Ok? && MoveCandidate(env, b).Ok?
    requires MoveCandidate(env, a).value.account != MoveCandidate(env, b).value.account
    requires MoveCandidate(env, a).value.message == a && MoveCandidate(env, b).value.message == b
    requires var first := Enter(env, w, MoveCandidate(env, a).value.account);
             var second := Enter(env, first.world, MoveCandidate(env, b).value.account);
             first.result.Err? && second.result.Ok? && MoveOne(env, second.world, MoveCandidate(env, b).value, second.result.value).1.None?
    ensures exists e: Option<TrashError> :: e.Some? && MoveAll(env, w, [a, b]).attempts == [Attempt(a, e), Attempt(b, None)]
  {
    hide MoveCandidate, Enter, MoveOne;
    TwoGroups(env, a, b);
    var c, d := MoveCandidate(env, a).value, MoveCandidate(env, b).value;
    var g, h := Group(c.account, [c]), Group(d.account, [d]);
    var first := Enter(env, w, c.account);
    var second := Enter(env, first.world, d.account);
    assert [g, h][..1] == [g] && [g][..0] == [] && [c][..0] == [] && [d][..0] == [];
    assert FailAll([c], first.result.error) == [] + [Attempt(a, Some(first.result.error))];
    assert MoveGroup(env, w, g) == Done(first.world, [Attempt(a, Some(first.result.error))]);
    assert MoveCandidates(env, second.world, [], second.result.value) == Done(second.world, []);
    assert MoveGroup(env, first.world, h).attempts == [] + [Attempt(b, None)];
    assert MoveGroups(env, w, [g]) == Done(first.world, [] + [Attempt(a, Some(first.result.error))]);
    assert MoveAll(env, w, [a, b]).attempts == [] + ([Attempt(a, Some(first.result.error))] + [Attempt(b, None)]);
  }

  // --------------------------------------------------------- outcome and effect

  /** Some message has left its place. */
  ghost predicate Emptied(w: World, w': World) {
    exists s :: s in w.box && s !in w'.box
  }

  /** The answer to a UID MOVE says what happened to the named place. */
  ghost predicate HonestAnswer(w: World, slot: Slot, reply: Reply) {
    match reply.status
    case Accepted => slot in w.box
    case Refused => true
    case Raised(_) => !(reply.applied && slot in w.box)
  }

  lemma RehouseEmpties(w: World, a: Account, folder: string, uid: nat, target: string)
    requires ValidWorld(w)
    ensures Emptied(w, Rehouse(w, a, folder, uid, target)) <==> Slot(a, folder, uid) in w.box
  {
    var slot := Slot(a, folder, uid);
    if slot in w.box {
      assert slot !in Rehouse(w, a, folder, uid, target).box;
    }
  }

  lemma NothingEmptied(w: World, w': World)
    requires w'.box == w.box
    ensures !Emptied(w, w')
  {
  }

  /**
   * Success is reported exactly when a message has left its place, unless the
   * server answers OK for a UID that is not there, or the reply to a move that
   * took effect is lost.
   */
  lemma MoveTellsEffectIff(env: Env, w: World, c: Candidate, gmail: bool)
    requires ValidWorld(w)
    ensures var (after, error) := MoveOne(env, w, c, gmail);
            var unique := UniqueMatch(env, w, c, gmail, false);
            (error.None? <==> Emptied(w, after)) <==>
            (unique.result.Ok? ==>
               var (folder, uids) := unique.result.value;
               HonestAnswer(w, Slot(c.account, folder, uids[0]), env.script(unique.world.step, Move(uids[0], c.account.trashFolder))))
  {
    hide UniqueMatch, Rehouse, Emptied;
    var (after, error) := MoveOne(env, w, c, gmail);
    var unique := UniqueMatch(env, w, c, gmail, false);
    if unique.result.Err? {
      NothingEmptied(w, after);
    } else {
      var (folder, uids) := unique.result.value;
      var reply := env.script(unique.world.step, Move(uids[0], c.account.trashFolder));
      var record := MoveRecord(c, folder, uids, c.account.trashFolder, reply.status.Accepted?);
      var sent := unique.world.(step := unique.world.step + 1, moves := unique.world.moves + [record]);
      RehouseEmpties(sent, c.account, folder, uids[0], c.account.trashFolder);
      EmptiedSameBox(sent, w, after);
      NothingEmptied(w, sent);
    }
  }

  lemma EmptiedSameBox(w: World, w': World, after: World)
    requires w.box == w'.box
    ensures Emptied(w, after) <==> Emptied(w', after)
  {
  }

  function ExampleAccount(host: string): Account {
    Account(host, "u", "PASSWORD", "Trash", 993)
  }

  /** Two accounts, one without a password; every search finds UID 7 and every move is accepted. */
  function ExampleEnv(): Env {
    Env(
      (step, command) => Reply(Accepted, [7], ["MOVE"], true),
      (a: Account) => a.host == "b",
      (m: Message) => Ok((ExampleAccount(m.path), "INBOX")),
      (s: string) => s,
      (s: string) => s)
  }

  lemma ExampleCandidate(host: string)
    ensures var m := Message("x@y", "s", None, host);
            MoveCandidate(ExampleEnv(), m) == Ok(Candidate(m, ExampleAccount(host), "INBOX", "x@y"))
  {
    var id := "x@y";
    assert LocalChar(id[0]) && DomainChar(id[2]) && Parts(id, 1);
    assert "INBOX" != "Trash" by {
      assert "INBOX"[0] == 'I' && "Trash"[0] == 'T';
    }
  }

  lemma ExampleEnter(w: World, host: string)
    ensures var r := Enter(ExampleEnv(), w, ExampleAccount(host));
            if host == "b" then r.result == Ok(false) else r.result.Err?
  {
  }

  lemma ExampleMove(w: World, c: Candidate)
    ensures MoveOne(ExampleEnv(), w, c, false).1.None?
  {
    var env := ExampleEnv();
    var keys := SearchKeys(c.id, false);
    assert forall v: World :: SearchUids(env, v, keys).result == Ok([7]);
    assert UniqueMatch(env, w, c, false, false).result == Ok((c.folder, [7]));
  }

  /** Concretely: the message on account a stays where it is and is reported as moved. */
  lemma SharedIdExample(w: World)
    requires ValidWorld(w)
    ensures var a, b := Message("x@y", "s", None, "a"), Message("x@y", "s", None, "b");
            var d := MoveAll(ExampleEnv(), w, [a, b]);
            && w.moves <= d.world.moves && !MovedOnServer(w, d.world, a)
            && a.headerId in MoveOutcomes(ExampleEnv(), w, [a, b]) && MoveOutcomes(ExampleEnv(), w, [a, b])[a.headerId] == None
  {
    hide MoveCandidate, Enter, MoveOne, MoveAll, MoveOutcomes, ValidWorld, MovedOnServer, ExampleEnv;
    var a, b := Message("x@y", "s", None, "a"), Message("x@y", "s", None, "b");
    assert "a"[0] == 'a' && "b"[0] == 'b';
    ExampleCandidate("a");
    ExampleCandidate("b");
    ExampleEnter(w, "a");
    var first := Enter(ExampleEnv(), w, ExampleAccount("a")).world;
    ExampleEnter(first, "b");
    ExampleMove(Enter(ExampleEnv(), first, ExampleAccount("b")).world, MoveCandidate(ExampleEnv(), b).value);
    SharedIdHidesFailure(ExampleEnv(), w, a, b);
  }

  function InboxCandidate(): Candidate {
    Candidate(Message("x@y", "s", None, "b"), ExampleAccount("b"), "INBOX", "x@y")
  }

  /** Concretely: an OK for a UID that no mailbox holds is reported as a move. */
  lemma MissingUidExample(step: nat)
    ensures var w := World(map[], 0, step, []);
            var (after, error) := MoveOne(ExampleEnv(), w, InboxCandidate(), false);
            error.None? && !Emptied(w, after)
  {
    hide UniqueMatch;
    var env, w, c := ExampleEnv(), World(map[], 0, step, []), InboxCandidate();
    ExampleMatch(env, w, c);
  }

  /** The same server, whose reply to a move is lost after the move took effect. */
  function LosingEnv(): Env {
    ExampleEnv().(script := (step, command: Command) =>
                    Reply(if command.Move? then Raised("timeout") else Accepted, [7], ["MOVE"], true))
  }

  /** Concretely: the message under UID 7 is in the Trash and its move is reported as failed. */
  lemma LostReplyExample(step: nat)
    ensures var w := World(map[Slot(ExampleAccount("b"), "INBOX", 7) := "mail"], 8, step, []);
            var (after, error) := MoveOne(LosingEnv(), w, InboxCandidate(), false);
            error == Some(Exception("timeout")) && Emptied(w, after)
  {
    hide UniqueMatch, Rehouse;
    var env, c := LosingEnv(), InboxCandidate();
    var slot := Slot(ExampleAccount("b"), "INBOX", 7);
    var w := World(map[slot := "mail"], 8, step, []);
    ExampleMatch(env, w, c);
    assert slot in w.box;
    MoveTellsEffectIff(env, w, c, false);
  }

  lemma ExampleMatch(env: Env, w: World, c: Candidate)
    requires forall step: nat, command: Command :: !command.Move? ==> env.script(step, command) == Reply(Accepted, [7], ["MOVE"], true)
    ensures UniqueMatch(env, w, c, false, false) == Ran(w.(step := w.step + 2), Ok((c.folder, [7])))
  {
    var selected := Ask(env, w, SelectFolder(c.folder, false), SelectFailed);
    assert selected == Ran(w.(step := w.step + 1), Ok(Reply(Accepted, [7], ["MOVE"], true)));
    var found := SearchUids(env, selected.world, SearchKeys(c.id, false));
    assert found == Ran(w.(step := w.step + 2), Ok([7]));
  }
}
