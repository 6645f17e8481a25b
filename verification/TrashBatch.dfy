/**
 * The batch move `move_messages_to_trash` and the read-only preflight
 * `verify_messages_available_for_move` in examples/mail_assistant/imap_trash.py.
 */
module TrashBatch {
  import opened Common
  import opened ImapSession

  // ---------------------------------------------------------------------- grouping

  /** One entry of the dictionary `grouped`, which keeps insertion order. */
  datatype Group = Group(account: Account, candidates: seq<Candidate>)

  /** What was tried for a message, and the error if it failed. */
  datatype Attempt = Attempt(message: Message, error: Option<TrashError>)

  /** `grouped.setdefault(candidate.account, []).append(candidate)`. */
  function AddCandidate(groups: seq<Group>, c: Candidate): seq<Group> {
    if groups == [] then [Group(c.account, [c])]
    else if groups[0].account == c.account then [Group(c.account, groups[0].candidates + [c])] + groups[1..]
    else [groups[0]] + AddCandidate(groups[1..], c)
  }

  /** The groups and the messages without a candidate, after the first loop. */
  datatype Sorted = Sorted(groups: seq<Group>, rejected: seq<Attempt>)

  function SortNext(env: Env, sorted: Sorted, m: Message): Sorted {
    match MoveCandidate(env, m)
    case Err(e) => sorted.(rejected := sorted.rejected + [Attempt(m, Some(e))])
    case Ok(c) => sorted.(groups := AddCandidate(sorted.groups, c))
  }

  function SortMessages(env: Env, messages: seq<Message>): Sorted {
    if messages == [] then Sorted([], [])
    else SortNext(env, SortMessages(env, messages[..|messages| - 1]), messages[|messages| - 1])
  }

  function MessagesOf(candidates: seq<Candidate>): (r: seq<Message>)
    ensures |r| == |candidates|
  {
    if candidates == [] then [] else MessagesOf(candidates[..|candidates| - 1]) + [candidates[|candidates| - 1].message]
  }

  function GroupedMessages(groups: seq<Group>): seq<Message> {
    if groups == [] then [] else MessagesOf(groups[0].candidates) + GroupedMessages(groups[1..])
  }

  function Tried(attempts: seq<Attempt>): (r: seq<Message>)
    ensures |r| == |attempts|
  {
    if attempts == [] then [] else Tried(attempts[..|attempts| - 1]) + [attempts[|attempts| - 1].message]
  }

  /** Every candidate of the group belongs to its account and was accepted for its message. */
  ghost predicate RightGroup(env: Env, g: Group) {
    forall c :: c in g.candidates ==> c.account == g.account && MoveCandidate(env, c.message) == Ok(c)
  }

  ghost predicate WellGrouped(env: Env, groups: seq<Group>) {
    forall g :: g in groups ==> RightGroup(env, g)
  }

  ghost predicate DistinctAccounts(groups: seq<Group>) {
    forall i, j :: 0 <= i < j < |groups| ==> groups[i].account != groups[j].account
  }

  lemma AddStep(groups: seq<Group>, c: Candidate)
    requires groups != []
    ensures groups == [groups[0]] + groups[1..]
    ensures AddCandidate(groups, c) ==
            if groups[0].account == c.account then [Group(c.account, groups[0].candidates + [c])] + groups[1..]
            else [groups[0]] + AddCandidate(groups[1..], c)
  {
  }

  lemma {:induction false} AddWellGrouped(env: Env, groups: seq<Group>, c: Candidate)
    requires WellGrouped(env, groups) && MoveCandidate(env, c.message) == Ok(c)
    ensures WellGrouped(env, AddCandidate(groups, c))
  {
    hide MoveCandidate;
    if groups != [] && groups[0].account != c.account {
      AddWellGrouped(env, groups[1..], c);
    }
    assert groups != [] ==> RightGroup(env, groups[0]);
  }

  lemma {:induction false} AddDistinct(groups: seq<Group>, c: Candidate)
    requires DistinctAccounts(groups)
    ensures DistinctAccounts(AddCandidate(groups, c))
    ensures forall g :: g in AddCandidate(groups, c) ==> g.account == c.account || exists g' :: g' in groups && g'.account == g.account
  {
    if groups != [] {
      hide AddCandidate;
      AddStep(groups, c);
      if groups[0].account != c.account {
        AddDistinct(groups[1..], c);
        DistinctFirst(groups, AddCandidate(groups[1..], c), c.account);
      }
    }
  }

  lemma GroupedStep(g: Group, rest: seq<Group>)
    ensures GroupedMessages([g] + rest) == MessagesOf(g.candidates) + GroupedMessages(rest)
  {
    assert ([g] + rest)[1..] == rest;
  }

  lemma {:induction false} AddCovers(groups: seq<Group>, c: Candidate)
    ensures multiset(GroupedMessages(AddCandidate(groups, c))) == multiset(GroupedMessages(groups)) + multiset{c.message}
  {
    hide GroupedMessages, MessagesOf;
    if groups == [] {
      OneMessage(c);
    } else {
      hide AddCandidate;
      AddStep(groups, c);
      GroupedStep(groups[0], groups[1..]);
      if groups[0].account == c.account {
        MessagesNext(groups[0].candidates, c);
        GroupedStep(Group(c.account, groups[0].candidates + [c]), groups[1..]);
      } else {
        AddCovers(groups[1..], c);
        GroupedStep(groups[0], AddCandidate(groups[1..], c));
      }
    }
  }

  lemma OneMessage(c: Candidate)
    ensures GroupedMessages([Group(c.account, [c])]) == [c.message] && GroupedMessages([]) == []
  {
    MessagesNext([], c);
    assert [] + [c] == [c];
    GroupedStep(Group(c.account, [c]), []);
    assert [Group(c.account, [c])] + [] == [Group(c.account, [c])];
  }

  lemma DistinctFirst(groups: seq<Group>, rest: seq<Group>, a: Account)
    requires groups != [] && DistinctAccounts(groups) && DistinctAccounts(rest) && groups[0].account != a
    requires forall g :: g in rest ==> g.account == a || exists g' :: g' in groups[1..] && g'.account == g.account
    ensures DistinctAccounts([groups[0]] + rest)
  {
    forall g | g in rest
      ensures g.account != groups[0].account
    {
      if g.account != a {
        var g' :| g' in groups[1..] && g'.account == g.account;
        var i :| 0 <= i < |groups[1..]| && groups[1..][i] == g';
        assert groups[i + 1] == g';
      }
    }
  }

  lemma MessagesNext(candidates: seq<Candidate>, c: Candidate)
    ensures MessagesOf(candidates + [c]) == MessagesOf(candidates) + [c.message]
  {
    assert (candidates + [c])[..|candidates|] == candidates;
  }

  lemma TriedNext(attempts: seq<Attempt>, a: Attempt)
    ensures Tried(attempts + [a]) == Tried(attempts) + [a.message]
  {
    assert (attempts + [a])[..|attempts|] == attempts;
  }

  lemma {:induction false} TriedAppend(a: seq<Attempt>, b: seq<Attempt>)
    ensures Tried(a + b) == Tried(a) + Tried(b)
  {
    if b == [] {
      assert a + b == a;
    } else {
      var n := |b| - 1;
      TriedAppend(a, b[..n]);
      TriedNext(a + b[..n], b[n]);
      assert a + b == a + b[..n] + [b[n]];
    }
  }

  /** The first loop loses no message and invents none. */
  lemma {:induction false} SortedCover(env: Env, messages: seq<Message>)
    ensures var sorted := SortMessages(env, messages);
            && WellGrouped(env, sorted.groups) && DistinctAccounts(sorted.groups)
            && (forall a :: a in sorted.rejected ==> a.error.Some?)
            && multiset(GroupedMessages(sorted.groups)) + multiset(Tried(sorted.rejected)) == multiset(messages)
  {
    hide WellGrouped, DistinctAccounts, AddCandidate, MoveCandidate;
    if messages == [] {
      assert WellGrouped(env, []) && DistinctAccounts([]) by { NoGroups(env); }
    } else {
      var n := |messages| - 1;
      var m := messages[n];
      SortedCover(env, messages[..n]);
      assert messages == messages[..n] + [m];
      var before := SortMessages(env, messages[..n]);
      match MoveCandidate(env, m)
      case Err(e) =>
        TriedNext(before.rejected, Attempt(m, Some(e)));
      case Ok(c) =>
        CandidateIsSafe(env, m);
        AddWellGrouped(env, before.groups, c);
        AddDistinct(before.groups, c);
        AddCovers(before.groups, c);
    }
  }

  lemma NoGroups(env: Env)
    ensures WellGrouped(env, []) && DistinctAccounts([])
  {
  }

  // ------------------------------------------------------------------------ moving

  /** The results of one stretch of the batch. */
  datatype Done = Done(world: World, attempts: seq<Attempt>)

  /** The inner loop over the candidates of an open session. */
  function MoveCandidates(env: Env, w: World, candidates: seq<Candidate>, gmail: bool): Done {
    if candidates == [] then Done(w, [])
    else
      var n := |candidates| - 1;
      var front := MoveCandidates(env, w, candidates[..n], gmail);
      var (after, error) := MoveOne(env, front.world, candidates[n], gmail);
      Done(after, front.attempts + [Attempt(candidates[n].message, error)])
  }

  /** All candidates of a session that could not be opened. */
  function FailAll(candidates: seq<Candidate>, e: TrashError): seq<Attempt> {
    if candidates == [] then []
    else FailAll(candidates[..|candidates| - 1], e) + [Attempt(candidates[|candidates| - 1].message, Some(e))]
  }

  function MoveGroup(env: Env, w: World, g: Group): Done {
    var session := Enter(env, w, g.account);
    match session.result
    case Err(e) => Done(session.world, FailAll(g.candidates, e))
    case Ok(gmail) => MoveCandidates(env, session.world, g.candidates, gmail)
  }

  function MoveGroups(env: Env, w: World, groups: seq<Group>): Done {
    if groups == [] then Done(w, [])
    else
      var n := |groups| - 1;
      var front := MoveGroups(env, w, groups[..n]);
      var last := MoveGroup(env, front.world, groups[n]);
      Done(last.world, front.attempts + last.attempts)
  }

  /** Everything the batch does, in order. */
  function MoveAll(env: Env, w: World, messages: seq<Message>): Done {
    var sorted := SortMessages(env, messages);
    var moved := MoveGroups(env, w, sorted.groups);
    Done(moved.world, sorted.rejected + moved.attempts)
  }

  type Outcomes = map<string, Option<TrashError>>

  /** `outcomes` before the first attempt. */
  function Initial(messages: seq<Message>): Outcomes {
    map m | m in messages :: m.headerId := None
  }

  /** `outcomes[id] = result` for each attempt in turn. */
  function Assign(outcomes: Outcomes, attempts: seq<Attempt>): Outcomes {
    if attempts == [] then outcomes
    else
      var n := |attempts| - 1;
      Assign(outcomes, attempts[..n])[attempts[n].message.headerId := attempts[n].error]
  }

  function MoveOutcomes(env: Env, w: World, messages: seq<Message>): Outcomes {
    Assign(Initial(messages), MoveAll(env, w, messages).attempts)
  }

  // -------------------------------------------------------------- the imperative code

  /** The IMAP servers of all accounts. */
  class Server {
    var world: World

    constructor (box: map<Slot, string>, nextUid: nat)
      ensures world == World(box, nextUid, 0, [])
    {
      world := World(box, nextUid, 0, []);
    }
  }

  /** `_ImapTrashSession`. */
  class TrashSession {
    const account: Account
    var open: bool
    var gmailExtensions: bool

    constructor (account: Account)
      ensures this.account == account && !open && !gmailExtensions
    {
      this.account := account;
      open, gmailExtensions := false, false;
    }

    /** `__enter__`. */
    method Enter(env: Env, server: Server) returns (error: Option<TrashError>)
      requires !open
      modifies this, server
      ensures server.world == ImapSession.Enter(env, old(server.world), account).world
      ensures match ImapSession.Enter(env, old(server.world), account).result
              case Err(e) => error == Some(e) && !open
              case Ok(gmail) => error == None && open && gmailExtensions == gmail
    {
      var entered := ImapSession.Enter(env, server.world, account);
      server.world := entered.world;
      match entered.result {
        case Err(e) => error := Some(e);
        case Ok(gmail) =>
          open, gmailExtensions := true, gmail;
          error := None;
      }
    }

    /** `move`. */
    method Move(env: Env, server: Server, c: Candidate) returns (error: Option<TrashError>)
      requires open
      modifies server
      ensures (server.world, error) == MoveOne(env, old(server.world), c, gmailExtensions)
    {
      var moved := MoveOne(env, server.world, c, gmailExtensions);
      server.world := moved.0;
      error := moved.1;
    }
  }

  lemma SortStep(env: Env, messages: seq<Message>, k: nat)
    requires k < |messages|
    ensures SortMessages(env, messages[..k + 1]) == SortNext(env, SortMessages(env, messages[..k]), messages[k])
  {
    assert messages[..k + 1][..k] == messages[..k];
  }

  lemma AssignNext(outcomes: Outcomes, attempts: seq<Attempt>, a: Attempt)
    ensures Assign(outcomes, attempts + [a]) == Assign(outcomes, attempts)[a.message.headerId := a.error]
  {
    assert (attempts + [a])[..|attempts|] == attempts;
  }

  lemma {:induction false} AssignAppend(outcomes: Outcomes, a: seq<Attempt>, b: seq<Attempt>)
    ensures Assign(outcomes, a + b) == Assign(Assign(outcomes, a), b)
  {
    if b == [] {
      assert a + b == a;
    } else {
      var n := |b| - 1;
      AssignAppend(outcomes, a, b[..n]);
      AssignNext(outcomes, a + b[..n], b[n]);
      assert a + b == a + b[..n] + [b[n]];
    }
  }

  lemma InitialStep(messages: seq<Message>, k: nat)
    requires k < |messages|
    ensures Initial(messages[..k + 1]) == Initial(messages[..k])[messages[k].headerId := None]
  {
    var before, after := messages[..k], messages[..k + 1];
    assert after == before + [messages[k]];
    assert Initial(after).Keys == Initial(before)[messages[k].headerId := None].Keys;
  }

  /** The first statement: every message starts with the outcome None. */
  method StartOutcomes(messages: seq<Message>) returns (outcomes: Outcomes)
    ensures outcomes == Initial(messages)
  {
    hide Initial;
    outcomes := map[];
    InitialEmpty();
    for k := 0 to |messages|
      invariant outcomes == Initial(messages[..k])
    {
      InitialStep(messages, k);
      outcomes := outcomes[messages[k].headerId := None];
    }
    assert messages[..|messages|] == messages;
  }

  lemma InitialEmpty()
    ensures Initial([]) == map[]
  {
  }

  /** The loop that builds `grouped`, writing the validation errors into `outcomes`. */
  method GroupMessages(env: Env, messages: seq<Message>, outcomes0: Outcomes) returns (groups: seq<Group>, outcomes: Outcomes)
    ensures groups == SortMessages(env, messages).groups
    ensures outcomes == Assign(outcomes0, SortMessages(env, messages).rejected)
  {
    hide SortMessages, Assign, MoveCandidate;
    groups, outcomes := [], outcomes0;
    SortEmpty(env, outcomes0);
    for k := 0 to |messages|
      invariant groups == SortMessages(env, messages[..k]).groups
      invariant outcomes == Assign(outcomes0, SortMessages(env, messages[..k]).rejected)
    {
      SortStep(env, messages, k);
      match MoveCandidate(env, messages[k]) {
        case Err(e) =>
          AssignNext(outcomes0, SortMessages(env, messages[..k]).rejected, Attempt(messages[k], Some(e)));
          outcomes := outcomes[messages[k].headerId := Some(e)];
        case Ok(c) =>
          groups := AddCandidate(groups, c);
      }
    }
    assert messages[..|messages|] == messages;
  }

  lemma SortEmpty(env: Env, outcomes: Outcomes)
    ensures SortMessages(env, []) == Sorted([], []) && Assign(outcomes, []) == outcomes
  {
  }

  lemma MoveStep(env: Env, w: World, candidates: seq<Candidate>, gmail: bool, k: nat)
    requires k < |candidates|
    ensures var front := MoveCandidates(env, w, candidates[..k], gmail);
            var (after, error) := MoveOne(env, front.world, candidates[k], gmail);
            MoveCandidates(env, w, candidates[..k + 1], gmail) == Done(after, front.attempts + [Attempt(candidates[k].message, error)])
  {
    hide MoveOne;
    assert candidates[..k + 1][..k] == candidates[..k];
  }

  lemma FailStep(candidates: seq<Candidate>, e: TrashError, k: nat)
    requires k < |candidates|
    ensures FailAll(candidates[..k + 1], e) == FailAll(candidates[..k], e) + [Attempt(candidates[k].message, Some(e))]
  {
    assert candidates[..k + 1][..k] == candidates[..k];
  }

  lemma NothingMoved(env: Env, w: World, gmail: bool, e: TrashError, outcomes: Outcomes)
    ensures MoveCandidates(env, w, [], gmail) == Done(w, []) && FailAll([], e) == [] && Assign(outcomes, []) == outcomes
  {
  }

  /** The inner loop: a failed move is recorded and does not stop the others. */
  method MoveInSession(env: Env, server: Server, session: TrashSession, candidates: seq<Candidate>, outcomes0: Outcomes)
    returns (outcomes: Outcomes)
    requires session.open
    modifies server
    ensures server.world == MoveCandidates(env, old(server.world), candidates, session.gmailExtensions).world
    ensures outcomes == Assign(outcomes0, MoveCandidates(env, old(server.world), candidates, session.gmailExtensions).attempts)
  {
    hide MoveCandidates, MoveOne, Assign;
    outcomes := outcomes0;
    ghost var start := server.world;
    var gmail := session.gmailExtensions;
    NothingMoved(env, start, gmail, MoveFailed, outcomes0);
    for k := 0 to |candidates|
      invariant server.world == MoveCandidates(env, start, candidates[..k], gmail).world
      invariant outcomes == Assign(outcomes0, MoveCandidates(env, start, candidates[..k], gmail).attempts)
    {
      ghost var before := server.world;
      var error := session.Move(env, server, candidates[k]);
      MoveStep(env, start, candidates, gmail, k);
      AssignNext(outcomes0, MoveCandidates(env, start, candidates[..k], gmail).attempts, Attempt(candidates[k].message, error));
      outcomes := outcomes[candidates[k].message.headerId := error];
    }
    assert candidates[..|candidates|] == candidates;
  }

  /** The outer exception handler: the session error becomes the outcome of the whole group. */
  method FailGroup(candidates: seq<Candidate>, e: TrashError, outcomes0: Outcomes) returns (outcomes: Outcomes)
    ensures outcomes == Assign(outcomes0, FailAll(candidates, e))
  {
    hide Assign, FailAll;
    outcomes := outcomes0;
    FailNone(e, outcomes0);
    for k := 0 to |candidates|
      invariant outcomes == Assign(outcomes0, FailAll(candidates[..k], e))
    {
      FailStep(candidates, e, k);
      AssignNext(outcomes0, FailAll(candidates[..k], e), Attempt(candidates[k].message, Some(e)));
      outcomes := outcomes[candidates[k].message.headerId := Some(e)];
    }
    assert candidates[..|candidates|] == candidates;
  }

  lemma FailNone(e: TrashError, outcomes: Outcomes)
    ensures FailAll([], e) == [] && Assign(outcomes, []) == outcomes
  {
  }

  lemma GroupStep(env: Env, w: World, groups: seq<Group>, k: nat)
    requires k < |groups|
    ensures var front := MoveGroups(env, w, groups[..k]);
            var last := MoveGroup(env, front.world, groups[k]);
            MoveGroups(env, w, groups[..k + 1]) == Done(last.world, front.attempts + last.attempts)
    ensures MoveGroups(env, w, []) == Done(w, [])
  {
    hide MoveGroup;
    assert groups[..k + 1][..k] == groups[..k];
  }

  /** One round of the outer loop. */
  method MoveOneGroup(env: Env, server: Server, g: Group, outcomes0: Outcomes) returns (outcomes: Outcomes)
    modifies server
    ensures server.world == MoveGroup(env, old(server.world), g).world
    ensures outcomes == Assign(outcomes0, MoveGroup(env, old(server.world), g).attempts)
  {
    hide Assign, FailAll, MoveCandidates, Enter;
    var session := new TrashSession(g.account);
    var error := session.Enter(env, server);
    if error.Some? {
      outcomes := FailGroup(g.candidates, error.value, outcomes0);
    } else {
      outcomes := MoveInSession(env, server, session, g.candidates, outcomes0);
    }
  }

  /** `move_messages_to_trash`. */
  method MoveMessagesToTrash(env: Env, server: Server, messages: seq<Message>) returns (outcomes: Outcomes)
    modifies server
    ensures server.world == MoveAll(env, old(server.world), messages).world
    ensures outcomes == MoveOutcomes(env, old(server.world), messages)
  {
    hide Assign, MoveGroup, MoveGroups, SortMessages, Initial;
    ghost var start := server.world;
    outcomes := StartOutcomes(messages);
    var groups;
    groups, outcomes := GroupMessages(env, messages, outcomes);
    ghost var first := outcomes;
    AssignNone(first);
    NoGroupsMoved(env, start);
    for k := 0 to |groups|
      invariant server.world == MoveGroups(env, start, groups[..k]).world
      invariant outcomes == Assign(first, MoveGroups(env, start, groups[..k]).attempts)
    {
      GroupStep(env, start, groups, k);
      AssignAppend(first, MoveGroups(env, start, groups[..k]).attempts, MoveGroup(env, server.world, groups[k]).attempts);
      outcomes := MoveOneGroup(env, server, groups[k], outcomes);
    }
    assert groups[..|groups|] == groups;
    AssignAppend(Initial(messages), SortMessages(env, messages).rejected, MoveGroups(env, start, groups).attempts);
  }

  lemma NoGroupsMoved(env: Env, w: World)
    ensures MoveGroups(env, w, []) == Done(w, [])
  {
  }

  lemma AssignNone(outcomes: Outcomes)
    ensures Assign(outcomes, []) == outcomes
  {
  }
}
