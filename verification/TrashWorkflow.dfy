/**
 * Proposal and commit of a Trash batch: `TrashWorkflow` in
 * examples/mail_assistant/trash_workflow.py.
 */
module TrashWorkflow {
  import opened Common
  import opened ImapSession
  import opened TrashBatch
  import opened TrashResults

  // --------------------------------------------------------------------- preflight

  /** `verify` for the candidates of one open session; the first error ends it. */
  function VerifyCandidates(env: Env, w: World, candidates: seq<Candidate>, gmail: bool): (r: (World, Option<TrashError>))
    ensures SameMail(w, r.0)
    decreases |candidates|
  {
    if candidates == [] then (w, None)
    else
      var found := UniqueMatch(env, w, candidates[0], gmail, true);
      if found.result.Err? then (found.world, Some(found.result.error))
      else VerifyCandidates(env, found.world, candidates[1..], gmail)
  }

  function VerifyGroups(env: Env, w: World, groups: seq<Group>): (r: (World, Option<TrashError>))
    ensures SameMail(w, r.0)
    decreases |groups|
  {
    if groups == [] then (w, None)
    else
      var session := Enter(env, w, groups[0].account);
      if session.result.Err? then (session.world, Some(session.result.error))
      else
        var (after, error) := VerifyCandidates(env, session.world, groups[0].candidates, session.result.value);
        if error.Some? then (after, error) else VerifyGroups(env, after, groups[1..])
  }

  /** `verify_messages_available_for_move`; an unusable message raises before any session. */
  function Verify(env: Env, w: World, messages: seq<Message>): (r: (World, Option<TrashError>))
    ensures SameMail(w, r.0)
  {
    var sorted := SortMessages(env, messages);
    if sorted.rejected != [] then (w, sorted.rejected[0].error) else VerifyGroups(env, w, sorted.groups)
  }

  /**
   * Between two moments of the preflight a session of the candidate's account was
   * opened, and a search in it, with that session's extensions, gave exactly one match.
   */
  ghost predicate SeenOnce(env: Env, w: World, w': World, c: Candidate) {
    exists before: World, v: World, gmail: bool ::
      SeenAt(env, w, before, v, w', c, gmail)
  }

  ghost predicate SeenAt(env: Env, w: World, before: World, v: World, w': World, c: Candidate, gmail: bool) {
    var session := Enter(env, before, c.account);
    var found := UniqueMatch(env, v, c, gmail, true);
    && SameMail(w, before) && session.result == Ok(gmail)
    && SameMail(session.world, v) && found.result.Ok?
    && SameMail(found.world, w')
  }

  lemma SameMailTrans(a: World, b: World, c: World)
    requires SameMail(a, b) && SameMail(b, c)
    ensures SameMail(a, c)
  {
  }

  lemma {:induction false} VerifiedCandidates(env: Env, w: World, before: World, start: World, candidates: seq<Candidate>, gmail: bool, a: Account)
    requires VerifyCandidates(env, start, candidates, gmail).1 == None
    requires SameMail(w, before) && Enter(env, before, a).result == Ok(gmail) && SameMail(Enter(env, before, a).world, start)
    requires forall c :: c in candidates ==> c.account == a
    ensures forall c :: c in candidates ==> SeenOnce(env, w, VerifyCandidates(env, start, candidates, gmail).0, c)
    decreases |candidates|
  {
    hide UniqueMatch, Enter, SameMail, SeenOnce, SeenAt;
    if candidates != [] {
      var c := candidates[0];
      var found := UniqueMatch(env, start, c, gmail, true);
      SameMailTrans(Enter(env, before, a).world, start, found.world);
      VerifiedCandidates(env, w, before, found.world, candidates[1..], gmail, a);
      SeenNow(env, w, before, start, VerifyCandidates(env, start, candidates, gmail).0, c, gmail);
    }
  }

  lemma SeenNow(env: Env, w: World, before: World, v: World, w': World, c: Candidate, gmail: bool)
    requires SameMail(w, before) && Enter(env, before, c.account).result == Ok(gmail)
    requires SameMail(Enter(env, before, c.account).world, v) && UniqueMatch(env, v, c, gmail, true).result.Ok?
    requires SameMail(UniqueMatch(env, v, c, gmail, true).world, w')
    ensures SeenOnce(env, w, w', c)
  {
    hide UniqueMatch, Enter, SameMail;
    assert SeenAt(env, w, before, v, w', c, gmail);
  }

  /** What was seen in a part of a run was seen in the run. */
  lemma SeenLonger(env: Env, w0: World, w: World, w': World, w1: World, c: Candidate)
    requires SeenOnce(env, w, w', c) && SameMail(w0, w) && SameMail(w', w1)
    ensures SeenOnce(env, w0, w1, c)
  {
    hide UniqueMatch, Enter, SameMail;
    var before: World, v: World, gmail: bool :| SeenAt(env, w, before, v, w', c, gmail);
    var found := UniqueMatch(env, v, c, gmail, true);
    SameMailTrans(w0, w, before);
    SameMailTrans(found.world, w', w1);
    assert SeenAt(env, w0, before, v, w1, c, gmail);
  }

  lemma SameMailSelf(w: World)
    ensures SameMail(w, w)
  {
  }

  lemma {:induction false} VerifiedGroups(env: Env, w: World, groups: seq<Group>)
    requires VerifyGroups(env, w, groups).1 == None && WellGrouped(env, groups)
    ensures forall g, c :: g in groups && c in g.candidates ==> SeenOnce(env, w, VerifyGroups(env, w, groups).0, c)
    decreases |groups|
  {
    hide SeenOnce, VerifyCandidates, Enter, SameMail, MoveCandidate;
    if groups != [] {
      var g := groups[0];
      var session := Enter(env, w, g.account);
      var after := VerifyCandidates(env, session.world, g.candidates, session.result.value).0;
      var end := VerifyGroups(env, w, groups).0;
      SameMailSelf(w);
      SameMailSelf(session.world);
      assert RightGroup(env, g);
      VerifiedCandidates(env, w, w, session.world, g.candidates, session.result.value, g.account);
      VerifiedGroups(env, after, groups[1..]);
      SameMailTrans(w, session.world, after);
      SameMailSelf(end);
      forall h, c | h in groups && c in h.candidates
        ensures SeenOnce(env, w, end, c)
      {
        if h == g {
          SeenLonger(env, w, w, after, end, c);
        } else {
          SeenLonger(env, w, after, end, end, c);
        }
      }
    }
  }

  lemma {:induction false} GroupedMember(groups: seq<Group>, m: Message)
    requires m in GroupedMessages(groups)
    ensures exists g, c :: g in groups && c in g.candidates && c.message == m
  {
    if m in MessagesOf(groups[0].candidates) {
      MessageMember(groups[0].candidates, m);
      assert groups[0] in groups;
    } else {
      GroupedMember(groups[1..], m);
    }
  }

  lemma {:induction false} MessageMember(candidates: seq<Candidate>, m: Message)
    requires m in MessagesOf(candidates)
    ensures exists c :: c in candidates && c.message == m
  {
    var n := |candidates| - 1;
    if candidates[n].message == m {
      assert candidates[n] in candidates;
    } else {
      MessageMember(candidates[..n], m);
    }
  }

  ghost predicate FoundIn(env: Env, w: World, w': World, m: Message) {
    MoveCandidate(env, m).Ok? && SeenOnce(env, w, w', MoveCandidate(env, m).value)
  }

  /** Between two moments the message's own preflight answered that it was not found. */
  ghost predicate MissedIn(env: Env, w: World, w': World, m: Message) {
    exists v: World :: MissedAt(env, w, v, w', m)
  }

  ghost predicate MissedAt(env: Env, w: World, v: World, w': World, m: Message) {
    SameMail(w, v) && Verify(env, v, [m]).1 == Some(NotFound) && SameMail(Verify(env, v, [m]).0, w')
  }

  lemma MissedLonger(env: Env, w0: World, w: World, w': World, w1: World, m: Message)
    requires MissedIn(env, w, w', m) && SameMail(w0, w) && SameMail(w', w1)
    ensures MissedIn(env, w0, w1, m)
  {
    hide Verify, SameMail;
    var v: World :| MissedAt(env, w, v, w', m);
    SameMailTrans(w0, w, v);
    SameMailTrans(Verify(env, v, [m]).0, w', w1);
    assert MissedAt(env, w0, v, w1, m);
  }

  lemma MissedNow(env: Env, w0: World, v: World, m: Message)
    requires SameMail(w0, v) && Verify(env, v, [m]).1 == Some(NotFound)
    ensures MissedIn(env, w0, Verify(env, v, [m]).0, m)
  {
    hide Verify;
    assert MissedAt(env, w0, v, Verify(env, v, [m]).0, m);
  }

  lemma FoundLonger(env: Env, w0: World, w: World, w': World, w1: World, m: Message)
    requires FoundIn(env, w, w', m) && SameMail(w0, w) && SameMail(w', w1)
    ensures FoundIn(env, w0, w1, m)
  {
    hide SeenOnce, SameMail, MoveCandidate;
    SeenLonger(env, w0, w, w', w1, MoveCandidate(env, m).value);
  }

  /** A preflight without an error has found every message of the batch exactly once while it ran. */
  lemma VerifiedIsFound(env: Env, w: World, messages: seq<Message>, m: Message)
    requires Verify(env, w, messages).1 == None && m in messages
    ensures FoundIn(env, w, Verify(env, w, messages).0, m)
  {
    hide MoveCandidate, SortMessages, VerifyGroups, SeenOnce, Tried;
    SortedCover(env, messages);
    var sorted := SortMessages(env, messages);
    assert sorted.rejected == [];
    assert m in multiset(messages);
    NoAttempts();
    assert m in GroupedMessages(sorted.groups);
    GroupedMember(sorted.groups, m);
    var g, c :| g in sorted.groups && c in g.candidates && c.message == m;
    VerifiedGroups(env, w, sorted.groups);
    assert RightGroup(env, g);
  }

  // ------------------------------------------------------------ available messages

  /** The state of `_filter_available_rows`; `error` is an exception that leaves the loop. */
  datatype Filtered = Filtered(world: World, available: seq<Message>, skipped: seq<Message>, error: Option<TrashError>)

  function FilterNext(env: Env, f: Filtered, m: Message): Filtered {
    if f.error.Some? then f
    else
      var (after, error) := Verify(env, f.world, [m]);
      if error == None then f.(world := after, available := f.available + [m])
      else if error == Some(NotFound) then f.(world := after, skipped := f.skipped + [m])
      else f.(world := after, error := error)
  }

  function FilterRows(env: Env, w: World, messages: seq<Message>): Filtered {
    if messages == [] then Filtered(w, [], [], None)
    else FilterNext(env, FilterRows(env, w, messages[..|messages| - 1]), messages[|messages| - 1])
  }

  /** Two lists that together are the third, each in its order. */
  ghost predicate Merges(a: seq<Message>, b: seq<Message>, all: seq<Message>) {
    if all == [] then a == [] && b == []
    else
      var n := |all| - 1;
      || (a != [] && a[|a| - 1] == all[n] && Merges(a[..|a| - 1], b, all[..n]))
      || (b != [] && b[|b| - 1] == all[n] && Merges(a, b[..|b| - 1], all[..n]))
  }

  /** Every available message was found, and every skipped one missed, between the two moments. */
  ghost predicate SortedByRun(env: Env, w: World, w': World, available: seq<Message>, skipped: seq<Message>) {
    && (forall m :: m in available ==> FoundIn(env, w, w', m))
    && (forall m :: m in skipped ==> MissedIn(env, w, w', m))
  }

  lemma SortedLonger(env: Env, w0: World, w: World, w': World, w1: World, available: seq<Message>, skipped: seq<Message>)
    requires SortedByRun(env, w, w', available, skipped) && SameMail(w0, w) && SameMail(w', w1)
    ensures SortedByRun(env, w0, w1, available, skipped)
  {
    hide FoundIn, MissedIn, SameMail;
    forall m | m in available
      ensures FoundIn(env, w0, w1, m)
    {
      FoundLonger(env, w0, w, w', w1, m);
    }
    forall m | m in skipped
      ensures MissedIn(env, w0, w1, m)
    {
      MissedLonger(env, w0, w, w', w1, m);
    }
  }

  lemma FilterNextFacts(env: Env, w: World, f: Filtered, m: Message)
    requires SameMail(w, f.world) && SortedByRun(env, w, f.world, f.available, f.skipped)
    ensures var f' := FilterNext(env, f, m);
            SameMail(w, f'.world) && SortedByRun(env, w, f'.world, f'.available, f'.skipped)
  {
    hide FoundIn, MissedIn, SameMail, Verify;
    if f.error.None? {
      var (after, error) := Verify(env, f.world, [m]);
      SameMailTrans(w, f.world, after);
      SameMailSelf(w);
      SortedLonger(env, w, w, f.world, after, f.available, f.skipped);
      if error == None {
        VerifiedIsFound(env, f.world, [m], m);
        SameMailSelf(after);
        FoundLonger(env, w, f.world, after, after, m);
      } else if error == Some(NotFound) {
        MissedNow(env, w, f.world, m);
      }
    }
  }

  lemma {:induction false} FilterFacts(env: Env, w: World, messages: seq<Message>)
    ensures var f := FilterRows(env, w, messages);
            && SameMail(w, f.world) && f.error != Some(NotFound)
            && (f.error.None? ==> Merges(f.available, f.skipped, messages))
            && SortedByRun(env, w, f.world, f.available, f.skipped)
  {
    hide Verify, Merges, FoundIn, MissedIn, SameMail;
    if messages == [] {
      MergesNothing();
      SameMailSelf(w);
    } else {
      var n := |messages| - 1;
      FilterFacts(env, w, messages[..n]);
      var f := FilterRows(env, w, messages[..n]);
      FilterNextFacts(env, w, f, messages[n]);
      if f.error.None? {
        MergesNext(f.available, f.skipped, messages[..n], messages[n]);
        assert messages == messages[..n] + [messages[n]];
      }
    }
  }

  lemma MergesNothing()
    ensures Merges([], [], [])
  {
  }

  lemma MergesNext(a: seq<Message>, b: seq<Message>, all: seq<Message>, m: Message)
    requires Merges(a, b, all)
    ensures Merges(a + [m], b, all + [m]) && Merges(a, b + [m], all + [m])
  {
    assert (all + [m])[..|all|] == all && (a + [m])[..|a|] == a && (b + [m])[..|b|] == b;
  }

  lemma FilterStep(env: Env, w: World, messages: seq<Message>, k: nat)
    requires k < |messages|
    ensures FilterRows(env, w, messages[..k + 1]) == FilterNext(env, FilterRows(env, w, messages[..k]), messages[k])
    ensures FilterRows(env, w, []) == Filtered(w, [], [], None)
  {
    assert messages[..k + 1][..k] == messages[..k];
  }

  // ---------------------------------------------------------------------- proposals

  type Pending = map<string, (seq<string>, int)>

  datatype ProposalError = Invalid(error: TrashError) | Unavailable(skipped: seq<Message>) | Failed(error: TrashError)

  datatype Proposal = Proposal(available: seq<Message>, skipped: seq<Message>)

  /** The first message that cannot be a candidate. */
  function FirstInvalid(env: Env, messages: seq<Message>): Option<TrashError> {
    if messages == [] then None
    else
      match FirstInvalid(env, messages[..|messages| - 1])
      case Some(e) => Some(e)
      case None =>
        match MoveCandidate(env, messages[|messages| - 1])
        case Err(e) => Some(e)
        case Ok(_) => None
  }

  /** The messages a proposal covers, or why there is none. */
  function Survey(env: Env, w: World, messages: seq<Message>): (World, Result<Proposal, ProposalError>) {
    var invalid := FirstInvalid(env, messages);
    if invalid.Some? then (w, Err(Invalid(invalid.value)))
    else
      var (after, error) := Verify(env, w, messages);
      if error == None then (after, Ok(Proposal(messages, [])))
      else if error != Some(NotFound) then (after, Err(Failed(error.value)))
      else
        var f := FilterRows(env, after, messages);
        if f.error.Some? then (f.world, Err(Failed(f.error.value)))
        else if f.available == [] && f.skipped != [] then (f.world, Err(Unavailable(f.skipped)))
        else (f.world, Ok(Proposal(f.available, f.skipped)))
  }

  /**
   * A proposal sorts every message, in order, into available ones, each found
   * exactly once while it ran, and skipped ones, each not found by its own
   * preflight; it changes no mail.
   */
  lemma SurveyFacts(env: Env, w: World, messages: seq<Message>)
    ensures var (after, result) := Survey(env, w, messages);
            && SameMail(w, after)
            && (result.Ok? ==> Merges(result.value.available, result.value.skipped, messages))
            && (result.Ok? ==> forall m :: m in messages ==> MoveCandidate(env, m).Ok?)
            && (result.Ok? ==> SortedByRun(env, w, after, result.value.available, result.value.skipped))
            && (result.Err? && result.error.Unavailable? ==> SortedByRun(env, w, after, [], result.error.skipped))
            && (result.Ok? && messages != [] ==> result.value.available != [])
  {
    hide Verify, Merges, FilterRows, MoveCandidate, FirstInvalid, FoundIn, MissedIn, SameMail;
    NoneInvalid(env, messages);
    SameMailSelf(w);
    AllAvailable(messages);
    var (after, error) := Verify(env, w, messages);
    if error == None {
      forall m | m in messages
        ensures FoundIn(env, w, after, m)
      {
        VerifiedIsFound(env, w, messages, m);
      }
    }
    FilterFacts(env, after, messages);
    var f := FilterRows(env, after, messages);
    SameMailTrans(w, after, f.world);
    SameMailSelf(f.world);
    SortedLonger(env, w, after, f.world, f.world, f.available, f.skipped);
    if messages != [] {
      MergesSomething(f.available, f.skipped, messages);
    }
  }

  lemma MergesSomething(a: seq<Message>, b: seq<Message>, all: seq<Message>)
    requires all != []
    ensures !Merges([], [], all)
  {
  }

  lemma {:induction false} NoneInvalid(env: Env, messages: seq<Message>)
    ensures FirstInvalid(env, messages).None? <==> forall m :: m in messages ==> MoveCandidate(env, m).Ok?
  {
    hide MoveCandidate;
    if messages != [] {
      NoneInvalid(env, messages[..|messages| - 1]);
      assert messages == messages[..|messages| - 1] + [messages[|messages| - 1]];
    }
  }

  lemma {:induction false} AllAvailable(messages: seq<Message>)
    ensures Merges(messages, [], messages)
  {
    if messages != [] {
      AllAvailable(messages[..|messages| - 1]);
    }
  }

  function IdsOf(messages: seq<Message>): (r: seq<string>)
    ensures |r| == |messages| && forall i :: 0 <= i < |r| ==> r[i] == messages[i].headerId
  {
    if messages == [] then [] else IdsOf(messages[..|messages| - 1]) + [messages[|messages| - 1].headerId]
  }

  /** `value[1] < now` is purged. */
  function Purged(pending: Pending, now: int): Pending {
    map t | t in pending && pending[t].1 >= now :: pending[t]
  }

  function Add(pending: Pending, token: string, ids: seq<string>, now: int, ttl: int): Pending {
    Purged(pending, now)[token := (ids, now + ttl)]
  }

  function Taken(pending: Pending, token: string, now: int): Option<seq<string>> {
    if token in pending && pending[token].1 >= now then Some(pending[token].0) else None
  }

  // ------------------------------------------------------------------------ commit

  datatype Status = WasMoved | WasNotMoved(error: TrashError)

  datatype TrashOutcome = TrashOutcome(id: string, subject: string, status: Status)

  /** `move_results.get(id)`: a missing id reads as moved. */
  function OutcomeFor(results: Outcomes, m: Message): TrashOutcome {
    var detail := if m.headerId in results then results[m.headerId] else None;
    TrashOutcome(m.headerId, m.subject, if detail.None? then WasMoved else WasNotMoved(detail.value))
  }

  class Workflow {
    const ttl: int
    var pending: Pending

    constructor (ttl: int)
      ensures this.ttl == ttl && pending == map[]
    {
      this.ttl := ttl;
      pending := map[];
    }

    /** `_filter_available_rows`. */
    method FilterAvailableRows(env: Env, server: Server, messages: seq<Message>)
      returns (available: seq<Message>, skipped: seq<Message>, error: Option<TrashError>)
      modifies server
      ensures Filtered(server.world, available, skipped, error) == FilterRows(env, old(server.world), messages)
    {
      hide FilterRows, Verify;
      ghost var start := server.world;
      available, skipped, error := [], [], None;
      if messages != [] {
        FilterStep(env, start, messages, 0);
      } else {
        FilterNothing(env, start);
      }
      for k := 0 to |messages|
        invariant Filtered(server.world, available, skipped, error) == FilterRows(env, start, messages[..k])
        invariant error == None
      {
        FilterStep(env, start, messages, k);
        var found := Verify(env, server.world, [messages[k]]);
        server.world := found.0;
        if found.1 == None {
          available := available + [messages[k]];
        } else if found.1 == Some(NotFound) {
          skipped := skipped + [messages[k]];
        } else {
          error := found.1;
          FilterStays(env, start, messages, k + 1);
          return;
        }
      }
      assert messages[..|messages|] == messages;
    }

    /** `propose`; the token is a fresh random value. */
    method Propose(env: Env, server: Server, messages: seq<Message>, token: string, now: int)
      returns (result: Result<Proposal, ProposalError>)
      modifies this, server
      ensures (server.world, result) == Survey(env, old(server.world), messages)
      ensures pending == if result.Ok? then Add(old(pending), token, IdsOf(result.value.available), now, ttl) else old(pending)
    {
      hide Verify, FilterRows, FirstInvalid, IdsOf;
      var invalid := FirstInvalid(env, messages);
      if invalid.Some? {
        return Err(Invalid(invalid.value));
      }
      var verified := Verify(env, server.world, messages);
      server.world := verified.0;
      var available, skipped := messages, [];
      if verified.1 == Some(NotFound) {
        var error;
        available, skipped, error := FilterAvailableRows(env, server, messages);
        if error.Some? {
          return Err(Failed(error.value));
        }
        if available == [] && skipped != [] {
          return Err(Unavailable(skipped));
        }
      } else if verified.1.Some? {
        return Err(Failed(verified.1.value));
      }
      pending := Purged(pending, now);
      pending := pending[token := (IdsOf(available), now + ttl)];
      result := Ok(Proposal(available, skipped));
    }

    /** `pop_pending`: the entry goes even when it has expired. */
    method PopPending(token: string, now: int) returns (ids: Option<seq<string>>)
      modifies this
      ensures ids == Taken(old(pending), token, now)
      ensures pending == old(pending) - {token}
    {
      ids := Taken(pending, token, now);
      pending := pending - {token};
    }

    /** `commit`. */
    method Commit(env: Env, server: Server, messages: seq<Message>) returns (outcomes: seq<TrashOutcome>)
      modifies server
      ensures server.world == if messages == [] then old(server.world) else MoveAll(env, old(server.world), messages).world
      ensures |outcomes| == |messages|
      ensures forall i :: 0 <= i < |messages| ==>
                outcomes[i] == OutcomeFor(MoveOutcomes(env, old(server.world), messages), messages[i])
      ensures forall i :: 0 <= i < |messages| ==>
                outcomes[i].id == messages[i].headerId && outcomes[i].subject == messages[i].subject
    {
      hide MoveAll, MoveOutcomes;
      outcomes := [];
      if messages == [] {
        return;
      }
      var results := MoveMessagesToTrash(env, server, messages);
      for k := 0 to |messages|
        invariant |outcomes| == k
        invariant forall i :: 0 <= i < k ==> outcomes[i] == OutcomeFor(results, messages[i])
      {
        outcomes := outcomes + [OutcomeFor(results, messages[k])];
      }
    }
  }

  lemma FilterNothing(env: Env, w: World)
    ensures FilterRows(env, w, []) == Filtered(w, [], [], None)
  {
  }

  /** Once an exception has left the loop nothing changes. */
  lemma {:induction false} FilterStays(env: Env, w: World, messages: seq<Message>, k: nat)
    requires k <= |messages| && FilterRows(env, w, messages[..k]).error.Some?
    ensures FilterRows(env, w, messages) == FilterRows(env, w, messages[..k])
    decreases |messages| - k
  {
    hide FilterRows;
    if k == |messages| {
      assert messages[..k] == messages;
    } else {
      FilterStep(env, w, messages, k);
      FilterStays(env, w, messages, k + 1);
    }
  }

  /** With distinct Message-IDs a message is reported as moved exactly when its UID MOVE returned OK. */
  lemma CommitReportsTheTruth(env: Env, w: World, messages: seq<Message>, m: Message)
    requires ValidWorld(w) && DistinctIds(messages) && m in messages
    ensures w.moves <= MoveAll(env, w, messages).world.moves
    ensures var outcome := OutcomeFor(MoveOutcomes(env, w, messages), m);
            && outcome.id == m.headerId && outcome.subject == m.subject
            && (outcome.status.WasMoved? <==> MovedOnServer(w, MoveAll(env, w, messages).world, m))
  {
    hide MoveAll, MoveOutcomes, DistinctIds, MovedOnServer;
    OutcomeNoneIffMoved(env, w, messages, m);
  }

  // ------------------------------------------------------------------ runs of tokens

  datatype Event = Proposed(token: string, ids: seq<string>, now: int) | Popped(token: string, now: int)

  function Step(pending: Pending, e: Event, ttl: int): Pending {
    match e
    case Proposed(token, ids, now) => Add(pending, token, ids, now, ttl)
    case Popped(token, now) => pending - {token}
  }

  /** The pending proposals after a run of the workflow. */
  function Run(events: seq<Event>, ttl: int): Pending {
    if events == [] then map[] else Step(Run(events[..|events| - 1], ttl), events[|events| - 1], ttl)
  }

  /** What the pop at a position hands out. */
  function HandedOut(events: seq<Event>, ttl: int, i: nat): Option<seq<string>>
    requires i < |events|
  {
    match events[i]
    case Proposed(_, _, _) => None
    case Popped(token, now) => Taken(Run(events[..i], ttl), token, now)
  }

  /** Tokens are random: no two proposals share one. */
  ghost predicate FreshTokens(events: seq<Event>) {
    forall i, j :: 0 <= i < j < |events| && events[i].Proposed? && events[j].Proposed? ==> events[i].token != events[j].token
  }

  /** The event pops the token, or is a proposal that finds the entry expired. */
  ghost predicate Removes(e: Event, token: string, expiry: int) {
    match e
    case Proposed(_, _, now) => now > expiry
    case Popped(t, _) => t == token
  }

  /** Position `p` proposed the entry and nothing has removed it since. */
  ghost predicate Origin(events: seq<Event>, n: nat, ttl: int, token: string, entry: (seq<string>, int), p: nat)
    requires n <= |events|
  {
    && p < n && events[p].Proposed? && events[p].token == token
    && entry == (events[p].ids, events[p].now + ttl)
    && forall q :: p < q < n ==> !Removes(events[q], token, entry.1)
  }

  lemma {:induction false} PendingHasOrigin(events: seq<Event>, n: nat, ttl: int, token: string) returns (p: nat)
    requires n <= |events| && token in Run(events[..n], ttl)
    ensures Origin(events, n, ttl, token, Run(events[..n], ttl)[token], p)
  {
    assert n > 0;
    assert events[..n][..n - 1] == events[..n - 1];
    var e := events[n - 1];
    if e.Proposed? && e.token == token {
      p := n - 1;
    } else {
      p := PendingHasOrigin(events, n - 1, ttl, token);
    }
  }

  lemma {:induction false} OriginIsPending(events: seq<Event>, n: nat, ttl: int, token: string, entry: (seq<string>, int), p: nat)
    requires FreshTokens(events) && n <= |events| && Origin(events, n, ttl, token, entry, p)
    ensures token in Run(events[..n], ttl) && Run(events[..n], ttl)[token] == entry
  {
    hide FreshTokens;
    assert events[..n][..n - 1] == events[..n - 1];
    if p < n - 1 {
      OriginIsPending(events, n - 1, ttl, token, entry, p);
      assert !Removes(events[n - 1], token, entry.1);
      if events[n - 1].Proposed? {
        SharedToken(events, p, n - 1);
      }
    }
  }

  /** A pop hands out exactly the ids of the one proposal with its token, within the time to live. */
  lemma HandedOutAsProposed(events: seq<Event>, ttl: int, i: nat) returns (p: nat)
    requires i < |events| && HandedOut(events, ttl, i).Some?
    ensures p < i && events[p].Proposed? && events[p].token == events[i].token
    ensures HandedOut(events, ttl, i) == Some(events[p].ids) && events[i].now <= events[p].now + ttl
  {
    hide Run;
    p := PendingHasOrigin(events, i, ttl, events[i].token);
  }

  /**
   * A pop hands out these ids exactly when some proposal has its token and the
   * ids, nothing has removed it since, and its time to live is not over.
   */
  lemma HandedOutIff(events: seq<Event>, ttl: int, i: nat, ids: seq<string>)
    requires FreshTokens(events) && i < |events| && events[i].Popped?
    ensures HandedOut(events, ttl, i) == Some(ids) <==>
              exists p: nat, expiry: int :: Origin(events, i, ttl, events[i].token, (ids, expiry), p) && events[i].now <= expiry
  {
    hide Run, FreshTokens, Origin;
    var token, pending := events[i].token, Run(events[..i], ttl);
    if HandedOut(events, ttl, i) == Some(ids) {
      var p := PendingHasOrigin(events, i, ttl, token);
      assert pending[token] == (ids, pending[token].1);
      assert Origin(events, i, ttl, token, (ids, pending[token].1), p) && events[i].now <= pending[token].1;
    }
    forall p: nat, expiry: int | Origin(events, i, ttl, token, (ids, expiry), p) && events[i].now <= expiry
      ensures HandedOut(events, ttl, i) == Some(ids)
    {
      OriginIsPending(events, i, ttl, token, (ids, expiry), p);
    }
  }

  /** No token is handed out twice. */
  lemma HandedOutOnce(events: seq<Event>, ttl: int, i: nat, j: nat)
    requires FreshTokens(events) && i < j < |events|
    requires HandedOut(events, ttl, i).Some? && HandedOut(events, ttl, j).Some?
    ensures events[i].token != events[j].token
  {
    hide Run, FreshTokens;
    if events[i].token == events[j].token {
      var p := PendingHasOrigin(events, i, ttl, events[i].token);
      var q := PendingHasOrigin(events, j, ttl, events[j].token);
      assert q > i;
      SharedToken(events, p, q);
    }
  }

  lemma SharedToken(events: seq<Event>, p: nat, q: nat)
    requires FreshTokens(events) && p < q < |events| && events[p].Proposed? && events[q].Proposed?
    ensures events[p].token != events[q].token
  {
  }

  /** A proposal is still to be had at its token until it expires or is popped, whatever else is proposed. */
  lemma {:induction false} ProposalSurvives(events: seq<Event>, n: nat, ttl: int, p: nat)
    requires FreshTokens(events) && p < n <= |events| && events[p].Proposed?
    requires forall q :: p < q < n ==> events[q].now <= events[p].now + ttl
    requires forall q :: p < q < n ==> !(events[q].Popped? && events[q].token == events[p].token)
    ensures var pending := Run(events[..n], ttl);
            events[p].token in pending && pending[events[p].token] == (events[p].ids, events[p].now + ttl)
  {
    hide FreshTokens;
    assert events[..n][..n - 1] == events[..n - 1];
    if p < n - 1 {
      ProposalSurvives(events, n - 1, ttl, p);
      if events[n - 1].Proposed? {
        SharedToken(events, p, n - 1);
      }
    }
  }
}
