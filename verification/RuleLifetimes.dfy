module RuleLifetimes {
  // How long a rule proposal can be committed, over every run of proposals,
  // commits and outside edits (examples/mail_assistant/rules.py:189-229): its
  // token is pending until a commit names it or a later proposal finds it expired,
  // and a commit of it succeeds within its time to live on an unchanged file.

  import opened Common
  import opened RuleTransactions

  /** What the event at position `i` of the run answers when it is a proposal. */
  function Answer(c: Config, initial: string, events: seq<Event>, i: nat): Result<Token, ProposeError>
    requires i < |events| && events[i].Propose?
  {
    ProposeStep(c, Run(c, initial, events[..i]).state, events[i].request, events[i].now, events[i].purgeNow).1
  }

  /** The file just before the event at position `i`. */
  function FileBefore(c: Config, initial: string, events: seq<Event>, i: nat): string
    requires i <= |events|
  {
    Run(c, initial, events[..i]).state.file
  }

  /** When the proposal of the event at `i` stops being good. */
  function Expiry(c: Config, events: seq<Event>, i: nat): real
    requires i < |events| && events[i].Propose?
  {
    events[i].now + c.ttl
  }

  /** The event ends a proposal with this token and expiry: it commits it, or it proposes and finds it expired. */
  ghost predicate Ends(c: Config, initial: string, events: seq<Event>, j: nat, token: Token, expiry: real)
    requires j < |events|
  {
    match events[j]
    case Commit(t, _) => t == token
    case Propose(_, _, purgeNow) => Answer(c, initial, events, j).Ok? && purgeNow > expiry
    case OutsideEdit(_) => false
  }

  /** The event at `i` proposed `token`, and nothing has ended that proposal. */
  ghost predicate Alive(c: Config, initial: string, events: seq<Event>, token: Token, i: nat) {
    && i < |events| && events[i].Propose? && Answer(c, initial, events, i) == Ok(token)
    && forall j :: i < j < |events| ==> !Ends(c, initial, events, j, token, Expiry(c, events, i))
  }

  /** What the event at `i` stored. */
  ghost predicate StoredBy(c: Config, initial: string, events: seq<Event>, i: nat, p: Pending)
    requires i < |events| && events[i].Propose?
  {
    var base := FileBefore(c, initial, events, i);
    && p.baseRevision == Sha256(base) && p.candidateDigest == Sha256(p.candidate)
    && p.expiresAt == Expiry(c, events, i) && Candidate(c, base, events[i].request) == Ok(p.candidate)
  }

  /** The pending proposals are the live ones. */
  ghost predicate Tracked(c: Config, initial: string, events: seq<Event>, token: Token) {
    var pending := Run(c, initial, events).state.pending;
    && (token in pending ==> exists i: nat :: Alive(c, initial, events, token, i))
    && (forall i: nat :: Alive(c, initial, events, token, i) ==>
          token in pending && StoredBy(c, initial, events, i, pending[token]))
  }

  lemma SamePast(c: Config, initial: string, events: seq<Event>, e: Event)
    ensures forall i :: 0 <= i <= |events| ==> (events + [e])[..i] == events[..i]
    ensures events[..|events|] == events
  {
  }

  /** What one more event does to the live proposals. */
  lemma AliveNext(c: Config, initial: string, events: seq<Event>, e: Event, token: Token, i: nat)
    ensures var all := events + [e];
            Alive(c, initial, all, token, i) <==>
              if i < |events| then
                Alive(c, initial, events, token, i) && events[i].Propose?
                && !Ends(c, initial, all, |events|, token, Expiry(c, events, i))
              else i == |events| && e.Propose? && Answer(c, initial, all, i) == Ok(token)
  {
    hide ProposeStep, Run, Candidate;
    SamePast(c, initial, events, e);
    var all := events + [e];
    assert forall j :: 0 <= j < |events| ==> all[j] == events[j];
    assert all[|events|] == e;
    if i < |events| && events[i].Propose? {
      EndsSoFar(c, initial, events, e, token, i);
    }
  }

  lemma EndsSoFar(c: Config, initial: string, events: seq<Event>, e: Event, token: Token, i: nat)
    requires i < |events| && events[i].Propose?
    ensures var all := events + [e];
            (forall j :: i < j < |all| ==> !Ends(c, initial, all, j, token, Expiry(c, all, i))) <==>
              && (forall j :: i < j < |events| ==> !Ends(c, initial, events, j, token, Expiry(c, events, i)))
              && !Ends(c, initial, all, |events|, token, Expiry(c, events, i))
  {
    hide ProposeStep, Run, Candidate, Ends;
    var all := events + [e];
    assert Expiry(c, all, i) == Expiry(c, events, i);
    forall j: nat | j < |events|
      ensures Ends(c, initial, all, j, token, Expiry(c, events, i)) <==> Ends(c, initial, events, j, token, Expiry(c, events, i))
    {
      EndsAgree(c, initial, events, e, j, token, Expiry(c, events, i));
    }
  }

  lemma EndsAgree(c: Config, initial: string, events: seq<Event>, e: Event, j: nat, token: Token, expiry: real)
    requires j < |events|
    ensures Ends(c, initial, events + [e], j, token, expiry) <==> Ends(c, initial, events, j, token, expiry)
  {
    hide ProposeStep, Run, Candidate;
    SamePast(c, initial, events, e);
    assert (events + [e])[j] == events[j];
  }

  lemma StoredNext(c: Config, initial: string, events: seq<Event>, e: Event, i: nat, p: Pending)
    requires i < |events| && events[i].Propose?
    ensures StoredBy(c, initial, events + [e], i, p) <==> StoredBy(c, initial, events, i, p)
  {
    hide Run, Candidate;
    SamePast(c, initial, events, e);
  }

  lemma RunNext(c: Config, initial: string, events: seq<Event>, e: Event)
    ensures Run(c, initial, events + [e]) == Observe(c, Run(c, initial, events), e)
  {
    hide Observe;
    assert (events + [e])[..|events|] == events;
  }

  /** A proposal keeps what has not expired at its purge and adds its own entry. */
  lemma ProposeEffect(c: Config, s: State, r: Request, now: real, purgeNow: real, token: Token)
    requires forall t :: t in s.pending ==> t < s.nextToken
    ensures var (s', result) := ProposeStep(c, s, r, now, purgeNow);
            && (result.Err? ==> s' == s)
            && (result == Ok(token) ==> token !in s.pending && token in s'.pending)
            && (result.Ok? && result.value != token ==>
                  (token in s'.pending <==> token in s.pending && s.pending[token].expiresAt >= purgeNow)
                  && (token in s'.pending ==> s'.pending[token] == s.pending[token]))
  {
    hide Candidate;
  }

  lemma ProposeStores(c: Config, s: State, r: Request, now: real, purgeNow: real)
    requires ProposeStep(c, s, r, now, purgeNow).1.Ok?
    ensures var (s', result) := ProposeStep(c, s, r, now, purgeNow);
            && result.value in s'.pending
            && var p := s'.pending[result.value];
               && p.baseRevision == Sha256(s.file) && p.candidateDigest == Sha256(p.candidate)
               && p.expiresAt == now + c.ttl && Candidate(c, s.file, r) == Ok(p.candidate)
  {
    hide Candidate;
  }

  lemma TrackedPropose(c: Config, initial: string, events: seq<Event>, e: Event, token: Token)
    requires e.Propose? && Tracked(c, initial, events, token)
    ensures Tracked(c, initial, events + [e], token)
  {
    hide ProposeStep, Run, Candidate, Alive, StoredBy;
    var m, all := Run(c, initial, events), events + [e];
    RunKeepsInv(c, initial, events);
    PendingBelow(c, initial, m);
    RunNext(c, initial, events, e);
    SamePast(c, initial, events, e);
    ProposeEffect(c, m.state, e.request, e.now, e.purgeNow, token);
    var answer := Answer(c, initial, all, |events|);
    forall i: nat
      ensures Alive(c, initial, all, token, i) <==>
                if i < |events| then
                  Alive(c, initial, events, token, i) && events[i].Propose? && !(answer.Ok? && e.purgeNow > Expiry(c, events, i))
                else i == |events| && answer == Ok(token)
    {
      AliveNext(c, initial, events, e, token, i);
      if Alive(c, initial, events, token, i) {
        AliveIsProposal(c, initial, events, token, i);
      }
    }
    forall i: nat | Alive(c, initial, all, token, i)
      ensures token in Run(c, initial, all).state.pending
      ensures i < |all| && all[i].Propose? && StoredBy(c, initial, all, i, Run(c, initial, all).state.pending[token])
    {
      AliveIsProposal(c, initial, all, token, i);
      if i == |events| {
        ProposeStores(c, m.state, e.request, e.now, e.purgeNow);
        StoredByLast(c, initial, events, e);
      } else {
        StoredExpiry(c, initial, events, i, m.state.pending[token]);
        StoredNext(c, initial, events, e, i, m.state.pending[token]);
      }
    }
    if token in Run(c, initial, all).state.pending && answer != Ok(token) {
      var i: nat :| Alive(c, initial, events, token, i);
      AliveIsProposal(c, initial, events, token, i);
      StoredExpiry(c, initial, events, i, m.state.pending[token]);
      assert Alive(c, initial, all, token, i);
    } else if answer == Ok(token) {
      assert Alive(c, initial, all, token, |events|);
    }
  }

  lemma PendingBelow(c: Config, initial: string, m: Monitor)
    requires Inv(c, initial, m)
    ensures forall t :: t in m.state.pending ==> t < m.state.nextToken
  {
    hide Candidate;
  }

  lemma AliveIsProposal(c: Config, initial: string, events: seq<Event>, token: Token, i: nat)
    requires Alive(c, initial, events, token, i)
    ensures i < |events| && events[i].Propose? && Answer(c, initial, events, i) == Ok(token)
  {
    hide ProposeStep, Run;
  }

  lemma StoredExpiry(c: Config, initial: string, events: seq<Event>, i: nat, p: Pending)
    requires i < |events| && events[i].Propose? && StoredBy(c, initial, events, i, p)
    ensures p.expiresAt == Expiry(c, events, i)
  {
    hide Run, Candidate;
  }

  lemma StoredByLast(c: Config, initial: string, events: seq<Event>, e: Event)
    requires e.Propose? && Answer(c, initial, events + [e], |events|).Ok?
    ensures var s' := Run(c, initial, events + [e]).state;
            var token := Answer(c, initial, events + [e], |events|).value;
            token in s'.pending && StoredBy(c, initial, events + [e], |events|, s'.pending[token])
  {
    hide ProposeStep, Run, Candidate;
    RunNext(c, initial, events, e);
    SamePast(c, initial, events, e);
    ProposeStores(c, Run(c, initial, events).state, e.request, e.now, e.purgeNow);
  }

  lemma TrackedOther(c: Config, initial: string, events: seq<Event>, e: Event, token: Token)
    requires !e.Propose? && Tracked(c, initial, events, token)
    ensures Tracked(c, initial, events + [e], token)
  {
    hide ProposeStep, Run, Candidate, Alive, StoredBy;
    var m, all := Run(c, initial, events), events + [e];
    RunNext(c, initial, events, e);
    var gone := e.Commit? && e.token == token;
    assert token in Run(c, initial, all).state.pending <==> token in m.state.pending && !gone;
    forall i: nat
      ensures Alive(c, initial, all, token, i) <==> i < |events| && Alive(c, initial, events, token, i) && !gone
    {
      AliveNext(c, initial, events, e, token, i);
      if Alive(c, initial, events, token, i) {
        AliveIsProposal(c, initial, events, token, i);
      }
    }
    forall i: nat | Alive(c, initial, all, token, i)
      ensures i < |all| && all[i].Propose? && StoredBy(c, initial, all, i, Run(c, initial, all).state.pending[token])
    {
      AliveIsProposal(c, initial, events, token, i);
      StoredNext(c, initial, events, e, i, m.state.pending[token]);
    }
    if token in Run(c, initial, all).state.pending {
      var i: nat :| Alive(c, initial, events, token, i);
      AliveIsProposal(c, initial, events, token, i);
      assert Alive(c, initial, all, token, i);
    }
  }

  lemma {:induction false} EveryTokenTracked(c: Config, initial: string, events: seq<Event>, token: Token)
    ensures Tracked(c, initial, events, token)
  {
    hide ProposeStep, Candidate, Tracked;
    if events == [] {
      NothingTracked(c, initial, token);
    } else {
      var n := |events| - 1;
      EveryTokenTracked(c, initial, events[..n], token);
      assert events == events[..n] + [events[n]];
      if events[n].Propose? {
        TrackedPropose(c, initial, events[..n], events[n], token);
      } else {
        TrackedOther(c, initial, events[..n], events[n], token);
      }
    }
  }

  lemma NothingTracked(c: Config, initial: string, token: Token)
    ensures Tracked(c, initial, [], token)
  {
    hide ProposeStep, Candidate;
  }

  /** In every run a token is pending exactly when some proposal with it is still alive. */
  lemma PendingIffAlive(c: Config, initial: string, events: seq<Event>, token: Token)
    ensures token in Run(c, initial, events).state.pending <==> exists i: nat :: Alive(c, initial, events, token, i)
  {
    hide ProposeStep, Candidate, Run, Alive, StoredBy;
    EveryTokenTracked(c, initial, events, token);
  }

  /**
   * Committing in any run.  It succeeds exactly when a live proposal has the
   * token, the time to live is not over and the file is the one proposed for;
   * then the file becomes what the request made of it, otherwise it stays.
   */
  lemma CommitIff(c: Config, initial: string, events: seq<Event>, token: Token, at: real)
    ensures var before := Run(c, initial, events).state;
            var (after, result) := CommitStep(c, before, token, at);
            && (result.Ok? <==>
                  exists i: nat :: Alive(c, initial, events, token, i)
                    && at <= Expiry(c, events, i) && before.file == FileBefore(c, initial, events, i))
            && (result.Err? ==> after.file == before.file)
            && token !in after.pending
  {
    hide ProposeStep, Run, Candidate, Alive;
    EveryTokenTracked(c, initial, events, token);
    var before := Run(c, initial, events).state;
    if token in before.pending {
      var i: nat :| Alive(c, initial, events, token, i);
      AliveIsProposal(c, initial, events, token, i);
      StoredIsValid(c, initial, events, i, before.pending[token]);
      if CommitStep(c, before, token, at).1.Ok? {
        assert at <= Expiry(c, events, i) && before.file == FileBefore(c, initial, events, i);
      }
    }
    forall i: nat | Alive(c, initial, events, token, i) && i < |events| && events[i].Propose?
        && at <= Expiry(c, events, i) && before.file == FileBefore(c, initial, events, i)
      ensures CommitStep(c, before, token, at).1.Ok?
    {
      StoredIsValid(c, initial, events, i, before.pending[token]);
    }
  }

  lemma StoredIsValid(c: Config, initial: string, events: seq<Event>, i: nat, p: Pending)
    requires i < |events| && events[i].Propose? && StoredBy(c, initial, events, i, p)
    ensures c.load(p.candidate).ok
  {
    hide Run, Candidate;
    CandidateIsValid(c, FileBefore(c, initial, events, i), events[i].request);
  }

  /** Committing a live proposal: what happens, and which error there is otherwise. */
  lemma CommitLive(c: Config, initial: string, events: seq<Event>, token: Token, i: nat, at: real)
    requires Alive(c, initial, events, token, i)
    ensures var before, base := Run(c, initial, events).state, FileBefore(c, initial, events, i);
            var (after, result) := CommitStep(c, before, token, at);
            && (result == Err(Expired) <==> at > Expiry(c, events, i))
            && (result == Err(FileChanged) <==> at <= Expiry(c, events, i) && before.file != base)
            && (result.Ok? <==> at <= Expiry(c, events, i) && before.file == base)
            && (result.Ok? ==> Candidate(c, base, events[i].request) == Ok(after.file) && result.value == after.file)
            && (result.Err? ==> after.file == before.file)
  {
    hide ProposeStep, Run, Candidate;
    EveryTokenTracked(c, initial, events, token);
    StoredIsValid(c, initial, events, i, Run(c, initial, events).state.pending[token]);
  }

  /** Without a commit of its token, a proposal outlives every later proposal that is made before it expires. */
  lemma ProposalSurvives(c: Config, initial: string, events: seq<Event>, i: nat, token: Token)
    requires i < |events| && events[i].Propose? && Answer(c, initial, events, i) == Ok(token)
    requires forall j :: i < j < |events| ==>
               match events[j]
               case Commit(t, _) => t != token
               case Propose(_, _, purgeNow) => purgeNow <= Expiry(c, events, i)
               case OutsideEdit(_) => true
    ensures token in Run(c, initial, events).state.pending
    ensures Alive(c, initial, events, token, i)
  {
    hide ProposeStep, Run, Candidate, StoredBy;
    EveryTokenTracked(c, initial, events, token);
    assert Alive(c, initial, events, token, i);
  }
}
