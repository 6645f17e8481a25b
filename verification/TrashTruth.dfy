module TrashTruth {
  // Which Trash batches are always reported truthfully, as a condition on the
  // messages that are handed in.

  import opened Common
  import opened ImapText
  import opened ImapSession
  import opened TrashBatch
  import opened TrashResults

  /** The two environments look up, fold and strip alike; replies and passwords may differ. */
  ghost predicate SameLookup(env: Env, env': Env) {
    env'.accountFor == env.accountFor && env'.fold == env.fold && env'.strip == env.strip
  }

  lemma SameCandidate(env: Env, env': Env, m: Message)
    requires SameLookup(env, env')
    ensures MoveCandidate(env', m) == MoveCandidate(env, m)
  {
  }

  /** Two positions share an id, and at least one of the messages can be moved. */
  ghost predicate Clash(env: Env, messages: seq<Message>, i: nat, j: nat) {
    && i < j < |messages| && messages[i].headerId == messages[j].headerId
    && (MoveCandidate(env, messages[i]).Ok? || MoveCandidate(env, messages[j]).Ok?)
  }

  ghost predicate NoClash(env: Env, messages: seq<Message>) {
    forall i, j :: !Clash(env, messages, i, j)
  }

  // -------------------------------------------------- no clash, always truthful

  /** A successful attempt is one for a message that can be moved. */
  lemma SuccessWasPossible(env: Env, w: World, messages: seq<Message>, a: Attempt)
    requires ValidWorld(w) && a in MoveAll(env, w, messages).attempts && a.error.None?
    ensures MoveCandidate(env, a.message).Ok?
  {
    hide MoveAll, MoveCandidate, Tried, AcceptedFor, Succeeded, SentFor;
    BatchIsFaithful(env, w, messages);
    var d := MoveAll(env, w, messages);
    SucceededMembers(d.attempts, a.message);
    AcceptedMembers(NewMoves(w, d.world), a.message);
  }

  lemma Position(messages: seq<Message>, m: Message) returns (i: nat)
    requires m in multiset(messages)
    ensures i < |messages| && messages[i] == m
  {
    assert m in messages;
    i :| i < |messages| && messages[i] == m;
  }

  lemma TwoPositions(messages: seq<Message>, m: Message) returns (i: nat, j: nat)
    requires multiset(messages)[m] >= 2
    ensures i < j < |messages| && messages[i] == m && messages[j] == m
  {
    i := Position(messages, m);
    var rest := messages[..i] + messages[i + 1..];
    assert messages == messages[..i] + [m] + messages[i + 1..];
    assert m in multiset(rest);
    var k := Position(rest, m);
    if k < i {
      i, j := k, i;
    } else {
      j := k + 1;
    }
  }

  /** Two attempts that share an id come from two positions that do. */
  lemma SharedPositions(attempts: seq<Attempt>, messages: seq<Message>, k: nat, l: nat) returns (i: nat, j: nat)
    requires multiset(Tried(attempts)) == multiset(messages)
    requires k < l < |attempts| && attempts[k].message.headerId == attempts[l].message.headerId
    ensures i < |messages| && j < |messages| && i != j
    ensures messages[i] == attempts[k].message && messages[j] == attempts[l].message
  {
    hide Tried;
    var a, b := attempts[k].message, attempts[l].message;
    TriedAt(attempts, k);
    TriedAt(attempts, l);
    assert a in multiset(Tried(attempts)) && b in multiset(Tried(attempts));
    if a == b {
      CountTwice(Tried(attempts), k, l);
      i, j := TwoPositions(messages, a);
    } else {
      i := Position(messages, a);
      j := Position(messages, b);
    }
  }

  lemma NoClashIsTruthful(env: Env, w: World, messages: seq<Message>)
    requires ValidWorld(w) && NoClash(env, messages)
    ensures Truthful(MoveOutcomes(env, w, messages), MoveAll(env, w, messages).attempts)
  {
    hide MoveAll, Tried, Truthful, Assign, MoveCandidate;
    var attempts := MoveAll(env, w, messages).attempts;
    BatchIsFaithful(env, w, messages);
    forall k, l | 0 <= k < l < |attempts| && attempts[k].message.headerId == attempts[l].message.headerId
      ensures attempts[k].error.Some? && attempts[l].error.Some?
    {
      var i, j := SharedPositions(attempts, messages, k, l);
      assert !Clash(env, messages, i, j) && !Clash(env, messages, j, i);
      if attempts[k].error.None? {
        SuccessWasPossible(env, w, messages, attempts[k]);
      }
      if attempts[l].error.None? {
        SuccessWasPossible(env, w, messages, attempts[l]);
      }
    }
    TruthfulIff(Initial(messages), attempts);
  }

  // ------------------------------------------------------- a server that lies

  /** Every command succeeds, except that moves are refused from a step on; one account has a password. */
  function Refusing(env: Env, a: Account, limit: nat): Env {
    env.(script := (step, command: Command) =>
           Reply(if command.Move? && step >= limit then Refused else Accepted, [7], ["MOVE"], true),
         hasPassword := (b: Account) => b == a)
  }

  const NoMail := World(map[], 0, 0, [])

  lemma RefusingLookup(env: Env, a: Account, limit: nat)
    ensures SameLookup(env, Refusing(env, a, limit)) && ValidWorld(NoMail)
  {
  }

  lemma RefusingEnter(env: Env, a: Account, limit: nat, w: World, b: Account)
    ensures var r := Enter(Refusing(env, a, limit), w, b);
            if b == a then r.result == Ok(false) && r.world.step == w.step + 3
            else r.result == Err(PasswordUnset(b.passwordEnv)) && r.world == w
  {
  }

  /** A move takes three steps and succeeds while its third is below the limit. */
  lemma RefusingMove(env: Env, a: Account, limit: nat, w: World, c: Candidate)
    ensures var (after, error) := MoveOne(Refusing(env, a, limit), w, c, false);
            after.step == w.step + 3 && (error.None? <==> w.step + 2 < limit)
  {
    var lying := Refusing(env, a, limit);
    var keys := SearchKeys(c.id, false);
    var selected := Ask(lying, w, SelectFolder(c.folder, false), SelectFailed);
    assert selected.result.Ok? && selected.world.step == w.step + 1;
    var found := SearchUids(lying, selected.world, keys);
    assert found.result == Ok([7]) && found.world.step == w.step + 2;
    assert UniqueMatch(lying, w, c, false, false) == Ran(found.world, Ok((c.folder, [7])));
  }

  lemma {:induction false} RefusingCandidates(env: Env, a: Account, limit: nat, w: World, candidates: seq<Candidate>, k: nat)
    requires k < |candidates|
    ensures var d := MoveCandidates(Refusing(env, a, limit), w, candidates, false);
            && d.world.step == w.step + 3 * |candidates| && |d.attempts| == |candidates|
            && d.attempts[k].message == candidates[k].message
            && (d.attempts[k].error.None? <==> w.step + 3 * k + 2 < limit)
    decreases |candidates|
  {
    hide MoveOne, Refusing;
    var n := |candidates| - 1;
    var lying := Refusing(env, a, limit);
    if n == 0 {
      assert candidates[..0] == [];
      assert MoveCandidates(lying, w, candidates[..0], false) == Done(w, []);
    } else {
      RefusingCandidates(env, a, limit, w, candidates[..n], if k < n then k else 0);
    }
    RefusingMove(env, a, limit, MoveCandidates(lying, w, candidates[..n], false).world, candidates[n]);
  }

  /** The attempts of the only account with a password are those of its group alone. */
  lemma {:induction false} OnlyOneSession(env: Env, a: Account, limit: nat, w: World, groups: seq<Group>)
    requires DistinctAccounts(groups)
    ensures var lying := Refusing(env, a, limit);
            && ((forall g :: g in groups ==> g.account != a) ==> MoveGroups(lying, w, groups).world == w)
            && (forall g, t :: g in groups && g.account == a && t in MoveGroup(lying, w, g).attempts ==>
                  t in MoveGroups(lying, w, groups).attempts)
  {
    hide MoveGroup, Refusing;
    if groups != [] {
      var n := |groups| - 1;
      var lying := Refusing(env, a, limit);
      OnlyOneSession(env, a, limit, w, groups[..n]);
      assert groups == groups[..n] + [groups[n]];
      if groups[n].account != a {
        RefusedGroup(env, a, limit, MoveGroups(lying, w, groups[..n]).world, groups[n]);
      } else {
        forall g | g in groups[..n]
          ensures g.account != a
        {
          var i :| 0 <= i < n && groups[..n][i] == g;
          assert groups[i].account != groups[n].account;
        }
      }
    }
  }

  /** A session without a password does nothing and fails all its candidates. */
  lemma RefusedGroup(env: Env, a: Account, limit: nat, w: World, g: Group)
    requires g.account != a
    ensures var d := MoveGroup(Refusing(env, a, limit), w, g);
            && d.world == w
            && forall c :: c in g.candidates ==> Attempt(c.message, Some(PasswordUnset(g.account.passwordEnv))) in d.attempts
  {
    hide Enter, Refusing, FailAll;
    RefusingEnter(env, a, limit, w, g.account);
    FailAllMembers(g.candidates, PasswordUnset(g.account.passwordEnv));
  }

  lemma {:induction false} FailAllMembers(candidates: seq<Candidate>, e: TrashError)
    ensures forall c :: c in candidates ==> Attempt(c.message, Some(e)) in FailAll(candidates, e)
  {
    if candidates != [] {
      FailAllMembers(candidates[..|candidates| - 1], e);
    }
  }

  lemma {:induction false} OtherSessionsFail(env: Env, a: Account, limit: nat, w: World, groups: seq<Group>, g: Group, c: Candidate)
    requires g in groups && g.account != a && c in g.candidates
    ensures Attempt(c.message, Some(PasswordUnset(g.account.passwordEnv))) in MoveGroups(Refusing(env, a, limit), w, groups).attempts
  {
    hide MoveGroup, Refusing;
    var n := |groups| - 1;
    assert groups == groups[..n] + [groups[n]];
    if g == groups[n] {
      RefusedGroup(env, a, limit, MoveGroups(Refusing(env, a, limit), w, groups[..n]).world, g);
    } else {
      OtherSessionsFail(env, a, limit, w, groups[..n], g, c);
    }
  }

  // -------------------------------------------------------- where messages land

  /** The candidates of one account, in the order of the messages. */
  function CandidatesOf(env: Env, messages: seq<Message>, a: Account): seq<Candidate> {
    if messages == [] then []
    else
      var front := CandidatesOf(env, messages[..|messages| - 1], a);
      match MoveCandidate(env, messages[|messages| - 1])
      case Err(_) => front
      case Ok(c) => if c.account == a then front + [c] else front
  }

  ghost predicate HoldsGroup(groups: seq<Group>, a: Account, candidates: seq<Candidate>) {
    if candidates == [] then forall g :: g in groups ==> g.account != a
    else Group(a, candidates) in groups
  }

  lemma {:induction false} AddHolds(groups: seq<Group>, c: Candidate, a: Account, candidates: seq<Candidate>)
    requires HoldsGroup(groups, a, candidates) && DistinctAccounts(groups)
    ensures HoldsGroup(AddCandidate(groups, c), a, if c.account == a then candidates + [c] else candidates)
  {
    if groups == [] {
      assert candidates + [c] == [c];
    } else if groups[0].account == c.account {
      AddAtHead(groups, c, a, candidates);
    } else {
      hide AddCandidate;
      AddStep(groups, c);
      var rest := groups[1..];
      forall i, j | 0 <= i < j < |rest|
        ensures rest[i].account != rest[j].account
      {
        assert groups[i + 1].account != groups[j + 1].account;
      }
      if candidates != [] && groups[0] == Group(a, candidates) {
        assert c.account != a;
        assert AddCandidate(groups, c)[0] == groups[0];
      } else {
        AddHolds(rest, c, a, candidates);
      }
    }
  }

  lemma AddAtHead(groups: seq<Group>, c: Candidate, a: Account, candidates: seq<Candidate>)
    requires groups != [] && groups[0].account == c.account && HoldsGroup(groups, a, candidates) && DistinctAccounts(groups)
    ensures HoldsGroup(AddCandidate(groups, c), a, if c.account == a then candidates + [c] else candidates)
  {
    hide AddCandidate;
    AddStep(groups, c);
    var added := AddCandidate(groups, c);
    assert groups[0] in groups;
    if c.account == a {
      var i :| 0 <= i < |groups| && groups[i] == Group(a, candidates);
      assert i == 0;
      assert added[0] == Group(a, candidates + [c]);
    } else if candidates != [] {
      var i :| 0 <= i < |groups| && groups[i] == Group(a, candidates);
      assert added[i] == groups[i];
    }
  }

  lemma {:induction false} GroupOfAccount(env: Env, messages: seq<Message>, a: Account)
    ensures HoldsGroup(SortMessages(env, messages).groups, a, CandidatesOf(env, messages, a))
  {
    hide MoveCandidate, AddCandidate, HoldsGroup, DistinctAccounts;
    if messages == [] {
      assert HoldsGroup([], a, []) by { NoHolds(a); }
    } else {
      var n := |messages| - 1;
      GroupOfAccount(env, messages[..n], a);
      SortedCover(env, messages[..n]);
      match MoveCandidate(env, messages[n])
      case Err(_) =>
      case Ok(c) => AddHolds(SortMessages(env, messages[..n]).groups, c, a, CandidatesOf(env, messages[..n], a));
    }
  }

  lemma NoHolds(a: Account)
    ensures HoldsGroup([], a, [])
  {
  }

  /** The place of a message among the candidates of its account. */
  lemma {:induction false} PlaceOf(env: Env, messages: seq<Message>, a: Account, i: nat)
    requires i < |messages| && MoveCandidate(env, messages[i]).Ok? && MoveCandidate(env, messages[i]).value.account == a
    ensures var k := |CandidatesOf(env, messages[..i], a)|;
            k < |CandidatesOf(env, messages, a)| && CandidatesOf(env, messages, a)[k] == MoveCandidate(env, messages[i]).value
  {
    hide MoveCandidate;
    var n := |messages| - 1;
    if i < n {
      PlaceOf(env, messages[..n], a, i);
      assert messages[..n][..i] == messages[..i];
    }
  }

  lemma {:induction false} PlacesGrow(env: Env, messages: seq<Message>, a: Account, i: nat, j: nat)
    requires i < j <= |messages| && MoveCandidate(env, messages[i]).Ok? && MoveCandidate(env, messages[i]).value.account == a
    ensures |CandidatesOf(env, messages[..i], a)| < |CandidatesOf(env, messages[..j], a)|
  {
    hide MoveCandidate;
    assert messages[..j][..i] == messages[..i];
    PlaceOf(env, messages[..j], a, i);
  }

  lemma {:induction false} RejectedMember(env: Env, messages: seq<Message>, m: Message)
    requires m in messages && MoveCandidate(env, m).Err?
    ensures exists e: Option<TrashError> :: e.Some? && Attempt(m, e) in SortMessages(env, messages).rejected
  {
    hide MoveCandidate, AddCandidate;
    var n := |messages| - 1;
    assert messages == messages[..n] + [messages[n]];
    if messages[n] == m {
      assert Attempt(m, Some(MoveCandidate(env, m).error)) in SortMessages(env, messages).rejected;
    } else {
      RejectedMember(env, messages[..n], m);
      var e: Option<TrashError> :| e.Some? && Attempt(m, e) in SortMessages(env, messages[..n]).rejected;
      assert Attempt(m, e) in SortMessages(env, messages).rejected;
    }
  }

  lemma {:induction false} SameSorting(env: Env, env': Env, messages: seq<Message>)
    requires SameLookup(env, env')
    ensures SortMessages(env', messages) == SortMessages(env, messages)
    ensures forall a :: CandidatesOf(env', messages, a) == CandidatesOf(env, messages, a)
  {
    hide MoveCandidate, AddCandidate;
    if messages != [] {
      SameSorting(env, env', messages[..|messages| - 1]);
      SameCandidate(env, env', messages[|messages| - 1]);
    }
  }

  // ------------------------------------------------------------ every clash lies

  /** With the limit behind the place of message i, it is moved; message j fails by its account, its place or its id. */
  lemma MovedAttempt(env: Env, messages: seq<Message>, i: nat, limit: nat)
    requires i < |messages| && MoveCandidate(env, messages[i]).Ok?
    requires var a := MoveCandidate(env, messages[i]).value.account; limit > 3 + 3 * |CandidatesOf(env, messages[..i], a)| + 2
    ensures var lying := Refusing(env, MoveCandidate(env, messages[i]).value.account, limit);
            Attempt(messages[i], None) in MoveAll(lying, NoMail, messages).attempts
  {
    hide MoveCandidate, Enter, MoveOne, SortMessages, DistinctAccounts, MoveGroups, MoveCandidates, Refusing;
    var a := MoveCandidate(env, messages[i]).value.account;
    var k := |CandidatesOf(env, messages[..i], a)|;
    CandidateIsSafe(env, messages[i]);
    PlaceOf(env, messages, a, i);
    var t := PlacedAttempt(env, messages, a, limit, k);
  }

  /** The attempt for the k-th candidate of the account with the password. */
  lemma PlacedAttempt(env: Env, messages: seq<Message>, a: Account, limit: nat, k: nat) returns (t: Attempt)
    requires k < |CandidatesOf(env, messages, a)|
    ensures t in MoveAll(Refusing(env, a, limit), NoMail, messages).attempts
    ensures t.message == CandidatesOf(env, messages, a)[k].message && (t.error.None? <==> 3 + 3 * k + 2 < limit)
  {
    hide MoveCandidate, Enter, MoveOne, SortMessages, DistinctAccounts, MoveGroups, MoveCandidates, CandidatesOf, Refusing;
    var lying := Refusing(env, a, limit);
    RefusingLookup(env, a, limit);
    SameSorting(env, lying, messages);
    SortedCover(env, messages);
    GroupOfAccount(env, messages, a);
    var g := Group(a, CandidatesOf(env, messages, a));
    var groups := SortMessages(env, messages).groups;
    assert g in groups;
    RefusingEnter(env, a, limit, NoMail, a);
    var started := Enter(lying, NoMail, a).world;
    RefusingCandidates(env, a, limit, started, g.candidates, k);
    t := MoveCandidates(lying, started, g.candidates, false).attempts[k];
    assert t in MoveGroup(lying, NoMail, g).attempts;
    OnlyOneSession(env, a, limit, NoMail, groups);
    assert t in MoveGroups(lying, NoMail, groups).attempts;
  }

  /** A message of another account fails for want of a password. */
  lemma OtherAccountFails(env: Env, messages: seq<Message>, a: Account, limit: nat, j: nat)
    requires j < |messages| && MoveCandidate(env, messages[j]).Ok? && MoveCandidate(env, messages[j]).value.account != a
    ensures exists e: Option<TrashError> :: e.Some? && Attempt(messages[j], e) in MoveAll(Refusing(env, a, limit), NoMail, messages).attempts
  {
    hide MoveCandidate, SortMessages, MoveGroups, CandidatesOf, Refusing;
    var c := MoveCandidate(env, messages[j]).value;
    var b := c.account;
    CandidateIsSafe(env, messages[j]);
    RefusingLookup(env, a, limit);
    SameSorting(env, Refusing(env, a, limit), messages);
    GroupOfAccount(env, messages, b);
    PlaceOf(env, messages, b, j);
    var g := Group(b, CandidatesOf(env, messages, b));
    OtherSessionsFail(env, a, limit, NoMail, SortMessages(env, messages).groups, g, c);
    assert Attempt(messages[j], Some(PasswordUnset(b.passwordEnv))) in MoveAll(Refusing(env, a, limit), NoMail, messages).attempts;
  }

  /** A rejected message fails before any session. */
  lemma RejectedFails(env: Env, messages: seq<Message>, a: Account, limit: nat, j: nat)
    requires j < |messages| && MoveCandidate(env, messages[j]).Err?
    ensures exists e: Option<TrashError> :: e.Some? && Attempt(messages[j], e) in MoveAll(Refusing(env, a, limit), NoMail, messages).attempts
  {
    hide MoveCandidate, SortMessages, MoveGroups, Refusing;
    RefusingLookup(env, a, limit);
    SameSorting(env, Refusing(env, a, limit), messages);
    RejectedMember(env, messages, messages[j]);
    var e: Option<TrashError> :| e.Some? && Attempt(messages[j], e) in SortMessages(env, messages).rejected;
    assert Attempt(messages[j], e) in MoveAll(Refusing(env, a, limit), NoMail, messages).attempts;
  }

  lemma DisagreeingAttempts(outcomes: Outcomes, attempts: seq<Attempt>, s: Attempt, t: Attempt)
    requires s in attempts && t in attempts && s.message.headerId == t.message.headerId
    requires s.error.None? && t.error.Some?
    ensures !Truthful(Assign(outcomes, attempts), attempts)
  {
    hide Assign;
    var i :| 0 <= i < |attempts| && attempts[i] == s;
    var j :| 0 <= j < |attempts| && attempts[j] == t;
    TruthfulIff(outcomes, attempts);
  }

  /** The limit and the account of a server that moves one of two clashing messages and not the other. */
  lemma ClashLies(env: Env, messages: seq<Message>, i: nat, j: nat) returns (a: Account, limit: nat)
    requires Clash(env, messages, i, j)
    ensures var lying := Refusing(env, a, limit);
            !Truthful(MoveOutcomes(lying, NoMail, messages), MoveAll(lying, NoMail, messages).attempts)
  {
    hide MoveCandidate, MoveAll, CandidatesOf, Truthful, Refusing;
    var moved := if MoveCandidate(env, messages[i]).Ok? then i else j;
    var other := if moved == i then j else i;
    a := MoveCandidate(env, messages[moved]).value.account;
    var place := |CandidatesOf(env, messages[..moved], a)|;
    limit := 3 + 3 * place + 3;
    MovedAttempt(env, messages, moved, limit);
    var attempts := MoveAll(Refusing(env, a, limit), NoMail, messages).attempts;
    if MoveCandidate(env, messages[other]).Err? {
      RejectedFails(env, messages, a, limit, other);
    } else if MoveCandidate(env, messages[other]).value.account != a {
      OtherAccountFails(env, messages, a, limit, other);
    } else {
      PlacesGrow(env, messages, a, i, j);
      CandidateIsSafe(env, messages[j]);
      PlaceOf(env, messages, a, j);
      var t := PlacedAttempt(env, messages, a, limit, |CandidatesOf(env, messages[..j], a)|);
      assert t == Attempt(messages[j], t.error) && t.error.Some?;
    }
    var e: Option<TrashError> :| e.Some? && Attempt(messages[other], e) in attempts;
    DisagreeingAttempts(Initial(messages), attempts, Attempt(messages[moved], None), Attempt(messages[other], e));
  }

  /** Truthful whatever the servers reply and whichever passwords are set. */
  ghost predicate AlwaysTruthful(env: Env, messages: seq<Message>) {
    forall env': Env, w: World :: SameLookup(env, env') && ValidWorld(w) ==>
      Truthful(MoveOutcomes(env', w, messages), MoveAll(env', w, messages).attempts)
  }

  /**
   * The reported outcomes of a batch are certain to be truthful exactly when no
   * two of its messages share a Message-ID, unless none of those can be moved.
   */
  lemma AlwaysTruthfulIff(env: Env, messages: seq<Message>)
    ensures AlwaysTruthful(env, messages) <==> NoClash(env, messages)
  {
    hide MoveAll, Truthful, MoveCandidate, MoveOutcomes;
    if NoClash(env, messages) {
      forall env': Env, w: World | SameLookup(env, env') && ValidWorld(w)
        ensures Truthful(MoveOutcomes(env', w, messages), MoveAll(env', w, messages).attempts)
      {
        forall i: nat, j: nat
          ensures !Clash(env', messages, i, j)
        {
          assert !Clash(env, messages, i, j);
          if i < j < |messages| {
            SameCandidate(env, env', messages[i]);
            SameCandidate(env, env', messages[j]);
          }
        }
        NoClashIsTruthful(env', w, messages);
      }
    } else {
      var i: nat, j: nat :| Clash(env, messages, i, j);
      var a, limit := ClashLies(env, messages, i, j);
      RefusingLookup(env, a, limit);
    }
  }

  // -------------------------------------------------- what the program hands in

  /** `{item.header_message_id: item for item in messages}`. */
  function ById(messages: seq<Message>): (r: map<string, Message>)
    ensures forall id :: id in r ==> r[id].headerId == id
  {
    if messages == [] then map[]
    else
      var n := |messages| - 1;
      ById(messages[..n])[messages[n].headerId := messages[n]]
  }

  /** The messages of the snapshot under the ids of a token, in the order of the ids. */
  function Picked(byId: map<string, Message>, ids: seq<string>): seq<Message> {
    if ids == [] then []
    else
      var n := |ids| - 1;
      Picked(byId, ids[..n]) + (if ids[n] in byId then [byId[ids[n]]] else [])
  }

  lemma {:induction false} PickedIds(byId: map<string, Message>, ids: seq<string>)
    requires NoRepeats(ids) && forall id :: id in byId ==> byId[id].headerId == id
    ensures DistinctIds(Picked(byId, ids))
    ensures forall m :: m in Picked(byId, ids) ==> m.headerId in ids
  {
    if ids != [] {
      var n := |ids| - 1;
      PickedIds(byId, ids[..n]);
      assert ids == ids[..n] + [ids[n]];
      assert ids[n] !in ids[..n];
      if ids[n] in byId {
        var front, m := Picked(byId, ids[..n]), byId[ids[n]];
        forall i, j | 0 <= i < j < |front + [m]|
          ensures (front + [m])[i].headerId != (front + [m])[j].headerId
        {
          if j == |front| {
            assert front[i] in front;
          }
        }
      }
    }
  }

  lemma DistinctHasNoClash(env: Env, messages: seq<Message>)
    requires DistinctIds(messages)
    ensures NoClash(env, messages)
  {
  }

  /** Messages looked up by distinct ids are always reported truthfully, as the commit handler hands them in. */
  lemma PickedIsTruthful(env: Env, snapshot: seq<Message>, ids: seq<string>)
    requires NoRepeats(ids)
    ensures AlwaysTruthful(env, Picked(ById(snapshot), ids))
  {
    hide AlwaysTruthful, NoClash, ById, Picked;
    PickedIds(ById(snapshot), ids);
    DistinctHasNoClash(env, Picked(ById(snapshot), ids));
    AlwaysTruthfulIff(env, Picked(ById(snapshot), ids));
  }
}
