module ReviewDecisions {
  // The review decision log of scripts/review_knowledge_candidates.py:
  // `ReviewDecision.validate_action_shape`, `append_decision`,
  // `_latest_decisions` and the event loop of `materialize_approved`.

  import opened Common
  import opened Sorting

  datatype Action = Approve | Edit | Reject | Defer | Split | Consolidate

  datatype Claim = Claim(statement: string, scope: string, evidenceKind: string, qualifications: seq<string>)

  datatype Decision = Decision(eventId: string, action: Action, candidates: seq<string>, claims: seq<Claim>)

  datatype Candidate = Candidate(id: string, claim: Claim, sourceRefs: seq<string>)

  /** One approved claim; its hash-based id and the copied review metadata are not modelled. */
  datatype Approved = Approved(claim: Claim, index: nat, sourceCandidates: seq<string>, sourceRefs: seq<string>, eventId: string)

  // -------------------------------------------------------------------- shapes

  /** What `ReviewedClaim` accepts. */
  predicate ValidClaim(c: Claim) {
    && 20 <= |c.statement| <= 600 && 3 <= |c.scope| <= 300
    && c.evidenceKind in {"secondary_assessment", "source_material", "mixed"}
    && |c.qualifications| <= 8
  }

  /** At each limit of a valid claim, one character or entry more or less makes it invalid. */
  lemma ClaimLimits(c: Claim)
    requires ValidClaim(c)
    ensures |c.statement| == 20 ==> !ValidClaim(c.(statement := c.statement[1..]))
    ensures !ValidClaim(c.(statement := c.statement + "x")) <==> |c.statement| == 600
    ensures |c.scope| == 3 ==> !ValidClaim(c.(scope := c.scope[1..]))
    ensures !ValidClaim(c.(scope := c.scope + "x")) <==> |c.scope| == 300
    ensures !ValidClaim(c.(qualifications := c.qualifications + ["x"])) <==> |c.qualifications| == 8
  {
  }

  /** What the model's validator accepts; the field itself requires at least one candidate. */
  ghost predicate ValidShape(d: Decision) {
    && d.candidates != [] && NoRepeats(d.candidates)
    && (forall c :: c in d.claims ==> ValidClaim(c))
    && match d.action
       case Approve => |d.candidates| == 1 && d.claims == []
       case Edit => |d.candidates| == 1 && |d.claims| == 1
       case Reject | Defer => d.claims == []
       case Split => |d.candidates| == 1 && |d.claims| >= 2
       case Consolidate => |d.candidates| >= 2 && |d.claims| == 1
  }

  predicate Withheld(d: Decision) {
    d.action.Reject? || d.action.Defer?
  }

  // ------------------------------------------------------------------- the log

  ghost predicate UniqueEvents(log: seq<Decision>) {
    forall i, j :: 0 <= i < j < |log| ==> log[i].eventId != log[j].eventId
  }

  ghost predicate Known(d: Decision, known: set<string>) {
    forall c :: c in d.candidates ==> c in known
  }

  ghost predicate ValidLog(log: seq<Decision>, known: set<string>) {
    && UniqueEvents(log)
    && forall d :: d in log ==> ValidShape(d) && Known(d, known)
  }

  /** The last decision about each candidate. */
  function Latest(log: seq<Decision>): map<string, Decision> {
    if log == [] then map[]
    else
      var d := log[|log| - 1];
      Latest(log[..|log| - 1]) + Claimed(d.candidates, d)
  }

  /** One decision entered for each of these candidates. */
  function Claimed(ids: seq<string>, d: Decision): map<string, Decision> {
    map c | c in ids :: d
  }

  lemma ClaimedNone()
    ensures forall m: map<string, Decision>, d :: m + Claimed([], d) == m
  {
  }

  lemma ClaimedNext(before: map<string, Decision>, ids: seq<string>, id: string, d: Decision)
    ensures before + Claimed(ids + [id], d) == (before + Claimed(ids, d))[id := d]
  {
  }

  /** `_latest_decisions`. */
  method LatestDecisions(log: seq<Decision>) returns (latest: map<string, Decision>)
    ensures latest == Latest(log)
  {
    hide Claimed;
    assert forall m: map<string, Decision>, d :: m + Claimed([], d) == m by {
      ClaimedNone();
    }
    latest := map[];
    for k := 0 to |log|
      invariant latest == Latest(log[..k])
    {
      var d := log[k];
      assert log[..k + 1][..k] == log[..k];
      ghost var before := latest;
      for j := 0 to |d.candidates|
        invariant latest == before + Claimed(d.candidates[..j], d)
      {
        assert d.candidates[..j + 1] == d.candidates[..j] + [d.candidates[j]];
        ClaimedNext(before, d.candidates[..j], d.candidates[j], d);
        latest := latest[d.candidates[j] := d];
      }
      assert d.candidates[..|d.candidates|] == d.candidates;
    }
    assert log[..|log|] == log;
  }

  /** The decision is the latest one for every candidate it names. */
  ghost predicate Stands(log: seq<Decision>, d: Decision) {
    && d in log
    && forall c :: c in d.candidates ==> c in Latest(log) && Latest(log)[c] == d
  }

  lemma {:induction false} LatestIsLogged(log: seq<Decision>, c: string)
    requires c in Latest(log)
    ensures Latest(log)[c] in log && c in Latest(log)[c].candidates
  {
    var n := |log| - 1;
    if c !in log[n].candidates {
      LatestIsLogged(log[..n], c);
    }
  }

  lemma {:induction false} LatestCovers(log: seq<Decision>, d: Decision, c: string)
    requires d in log && c in d.candidates
    ensures c in Latest(log)
  {
    var n := |log| - 1;
    if c !in log[n].candidates {
      assert d in log[..n];
      LatestCovers(log[..n], d, c);
    }
  }

  lemma EventDetermines(log: seq<Decision>, d: Decision, e: Decision)
    requires UniqueEvents(log) && d in log && e in log && d.eventId == e.eventId
    ensures d == e
  {
    var i :| 0 <= i < |log| && log[i] == d;
    var j :| 0 <= j < |log| && log[j] == e;
  }

  /** No candidate backs two standing decisions. */
  lemma StandingAreDisjoint(log: seq<Decision>, d: Decision, e: Decision, c: string)
    requires Stands(log, d) && Stands(log, e) && c in d.candidates && c in e.candidates
    ensures d == e
  {
  }

  /**
   * Appending a decision: it stands itself, and exactly those decisions go on
   * standing that share no candidate with it.
   */
  lemma AppendStands(log: seq<Decision>, d: Decision, e: Decision, known: set<string>)
    requires ValidLog(log + [d], known)
    ensures Stands(log + [d], e) <==>
              e == d || (Stands(log, e) && forall c :: c in e.candidates ==> c !in d.candidates)
  {
    var log' := log + [d];
    assert log'[..|log|] == log && log'[|log|] == d;
    var latest, latest' := Latest(log), Latest(log');
    assert forall c :: c in d.candidates ==> c in latest' && latest'[c] == d;
    assert forall c :: c !in d.candidates ==> (c in latest' <==> c in latest) && (c in latest ==> latest'[c] == latest[c]);
    if Stands(log', e) && e != d {
      assert e in log;
    }
    if e in log {
      EventsDiffer(log, d, e);
      assert e in log';
    }
    assert d in log';
    if e != d && Stands(log, e) && (forall c :: c in e.candidates ==> c !in d.candidates) {
      assert Stands(log', e);
    }
  }

  lemma EventsDiffer(log: seq<Decision>, d: Decision, e: Decision)
    requires UniqueEvents(log + [d]) && e in log
    ensures e != d && e.eventId != d.eventId
  {
    var i :| 0 <= i < |log| && log[i] == e;
    assert (log + [d])[i] == e && (log + [d])[|log|] == d;
  }

  datatype AppendError = UnknownCandidates(ids: set<string>) | DuplicateEvent(id: string)

  /** The decision file; `append_decision` adds one line to it. */
  class DecisionLog {
    var entries: seq<Decision>

    constructor ()
      ensures entries == []
    {
      entries := [];
    }

    method AppendDecision(d: Decision, known: set<string>) returns (error: Option<AppendError>)
      modifies this
      ensures error.None? <==> Known(d, known) && forall e :: e in old(entries) ==> e.eventId != d.eventId
      ensures entries == if error.None? then old(entries) + [d] else old(entries)
      ensures error.None? && ValidShape(d) && ValidLog(old(entries), known) ==> ValidLog(entries, known)
    {
      var unknown := (set c | c in d.candidates) - known;
      if unknown != {} {
        var c :| c in unknown;
        assert c in d.candidates && c !in known;
        return Some(UnknownCandidates(unknown));
      }
      assert Known(d, known) by {
        forall c | c in d.candidates
          ensures c in known
        {
          assert c in (set x | x in d.candidates) && c !in unknown;
        }
      }
      for k := 0 to |entries|
        invariant forall j :: 0 <= j < k ==> entries[j].eventId != d.eventId
      {
        if entries[k].eventId == d.eventId {
          assert entries[k] in entries;
          return Some(DuplicateEvent(d.eventId));
        }
      }
      entries := entries + [d];
      return None;
    }
  }

  // ------------------------------------------------------------ materialization

  function ById(candidates: seq<Candidate>): map<string, Candidate> {
    if candidates == [] then map[]
    else
      var c := candidates[|candidates| - 1];
      ById(candidates[..|candidates| - 1])[c.id := c]
  }

  function RefsOf(ids: seq<string>, byId: map<string, Candidate>): set<string>
    requires forall c :: c in ids ==> c in byId
  {
    set c, r | c in ids && r in byId[c].sourceRefs :: r
  }

  /** The claims that an emitted decision contributes. */
  function ClaimsOf(d: Decision, byId: map<string, Candidate>): seq<Claim>
    requires d.candidates != [] && forall c :: c in d.candidates ==> c in byId
  {
    if d.action.Approve? then [byId[d.candidates[0]].claim] else d.claims
  }

  function Rows(d: Decision, byId: map<string, Candidate>): seq<Approved>
    requires d.candidates != [] && forall c :: c in d.candidates ==> c in byId
  {
    var claims := ClaimsOf(d, byId);
    var refs := SortStrings(RefsOf(d.candidates, byId));
    seq(|claims|, i requires 0 <= i < |claims| => Approved(claims[i], i + 1, d.candidates, refs, d.eventId))
  }

  ghost predicate AllKnown(events: seq<Decision>, byId: map<string, Candidate>) {
    forall d :: d in events ==> d.candidates != [] && forall c :: c in d.candidates ==> c in byId
  }

  function AllRows(events: seq<Decision>, byId: map<string, Candidate>): seq<Approved>
    requires AllKnown(events, byId)
  {
    if events == [] then []
    else AllRows(events[..|events| - 1], byId) + Rows(events[|events| - 1], byId)
  }

  // --------------------------------------------------------- what the rows carry

  /** The rows of one review event, in order. */
  function RowsUnder(rows: seq<Approved>, eventId: string): seq<Approved> {
    if rows == [] then []
    else
      var n := |rows| - 1;
      RowsUnder(rows[..n], eventId) + (if rows[n].eventId == eventId then [rows[n]] else [])
  }

  /** The row names its decision's event and candidates, and the sorted references of those candidates. */
  ghost predicate RowNames(row: Approved, d: Decision, byId: map<string, Candidate>) {
    && row.eventId == d.eventId && row.sourceCandidates == d.candidates
    && (forall r :: r in row.sourceRefs <==> exists c :: c in d.candidates && c in byId && r in byId[c].sourceRefs)
    && (forall i, j :: 0 <= i < j < |row.sourceRefs| ==> StringLe(row.sourceRefs[i], row.sourceRefs[j]) && row.sourceRefs[i] != row.sourceRefs[j])
  }

  /** The rows are numbered from 1 and carry the decision's claims, or the candidate's own claim when it was approved. */
  ghost predicate RowsCarry(rows: seq<Approved>, d: Decision, byId: map<string, Candidate>) {
    && (forall i :: 0 <= i < |rows| ==> rows[i].index == i + 1)
    && if d.action.Approve? then
         |rows| == 1 && |d.candidates| > 0 && d.candidates[0] in byId && rows[0].claim == byId[d.candidates[0]].claim
       else
         |rows| == |d.claims| && forall i :: 0 <= i < |rows| ==> rows[i].claim == d.claims[i]
  }

  /** Every event has exactly the rows that carry it, and every row belongs to an event. */
  ghost predicate Carries(rows: seq<Approved>, events: seq<Decision>, byId: map<string, Candidate>) {
    && (forall d :: d in events ==> RowsCarry(RowsUnder(rows, d.eventId), d, byId))
    && (forall row :: row in rows ==> exists d :: d in events && RowNames(row, d, byId))
  }

  lemma {:induction false} RowsUnderAppend(a: seq<Approved>, b: seq<Approved>, eventId: string)
    ensures RowsUnder(a + b, eventId) == RowsUnder(a, eventId) + RowsUnder(b, eventId)
  {
    if b == [] {
      assert a + b == a;
    } else {
      var n := |b| - 1;
      RowsUnderAppend(a, b[..n], eventId);
      assert (a + b)[..|a + b| - 1] == a + b[..n];
    }
  }

  lemma {:induction false} RowsUnderOwn(rows: seq<Approved>, own: string, eventId: string)
    requires forall row :: row in rows ==> row.eventId == own
    ensures RowsUnder(rows, eventId) == if own == eventId then rows else []
  {
    if rows != [] {
      RowsUnderOwn(rows[..|rows| - 1], own, eventId);
      assert rows == rows[..|rows| - 1] + [rows[|rows| - 1]];
    }
  }

  lemma RowsNumbered(d: Decision, byId: map<string, Candidate>)
    requires d.candidates != [] && forall c :: c in d.candidates ==> c in byId
    ensures RowsCarry(Rows(d, byId), d, byId)
  {
    hide SortStrings, RefsOf;
  }

  lemma RowNamesOwn(d: Decision, byId: map<string, Candidate>, row: Approved)
    requires d.candidates != [] && forall c :: c in d.candidates ==> c in byId
    requires row.eventId == d.eventId && row.sourceCandidates == d.candidates
    requires row.sourceRefs == SortStrings(RefsOf(d.candidates, byId))
    ensures RowNames(row, d, byId)
  {
    hide StringLe, SortStrings;
  }

  lemma RowsFacts(d: Decision, byId: map<string, Candidate>)
    requires d.candidates != [] && forall c :: c in d.candidates ==> c in byId
    ensures RowsCarry(Rows(d, byId), d, byId)
    ensures forall row :: row in Rows(d, byId) ==> row.eventId == d.eventId && RowNames(row, d, byId)
  {
    hide StringLe, SortStrings, RefsOf, RowNames, RowsCarry;
    RowsNumbered(d, byId);
    forall row | row in Rows(d, byId)
      ensures row.eventId == d.eventId && RowNames(row, d, byId)
    {
      RowNamesOwn(d, byId, row);
    }
  }

  lemma {:induction false} AllRowsUnder(events: seq<Decision>, byId: map<string, Candidate>, eventId: string)
    requires AllKnown(events, byId) && UniqueEvents(events)
    ensures forall d :: d in events && d.eventId == eventId ==> RowsUnder(AllRows(events, byId), eventId) == Rows(d, byId)
    ensures (forall d :: d in events ==> d.eventId != eventId) ==> RowsUnder(AllRows(events, byId), eventId) == []
  {
    hide Rows, RowsCarry, RowNames;
    if events != [] {
      var n := |events| - 1;
      var last := events[n];
      assert events == events[..n] + [last];
      AllRowsUnder(events[..n], byId, eventId);
      RowsFacts(last, byId);
      RowsUnderAppend(AllRows(events[..n], byId), Rows(last, byId), eventId);
      RowsUnderOwn(Rows(last, byId), last.eventId, eventId);
    }
  }

  lemma {:induction false} AllRowsNamed(events: seq<Decision>, byId: map<string, Candidate>)
    requires AllKnown(events, byId)
    ensures forall row :: row in AllRows(events, byId) ==> exists d :: d in events && RowNames(row, d, byId)
  {
    hide Rows, RowsCarry, RowNames;
    if events != [] {
      var n := |events| - 1;
      assert events == events[..n] + [events[n]];
      AllRowsNamed(events[..n], byId);
      RowsFacts(events[n], byId);
    }
  }

  lemma EmittedUnique(log: seq<Decision>, events: seq<Decision>)
    requires UniqueEvents(log) && Emits(log, events)
    ensures UniqueEvents(events)
  {
    forall i, j | 0 <= i < j < |events|
      ensures events[i].eventId != events[j].eventId
    {
      assert events[i] in events && events[j] in events;
      if events[i].eventId == events[j].eventId {
        EventDetermines(log, events[i], events[j]);
      }
    }
  }

  /** The rows of a materialized review carry exactly what its emitted decisions say. */
  lemma RowsAreClaims(log: seq<Decision>, events: seq<Decision>, byId: map<string, Candidate>)
    requires UniqueEvents(log) && Emits(log, events) && AllKnown(events, byId)
    ensures Carries(AllRows(events, byId), events, byId)
  {
    hide Rows, RowsCarry, RowNames, Emits;
    EmittedUnique(log, events);
    AllRowsNamed(events, byId);
    forall d | d in events
      ensures RowsCarry(RowsUnder(AllRows(events, byId), d.eventId), d, byId)
    {
      AllRowsUnder(events, byId, d.eventId);
      RowsFacts(d, byId);
    }
  }

  /** The candidate under an id is the last one that was read with it. */
  lemma {:induction false} ByIdIsLast(candidates: seq<Candidate>, id: string)
    ensures id in ById(candidates) <==> exists c :: c in candidates && c.id == id
    ensures id in ById(candidates) ==>
              exists i :: 0 <= i < |candidates| && candidates[i] == ById(candidates)[id] && candidates[i].id == id
                && forall j :: i < j < |candidates| ==> candidates[j].id != id
  {
    if candidates != [] {
      var n := |candidates| - 1;
      ByIdIsLast(candidates[..n], id);
      assert candidates == candidates[..n] + [candidates[n]];
    }
  }

  /** What a materialized review emits: every standing decision that is not withheld, once. */
  ghost predicate Emits(log: seq<Decision>, events: seq<Decision>) {
    && NoRepeats(events)
    && forall d :: d in events <==> Stands(log, d) && !Withheld(d)
  }

  /** Every standing decision reached through one of these candidates. */
  ghost predicate Reached(log: seq<Decision>, ids: seq<string>, d: Decision) {
    Stands(log, d) && exists c :: c in ids && c in d.candidates
  }

  /** The state of the event loop after the candidates `ids`. */
  ghost predicate LoopInv(log: seq<Decision>, ids: seq<string>, events: seq<Decision>, emitted: set<string>) {
    && NoRepeats(events)
    && (forall d :: d in events <==> Reached(log, ids, d) && !Withheld(d))
    && (forall d :: d in log ==> (d.eventId in emitted <==> Reached(log, ids, d)))
  }

  /** A candidate whose decision was emitted before, or does not stand, changes nothing. */
  lemma SkipCandidate(log: seq<Decision>, ids: seq<string>, id: string, events: seq<Decision>, emitted: set<string>)
    requires LoopInv(log, ids, events, emitted) && id in Latest(log)
    requires Latest(log)[id].eventId in emitted || !Stands(log, Latest(log)[id])
    ensures LoopInv(log, ids + [id], events, emitted)
  {
    hide Stands;
    LatestIsLogged(log, id);
    ReachedNext(log, ids, id);
  }

  /** A standing decision met for the first time. */
  lemma EmitCandidate(log: seq<Decision>, ids: seq<string>, id: string, events: seq<Decision>, emitted: set<string>)
    requires LoopInv(log, ids, events, emitted) && id in Latest(log) && UniqueEvents(log)
    requires Latest(log)[id].eventId !in emitted && Stands(log, Latest(log)[id])
    ensures var d := Latest(log)[id];
            LoopInv(log, ids + [id], if Withheld(d) then events else events + [d], emitted + {d.eventId})
  {
    hide Stands;
    LatestIsLogged(log, id);
    ReachedNext(log, ids, id);
    var d := Latest(log)[id];
    forall e | e in log && e.eventId == d.eventId
      ensures e == d
    {
      EventDetermines(log, d, e);
    }
    assert d !in events;
  }

  lemma EverythingReached(log: seq<Decision>, ids: seq<string>, events: seq<Decision>, emitted: set<string>, known: set<string>)
    requires LoopInv(log, ids, events, emitted) && ValidLog(log, known)
    requires forall c :: c in Latest(log) ==> c in ids
    ensures Emits(log, events)
  {
    forall d | Stands(log, d)
      ensures Reached(log, ids, d)
    {
      assert ValidShape(d);
      var c := d.candidates[0];
      LatestCovers(log, d, c);
      assert c in ids && c in d.candidates;
    }
  }

  /** `sorted(latest)`. */
  method SortedKeys(latest: map<string, Decision>) returns (order: seq<string>)
    ensures forall c :: c in order <==> c in latest
  {
    order := SortStrings(latest.Keys);
  }

  /** An approval turns the candidate itself into a claim, which raises when the candidate is no valid claim. */
  predicate Approvable(d: Decision, byId: map<string, Candidate>) {
    d.action.Approve? ==> d.candidates != [] && d.candidates[0] in byId && ValidClaim(byId[d.candidates[0]].claim)
  }

  ghost predicate AllApprovable(log: seq<Decision>, byId: map<string, Candidate>) {
    forall d :: d in log && Stands(log, d) ==> Approvable(d, byId)
  }

  /** The event loop; `valid` is false where building a claim raises. */
  method EmitEvents(log: seq<Decision>, byId: map<string, Candidate>)
    returns (valid: bool, events: seq<Decision>, approved: seq<Approved>)
    requires ValidLog(log, byId.Keys)
    ensures valid <==> AllApprovable(log, byId)
    ensures valid ==> Emits(log, events)
    ensures valid ==> AllKnown(events, byId) && Carries(approved, events, byId)
  {
    hide Carries, LoopInv, Stands, Emits, Rows, AllRows, AllKnown, ValidLog, Latest, SortStrings, UniqueEvents, Approvable, AllApprovable;
    valid := true;
    NoRows(byId);
    var latest := LatestDecisions(log);
    events, approved := [], [];
    var emitted: set<string> := {};
    var order := SortedKeys(latest);
    NothingEmitted(log);
    for k := 0 to |order|
      invariant AllKnown(events, byId) && approved == AllRows(events, byId)
      invariant LoopInv(log, order[..k], events, emitted)
      invariant forall d :: d in events ==> Approvable(d, byId)
    {
      var id := order[k];
      assert id in order;
      var d := latest[id];
      LatestIsLogged(log, id);
      assert order[..k + 1] == order[..k] + [id];
      if d.eventId in emitted {
        SkipCandidate(log, order[..k], id, events, emitted);
        continue;
      }
      if exists s :: s in d.candidates && (s !in latest || latest[s].eventId != d.eventId) {
        NotStanding(log, d);
        SkipCandidate(log, order[..k], id, events, emitted);
        continue;
      }
      KnownDecision(log, d, byId);
      StandsByEvents(log, d);
      EmitCandidate(log, order[..k], id, events, emitted);
      emitted := emitted + {d.eventId};
      if Withheld(d) {
        continue;
      }
      if !Approvable(d, byId) {
        NotApprovable(log, byId, d);
        return false, events, approved;
      }
      KnownDecision(log, d, byId);
      RowsNext(events, d, byId);
      events := events + [d];
      approved := approved + Rows(d, byId);
    }
    assert order[..|order|] == order;
    EverythingReached(log, order, events, emitted, byId.Keys);
    EmittedApprovable(log, byId, events);
    KnownLog(log, byId);
    RowsAreClaims(log, events, byId);
  }

  lemma KnownLog(log: seq<Decision>, byId: map<string, Candidate>)
    requires ValidLog(log, byId.Keys)
    ensures UniqueEvents(log)
  {
  }

  lemma NotApprovable(log: seq<Decision>, byId: map<string, Candidate>, d: Decision)
    requires d in log && Stands(log, d) && !Approvable(d, byId)
    ensures !AllApprovable(log, byId)
  {
  }

  lemma EmittedApprovable(log: seq<Decision>, byId: map<string, Candidate>, events: seq<Decision>)
    requires Emits(log, events) && forall d :: d in events ==> Approvable(d, byId)
    ensures AllApprovable(log, byId)
  {
    hide Stands;
  }

  lemma KnownDecision(log: seq<Decision>, d: Decision, byId: map<string, Candidate>)
    requires ValidLog(log, byId.Keys) && d in log
    ensures UniqueEvents(log)
    ensures d.candidates != [] && forall c :: c in d.candidates ==> c in byId
  {
    assert ValidShape(d) && Known(d, byId.Keys);
  }

  lemma NoRows(byId: map<string, Candidate>)
    ensures AllKnown([], byId) && AllRows([], byId) == []
  {
  }

  lemma RowsNext(events: seq<Decision>, d: Decision, byId: map<string, Candidate>)
    requires AllKnown(events, byId) && d.candidates != [] && forall c :: c in d.candidates ==> c in byId
    ensures AllKnown(events + [d], byId) && AllRows(events + [d], byId) == AllRows(events, byId) + Rows(d, byId)
  {
    hide Rows;
    assert (events + [d])[..|events|] == events;
  }

  lemma NothingEmitted(log: seq<Decision>)
    ensures LoopInv(log, [], [], {})
  {
  }

  lemma NotStanding(log: seq<Decision>, d: Decision)
    requires exists s :: s in d.candidates && (s !in Latest(log) || Latest(log)[s].eventId != d.eventId)
    ensures !Stands(log, d)
  {
  }

  /** The next candidate reaches at most its own latest decision. */
  lemma ReachedNext(log: seq<Decision>, ids: seq<string>, id: string)
    requires id in Latest(log)
    ensures forall d :: Reached(log, ids + [id], d) <==> Reached(log, ids, d) || (d == Latest(log)[id] && Stands(log, d))
  {
    LatestIsLogged(log, id);
    var latest := Latest(log)[id];
    forall d
      ensures Reached(log, ids + [id], d) <==> Reached(log, ids, d) || (d == latest && Stands(log, d))
    {
      if Reached(log, ids, d) {
        var c :| c in ids && c in d.candidates;
        assert c in ids + [id];
      }
      if d == latest && Stands(log, d) {
        assert id in ids + [id];
      }
      if Reached(log, ids + [id], d) && !Reached(log, ids, d) {
        var c :| c in ids + [id] && c in d.candidates;
        assert c == id;
      }
    }
  }

  lemma StandsByEvents(log: seq<Decision>, d: Decision)
    requires UniqueEvents(log) && d in log
    requires forall s :: s in d.candidates ==> s in Latest(log) && Latest(log)[s].eventId == d.eventId
    ensures Stands(log, d)
  {
    forall s | s in d.candidates
      ensures Latest(log)[s] == d
    {
      LatestIsLogged(log, s);
      EventDetermines(log, d, Latest(log)[s]);
    }
  }

  function EventIds(log: seq<Decision>): seq<string> {
    seq(|log|, i requires 0 <= i < |log| => log[i].eventId)
  }

  lemma EventIdsRepeat(log: seq<Decision>)
    ensures NoRepeats(EventIds(log)) <==> UniqueEvents(log)
  {
    var ids := EventIds(log);
    assert forall i :: 0 <= i < |log| ==> ids[i] == log[i].eventId;
  }

  datatype MaterializeError = DuplicateEvents | UnknownCandidate | InvalidClaim

  /** The outcome of `materialize_approved` that does not concern files. */
  datatype Materialized = Materialized(events: seq<Decision>, approved: seq<Approved>, decided: nat, reviewComplete: bool)

  /** `materialize_approved`, after the log lines were validated one by one. */
  method MaterializeApproved(candidates: seq<Candidate>, log: seq<Decision>) returns (r: Result<Materialized, MaterializeError>)
    requires forall d :: d in log ==> ValidShape(d)
    ensures r.Ok? <==> ValidLog(log, ById(candidates).Keys) && AllApprovable(log, ById(candidates))
    ensures r == Err(DuplicateEvents) <==> !UniqueEvents(log)
    ensures r == Err(InvalidClaim) <==> ValidLog(log, ById(candidates).Keys) && !AllApprovable(log, ById(candidates))
    ensures r.Ok? ==>
              && Emits(log, r.value.events)
              && AllKnown(r.value.events, ById(candidates))
              && Carries(r.value.approved, r.value.events, ById(candidates))
              && r.value.decided == |Latest(log)|
              && (r.value.reviewComplete <==>
                  |Latest(log)| == |candidates| && forall c :: c in Latest(log) ==> !Latest(log)[c].action.Defer?)
  {
    var byId := ById(candidates);
    DistinctBySize(EventIds(log));
    EventIdsRepeat(log);
    if |Elements(EventIds(log))| != |log| {
      return Err(DuplicateEvents);
    }
    for k := 0 to |log|
      invariant forall j :: 0 <= j < k ==> Known(log[j], byId.Keys)
    {
      if exists c :: c in log[k].candidates && c !in byId {
        assert log[k] in log && !Known(log[k], byId.Keys);
        return Err(UnknownCandidate);
      }
    }
    var valid, events, approved := EmitEvents(log, byId);
    if !valid {
      return Err(InvalidClaim);
    }
    var latest := LatestDecisions(log);
    var complete := |latest| == |candidates| && forall c :: c in latest ==> !latest[c].action.Defer?;
    r := Ok(Materialized(events, approved, |latest|, complete));
  }

  // ---------------------------------------------------------------- what it means

  /** Every emitted decision contributes at least one claim, numbered from 1, and a split at least two. */
  lemma EmittedHasRows(d: Decision, byId: map<string, Candidate>)
    requires ValidShape(d) && !Withheld(d) && forall c :: c in d.candidates ==> c in byId
    ensures |Rows(d, byId)| >= (if d.action.Split? then 2 else 1)
    ensures !d.action.Split? ==> |Rows(d, byId)| == 1
  {
  }

  ghost predicate Backed(events: seq<Decision>, c: string) {
    exists d :: d in events && c in d.candidates
  }

  /** A candidate backs an emitted decision exactly when its latest decision stands and is not withheld. */
  lemma BackedIff(log: seq<Decision>, events: seq<Decision>, c: string)
    requires Emits(log, events)
    ensures Backed(events, c) <==>
              c in Latest(log) && Stands(log, Latest(log)[c]) && !Withheld(Latest(log)[c])
  {
    if Backed(events, c) {
      var d :| d in events && c in d.candidates;
      assert Stands(log, d);
    }
    if c in Latest(log) && Stands(log, Latest(log)[c]) && !Withheld(Latest(log)[c]) {
      LatestIsLogged(log, c);
      assert Latest(log)[c] in events;
    }
  }

  // A consolidation of two candidates, then a new decision about one of them.
  const Merged := Decision("e1", Consolidate, ["a", "b"], [Claim("Both candidates say this.", "all", "mixed", [])])
  const Reopened := Decision("e2", Approve, ["b"], [])

  lemma PartlyOverridden()
    ensures var log := [Merged, Reopened];
            && Latest(log).Keys == {"a", "b"} && Latest(log)["a"] == Merged && Latest(log)["b"] == Reopened
            && !Stands(log, Merged) && Stands(log, Reopened)
  {
    var log := [Merged, Reopened];
    assert log[..1] == [Merged] && [Merged][..0] == [];
    assert Latest([Merged]) == map["a" := Merged, "b" := Merged];
    assert Latest(log) == Latest([Merged]) + Claimed(["b"], Reopened);
    assert Latest(log) == map["a" := Merged, "b" := Reopened];
    assert "b" in Merged.candidates;
    assert Reopened in log;
  }

  /**
   * A review can be complete and still lose a candidate silently: overriding
   * part of a consolidation stops it from standing, so its other candidate,
   * although decided and neither rejected nor deferred, backs nothing.
   */
  lemma CompleteReviewCanLoseCandidate(events: seq<Decision>)
    requires Emits([Merged, Reopened], events)
    ensures ValidLog([Merged, Reopened], {"a", "b"})
    ensures Latest([Merged, Reopened]).Keys == {"a", "b"}
    ensures !Withheld(Latest([Merged, Reopened])["a"]) && !Withheld(Latest([Merged, Reopened])["b"])
    ensures !Backed(events, "a") && Backed(events, "b")
  {
    hide Latest, Stands;
    PartlyOverridden();
    BackedIff([Merged, Reopened], events, "a");
    BackedIff([Merged, Reopened], events, "b");
  }
}
