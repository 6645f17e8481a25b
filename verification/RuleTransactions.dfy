/**
 * Reviewed rule edits with conflict detection: `RuleTransactionService` of
 * examples/mail_assistant/rules.py.
 *
 * A missing rules file reads as empty text.  SHA-256 is modelled as an
 * injective function, tokens as values never handed out before, the TOML
 * loader as an arbitrary function `load` of the text, and `str.strip().lower()`
 * as an arbitrary function `norm`.  Every clock reading is an input, so time
 * may stand still or go back.
 */
module RuleTransactions {
  import opened Common
  import Text
  import opened RuleFile
  import opened RuleAppend

  // ------------------------------------------------------------------ requests

  datatype LoadedRule = LoadedRule(index: int, sender: Option<string>, domain: Option<string>, subject: Option<string>)

  datatype LoadResult = LoadResult(ok: bool, rules: seq<LoadedRule>)

  /** What the service is configured with. */
  datatype Config = Config(load: string -> LoadResult, norm: string -> string, ttl: real)

  datatype Message = Message(sender: string, subject: string)

  datatype Request = Request(message: Option<Message>, field: string, matchValue: Option<string>,
                             priority: string, action: string)

  datatype ProposeError =
    | NoMessage | NoSenderDomain | BadField | DomainWithAt | NoValue
    | ExistingInvalid | CannotUpdate(e: UpdateError) | CandidateInvalid

  datatype CommitError = UnknownToken | Expired | FileChanged | ProposalInvalid

  function MatchedValue(c: Config, r: Request): Result<string, ProposeError> {
    if r.matchValue.Some? then Ok(c.norm(r.matchValue.value))
    else if r.message.None? then Err(NoMessage)
    else
      match r.field
      case "sender" => Ok(c.norm(r.message.value.sender))
      case "domain" =>
        (match Text.AfterLastAt(c.norm(r.message.value.sender))
         case None => Err(NoSenderDomain)
         case Some(domain) => Ok(domain))
      case "subject" => Ok(c.norm(r.message.value.subject))
      case _ => Err(BadField)
  }

  /** The field and value that a request is about, after the checks of `propose`. */
  function CheckedValue(c: Config, r: Request): Result<string, ProposeError> {
    match MatchedValue(c, r)
    case Err(e) => Err(e)
    case Ok(value) =>
      if r.field !in {"sender", "domain", "subject"} then Err(BadField)
      else if r.field == "domain" && '@' in value then Err(DomainWithAt)
      else if value == "" then Err(NoValue)
      else Ok(value)
  }

  function FieldOf(rule: LoadedRule, field: string): Option<string> {
    if field == "sender" then rule.sender else if field == "domain" then rule.domain else rule.subject
  }

  /** The rule has this field with this value and neither of the other two. */
  predicate Matches(rule: LoadedRule, field: string, value: string) {
    && FieldOf(rule, field) == Some(value)
    && forall other :: other in {"sender", "domain", "subject"} && other != field ==> FieldOf(rule, other).None?
  }

  /** The largest index of a matching rule. */
  function LastMatch(rules: seq<LoadedRule>, field: string, value: string): Option<int> {
    if rules == [] then None
    else
      var earlier := LastMatch(rules[..|rules| - 1], field, value);
      var rule := rules[|rules| - 1];
      if !Matches(rule, field, value) then earlier
      else if earlier.Some? && earlier.value > rule.index then earlier
      else Some(rule.index)
  }

  /** The rule that a request edits, if the file has one for the field and value. */
  function Chosen(c: Config, current: string, field: string, value: string): Option<int> {
    if current == "" then None else LastMatch(c.load(current).rules, field, value)
  }

  /** The text that a request would make of the current text. */
  function Candidate(c: Config, current: string, r: Request): Result<string, ProposeError> {
    match CheckedValue(c, r)
    case Err(e) => Err(e)
    case Ok(value) =>
      if current != "" && !c.load(current).ok then Err(ExistingInvalid)
      else
        var matching := Chosen(c, current, r.field, value);
        var edited :=
          match matching {
            case Some(index) =>
              (match UpdateRule(current, index, r.priority, r.action)
               case Err(e) => Err(CannotUpdate(e))
               case Ok(text) => Ok(text))
            case None => Ok(AppendRule(current, map[r.field := value, PRIORITY := r.priority, ACTION := r.action]))
          };
        if edited.Ok? && !c.load(edited.value).ok then Err(CandidateInvalid) else edited
  }

  /** What a candidate has passed. */
  lemma CandidateIsValid(c: Config, current: string, r: Request)
    requires Candidate(c, current, r).Ok?
    ensures c.load(Candidate(c, current, r).value).ok
    ensures current == "" || c.load(current).ok
  {
    hide UpdateRule, AppendRule;
  }

  // --------------------------------------------------------------------- state

  type Token = nat

  /** SHA-256, taken as injective: a digest determines its text. */
  datatype Digest = Sha256(text: string)

  datatype Pending = Pending(baseRevision: Digest, candidateDigest: Digest, expiresAt: real, candidate: string)

  datatype State = State(file: string, pending: map<Token, Pending>, nextToken: Token)

  function Unexpired(pending: map<Token, Pending>, now: real): map<Token, Pending> {
    map t | t in pending && pending[t].expiresAt >= now :: pending[t]
  }

  function ProposeStep(c: Config, s: State, r: Request, now: real, purgeNow: real): (State, Result<Token, ProposeError>) {
    match Candidate(c, s.file, r)
    case Err(e) => (s, Err(e))
    case Ok(text) =>
      var p := Pending(Sha256(s.file), Sha256(text), now + c.ttl, text);
      (s.(pending := Unexpired(s.pending, purgeNow)[s.nextToken := p], nextToken := s.nextToken + 1), Ok(s.nextToken))
  }

  /** A token is used up by the first commit that names it, whatever comes of it. */
  function CommitStep(c: Config, s: State, token: Token, now: real): (State, Result<string, CommitError>) {
    if token !in s.pending then (s, Err(UnknownToken))
    else
      var p := s.pending[token];
      var s' := s.(pending := s.pending - {token});
      if p.expiresAt < now then (s', Err(Expired))
      else if Sha256(s.file) != p.baseRevision then (s', Err(FileChanged))
      else if !c.load(p.candidate).ok || Sha256(p.candidate) != p.candidateDigest then (s', Err(ProposalInvalid))
      else (s'.(file := p.candidate), Ok(p.candidate))
  }

  class RuleTransactionService {
    const config: Config
    var file: string
    var pending: map<Token, Pending>
    var nextToken: Token

    function Contents(): State
      reads this
    {
      State(file, pending, nextToken)
    }

    constructor (config: Config, file: string)
      ensures this.config == config && Contents() == State(file, map[], 0)
    {
      this.config, this.file := config, file;
      pending, nextToken := map[], 0;
    }

    method Propose(r: Request, now: real, purgeNow: real) returns (result: Result<Token, ProposeError>)
      modifies this`pending, this`nextToken
      ensures (Contents(), result) == ProposeStep(config, old(Contents()), r, now, purgeNow)
    {
      hide UpdateRule, AppendRule, LastMatch, CheckedValue, Unexpired;
      var checked := CheckedValue(config, r);
      if checked.Err? {
        return Err(checked.error);
      }
      var current := file;
      if current != "" && !config.load(current).ok {
        return Err(ExistingInvalid);
      }
      var matching := if current == "" then None else LastMatch(config.load(current).rules, r.field, checked.value);
      var candidate: string;
      if matching.Some? {
        var updated := UpdateRule(current, matching.value, r.priority, r.action);
        if updated.Err? {
          return Err(CannotUpdate(updated.error));
        }
        candidate := updated.value;
      } else {
        candidate := AppendRule(current, map[r.field := checked.value, PRIORITY := r.priority, ACTION := r.action]);
      }
      if !config.load(candidate).ok {
        return Err(CandidateInvalid);
      }
      var token := nextToken;
      nextToken := nextToken + 1;
      pending := Unexpired(pending, purgeNow);
      pending := pending[token := Pending(Sha256(current), Sha256(candidate), now + config.ttl, candidate)];
      return Ok(token);
    }

    method Commit(token: Token, now: real) returns (result: Result<string, CommitError>)
      modifies this`pending, this`file
      ensures (Contents(), result) == CommitStep(config, old(Contents()), token, now)
    {
      if token !in pending {
        return Err(UnknownToken);
      }
      var p := pending[token];
      pending := pending - {token};
      if p.expiresAt < now {
        return Err(Expired);
      }
      if Sha256(file) != p.baseRevision {
        return Err(FileChanged);
      }
      if !config.load(p.candidate).ok || Sha256(p.candidate) != p.candidateDigest {
        return Err(ProposalInvalid);
      }
      file := p.candidate;
      return Ok(p.candidate);
    }
  }

  // ---------------------------------------------------------------------- runs

  datatype Event =
    | Propose(request: Request, now: real, purgeNow: real)
    | Commit(token: Token, at: real)
    | OutsideEdit(text: string)

  /** What has changed the file so far. */
  datatype Effect = Applied(token: Token, request: Request) | Replaced(text: string)

  /** A run's state with its history: the request and base text behind each token, and the effects. */
  datatype Monitor = Monitor(state: State, requests: map<Token, (string, Request)>, effects: seq<Effect>)

  function Observe(c: Config, m: Monitor, e: Event): Monitor {
    match e
    case Propose(r, now, purgeNow) =>
      var (s', result) := ProposeStep(c, m.state, r, now, purgeNow);
      Monitor(s', if result.Ok? then m.requests[result.value := (m.state.file, r)] else m.requests, m.effects)
    case Commit(token, at) =>
      var (s', result) := CommitStep(c, m.state, token, at);
      Monitor(s', m.requests,
              if result.Ok? && token in m.requests then m.effects + [Applied(token, m.requests[token].1)] else m.effects)
    case OutsideEdit(text) =>
      Monitor(m.state.(file := text), m.requests, m.effects + [Replaced(text)])
  }

  function Run(c: Config, initial: string, events: seq<Event>): Monitor {
    if events == [] then Monitor(State(initial, map[], 0), map[], [])
    else Observe(c, Run(c, initial, events[..|events| - 1]), events[|events| - 1])
  }

  /** Carrying out the effects one after another, with no proposals and no tokens. */
  function Serial(c: Config, initial: string, effects: seq<Effect>): Option<string> {
    if effects == [] then Some(initial)
    else
      match Serial(c, initial, effects[..|effects| - 1])
      case None => None
      case Some(text) =>
        match effects[|effects| - 1]
        case Replaced(other) => Some(other)
        case Applied(_, request) =>
          match Candidate(c, text, request)
          case Err(_) => None
          case Ok(edited) => Some(edited)
  }

  /** A pending proposal holds what its request made of its base text. */
  ghost predicate Faithful(c: Config, p: Pending, base: string, r: Request) {
    p.baseRevision == Sha256(base) && p.candidateDigest == Sha256(p.candidate) && Candidate(c, base, r) == Ok(p.candidate)
  }

  ghost predicate TokenUsed(effects: seq<Effect>, t: Token) {
    exists i :: 0 <= i < |effects| && effects[i].Applied? && effects[i].token == t
  }

  ghost predicate EachTokenOnce(effects: seq<Effect>) {
    forall i, j :: 0 <= i < j < |effects| && effects[i].Applied? && effects[j].Applied? ==>
      effects[i].token != effects[j].token
  }

  ghost predicate Inv(c: Config, initial: string, m: Monitor) {
    && (forall t :: t in m.state.pending ==>
          && t < m.state.nextToken && t in m.requests
          && Faithful(c, m.state.pending[t], m.requests[t].0, m.requests[t].1)
          && !TokenUsed(m.effects, t))
    && (forall t: Token :: TokenUsed(m.effects, t) ==> t < m.state.nextToken)
    && EachTokenOnce(m.effects)
    && Serial(c, initial, m.effects) == Some(m.state.file)
  }

  lemma UsedAfter(effects: seq<Effect>, e: Effect, t: Token)
    ensures TokenUsed(effects + [e], t) <==> TokenUsed(effects, t) || (e.Applied? && e.token == t)
  {
    if TokenUsed(effects, t) {
      var i :| 0 <= i < |effects| && effects[i].Applied? && effects[i].token == t;
      assert (effects + [e])[i] == effects[i];
    }
    assert (effects + [e])[|effects|] == e;
  }

  lemma SerialLast(c: Config, initial: string, effects: seq<Effect>, e: Effect)
    ensures (effects + [e])[..|effects|] == effects
  {
  }

  /** A successful commit replaces exactly the text its proposal was computed from, with what its request makes of it. */
  lemma CommitReplacesBase(c: Config, initial: string, m: Monitor, token: Token, at: real)
    requires Inv(c, initial, m) && CommitStep(c, m.state, token, at).1.Ok?
    ensures token in m.requests && m.state.file == m.requests[token].0
    ensures Candidate(c, m.state.file, m.requests[token].1) == Ok(CommitStep(c, m.state, token, at).0.file)
    ensures c.load(CommitStep(c, m.state, token, at).0.file).ok
  {
    hide Candidate;
  }

  lemma CommitKeepsInv(c: Config, initial: string, m: Monitor, token: Token, at: real)
    requires Inv(c, initial, m)
    ensures Inv(c, initial, Observe(c, m, Commit(token, at)))
  {
    hide Candidate;
    var (s', result) := CommitStep(c, m.state, token, at);
    if result.Ok? {
      CommitReplacesBase(c, initial, m, token, at);
      var e := Applied(token, m.requests[token].1);
      SerialLast(c, initial, m.effects, e);
      forall t: Token
        ensures TokenUsed(m.effects + [e], t) <==> TokenUsed(m.effects, t) || t == token
      {
        UsedAfter(m.effects, e, t);
      }
      forall i | 0 <= i < |m.effects| && m.effects[i].Applied?
        ensures m.effects[i].token != token
      {
        assert TokenUsed(m.effects, m.effects[i].token);
      }
    }
  }

  lemma ProposeKeepsInv(c: Config, initial: string, m: Monitor, r: Request, now: real, purgeNow: real)
    requires Inv(c, initial, m)
    ensures Inv(c, initial, Observe(c, m, Propose(r, now, purgeNow)))
  {
    hide Candidate;
  }

  lemma OutsideKeepsInv(c: Config, initial: string, m: Monitor, text: string)
    requires Inv(c, initial, m)
    ensures Inv(c, initial, Observe(c, m, OutsideEdit(text)))
  {
    hide Candidate, Faithful;
    SerialLast(c, initial, m.effects, Replaced(text));
    forall t: Token
      ensures TokenUsed(m.effects + [Replaced(text)], t) <==> TokenUsed(m.effects, t)
    {
      UsedAfter(m.effects, Replaced(text), t);
    }
  }

  lemma {:induction false} RunKeepsInv(c: Config, initial: string, events: seq<Event>)
    ensures Inv(c, initial, Run(c, initial, events))
  {
    hide Observe;
    if events != [] {
      var n := |events| - 1;
      RunKeepsInv(c, initial, events[..n]);
      var m := Run(c, initial, events[..n]);
      match events[n]
      case Propose(r, now, purgeNow) => ProposeKeepsInv(c, initial, m, r, now, purgeNow);
      case Commit(token, at) => CommitKeepsInv(c, initial, m, token, at);
      case OutsideEdit(text) => OutsideKeepsInv(c, initial, m, text);
    }
  }

  /**
   * Serializability: in every run the file is what the committed requests and
   * the outside edits give when carried out one after another, and no token
   * was committed twice.
   */
  lemma RunsAreSerial(c: Config, initial: string, events: seq<Event>)
    ensures var m := Run(c, initial, events);
            Serial(c, initial, m.effects) == Some(m.state.file) && EachTokenOnce(m.effects)
  {
    RunKeepsInv(c, initial, events);
  }

  ghost predicate NoOutsideEdits(events: seq<Event>) {
    forall e :: e in events ==> !e.OutsideEdit?
  }

  /** Without outside edits a file that starts empty or valid is always empty or valid. */
  lemma {:induction false} FileStaysValid(c: Config, initial: string, events: seq<Event>)
    requires NoOutsideEdits(events) && (initial == "" || c.load(initial).ok)
    ensures var file := Run(c, initial, events).state.file; file == "" || c.load(file).ok
  {
    hide Candidate;
    if events != [] {
      var n := |events| - 1;
      assert events == events[..n] + [events[n]];
      FileStaysValid(c, initial, events[..n]);
    }
  }

  /** A commit after the file changed fails, and its token is gone. */
  lemma StaleCommitFails(c: Config, initial: string, m: Monitor, token: Token, at: real)
    requires Inv(c, initial, m) && token in m.state.pending && m.requests[token].0 != m.state.file
    ensures var (s', result) := CommitStep(c, m.state, token, at);
            result.Err? && s'.file == m.state.file && token !in s'.pending
  {
    hide Candidate;
  }
}
