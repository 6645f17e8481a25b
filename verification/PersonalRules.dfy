/**
 * Personal mail rules in mail_lib/personal_rules.py: strict loading, the
 * specificity order, the emitted collision warnings and the choice of one rule
 * for a message.
 */
module PersonalRules {
  import opened Common
  import opened Text

  datatype Priority = Urgent | Normal | Low | Ignore

  datatype RuleAction = NoAction | Summarize | Ignore

  datatype PersonalRule = PersonalRule(
    index: nat, sender: Option<string>, domain: Option<string>, subject: Option<string>,
    priority: Priority, note: Option<string>, specificity: (nat, nat), action: RuleAction)

  datatype Message = Message(id: string, sender: Option<string>, subject: Option<string>)

  /** `str.strip` and `str.lower`; every statement holds for any such pair of functions. */
  datatype Casing = Casing(strip: string -> string, lower: string -> string) {
    /** Lower-casing never empties a text. */
    ghost predicate Proper() {
      forall s: string :: s != "" ==> lower(s) != ""
    }
  }

  // ------------------------------------------------------------------ predicates

  function SenderOf(c: Casing, m: Message): string {
    c.lower(c.strip(if m.sender.Some? then m.sender.value else ""))
  }

  function SubjectOf(c: Casing, m: Message): string {
    c.lower(if m.subject.Some? then m.subject.value else "")
  }

  /** `match_rule`. */
  predicate Matches(c: Casing, rule: PersonalRule, m: Message) {
    && (rule.sender.Some? ==> SenderOf(c, m) == rule.sender.value)
    && (rule.domain.Some? ==> AfterLastAt(SenderOf(c, m)) == rule.domain)
    && (rule.subject.Some? ==> Contains(rule.subject.value, SubjectOf(c, m)))
  }

  /** The text ends with an at sign and this domain, which has none. */
  ghost predicate AtDomain(text: string, domain: string) {
    '@' !in domain && |domain| < |text| && text[|text| - |domain| - 1..] == "@" + domain
  }

  lemma AtDomainIsLast(text: string, domain: string)
    ensures AtDomain(text, domain) <==> AfterLastAt(text) == Some(domain)
  {
    var d := AfterLastAt(text);
    if AtDomain(text, domain) {
      assert text[|text| - |domain| - 1..][0] == '@';
      SameDomain(text, domain, d.value);
    }
  }

  lemma AtIndex(text: string, domain: string)
    requires AtDomain(text, domain)
    ensures var i := |text| - |domain| - 1; text[i] == '@' && forall k :: i < k < |text| ==> text[k] == domain[k - i - 1]
  {
    var i := |text| - |domain| - 1;
    assert text[i] == text[i..][0];
    assert forall k :: i < k < |text| ==> text[k] == text[i..][k - i];
  }

  lemma SameDomain(text: string, a: string, b: string)
    requires AtDomain(text, a) && AtDomain(text, b)
    ensures a == b
  {
    AtIndex(text, a);
    AtIndex(text, b);
    hide AtDomain;
    assert |a| == |b|;
    forall k | 0 <= k < |a|
      ensures a[k] == b[k]
    {
      assert text[|text| - |a| + k] == a[k];
    }
  }

  /**
   * A rule matches exactly when the trimmed lower-case sender is its sender and
   * ends in its domain, and its subject occurs in the lower-case subject, as far
   * as it has them; a missing header is empty text.
   */
  lemma MatchesMeans(c: Casing, rule: PersonalRule, m: Message)
    ensures var sender := c.lower(c.strip(match m.sender case None => "" case Some(s) => s));
            var subject := c.lower(match m.subject case None => "" case Some(s) => s);
            Matches(c, rule, m) <==>
              && (rule.sender.Some? ==> rule.sender.value == sender)
              && (rule.domain.Some? ==> AtDomain(sender, rule.domain.value))
              && (rule.subject.Some? ==>
                    exists i: nat :: i + |rule.subject.value| <= |subject| && subject[i..][..|rule.subject.value|] == rule.subject.value)
  {
    hide AtDomain, Contains;
    if rule.domain.Some? {
      AtDomainIsLast(SenderOf(c, m), rule.domain.value);
    }
    if rule.subject.Some? {
      ContainsMeans(rule.subject.value, SubjectOf(c, m));
    }
  }

  lemma ContainsMeans(part: string, text: string)
    ensures Contains(part, text) <==> exists i: nat :: i + |part| <= |text| && text[i..][..|part|] == part
  {
    forall i: nat | i + |part| <= |text|
      ensures At(part, text, i) <==> text[i..][..|part|] == part
    {
      assert text[i..][..|part|] == text[i..i + |part|];
    }
    if i: nat :| i + |part| <= |text| && text[i..][..|part|] == part {
      assert At(part, text, i);
    }
  }

  // --------------------------------------------------------------------- loading

  /** A raw TOML value: text, or something of another type. */
  datatype Raw = Text(text: string) | Other

  datatype RawRule = RawRule(
    unknownKeys: seq<string>, sender: Option<Raw>, domain: Option<Raw>, subject: Option<Raw>,
    priority: Option<Raw>, note: Option<Raw>, action: Option<Raw>)

  datatype RuleError =
    | UnknownKeys | NotText(key: string) | Empty(key: string) | DomainWithAt | SenderAndDomain
    | NoPredicate | PriorityNotText | PriorityUnknown | NoteNotText | ActionNotText | ActionUnknown

  function PredicateError(c: Casing, key: string, value: Option<Raw>): seq<RuleError> {
    match value
    case None => []
    case Some(Other) => [NotText(key)]
    case Some(Text(t)) => if c.strip(t) == "" then [Empty(key)] else []
  }

  function Normalized(c: Casing, value: Option<Raw>): Option<string> {
    match value
    case Some(Text(t)) => if c.strip(t) == "" then None else Some(c.lower(c.strip(t)))
    case _ => None
  }

  /** A predicate that Python counts as true: present and not empty. */
  predicate Given(value: Option<string>) {
    value.Some? && value.value != ""
  }

  function PriorityOf(value: Option<Raw>): Result<Priority, RuleError> {
    match value
    case Some(Text(t)) =>
      if t == "urgent" then Ok(Urgent) else if t == "normal" then Ok(Normal)
      else if t == "low" then Ok(Low) else if t == "ignore" then Ok(Priority.Ignore) else Err(PriorityUnknown)
    case _ => Err(PriorityNotText)
  }

  function ActionOf(value: Option<Raw>): Result<RuleAction, RuleError> {
    match value
    case None => Ok(NoAction)
    case Some(Text(t)) =>
      if t == "none" then Ok(NoAction) else if t == "summarize" then Ok(Summarize)
      else if t == "ignore" then Ok(RuleAction.Ignore) else Err(ActionUnknown)
    case Some(Other) => Err(ActionNotText)
  }

  function ErrorOf<T>(r: Result<T, RuleError>): seq<RuleError> {
    if r.Err? then [r.error] else []
  }

  /** The errors of one raw rule, in the order in which the loader finds them. */
  function ErrorsOf(c: Casing, raw: RawRule): seq<RuleError> {
    var sender, domain, subject := Normalized(c, raw.sender), Normalized(c, raw.domain), Normalized(c, raw.subject);
    (if raw.unknownKeys != [] then [UnknownKeys] else [])
    + PredicateError(c, "sender", raw.sender) + PredicateError(c, "domain", raw.domain)
    + PredicateError(c, "subject", raw.subject)
    + (if Given(domain) && '@' in domain.value then [DomainWithAt] else [])
    + (if Given(sender) && Given(domain) then [SenderAndDomain] else [])
    + (if !Given(sender) && !Given(domain) && !Given(subject) then [NoPredicate] else [])
    + ErrorOf(PriorityOf(raw.priority))
    + (if raw.note == Some(Other) then [NoteNotText] else [])
    + ErrorOf(ActionOf(raw.action))
  }

  function Weight(value: Option<string>, weight: nat): (nat, nat) {
    if value.Some? then (1, weight) else (0, 0)
  }

  /** Number of predicates, then their summed weights: sender 3, domain 2, subject 1. */
  function Specificity(sender: Option<string>, domain: Option<string>, subject: Option<string>): (nat, nat) {
    var s, d, j := Weight(sender, 3), Weight(domain, 2), Weight(subject, 1);
    (s.0 + d.0 + j.0, s.1 + d.1 + j.1)
  }

  function Compile(c: Casing, raw: RawRule, index: nat): PersonalRule
    requires ErrorsOf(c, raw) == []
  {
    var sender, domain, subject := Normalized(c, raw.sender), Normalized(c, raw.domain), Normalized(c, raw.subject);
    var note := match raw.note
      case Some(Text(t)) => if c.strip(t) == "" then None else Some(c.strip(t))
      case _ => None;
    var priority, action := PriorityOf(raw.priority), ActionOf(raw.action);
    PersonalRule(index, sender, domain, subject, priority.value, note, Specificity(sender, domain, subject), action.value)
  }

  /** What the loader promises of every rule it returns. */
  predicate Valid(rule: PersonalRule) {
    && !(rule.sender.Some? && rule.domain.Some?)
    && (rule.sender.Some? || rule.domain.Some? || rule.subject.Some?)
    && (rule.domain.Some? ==> '@' !in rule.domain.value)
    && rule.specificity == Specificity(rule.sender, rule.domain, rule.subject)
  }

  lemma CompiledIsValid(c: Casing, raw: RawRule, index: nat)
    requires c.Proper() && ErrorsOf(c, raw) == []
    ensures Valid(Compile(c, raw, index)) && Compile(c, raw, index).index == index
  {
    var sender, domain, subject := Normalized(c, raw.sender), Normalized(c, raw.domain), Normalized(c, raw.subject);
    hide Normalized, PredicateError, Contains, PriorityOf, ActionOf;
    NormalizedGiven(c, raw.sender);
    NormalizedGiven(c, raw.domain);
    NormalizedGiven(c, raw.subject);
    assert !(Given(domain) && '@' in domain.value);
    assert !(Given(sender) && Given(domain));
    assert Given(sender) || Given(domain) || Given(subject);
  }

  /** A predicate value that the loader takes: absent, or text that is not blank. */
  ghost predicate Takes(c: Casing, value: Option<Raw>) {
    value.None? || (value.value.Text? && c.strip(value.value.text) != "")
  }

  /** A rule without errors, in plain words. */
  ghost predicate WellFormed(c: Casing, raw: RawRule) {
    && raw.unknownKeys == []
    && Takes(c, raw.sender) && Takes(c, raw.domain) && Takes(c, raw.subject)
    && (raw.sender.Some? || raw.domain.Some? || raw.subject.Some?)
    && (raw.domain.Some? ==> raw.sender.None? && '@' !in c.lower(c.strip(raw.domain.value.text)))
    && raw.priority.Some? && raw.priority.value in {Text("urgent"), Text("normal"), Text("low"), Text("ignore")}
    && (raw.note.Some? ==> raw.note.value.Text?)
    && (raw.action.Some? ==> raw.action.value in {Text("none"), Text("summarize"), Text("ignore")})
  }

  lemma TakesMeans(c: Casing, key: string, value: Option<Raw>)
    requires c.Proper()
    ensures Takes(c, value) <==> PredicateError(c, key, value) == []
    ensures Takes(c, value) ==> Normalized(c, value) == if value.Some? then Some(c.lower(c.strip(value.value.text))) else None
    ensures Takes(c, value) ==> (Given(Normalized(c, value)) <==> value.Some?)
  {
  }

  /** A rule has no errors exactly when it is well-formed. */
  lemma AcceptedIff(c: Casing, raw: RawRule)
    requires c.Proper()
    ensures ErrorsOf(c, raw) == [] <==> WellFormed(c, raw)
  {
    TakesMeans(c, "sender", raw.sender);
    TakesMeans(c, "domain", raw.domain);
    TakesMeans(c, "subject", raw.subject);
    hide Takes, PredicateError, Normalized;
  }

  /** What a compiled rule says: its texts trimmed and in lower case, its note trimmed, its priority and action as named. */
  lemma CompiledFields(c: Casing, raw: RawRule, index: nat)
    requires c.Proper() && ErrorsOf(c, raw) == []
    ensures WellFormed(c, raw)
    ensures var rule := Compile(c, raw, index);
            && rule.sender == (if raw.sender.Some? then Some(c.lower(c.strip(raw.sender.value.text))) else None)
            && rule.domain == (if raw.domain.Some? then Some(c.lower(c.strip(raw.domain.value.text))) else None)
            && rule.subject == (if raw.subject.Some? then Some(c.lower(c.strip(raw.subject.value.text))) else None)
            && (rule.priority == Urgent <==> raw.priority == Some(Text("urgent")))
            && (rule.priority == Normal <==> raw.priority == Some(Text("normal")))
            && (rule.priority == Low <==> raw.priority == Some(Text("low")))
            && (rule.note.None? <==> raw.note.None? || c.strip(raw.note.value.text) == "")
            && (rule.note.Some? ==> rule.note.value == c.strip(raw.note.value.text))
            && (rule.action == Summarize <==> raw.action == Some(Text("summarize")))
            && (rule.action == RuleAction.Ignore <==> raw.action == Some(Text("ignore")))
  {
    AcceptedIff(c, raw);
    TakesMeans(c, "sender", raw.sender);
    TakesMeans(c, "domain", raw.domain);
    TakesMeans(c, "subject", raw.subject);
    hide PredicateError, Normalized, ErrorsOf;
  }

  lemma NormalizedGiven(c: Casing, value: Option<Raw>)
    requires c.Proper()
    ensures Normalized(c, value).Some? ==> Given(Normalized(c, value))
  {
  }

  /** Rules of a file, numbered from 1. */
  ghost predicate Numbered(rules: seq<PersonalRule>) {
    forall i :: 0 <= i < |rules| ==> rules[i].index == i + 1
  }

  // ------------------------------------------------------------------- selection

  /** `(specificity, index)` compared as nested tuples. */
  predicate KeyLess(a: PersonalRule, b: PersonalRule) {
    || a.specificity.0 < b.specificity.0
    || (a.specificity.0 == b.specificity.0 && a.specificity.1 < b.specificity.1)
    || (a.specificity == b.specificity && a.index < b.index)
  }

  /** `select_personal_rule`: `max` over the matches, which keeps the first of equal keys. */
  function Select(c: Casing, m: Message, rules: seq<PersonalRule>): Option<PersonalRule> {
    if rules == [] then None
    else
      var n := |rules| - 1;
      var best := Select(c, m, rules[..n]);
      if Matches(c, rules[n], m) && (best.None? || KeyLess(best.value, rules[n])) then Some(rules[n]) else best
  }

  ghost predicate Increasing(rules: seq<PersonalRule>) {
    forall i, j :: 0 <= i < j < |rules| ==> rules[i].index < rules[j].index
  }

  /** A rule that matches and beats every other match. */
  ghost predicate Wins(c: Casing, m: Message, rules: seq<PersonalRule>, winner: PersonalRule) {
    && winner in rules && Matches(c, winner, m)
    && forall x :: x in rules && Matches(c, x, m) ==> x == winner || KeyLess(x, winner)
  }

  /** The selected rule is the one match that beats all others; none is selected only when none matches. */
  lemma {:induction false} SelectedWins(c: Casing, m: Message, rules: seq<PersonalRule>)
    requires Increasing(rules)
    ensures match Select(c, m, rules)
            case None => forall x :: x in rules ==> !Matches(c, x, m)
            case Some(r) => Wins(c, m, rules, r)
  {
    hide Matches, KeyLess;
    if rules != [] {
      var n := |rules| - 1;
      SelectedWins(c, m, rules[..n]);
      assert rules == rules[..n] + [rules[n]];
      var best := Select(c, m, rules[..n]);
      if best.Some? && Matches(c, rules[n], m) {
        var i :| 0 <= i < n && rules[..n][i] == best.value;
        assert rules[i].index < rules[n].index;
        LaterBeatsTies(best.value, rules[n]);
        forall x | x in rules[..n] && Matches(c, x, m) && KeyLess(best.value, rules[n])
          ensures KeyLess(x, rules[n])
        {
          KeyLessTrans(x, best.value, rules[n]);
        }
      }
    }
  }

  lemma KeyLessTrans(a: PersonalRule, b: PersonalRule, c: PersonalRule)
    requires (a == b || KeyLess(a, b)) && KeyLess(b, c)
    ensures KeyLess(a, c)
  {
  }

  lemma LaterBeatsTies(a: PersonalRule, b: PersonalRule)
    requires a.index < b.index
    ensures KeyLess(a, b) || KeyLess(b, a)
  {
  }

  lemma OneWinner(c: Casing, m: Message, rules: seq<PersonalRule>, a: PersonalRule, b: PersonalRule)
    requires Wins(c, m, rules, a) && Wins(c, m, rules, b)
    ensures a == b
  {
    hide Matches;
  }

  /** Whoever wins is selected. */
  lemma WinnerIsSelected(c: Casing, m: Message, rules: seq<PersonalRule>, winner: PersonalRule)
    requires Increasing(rules) && Wins(c, m, rules, winner)
    ensures Select(c, m, rules) == Some(winner)
  {
    hide Matches, Select;
    SelectedWins(c, m, rules);
    OneWinner(c, m, rules, Select(c, m, rules).value, winner);
  }

  // ------------------------------------------------------------------------ ties

  /** The two rules use the same kinds of predicates. */
  predicate SameShape(a: PersonalRule, b: PersonalRule) {
    a.sender.Some? == b.sender.Some? && a.domain.Some? == b.domain.Some? && a.subject.Some? == b.subject.Some?
  }

  /** For loaded rules the weights tell the shapes apart. */
  lemma SpecificityIsShape(a: PersonalRule, b: PersonalRule)
    requires Valid(a) && Valid(b)
    ensures a.specificity == b.specificity <==> SameShape(a, b)
  {
  }

  /** The five shapes of a loaded rule, from the weakest to the strongest. */
  ghost function Rank(rule: PersonalRule): nat {
    if rule.sender.Some? then (if rule.subject.Some? then 5 else 3)
    else if rule.domain.Some? then (if rule.subject.Some? then 4 else 2)
    else 1
  }

  /** Subject, domain, sender, domain with subject, sender with subject; among equals the later rule. */
  lemma KeyLessIsRank(a: PersonalRule, b: PersonalRule)
    requires Valid(a) && Valid(b)
    ensures KeyLess(a, b) <==> Rank(a) < Rank(b) || (Rank(a) == Rank(b) && a.index < b.index)
  {
  }

  /** Two rules that can only be told apart by their subjects, if at all. */
  predicate Tied(a: PersonalRule, b: PersonalRule) {
    a.sender == b.sender && a.domain == b.domain && a.subject.Some? == b.subject.Some?
  }

  /** Rules of equal specificity that match one message agree on sender and domain. */
  lemma TiesAgree(c: Casing, m: Message, a: PersonalRule, b: PersonalRule)
    requires Valid(a) && Valid(b) && Matches(c, a, m) && Matches(c, b, m)
    ensures a.specificity == b.specificity <==> Tied(a, b)
  {
    hide Contains;
    SpecificityIsShape(a, b);
  }

  /** A message that both of two tied rules match. */
  function TieMessage(a: PersonalRule, b: PersonalRule): Message {
    var sender := if a.sender.Some? then a.sender.value else if a.domain.Some? then "x@" + a.domain.value else "";
    var subject := (if a.subject.Some? then a.subject.value else "") + (if b.subject.Some? then b.subject.value else "");
    Message("tie", Some(sender), Some(subject))
  }

  /** The text is trimmed lower-case text: stripping and lower-casing leave it alone. */
  predicate Settled(c: Casing, m: Message) {
    SenderOf(c, m) == (if m.sender.Some? then m.sender.value else "") &&
    SubjectOf(c, m) == (if m.subject.Some? then m.subject.value else "")
  }

  lemma {:induction false} AtSplits(domain: string)
    requires '@' !in domain
    ensures AfterLastAt("x@" + domain) == Some(domain)
  {
    var text := "x@" + domain;
    if domain == "" {
      assert text == "x@";
    } else {
      var n := |domain| - 1;
      AtSplits(domain[..n]);
      assert text[..|text| - 1] == "x@" + domain[..n];
      assert domain == domain[..n] + [domain[n]];
      assert domain[n] in domain;
    }
  }

  /** Some message makes two loaded rules tie exactly when they are tied. */
  lemma TieIsPossible(c: Casing, a: PersonalRule, b: PersonalRule)
    requires Valid(a) && Valid(b) && Settled(c, TieMessage(a, b))
    ensures Tied(a, b) <==> exists m :: Matches(c, a, m) && Matches(c, b, m) && a.specificity == b.specificity
  {
    hide Contains;
    if Tied(a, b) {
      var m := TieMessage(a, b);
      if a.domain.Some? {
        AtSplits(a.domain.value);
      }
      if a.subject.Some? {
        ContainsParts(a.subject.value, b.subject.value);
      }
      SpecificityIsShape(a, b);
      assert Matches(c, a, m) && Matches(c, b, m);
    }
    forall m | Matches(c, a, m) && Matches(c, b, m) && a.specificity == b.specificity
      ensures Tied(a, b)
    {
      TiesAgree(c, m, a, b);
    }
  }

  lemma ContainsParts(a: string, b: string)
    ensures Contains(a, a + b) && Contains(b, a + b)
  {
    assert At(a, a + b, 0);
    assert At(b, a + b, |a|);
  }

  // -------------------------------------------------------------------- warnings

  datatype Warning = Identical(left: nat, right: nat) | Nested(left: nat, right: nat)

  predicate SamePredicates(a: PersonalRule, b: PersonalRule) {
    a.sender == b.sender && a.domain == b.domain && a.subject == b.subject
  }

  predicate NestedSubjects(a: PersonalRule, b: PersonalRule) {
    && a.sender.None? && a.domain.None? && a.subject.Some?
    && b.sender.None? && b.domain.None? && b.subject.Some?
    && (Contains(a.subject.value, b.subject.value) || Contains(b.subject.value, a.subject.value))
  }

  function PairWarning(a: PersonalRule, b: PersonalRule): seq<Warning> {
    if SamePredicates(a, b) then [Identical(a.index, b.index)]
    else if NestedSubjects(a, b) then [Nested(a.index, b.index)]
    else []
  }

  /** The warnings of one rule against the first `j` rules after position `i`. */
  function RowWarnings(rules: seq<PersonalRule>, i: nat, j: nat): seq<Warning>
    requires i < j <= |rules|
    decreases j
  {
    if j == i + 1 then [] else RowWarnings(rules, i, j - 1) + PairWarning(rules[i], rules[j - 1])
  }

  function Warnings(rules: seq<PersonalRule>, i: nat): seq<Warning>
    requires i <= |rules|
  {
    if i == 0 then [] else Warnings(rules, i - 1) + RowWarnings(rules, i - 1, |rules|)
  }

  /** `_collision_warnings`. */
  method CollisionWarnings(rules: seq<PersonalRule>) returns (warnings: seq<Warning>)
    ensures warnings == Warnings(rules, |rules|)
  {
    hide PairWarning;
    warnings := [];
    for i := 0 to |rules|
      invariant warnings == Warnings(rules, i)
    {
      assert Warnings(rules, i) + [] == Warnings(rules, i);
      for j := i + 1 to |rules|
        invariant warnings == Warnings(rules, i) + RowWarnings(rules, i, j)
      {
        warnings := EmitWarning(warnings, rules[i], rules[j]);
        assert Warnings(rules, i) + RowWarnings(rules, i, j) + PairWarning(rules[i], rules[j])
            == Warnings(rules, i) + RowWarnings(rules, i, j + 1);
      }
    }
  }

  /** The body of the inner loop, with its early `continue`. */
  method EmitWarning(before: seq<Warning>, left: PersonalRule, right: PersonalRule) returns (warnings: seq<Warning>)
    ensures warnings == before + PairWarning(left, right)
  {
    warnings := before;
    if SamePredicates(left, right) {
      warnings := warnings + [Identical(left.index, right.index)];
    } else if NestedSubjects(left, right) {
      warnings := warnings + [Nested(left.index, right.index)];
    }
  }

  // ------------------------------------------------------------------- a whole file

  /** The top-level value `rule`. */
  datatype RuleField = NoRules | NotTables | Tables(rules: seq<RawRule>)

  datatype RawFile = Unreadable | Toml(unknownKeys: seq<string>, field: RuleField)

  datatype LoadError = CannotLoad | UnknownTopLevel | NotAnArray | InRule(index: nat, errors: seq<RuleError>)

  datatype LoadResult = LoadResult(ok: bool, rules: seq<PersonalRule>, errors: seq<LoadError>, warnings: seq<Warning>)

  function RawRules(file: RawFile): seq<RawRule> {
    if file.Toml? && file.field.Tables? then file.field.rules else []
  }

  /** A file that the loader accepts. */
  predicate Acceptable(c: Casing, file: RawFile) {
    && file.Toml? && file.unknownKeys == [] && !file.field.NotTables?
    && forall raw :: raw in RawRules(file) ==> ErrorsOf(c, raw) == []
  }

  /** The validation loop: all rules compile, or the errors of every bad rule are reported. */
  method CompileRules(c: Casing, raws: seq<RawRule>, errors0: seq<LoadError>)
    returns (rules: seq<PersonalRule>, errors: seq<LoadError>)
    requires c.Proper()
    ensures errors0 <= errors
    ensures errors == errors0 <==> forall raw :: raw in raws ==> ErrorsOf(c, raw) == []
    ensures forall i :: 0 <= i < |raws| && ErrorsOf(c, raws[i]) != [] ==> InRule(i + 1, ErrorsOf(c, raws[i])) in errors
    ensures errors == errors0 ==> Compiled(c, raws, rules)
  {
    hide ErrorsOf, Compile, Valid;
    rules, errors := [], errors0;
    for k := 0 to |raws|
      invariant errors0 <= errors
      invariant errors == errors0 ==> Compiled(c, raws[..k], rules)
      invariant forall i :: 0 <= i < k && ErrorsOf(c, raws[i]) != [] ==> InRule(i + 1, ErrorsOf(c, raws[i])) in errors
      invariant errors != errors0 ==> exists i :: 0 <= i < k && ErrorsOf(c, raws[i]) != []
    {
      var found := ErrorsOf(c, raws[k]);
      if found != [] {
        errors := errors + [InRule(k + 1, found)];
      } else {
        CompiledIsValid(c, raws[k], k + 1);
        rules := rules + [Compile(c, raws[k], k + 1)];
      }
    }
    assert raws[..|raws|] == raws;
  }

  /** The rules of the tables, valid and numbered from 1. */
  ghost predicate Compiled(c: Casing, raws: seq<RawRule>, rules: seq<PersonalRule>) {
    && |rules| == |raws| && Numbered(rules)
    && forall i :: 0 <= i < |raws| ==> ErrorsOf(c, raws[i]) == [] && Valid(rules[i]) && rules[i] == Compile(c, raws[i], i + 1)
  }

  /** `load_personal_rules`: everything is accepted or nothing is. */
  method LoadRules(c: Casing, file: RawFile) returns (result: LoadResult)
    requires c.Proper()
    ensures result.ok <==> Acceptable(c, file)
    ensures result.ok <==> result.errors == []
    ensures result.ok ==> Compiled(c, RawRules(file), result.rules) && result.warnings == Warnings(result.rules, |result.rules|)
    ensures !result.ok ==> result.rules == [] && result.warnings == []
    ensures file.Toml? && file.unknownKeys != [] ==> UnknownTopLevel in result.errors
    ensures var raws := RawRules(file);
            forall i :: 0 <= i < |raws| && ErrorsOf(c, raws[i]) != [] ==> InRule(i + 1, ErrorsOf(c, raws[i])) in result.errors
  {
    hide ErrorsOf, Compile, Valid, Warnings, Numbered;
    if file.Unreadable? {
      return LoadResult(false, [], [CannotLoad], []);
    }
    var errors: seq<LoadError> := if file.unknownKeys != [] then [UnknownTopLevel] else [];
    if file.field.NotTables? {
      return LoadResult(false, [], errors + [NotAnArray], []);
    }
    var rules, all := CompileRules(c, RawRules(file), errors);
    if all != [] {
      return LoadResult(false, [], all, []);
    }
    var warnings := CollisionWarnings(rules);
    result := LoadResult(true, rules, [], warnings);
  }

  lemma {:induction false} RowMembers(rules: seq<PersonalRule>, i: nat, j: nat, w: Warning)
    requires i < j <= |rules|
    ensures w in RowWarnings(rules, i, j) <==> exists k :: i < k < j && w in PairWarning(rules[i], rules[k])
    decreases j
  {
    hide PairWarning;
    if j > i + 1 {
      RowMembers(rules, i, j - 1, w);
    }
  }

  ghost predicate WarnedPair(rules: seq<PersonalRule>, p: nat, k: nat, w: Warning) {
    p < k < |rules| && w in PairWarning(rules[p], rules[k])
  }

  lemma {:induction false} WarningMembers(rules: seq<PersonalRule>, i: nat, w: Warning)
    requires i <= |rules|
    ensures w in Warnings(rules, i) <==> exists p: nat, k: nat :: p < i && WarnedPair(rules, p, k, w)
  {
    hide PairWarning, RowWarnings;
    if i > 0 {
      WarningMembers(rules, i - 1, w);
      RowMembers(rules, i - 1, |rules|, w);
      if w in RowWarnings(rules, i - 1, |rules|) {
        var k :| i - 1 < k < |rules| && w in PairWarning(rules[i - 1], rules[k]);
        assert WarnedPair(rules, i - 1, k, w);
      }
      if exists p: nat, k: nat :: p < i && WarnedPair(rules, p, k, w) {
        var p: nat, k: nat :| p < i && WarnedPair(rules, p, k, w);
        if p == i - 1 {
          assert w in RowWarnings(rules, i - 1, |rules|);
        }
      }
    }
  }

  /** A pair of rules is reported exactly when its predicates are identical or its bare subjects nest. */
  lemma ReportedIff(rules: seq<PersonalRule>, p: nat, k: nat)
    requires Increasing(rules) && p < k < |rules|
    ensures var a, b, all := rules[p], rules[k], Warnings(rules, |rules|);
            && (Identical(a.index, b.index) in all <==> SamePredicates(a, b))
            && (Nested(a.index, b.index) in all <==> !SamePredicates(a, b) && NestedSubjects(a, b))
  {
    hide Contains, Warnings, RowWarnings;
    var a, b, all := rules[p], rules[k], Warnings(rules, |rules|);
    forall w: Warning | w.left == a.index && w.right == b.index
      ensures w in all <==> w in PairWarning(a, b)
    {
      WarningMembers(rules, |rules|, w);
      if w in all {
        var p': nat, k': nat :| p' < |rules| && WarnedPair(rules, p', k', w);
        assert rules[p'].index == a.index && rules[k'].index == b.index;
        SamePosition(rules, p, p');
        SamePosition(rules, k, k');
      }
      if w in PairWarning(a, b) {
        assert WarnedPair(rules, p, k, w);
      }
    }
    assert Identical(a.index, b.index).left == a.index && Nested(a.index, b.index).left == a.index;
  }

  lemma SamePosition(rules: seq<PersonalRule>, i: nat, j: nat)
    requires Increasing(rules) && i < |rules| && j < |rules| && rules[i].index == rules[j].index
    ensures i == j
  {
  }

  /** Every warning reports a pair that ties, so that the later rule beats the earlier whenever both match. */
  lemma WarningMeansTie(rules: seq<PersonalRule>, p: nat, k: nat)
    requires Increasing(rules) && p < k < |rules| && Valid(rules[p]) && Valid(rules[k])
    requires PairWarning(rules[p], rules[k]) != []
    ensures Tied(rules[p], rules[k]) && KeyLess(rules[p], rules[k])
  {
    hide Contains;
    SpecificityIsShape(rules[p], rules[k]);
  }

  /** The later of two reported rules wins whenever both match. */
  lemma LaterWins(c: Casing, m: Message, rules: seq<PersonalRule>, p: nat, k: nat)
    requires Increasing(rules) && p < k < |rules| && Valid(rules[p]) && Valid(rules[k])
    requires PairWarning(rules[p], rules[k]) != [] && Matches(c, rules[p], m) && Matches(c, rules[k], m)
    ensures Select(c, m, rules) != Some(rules[p])
    ensures Select(c, m, [rules[p], rules[k]]) == Some(rules[k])
  {
    hide Matches, PairWarning, Select, Valid;
    WarningMeansTie(rules, p, k);
    SelectedWins(c, m, rules);
    assert rules[p] in rules && rules[k] in rules;
    var pair := [rules[p], rules[k]];
    assert Wins(c, m, pair, rules[k]);
    WinnerIsSelected(c, m, pair, rules[k]);
  }

  /** A rule with an identical later rule is never selected, for any message. */
  lemma ShadowedIsNeverSelected(c: Casing, m: Message, rules: seq<PersonalRule>, p: nat, k: nat)
    requires Increasing(rules) && p < k < |rules| && Valid(rules[p]) && Valid(rules[k])
    requires Identical(rules[p].index, rules[k].index) in Warnings(rules, |rules|)
    ensures Select(c, m, rules) != Some(rules[p])
  {
    hide Select, Valid, Contains, Warnings;
    ReportedIff(rules, p, k);
    assert Matches(c, rules[p], m) == Matches(c, rules[k], m);
    SelectedWins(c, m, rules);
    if Matches(c, rules[p], m) {
      LaterWins(c, m, rules, p, k);
    }
  }

  function Without(rules: seq<PersonalRule>, p: nat): seq<PersonalRule>
    requires p < |rules|
  {
    rules[..p] + rules[p + 1..]
  }

  lemma WithoutFacts(rules: seq<PersonalRule>, p: nat)
    requires Increasing(rules) && p < |rules|
    ensures Increasing(Without(rules, p))
    ensures forall x :: x in Without(rules, p) <==> x in rules && x != rules[p]
  {
    var rest := Without(rules, p);
    assert forall i :: 0 <= i < |rest| ==> rest[i] == if i < p then rules[i] else rules[i + 1];
    forall x | x in rules && x != rules[p]
      ensures x in rest
    {
      var i :| 0 <= i < |rules| && rules[i] == x;
      assert rest[if i < p then i else i - 1] == x;
    }
  }

  /** A rule that is not selected can be deleted without changing the choice. */
  lemma UnselectedIsRedundant(c: Casing, m: Message, rules: seq<PersonalRule>, p: nat)
    requires Increasing(rules) && p < |rules| && Select(c, m, rules) != Some(rules[p])
    ensures Select(c, m, Without(rules, p)) == Select(c, m, rules)
  {
    hide Matches, Select, Without, KeyLess, Increasing;
    WithoutFacts(rules, p);
    var rest := Without(rules, p);
    SelectedWins(c, m, rules);
    SelectedWins(c, m, rest);
    var all := Select(c, m, rules);
    if all.Some? {
      assert Wins(c, m, rest, all.value);
      WinnerIsSelected(c, m, rest, all.value);
    }
  }

  /** What an identical-predicates warning means: the earlier rule may be deleted. */
  lemma ShadowedIsRedundant(c: Casing, m: Message, rules: seq<PersonalRule>, p: nat, k: nat)
    requires Increasing(rules) && p < k < |rules| && Valid(rules[p]) && Valid(rules[k])
    requires Identical(rules[p].index, rules[k].index) in Warnings(rules, |rules|)
    ensures Select(c, m, Without(rules, p)) == Select(c, m, rules)
  {
    hide *;
    ShadowedIsNeverSelected(c, m, rules, p, k);
    UnselectedIsRedundant(c, m, rules, p);
  }

  /** Which ties go unreported: different subjects beside a sender or domain, or bare subjects that do not nest. */
  lemma UnreportedTie(a: PersonalRule, b: PersonalRule)
    requires Valid(a) && Valid(b) && Tied(a, b)
    ensures PairWarning(a, b) == [] <==>
            a.subject != b.subject &&
            (a.sender.Some? || a.domain.Some? ||
             (!Contains(a.subject.value, b.subject.value) && !Contains(b.subject.value, a.subject.value)))
  {
    hide Contains;
  }

  function SubjectRule(index: nat, subject: string): PersonalRule {
    PersonalRule(index, None, None, Some(subject), Normal, None, (1, 1), NoAction)
  }

  /** The warnings are not complete: two subject rules can meet in one message unannounced. */
  lemma SomeTiesAreUnreported(c: Casing)
    requires c.lower("foo bar") == "foo bar"
    ensures var a, b := SubjectRule(1, "foo"), SubjectRule(2, "bar");
            var m := Message("m", None, Some("foo bar"));
            Matches(c, a, m) && Matches(c, b, m) && a.specificity == b.specificity && Warnings([a, b], 2) == []
  {
    var a, b := SubjectRule(1, "foo"), SubjectRule(2, "bar");
    assert At("foo", "foo bar", 0) && At("bar", "foo bar", 4);
    assert "foo"[0] == 'f' && "bar"[0] == 'b';
    forall i: nat
      ensures !At("foo", "bar", i) && !At("bar", "foo", i)
    {
      if i == 0 {
        assert "bar"[0..3] == "bar" && "foo"[0..3] == "foo";
      }
    }
    assert PairWarning(a, b) == [];
    assert RowWarnings([a, b], 0, 2) == [] + PairWarning(a, b);
    assert RowWarnings([a, b], 1, 2) == [];
    assert Warnings([a, b], 1) == Warnings([a, b], 0) + RowWarnings([a, b], 0, 2);
  }

  // -------------------------------------------------------------- classification

  datatype Triage = Triage(id: string, priority: Priority, reason: string, matched: seq<string>)

  datatype ValueError = IdsDiffer

  datatype Classified = Classified(message: Message, triage: Result<Triage, ValueError>, action: RuleAction, matched: Option<nat>)

  /** Renders a rule's number in the default reason and in the tag. */
  datatype Wording = Wording(reason: nat -> string, tag: nat -> string)

  /** `apply_to_message`; an empty note counts as absent. */
  function Apply(c: Casing, w: Wording, result: Triage, m: Message, rules: seq<PersonalRule>): Result<Triage, ValueError> {
    if result.id != m.id then Err(IdsDiffer)
    else
      match Select(c, m, rules)
      case None => Ok(result)
      case Some(rule) =>
        var reason := if Given(rule.note) then rule.note.value else w.reason(rule.index);
        Ok(Triage(result.id, rule.priority, reason, result.matched + [w.tag(rule.index)]))
  }

  /** `classify_message`, which applies only the rule it has selected. */
  function Classify(c: Casing, w: Wording, triage: Message -> Triage, m: Message, rules: seq<PersonalRule>): Classified {
    var selected := Select(c, m, rules);
    Classified(
      m,
      Apply(c, w, triage(m), m, if selected.Some? then [selected.value] else []),
      if selected.Some? then selected.value.action else NoAction,
      if selected.Some? then Some(selected.value.index) else None)
  }

  /** Selecting again from the selection alone changes nothing. */
  lemma SelectionIsStable(c: Casing, m: Message, rules: seq<PersonalRule>)
    requires Increasing(rules)
    ensures var selected := Select(c, m, rules);
            Select(c, m, if selected.Some? then [selected.value] else []) == selected
  {
    hide Matches;
    SelectedWins(c, m, rules);
    var selected := Select(c, m, rules);
    if selected.Some? {
      var one := [selected.value];
      assert one[..0] == [];
      assert Select(c, m, one[..0]) == None;
    }
  }

  /** Classifying a message is applying the whole rule list to its built-in triage, with the winner's action. */
  lemma ClassifyAgrees(c: Casing, w: Wording, triage: Message -> Triage, m: Message, rules: seq<PersonalRule>)
    requires Increasing(rules)
    ensures Classify(c, w, triage, m, rules).triage == Apply(c, w, triage(m), m, rules)
    ensures match Classify(c, w, triage, m, rules).matched
            case None => (forall x :: x in rules ==> !Matches(c, x, m)) && Classify(c, w, triage, m, rules).action == NoAction
            case Some(n) => exists r :: Wins(c, m, rules, r) && r.index == n && Classify(c, w, triage, m, rules).action == r.action
  {
    hide Matches, Select, KeyLess, Increasing;
    SelectionIsStable(c, m, rules);
    SelectedWins(c, m, rules);
  }

  /**
   * What classification delivers: with a match the winner's priority, action and
   * number, its note or else the default text as the reason, and its tag behind
   * the built-in matches; without one the built-in triage; an error exactly when
   * the triage is about another message.
   */
  lemma ClassifyMeans(c: Casing, w: Wording, triage: Message -> Triage, m: Message, rules: seq<PersonalRule>)
    requires Increasing(rules)
    ensures var r, built := Classify(c, w, triage, m, rules), triage(m);
            && r.message == m && (r.triage.Err? <==> built.id != m.id) && (r.triage.Ok? ==> r.triage.value.id == m.id)
            && (forall winner :: Wins(c, m, rules, winner) ==>
                  && r.matched == Some(winner.index) && r.action == winner.action
                  && (r.triage.Ok? ==>
                        && r.triage.value.priority == winner.priority
                        && r.triage.value.reason ==
                             (if winner.note.Some? && winner.note.value != "" then winner.note.value else w.reason(winner.index))
                        && r.triage.value.matched == built.matched + [w.tag(winner.index)]))
            && ((forall x :: x in rules ==> !Matches(c, x, m)) ==>
                  r.matched.None? && r.action == NoAction && (r.triage.Ok? ==> r.triage.value == built))
  {
    hide Matches, Select, KeyLess, Increasing;
    SelectionIsStable(c, m, rules);
    SelectedWins(c, m, rules);
    var selected := Select(c, m, rules);
    forall winner | Wins(c, m, rules, winner)
      ensures selected == Some(winner)
    {
      OneWinner(c, m, rules, selected.value, winner);
    }
  }

  /** Deleting a rule that an identical later rule shadows changes no classification. */
  lemma ShadowedChangesNothing(c: Casing, w: Wording, triage: Message -> Triage, m: Message, rules: seq<PersonalRule>, p: nat, k: nat)
    requires Increasing(rules) && p < k < |rules| && Valid(rules[p]) && Valid(rules[k])
    requires Identical(rules[p].index, rules[k].index) in Warnings(rules, |rules|)
    ensures Classify(c, w, triage, m, Without(rules, p)) == Classify(c, w, triage, m, rules)
  {
    hide Matches, Select, Valid, Warnings;
    ShadowedIsRedundant(c, m, rules, p, k);
  }
}
