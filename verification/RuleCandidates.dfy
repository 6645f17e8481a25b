/**
 * What proposed edits do to a rule file that the loader has accepted
 * (examples/mail_assistant/rules.py:153-186).  TOML forbids a carriage return
 * that no line feed follows, so the exceptions of the editor do not arise there.
 */
module RuleCandidates {
  import opened Common
  import Text
  import opened RuleText
  import opened RuleFile
  import opened RuleUpdate
  import opened RuleAppend
  import opened RuleTransactions

  /** Every carriage return belongs to a line end. */
  ghost predicate NoBareCr(text: string) {
    forall i :: 0 <= i < |text| && text[i] == '\r' ==> i + 1 < |text| && text[i + 1] == '\n'
  }

  /** The loader refuses bare carriage returns, as TOML demands. */
  ghost predicate StrictLoader(c: Config) {
    forall text: string :: c.load(text).ok ==> NoBareCr(text)
  }

  /** A bare carriage return at the end of the last line ends the text. */
  lemma LastBareCr(text: string)
    requires text != "" && BareCr(Last(Lines(text)))
    ensures !NoBareCr(text)
  {
    hide Lines, Concat;
    ConcatLines(text);
    ConcatEnd(Lines(text));
    var last := Last(Lines(text));
    assert text[|text| - 1..] == ['\r'];
    assert text[|text| - 1..][0] == text[|text| - 1];
  }

  /** A block that stops in a bare carriage return is the last of its file. */
  lemma UnappendableIsLast(text: string, index: nat)
    requires index < |Rules(text)| && Rules(text)[index] != [] && BareCr(Last(Rules(text)[index]))
    ensures text != "" && BareCr(Last(Lines(text)))
  {
    hide Lines, Segments, IsLine, EndsWithCr;
    var lines, segs := Lines(text), Rules(text);
    FlattenSegments(lines);
    FlattenAround(segs, index);
    var p := |Flatten(segs[..index])| + |segs[index]| - 1;
    assert lines[p] == Last(segs[index]);
    assert !Terminated(lines[p]);
    assert p == |lines| - 1;
  }

  lemma AppendableUnder(text: string, index: nat)
    requires NoBareCr(text) && index < |Rules(text)| && Rules(text)[index] != []
    ensures !Unappendable(Rules(text)[index])
  {
    hide Rules, BareCr, NoBareCr;
    if BareCr(Last(Rules(text)[index])) {
      UnappendableIsLast(text, index);
      LastBareCr(text);
    }
  }

  lemma NoHiddenHeader(text: string)
    requires NoBareCr(text)
    ensures !HiddenHeader(text)
  {
    hide Lines, BareCr, NoBareCr, IsMarker;
    if HiddenHeader(text) {
      LinesNotEmpty(text);
      LastBareCr(text);
    }
  }

  lemma LinesNotEmpty(text: string)
    ensures Lines(text) != [] ==> text != ""
  {
  }

  // ----------------------------------------------------------- what a request names

  /** The given text, or the part of the message that the field names; a domain is what follows the last at sign. */
  ghost predicate About(c: Config, r: Request, value: string) {
    if r.matchValue.Some? then value == c.norm(r.matchValue.value)
    else
      && r.message.Some?
      && match r.field
         case "sender" => value == c.norm(r.message.value.sender)
         case "domain" => Follows(c.norm(r.message.value.sender), value) && '@' !in value
         case "subject" => value == c.norm(r.message.value.subject)
         case _ => false
  }

  /** The text ends with an at sign and this tail. */
  ghost predicate Follows(text: string, tail: string) {
    |tail| < |text| && text[|text| - |tail| - 1..] == "@" + tail
  }

  lemma TailAt(text: string, tail: string)
    requires Follows(text, tail)
    ensures var i := |text| - |tail| - 1;
            text[i] == '@' && '@' in text && forall k :: i < k < |text| ==> text[k] == tail[k - i - 1]
  {
    var i := |text| - |tail| - 1;
    assert text[i] == text[i..][0];
    assert forall k :: i < k < |text| ==> text[k] == text[i..][k - i];
  }

  lemma OneTail(text: string, a: string, b: string)
    requires Follows(text, a) && Follows(text, b) && '@' !in a && '@' !in b
    ensures a == b
  {
    hide Follows;
    TailAt(text, a);
    TailAt(text, b);
    assert |a| == |b|;
    forall k | 0 <= k < |a|
      ensures a[k] == b[k]
    {
      assert text[|text| - |a| + k] == a[k];
    }
  }

  ghost predicate Requested(c: Config, r: Request, value: string) {
    && About(c, r, value) && value != "" && r.field in {"sender", "domain", "subject"}
    && (r.field == "domain" ==> '@' !in value)
  }

  /** A request passes the first checks exactly with the non-empty value it is about, on one of the three fields. */
  lemma RequestMeans(c: Config, r: Request, value: string)
    ensures CheckedValue(c, r) == Ok(value) <==> Requested(c, r, value)
  {
    if r.matchValue.None? && r.message.Some? && r.field == "domain" {
      var sender := c.norm(r.message.value.sender);
      var domain := Text.AfterLastAt(sender);
      if About(c, r, value) {
        TailAt(sender, value);
        OneTail(sender, domain.value, value);
      }
    }
  }

  /** The rule has this value in this field and nothing in the other two. */
  ghost predicate Bears(rule: LoadedRule, field: string, value: string) {
    match field
    case "sender" => rule.sender == Some(value) && rule.domain.None? && rule.subject.None?
    case "domain" => rule.domain == Some(value) && rule.sender.None? && rule.subject.None?
    case _ => rule.subject == Some(value) && rule.sender.None? && rule.domain.None?
  }

  lemma {:induction false} LastMatchMeans(rules: seq<LoadedRule>, field: string, value: string)
    requires field in {"sender", "domain", "subject"}
    ensures match LastMatch(rules, field, value)
            case None => forall rule :: rule in rules ==> !Bears(rule, field, value)
            case Some(index) =>
              && (exists rule :: rule in rules && Bears(rule, field, value) && rule.index == index)
              && forall rule :: rule in rules && Bears(rule, field, value) ==> rule.index <= index
  {
    if rules != [] {
      var n := |rules| - 1;
      LastMatchMeans(rules[..n], field, value);
      MatchesIsBears(rules[n], field, value);
      assert rules == rules[..n] + [rules[n]];
    }
  }

  lemma MatchesIsBears(rule: LoadedRule, field: string, value: string)
    requires field in {"sender", "domain", "subject"}
    ensures RuleTransactions.Matches(rule, field, value) <==> Bears(rule, field, value)
  {
    assert FieldOf(rule, "sender") == rule.sender && FieldOf(rule, "domain") == rule.domain && FieldOf(rule, "subject") == rule.subject;
  }

  /** The edited rule: the last one that has the request's field and value and nothing else, if the file has any. */
  lemma ChosenMeans(c: Config, current: string, field: string, value: string)
    requires field in {"sender", "domain", "subject"}
    ensures var rules := if current == "" then [] else c.load(current).rules;
            match Chosen(c, current, field, value)
            case None => forall rule :: rule in rules ==> !Bears(rule, field, value)
            case Some(index) =>
              && (exists rule :: rule in rules && Bears(rule, field, value) && rule.index == index)
              && forall rule :: rule in rules && Bears(rule, field, value) ==> rule.index <= index
  {
    hide Bears, LastMatch;
    LastMatchMeans(if current == "" then [] else c.load(current).rules, field, value);
  }

  /** The checked value of a request for which there is a candidate. */
  function ValueOf(c: Config, r: Request): string
    requires CheckedValue(c, r).Ok?
  {
    CheckedValue(c, r).value
  }

  lemma CandidateShape(c: Config, current: string, r: Request)
    requires Candidate(c, current, r).Ok?
    ensures CheckedValue(c, r).Ok? && (current == "" || c.load(current).ok) && c.load(Candidate(c, current, r).value).ok
    ensures match Chosen(c, current, r.field, ValueOf(c, r))
            case Some(index) => UpdateRule(current, index, r.priority, r.action) == Ok(Candidate(c, current, r).value)
            case None => Candidate(c, current, r).value == AppendRule(current, map[r.field := ValueOf(c, r), PRIORITY := r.priority, ACTION := r.action])
  {
    hide UpdateRule, AppendRule, CheckedValue, Chosen;
  }

  /**
   * With a loader that refuses bare carriage returns, a proposed update keeps the
   * number of rules and is idempotent, and a proposed new rule keeps the text and
   * adds exactly one rule.
   */
  lemma CandidateEdits(c: Config, current: string, r: Request)
    requires StrictLoader(c) && Candidate(c, current, r).Ok?
    ensures CheckedValue(c, r).Ok?
    ensures var text := Candidate(c, current, r).value;
            match Chosen(c, current, r.field, ValueOf(c, r))
            case Some(index) => |Rules(text)| == |Rules(current)| && UpdateRule(text, index, r.priority, r.action) == Ok(text)
            case None => current <= text && |Rules(text)| == |Rules(current)| + 1
  {
    hide UpdateRule, AppendRule, CheckedValue, Chosen, Candidate, Rules, Unappendable, HiddenHeader, NoBareCr, UpdateBlock;
    CandidateShape(c, current, r);
    var text := Candidate(c, current, r).value;
    assert current == "" ==> NoBareCr(current) by { EmptyHasNone(); }
    assert NoBareCr(current);
    match Chosen(c, current, r.field, ValueOf(c, r))
    case Some(index) =>
      UpdatedIndex(current, index, r.priority, r.action);
      UpdateRuleTwice(current, index, r.priority, r.action);
      AppendableUnder(current, index);
      UpdateRuleKeepsOthers(current, index, r.priority, r.action);
    case None =>
      NoHiddenHeader(current);
      AppendAddsOneRule(current, map[r.field := ValueOf(c, r), PRIORITY := r.priority, ACTION := r.action]);
  }

  /** The loader accepts the file, the rule to edit is there with a priority, and the loader accepts the outcome. */
  ghost predicate Editable(c: Config, current: string, r: Request, value: string) {
    && (current == "" || c.load(current).ok)
    && match Chosen(c, current, r.field, value)
       case Some(index) =>
         && 1 <= index < |Rules(current)| && !Nowhere(Rules(current)[index], PRIORITY)
         && c.load(UpdateRule(current, index, r.priority, r.action).value).ok
       case None => c.load(AppendRule(current, map[r.field := value, PRIORITY := r.priority, ACTION := r.action])).ok
  }

  lemma EditableIsUpdatable(current: string, index: int, priority: string, action: string)
    ensures UpdateRule(current, index, priority, action).Ok? <==>
              1 <= index < |Rules(current)| && !Nowhere(Rules(current)[index], PRIORITY)
  {
    hide UpdateBlock, Segments, Lines, Nowhere;
    UpdateRuleErrors(current, index, priority, action);
  }

  /** There is a candidate exactly when the request names a value and the file can be edited for it. */
  lemma CandidateIff(c: Config, current: string, r: Request)
    ensures Candidate(c, current, r).Ok? <==> exists value :: Requested(c, r, value) && Editable(c, current, r, value)
  {
    hide UpdateRule, AppendRule, CheckedValue, Chosen, Requested, Rules, Nowhere;
    forall value: string
      ensures CheckedValue(c, r) == Ok(value) <==> Requested(c, r, value)
    {
      RequestMeans(c, r, value);
    }
    if CheckedValue(c, r).Ok? {
      var value := ValueOf(c, r);
      assert Requested(c, r, value);
      var chosen := Chosen(c, current, r.field, value);
      if chosen.Some? {
        EditableIsUpdatable(current, chosen.value, r.priority, r.action);
      }
      assert Candidate(c, current, r).Ok? <==> Editable(c, current, r, value);
    }
  }

  /** Some line of the rule assigns this value to the key. */
  ghost predicate Holds(rule: seq<string>, key: string, value: string) {
    exists line :: line in rule && Assigns(line, key) && ValueIn(line, key) == Some(value)
  }

  /** The edited rule reads back as the requested priority and action; a new rule also as the requested field. */
  lemma CandidateReads(c: Config, current: string, r: Request)
    requires StrictLoader(c) && Candidate(c, current, r).Ok? && CheckedValue(c, r).Ok?
    ensures var before, after := Rules(current), Rules(Candidate(c, current, r).value);
            match Chosen(c, current, r.field, ValueOf(c, r))
            case Some(index) =>
              && 1 <= index < |before| == |after|
              && ReadsBack(before[index], after[index], r.priority, r.action)
              && forall k: nat :: k < |before| && k != index ==> after[k] == before[k]
            case None =>
              && after != []
              && Holds(after[|after| - 1], r.field, ValueOf(c, r))
              && Holds(after[|after| - 1], PRIORITY, r.priority)
              && Holds(after[|after| - 1], ACTION, r.action)
  {
    hide UpdateRule, AppendRule, Chosen, Candidate, Segments, Lines, Unappendable, NoBareCr, UpdateBlock, ReadsBack, Assigns, ValueIn;
    CandidateShape(c, current, r);
    RequestMeans(c, r, ValueOf(c, r));
    assert current == "" ==> NoBareCr(current) by { EmptyHasNone(); }
    hide CheckedValue;
    match Chosen(c, current, r.field, ValueOf(c, r))
    case Some(index) =>
      UpdatedIndex(current, index, r.priority, r.action);
      UpdateRuleKeepsOthers(current, index, r.priority, r.action);
      RulesAreWhole(current, index);
      AppendableUnder(current, index);
      UpdateRuleReads(current, index, r.priority, r.action);
    case None =>
      var rule := map[r.field := ValueOf(c, r), PRIORITY := r.priority, ACTION := r.action];
      FieldsDiffer(r.field);
      AppendedReads(current, rule, r.field);
      AppendedReads(current, rule, PRIORITY);
      AppendedReads(current, rule, ACTION);
  }

  lemma FieldsDiffer(field: string)
    requires field in {"sender", "domain", "subject"}
    ensures field in FIELDS && PRIORITY in FIELDS && ACTION in FIELDS
    ensures field != PRIORITY && field != ACTION && PRIORITY != ACTION
  {
    assert FIELDS[0] == "sender" && FIELDS[1] == "domain" && FIELDS[2] == "subject";
    assert FIELDS[3] == PRIORITY && FIELDS[4] == ACTION;
  }

  lemma EmptyHasNone()
    ensures NoBareCr("")
  {
  }

  lemma UpdatedIndex(text: string, index: int, priority: string, action: string)
    requires UpdateRule(text, index, priority, action).Ok?
    ensures 1 <= index < |Rules(text)|
  {
    hide UpdateBlock, Segments, Lines;
  }

  /** Proposing the same edit of the edited file gives the same text, as long as the loader finds the same rule. */
  lemma ProposingTwice(c: Config, current: string, r: Request)
    requires StrictLoader(c) && Candidate(c, current, r).Ok? && CheckedValue(c, r).Ok?
    requires var text := Candidate(c, current, r).value;
             && Chosen(c, current, r.field, ValueOf(c, r)).Some?
             && Chosen(c, text, r.field, ValueOf(c, r)) == Chosen(c, current, r.field, ValueOf(c, r))
    ensures Candidate(c, Candidate(c, current, r).value, r) == Candidate(c, current, r)
  {
    hide UpdateRule, AppendRule, CheckedValue, Rules;
    CandidateShape(c, current, r);
    CandidateEdits(c, current, r);
  }

  // ------------------------------------------------------------ outside the loader

  /** A text that hides a header behind a bare carriage return: appending to it adds two rules. */
  lemma HiddenHeaderExample(rule: map<string, string>)
    ensures var text := MARKER + "\r";
            HiddenHeader(text) && !NoBareCr(text) && |Rules(AppendRule(text, rule))| == |Rules(text)| + 2
  {
    hide AppendRule, Rules, Lines, IsMarker;
    var text := MARKER + "\r";
    var line := text;
    assert '\n' !in line;
    LinesConcat([line]);
    assert Concat([line]) == line;
    HiddenMarker();
    assert Lines(text) == [line];
    assert BareCr(line);
    AppendAddsOneRule(text, rule);
    assert text[|text| - 1] == '\r';
  }

  lemma HiddenMarker()
    ensures IsMarker(MARKER + "\r" + "\n")
  {
    var line := MARKER + "\r" + "\n";
    assert Content(line) == MARKER + "\r";
    assert (MARKER + "\r")[..|MARKER + "\r"| - 1] == MARKER;
    assert MARKER[0] == '[';
    assert Blanks(MARKER) == ("", MARKER);
    assert MARKER[|MARKER|..] == "";
  }
}
