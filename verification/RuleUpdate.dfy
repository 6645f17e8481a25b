/**
 * What `_update_rule` and `_append_rule` (examples/mail_assistant/rules.py) do
 * to a whole file: other rules keep their text, the number of headers is kept,
 * and updating twice is the same as updating once, with one exact exception.
 */
module RuleUpdate {
  import opened Common
  import opened Text
  import opened RuleText
  import opened RuleFile

  // ---------------------------------------------------------- first assignment

  function FirstAssign(lines: seq<string>, key: string): Option<nat> {
    if lines == [] then None
    else if Assigns(lines[0], key) then Some(0)
    else
      match FirstAssign(lines[1..], key)
      case None => None
      case Some(i) => Some(i + 1)
  }

  /** `i` is the first line that assigns the key. */
  ghost predicate First(lines: seq<string>, key: string, i: nat) {
    && i < |lines| && Assigns(lines[i], key)
    && forall j :: 0 <= j < i ==> !Assigns(lines[j], key)
  }

  ghost predicate Nowhere(lines: seq<string>, key: string) {
    forall j :: 0 <= j < |lines| ==> !Assigns(lines[j], key)
  }

  lemma {:induction false} FirstAssignIs(lines: seq<string>, key: string)
    ensures match FirstAssign(lines, key) {
              case None => Nowhere(lines, key)
              case Some(i) => First(lines, key, i) }
  {
    hide Assigns;
    if lines != [] {
      FirstAssignIs(lines[1..], key);
    }
  }

  lemma FirstIs(lines: seq<string>, key: string, i: nat)
    requires First(lines, key, i)
    ensures FirstAssign(lines, key) == Some(i)
  {
    hide Assigns;
    FirstAssignIs(lines, key);
  }

  lemma NowhereIs(lines: seq<string>, key: string)
    requires Nowhere(lines, key)
    ensures FirstAssign(lines, key) == None
  {
    hide Assigns;
    FirstAssignIs(lines, key);
  }

  /** Only the first assignment of the key is rewritten. */
  lemma {:induction false} ReplaceAt(lines: seq<string>, key: string, value: string)
    ensures FirstAssign(lines, key).Some? ==>
              var i := FirstAssign(lines, key).value;
              && i < |lines| && Assigns(lines[i], key)
              && ReplaceAssignment(lines, key, value) == (lines[i := NewLine(lines[i], key, value)], true)
    ensures FirstAssign(lines, key).None? ==> ReplaceAssignment(lines, key, value) == (lines, false)
  {
    hide Assigns, NewLine;
    if lines != [] {
      var tail := lines[1..];
      ReplaceAt(tail, key, value);
      if Assigns(lines[0], key) {
        var x := NewLine(lines[0], key, value);
        assert [x] + tail == lines[0 := x];
      } else if FirstAssign(tail, key).Some? {
        var i := FirstAssign(tail, key).value;
        var x := NewLine(tail[i], key, value);
        assert [lines[0]] + tail[i := x] == lines[i + 1 := x];
      } else {
        assert lines == [lines[0]] + tail;
      }
    }
  }

  // ------------------------------------------------------------- longer lines

  lemma KeyBeforeCr(key: string, k: string, cr: string)
    requires IsKey(key) && cr != "" && cr[0] == '\r'
    ensures key <= k + cr <==> key <= k
  {
    if |k| < |key| {
      assert (k + cr)[|k|] == '\r' != key[|k|];
    }
  }

  /** A carriage return ends the search for `key =`. */
  lemma AssignmentThroughCr(c: string, y: string, key: string)
    requires IsKey(key)
    ensures Assignment(c + "\r" + y, key) ==
            match Assignment(c, key) {
              case None => None
              case Some((head, rest)) => Some((head, rest + "\r" + y)) }
  {
    hide Blanks;
    var cr := "\r" + y;
    var (b1, k) := Blanks(c);
    BlanksSplit(c);
    assert c + "\r" + y == b1 + (k + cr);
    BlanksOf(b1, k + cr);
    KeyBeforeCr(key, k, cr);
    if key <= k {
      var (b2, e) := Blanks(k[|key|..]);
      BlanksSplit(k[|key|..]);
      assert (k + cr)[|key|..] == b2 + (e + cr);
      BlanksOf(b2, e + cr);
      if e != "" && e[0] == '=' {
        var (b3, rest) := Blanks(e[1..]);
        BlanksSplit(e[1..]);
        assert (e + cr)[1..] == b3 + (rest + cr);
        BlanksOf(b3, rest + cr);
        assert rest + "\r" + y == rest + cr;
      }
    }
  }

  /** An unterminated line that has not ended in a carriage return either. */
  predicate Open(line: string) {
    IsLine(line) && !Terminated(line) && !EndsWithCr(line)
  }

  predicate IsNewline(newline: string) {
    newline == "\n" || newline == "\r\n"
  }

  /** The carriage return of a newline, if it has one. */
  function CrOf(newline: string): string {
    if newline == "\r\n" then "\r" else ""
  }

  lemma EndLineContent(line: string, newline: string)
    requires Open(line) && IsNewline(newline)
    ensures IsLine(line + newline) && Terminated(line + newline)
    ensures Content(line + newline) == line + CrOf(newline) && Content(line) == line
  {
    LineContent(line);
    assert line + newline == (line + CrOf(newline)) + "\n";
    ContentOf(line + CrOf(newline), true);
  }

  /** Ending an unterminated line keeps what it assigns. */
  lemma EndLineAssigns(line: string, newline: string, key: string)
    requires Open(line) && IsNewline(newline) && IsKey(key)
    ensures Assigns(line + newline, key) <==> Assigns(line, key)
    ensures Assigns(line, key) ==>
              var (head, rest) := Assignment(line, key).value;
              Assignment(Content(line + newline), key) == Some((head, rest + CrOf(newline)))
  {
    hide Assignment;
    EndLineContent(line, newline);
    if newline == "\n" {
      assert line + CrOf(newline) == line;
      assert Assigns(line, key) ==> Assignment(line, key).value.1 + "" == Assignment(line, key).value.1;
    } else {
      assert line + CrOf(newline) == line + "\r" + "";
      AssignmentThroughCr(line, "", key);
      assert Assigns(line, key) ==>
          Assignment(line, key).value.1 + "\r" + "" == Assignment(line, key).value.1 + "\r";
    }
  }

  lemma EndValue(rest: string, newline: string, value: string)
    requires !EndsWithCr(rest) && IsNewline(newline)
    ensures CommentOf(rest + CrOf(newline)) == CommentOf(rest)
    ensures NewValue(rest + CrOf(newline), value) == NewValue(rest, value) + CrOf(newline)
  {
    hide CommentSuffix, Quoted, LStrip;
    assert Bare(rest + CrOf(newline)) == rest;
  }

  lemma EndLineSettled(line: string, newline: string, key: string, value: string)
    requires Open(line) && IsNewline(newline) && IsKey(key) && Assigns(line, key)
    ensures Assigns(line + newline, key) && CommentIn(line + newline, key) == CommentIn(line, key)
    ensures Settled(line, key, value) ==> Settled(line + newline, key, value)
  {
    hide Assignment, NewValue, CommentOf;
    EndLineContent(line, newline);
    EndLineAssigns(line, newline, key);
    AssignmentParts(line, key);
    var (head, rest) := Assignment(line, key).value;
    EndValue(rest, newline, value);
    if Settled(line, key, value) {
      assert head + NewValue(rest, value) == line;
      assert head + (NewValue(rest, value) + CrOf(newline)) + "\n" == line + newline;
    }
  }

  lemma EndLineMarker(line: string, newline: string)
    requires Open(line) && IsNewline(newline)
    ensures IsMarker(line + newline) <==> IsMarker(line)
  {
    hide Blanks;
    EndLineContent(line, newline);
    assert (line + CrOf(newline))[..|line|] == line;
  }

  /** The comment on a line that assigns the key. */
  function CommentIn(line: string, key: string): string
    requires Assigns(line, key)
  {
    CommentOf(Assignment(Content(line), key).value.1)
  }

  /** A settled line reads back as the value. */
  lemma SettledReads(line: string, key: string, value: string)
    requires IsLine(line) && IsKey(key) && Settled(line, key, value)
    ensures ValueIn(line, key) == Some(value)
  {
    hide NewValue, Assignment, ReadBasic;
    NewLineFacts(line, key, value);
    NewValueFacts(Assignment(Content(line), key).value.1, value);
  }

  /** The basic string that a line assigns to the key. */
  function ValueIn(line: string, key: string): Option<string>
    requires Assigns(line, key)
  {
    match ReadBasic(Assignment(Content(line), key).value.1)
    case None => None
    case Some((value, _)) => Some(value)
  }

  // ------------------------------------------------------------ appended lines

  lemma ActionLineFacts(action: string, newline: string)
    requires IsNewline(newline)
    ensures var line := ActionLine(action, newline);
            IsLine(line) && Terminated(line) && Settled(line, ACTION, action) && !IsMarker(line)
  {
    hide NewValue, Assignment, Quoted, LStrip;
    Keys();
    QuotedHasNoNewline(action);
    var value := Quoted(action) + CrOf(newline);
    var content := ACTION + " = " + value;
    assert ActionLine(action, newline) == content + "\n";
    ContentOf(content, true);
    AssignmentOf("", ACTION, " ", " ", value);
    assert "" + ACTION + " " + "=" + " " + value == content;
    assert "" + ACTION + " " + "=" + " " == ACTION + " = ";
    QuotedIsNewValue(action, newline);
    AssignmentIsNoMarker(ActionLine(action, newline), ACTION);
  }

  lemma QuotedIsNewValue(v: string, newline: string)
    requires IsNewline(newline)
    ensures NewValue(Quoted(v) + CrOf(newline), v) == Quoted(v) + CrOf(newline)
  {
    hide Quoted, CommentSuffix;
    QuotedHasNoNewline(v);
    CommentRecovered(v, "");
    assert Quoted(v) + "" == Quoted(v);
    assert Bare(Quoted(v) + CrOf(newline)) == Quoted(v);
  }

  /** A line that ends in a bare carriage return. */
  predicate BareCr(line: string) {
    IsLine(line) && !Terminated(line) && EndsWithCr(line)
  }

  /** Text put right after a bare carriage return is part of its line and assigns nothing new. */
  lemma JoinedLine(line: string, action: string, newline: string, key: string)
    requires BareCr(line) && IsNewline(newline) && IsKey(key)
    ensures var joined := line + ActionLine(action, newline);
            && IsLine(joined) && Terminated(joined) && !IsMarker(joined)
            && (Assigns(joined, key) <==> Assigns(line, key))
  {
    hide Assignment, Quoted;
    QuotedHasNoNewline(action);
    LineContent(line);
    var c := line[..|line| - 1];
    var y := ACTION + " = " + Quoted(action) + CrOf(newline);
    assert line == c + "\r" + "";
    var content := c + "\r" + y;
    assert line + ActionLine(action, newline) == content + "\n";
    assert '\n' !in c by {
      assert forall d :: d in c ==> d in line;
    }
    ContentOf(content, true);
    AssignmentThroughCr(c, "", key);
    AssignmentThroughCr(c, y, key);
    InnerCrIsNoMarker(c, y, content + "\n");
  }

  lemma InnerCrIsNoMarker(c: string, y: string, line: string)
    requires IsLine(line) && Terminated(line) && Content(line) == c + "\r" + y && y != "" && y != "\r"
    ensures !IsMarker(line)
  {
    hide Blanks;
    var content := Content(line);
    var body := if EndsWithCr(content) then content[..|content| - 1] else content;
    assert body[|c|] == '\r';
    InnerCr(body);
  }

  lemma InnerCr(body: string)
    requires '\r' in body
    ensures var k := Blanks(body).1; MARKER <= k ==> '\r' in k[|MARKER|..]
  {
    var (b, k) := Blanks(body);
    BlanksSplit(body);
    assert '\r' !in b;
    assert '\r' in k;
    if MARKER <= k {
      CrAfter(MARKER, k);
    }
  }

  lemma CrAfter(prefix: string, k: string)
    requires prefix <= k && '\r' in k && '\r' !in prefix
    ensures '\r' in k[|prefix|..]
  {
    assert k == k[..|prefix|] + k[|prefix|..];
  }

  // -------------------------------------------------------------------- blocks

  ghost predicate Whole(block: seq<string>) {
    WellFormed(block) && IsBlock(block)
  }

  function Last(block: seq<string>): string
    requires block != []
  {
    block[|block| - 1]
  }

  /** Rewriting one line of a block that is not its header. */
  lemma ReplaceLine(block: seq<string>, i: nat, line: string)
    requires Whole(block) && 0 < i < |block| && IsLine(line) && !IsMarker(line)
    requires Terminated(line) <==> Terminated(block[i])
    ensures Whole(block[i := line])
  {
    hide IsMarker, Terminated;
    var b := block[i := line];
    assert forall j :: 0 <= j < |b| - 1 ==> b[1..][j] == b[j + 1];
    assert forall j :: 0 <= j < |block| - 1 ==> block[1..][j] == block[j + 1];
  }

  lemma HeaderAssignsNothing(block: seq<string>, key: string, i: nat)
    requires Whole(block) && IsKey(key) && First(block, key, i)
    ensures 0 < i < |block| && IsLine(block[i])
  {
    hide IsMarker, Assigns;
    MarkerIsNoAssignment(block[0], key);
  }

  /** What rewriting does to one line. */
  lemma RewriteLine(line: string, key: string, value: string)
    requires IsLine(line) && IsKey(key) && Assigns(line, key)
    ensures var line' := NewLine(line, key, value);
            && IsLine(line') && !IsMarker(line') && Settled(line', key, value) && Assigns(line', key)
            && (Terminated(line') <==> Terminated(line)) && (BareCr(line') <==> BareCr(line))
            && CommentIn(line', key) == CommentIn(line, key)
  {
    hide NewLine, NewValue, Assignment, IsMarker, CommentOf;
    var line' := NewLine(line, key, value);
    NewLineFacts(line, key, value);
    NewValueFacts(Assignment(Content(line), key).value.1, value);
    AssignmentIsNoMarker(line', key);
    RewriteEnds(line, line');
  }

  lemma RewriteEnds(line: string, line': string)
    requires IsLine(line) && IsLine(line') && (Terminated(line') <==> Terminated(line))
    requires EndsWithCr(Content(line')) <==> EndsWithCr(Content(line))
    ensures BareCr(line') <==> BareCr(line)
  {
  }

  /** What rewriting the first assignment of a key does to a block. */
  lemma Rewrite(block: seq<string>, key: string, value: string, i: nat)
    requires Whole(block) && IsKey(key) && First(block, key, i)
    ensures var b := block[i := NewLine(block[i], key, value)];
            && 0 < i && Whole(b) && First(b, key, i) && Settled(b[i], key, value)
            && CommentIn(b[i], key) == CommentIn(block[i], key)
            && (Terminated(Last(b)) <==> Terminated(Last(block)))
            && (BareCr(Last(b)) <==> BareCr(Last(block)))
  {
    hide NewLine, Assigns, IsMarker, CommentIn, Settled, Whole, BareCr, Terminated, IsLine, IsKey;
    HeaderAssignsNothing(block, key, i);
    RewriteLine(block[i], key, value);
    ReplaceLine(block, i, NewLine(block[i], key, value));
  }

  /** Rewriting one key does not touch what assigns another. */
  lemma RewriteOther(block: seq<string>, key: string, value: string, i: nat, other: string, j: nat)
    requires Whole(block) && IsKey(key) && IsKey(other) && other[0] != key[0]
    requires First(block, key, i) && j < |block|
    ensures Assigns(block[i := NewLine(block[i], key, value)][j], other) <==> Assigns(block[j], other)
    ensures Assigns(block[j], other) ==> j != i
  {
    hide NewLine, Assigns, IsMarker, Settled;
    HeaderAssignsNothing(block, key, i);
    NewLineFacts(block[i], key, value);
    SettledAssigns(NewLine(block[i], key, value), key, value);
    OneKey(block[i], key, other);
    OneKey(NewLine(block[i], key, value), key, other);
  }

  lemma SettledAssigns(line: string, key: string, value: string)
    requires Settled(line, key, value)
    ensures Assigns(line, key) && NewLine(line, key, value) == line
  {
  }

  /** The block's text stops in a bare carriage return and nothing in it assigns an action. */
  ghost predicate Unappendable(block: seq<string>)
    requires block != []
  {
    BareCr(Last(block)) && Nowhere(block, ACTION)
  }

  /** A line added after the last, terminated line. */
  lemma AppendLine(block: seq<string>, line: string)
    requires Whole(block) && Terminated(Last(block)) && IsLine(line) && !IsMarker(line)
    ensures Whole(block + [line])
  {
    hide IsMarker, Terminated;
    var b := block + [line];
    assert forall j :: 0 <= j < |block| - 1 ==> block[1..][j] == block[j + 1];
    assert forall j :: 0 <= j < |b| - 1 ==> b[1..][j] == b[j + 1];
  }

  /** Another last line, terminated or not, in place of the old last line. */
  lemma ChangeLast(block: seq<string>, line: string)
    requires Whole(block) && |block| > 1 && IsLine(line) && !IsMarker(line)
    ensures Whole(block[|block| - 1 := line])
  {
    hide IsMarker, Terminated;
    var b := block[|block| - 1 := line];
    assert forall j :: 0 <= j < |block| - 1 ==> block[1..][j] == block[j + 1];
    assert forall j :: 0 <= j < |b| - 1 ==> b[1..][j] == b[j + 1];
  }

  /** The block after an action line was appended: `i` still settles the priority, and the action is settled last. */
  ghost predicate BothSettled(b: seq<string>, priority: string, action: string, i: nat) {
    && Whole(b) && Terminated(Last(b))
    && First(b, PRIORITY, i) && Settled(b[i], PRIORITY, priority)
    && First(b, ACTION, |b| - 1) && Settled(Last(b), ACTION, action)
  }

  lemma AppendAfterNewline(block: seq<string>, priority: string, action: string, i: nat, newline: string)
    requires Whole(block) && First(block, PRIORITY, i) && Settled(block[i], PRIORITY, priority)
    requires Nowhere(block, ACTION) && Terminated(Last(block)) && IsNewline(newline)
    ensures BothSettled(block + [ActionLine(action, newline)], priority, action, i)
  {
    hide IsMarker, Assigns, Settled, ActionLine, Whole, Terminated;
    var line := ActionLine(action, newline);
    ActionLineFacts(action, newline);
    SettledAssigns(line, ACTION, action);
    AppendLine(block, line);
  }

  lemma EndBlock(block: seq<string>, priority: string, i: nat, newline: string)
    requires Whole(block) && 0 < i && First(block, PRIORITY, i) && Settled(block[i], PRIORITY, priority)
    requires Nowhere(block, ACTION) && Open(Last(block)) && IsNewline(newline)
    ensures var b := block[|block| - 1 := Last(block) + newline];
            && Whole(b) && First(b, PRIORITY, i) && Settled(b[i], PRIORITY, priority)
            && CommentIn(b[i], PRIORITY) == CommentIn(block[i], PRIORITY)
            && Nowhere(b, ACTION) && Terminated(Last(b))
  {
    hide IsMarker, Assigns, Settled, CommentIn, Terminated;
    Keys();
    var last := Last(block);
    EndLineContent(last, newline);
    EndLineAssigns(last, newline, PRIORITY);
    EndLineAssigns(last, newline, ACTION);
    EndLineMarker(last, newline);
    assert block[1..][|block| - 2] == last;
    ChangeLast(block, last + newline);
    if i == |block| - 1 {
      EndLineSettled(last, newline, PRIORITY, priority);
    }
  }

  lemma JoinBlock(block: seq<string>, action: string, i: nat, newline: string)
    requires Whole(block) && 0 < i && First(block, PRIORITY, i)
    requires Nowhere(block, ACTION) && BareCr(Last(block)) && IsNewline(newline)
    ensures var b := block[|block| - 1 := Last(block) + ActionLine(action, newline)];
            && Whole(b) && First(b, PRIORITY, i) && Nowhere(b, ACTION) && Terminated(Last(b))
  {
    hide IsMarker, Assigns, ActionLine, Terminated;
    Keys();
    var last := Last(block);
    JoinedLine(last, action, newline, PRIORITY);
    JoinedLine(last, action, newline, ACTION);
    ChangeLast(block, last + ActionLine(action, newline));
  }

  lemma LastIsLine(block: seq<string>)
    requires Whole(block)
    ensures IsLine(Last(block))
  {
  }

  /** The line stays, except that a last line without an end gets one before a line is added. */
  predicate LineKept(block: seq<string>, b: seq<string>, k: nat)
    requires k < |block| <= |b|
  {
    || b[k] == block[k]
    || (k == |block| - 1 && |b| == |block| + 1 && !Terminated(block[k]) && (b[k] == block[k] + "\n" || b[k] == block[k] + "\r\n"))
  }

  ghost predicate OneLineAdded(block: seq<string>, b: seq<string>) {
    |b| == |block| + 1 && forall k: nat :: k < |block| ==> LineKept(block, b, k)
  }

  lemma AppendKeepsLines(block: seq<string>, action: string)
    requires block != [] && (Terminated(Last(block)) || !EndsWithCr(Last(block)))
    ensures OneLineAdded(block, AppendAction(block, action))
  {
    hide Terminated, EndsWithCr, HasCrLf;
    var b := AppendAction(block, action);
    forall k: nat | k < |block|
      ensures LineKept(block, b, k)
    {
    }
  }

  /** An appended action is read back unless the block was unappendable. */
  lemma AppendFacts(block: seq<string>, priority: string, action: string, i: nat)
    requires Whole(block) && First(block, PRIORITY, i) && 0 < i && Settled(block[i], PRIORITY, priority)
    requires Nowhere(block, ACTION)
    ensures var b := AppendAction(block, action);
            && Whole(b) && Terminated(Last(b)) && First(b, PRIORITY, i)
            && (BareCr(Last(block)) ==> Nowhere(b, ACTION))
            && (!BareCr(Last(block)) ==>
                  BothSettled(b, priority, action, i) && CommentIn(b[i], PRIORITY) == CommentIn(block[i], PRIORITY))
  {
    hide IsMarker, Assigns, Settled, CommentIn, ActionLine, WellFormed, IsLine;
    LastIsLine(block);
    var newline := if HasCrLf(block) then "\r\n" else "\n";
    var line := ActionLine(action, newline);
    var last := Last(block);
    if Terminated(last) {
      AppendAfterNewline(block, priority, action, i, newline);
    } else if EndsWithCr(last) {
      JoinBlock(block, action, i, newline);
      assert AppendAction(block, action) == block[|block| - 1 := last + line];
    } else {
      EndBlock(block, priority, i, newline);
      var ended := block[|block| - 1 := last + newline];
      AppendAfterNewline(ended, priority, action, i, newline);
      assert AppendAction(block, action) == ended + [line];
    }
  }

  // ------------------------------------------------------------------ one update

  /** Lines `i` and `j` are the first to assign the two keys, and hold the new values. */
  ghost predicate SettledBoth(b: seq<string>, priority: string, action: string, i: nat, j: nat) {
    && First(b, PRIORITY, i) && Settled(b[i], PRIORITY, priority)
    && First(b, ACTION, j) && Settled(b[j], ACTION, action)
  }

  /** The block with its first priority rewritten. */
  function WithPriority(block: seq<string>, priority: string, i: nat): seq<string>
    requires i < |block| && Assigns(block[i], PRIORITY)
  {
    block[i := NewLine(block[i], PRIORITY, priority)]
  }

  lemma PriorityKeepsAction(block: seq<string>, priority: string, i: nat)
    requires Whole(block) && First(block, PRIORITY, i)
    ensures var b1 := WithPriority(block, priority, i);
            && (forall j :: First(block, ACTION, j) ==> First(b1, ACTION, j))
            && (Nowhere(block, ACTION) ==> Nowhere(b1, ACTION))
  {
    hide Assigns, NewLine, Whole;
    Keys();
    var b1 := WithPriority(block, priority, i);
    forall j: nat | j < |block|
      ensures Assigns(b1[j], ACTION) <==> Assigns(block[j], ACTION)
    {
      RewriteOther(block, PRIORITY, priority, i, ACTION, j);
    }
  }

  /** The block already has both keys: both lines are rewritten in place. */
  lemma UpdateFound(block: seq<string>, priority: string, action: string, i: nat, j: nat)
    requires Whole(block) && First(block, PRIORITY, i) && First(block, ACTION, j)
    ensures UpdateBlock(block, priority, action).Some?
    ensures var b := UpdateBlock(block, priority, action).value;
            && Whole(b) && |b| == |block| && SettledBoth(b, priority, action, i, j) && i > 0
            && CommentIn(b[i], PRIORITY) == CommentIn(block[i], PRIORITY)
            && CommentIn(b[j], ACTION) == CommentIn(block[j], ACTION)
            && (forall k :: 0 <= k < |b| && k != i && k != j ==> b[k] == block[k])
            && (Terminated(Last(b)) <==> Terminated(Last(block)))
  {
    hide Assigns, NewLine, Whole, Settled, IsMarker, Terminated, CommentIn, BareCr;
    Keys();
    var b1 := WithPriority(block, priority, i);
    Rewrite(block, PRIORITY, priority, i);
    PriorityKeepsAction(block, priority, i);
    FirstIs(block, PRIORITY, i);
    ReplaceAt(block, PRIORITY, priority);
    FirstIs(b1, ACTION, j);
    ReplaceAt(b1, ACTION, action);
    Rewrite(b1, ACTION, action, j);
    var b := b1[j := NewLine(b1[j], ACTION, action)];
    forall k: nat | k < |b|
      ensures Assigns(b[k], PRIORITY) <==> Assigns(b1[k], PRIORITY)
      ensures k == i ==> i != j
    {
      RewriteOther(b1, ACTION, action, j, PRIORITY, k);
    }
    assert b[i] == b1[i] && b1[j] == block[j];
  }

  /** The block has no action: one is appended. */
  lemma UpdateMissing(block: seq<string>, priority: string, action: string, i: nat)
    requires Whole(block) && First(block, PRIORITY, i) && Nowhere(block, ACTION)
    ensures UpdateBlock(block, priority, action).Some?
    ensures var b := UpdateBlock(block, priority, action).value;
            && Whole(b) && Terminated(Last(b)) && First(b, PRIORITY, i) && i > 0
            && (BareCr(Last(block)) ==> Nowhere(b, ACTION))
            && (!BareCr(Last(block)) ==>
                 && SettledBoth(b, priority, action, i, |b| - 1)
                 && CommentIn(b[i], PRIORITY) == CommentIn(block[i], PRIORITY)
                 && OneLineAdded(WithPriority(block, priority, i), b))
  {
    hide Assigns, NewLine, Whole, Settled, IsMarker, Terminated, CommentIn, BareCr, AppendAction, OneLineAdded;
    Keys();
    var b1 := WithPriority(block, priority, i);
    Rewrite(block, PRIORITY, priority, i);
    PriorityKeepsAction(block, priority, i);
    FirstIs(block, PRIORITY, i);
    ReplaceAt(block, PRIORITY, priority);
    NowhereIs(b1, ACTION);
    ReplaceAt(b1, ACTION, action);
    AppendFacts(b1, priority, action, i);
    if !BareCr(Last(block)) {
      LastIsLine(b1);
      NotBareCr(Last(b1));
      AppendKeepsLines(b1, action);
    }
  }

  lemma NotBareCr(line: string)
    requires IsLine(line) && !BareCr(line)
    ensures Terminated(line) || !EndsWithCr(line)
  {
  }

  /** Settled lines are not changed by another update. */
  lemma SettledIsFixed(b: seq<string>, priority: string, action: string, i: nat, j: nat)
    requires Whole(b) && SettledBoth(b, priority, action, i, j)
    ensures UpdateBlock(b, priority, action) == Some(b)
  {
    hide Assigns, NewLine, Whole, Settled;
    FirstIs(b, PRIORITY, i);
    ReplaceAt(b, PRIORITY, priority);
    SettledAssigns(b[i], PRIORITY, priority);
    assert b[i := b[i]] == b;
    FirstIs(b, ACTION, j);
    ReplaceAt(b, ACTION, action);
    SettledAssigns(b[j], ACTION, action);
    assert b[j := b[j]] == b;
  }

  /** A terminated block without an action gets one more line. */
  lemma MissingGrows(b: seq<string>, priority: string, action: string, i: nat)
    requires Whole(b) && Terminated(Last(b)) && First(b, PRIORITY, i) && Nowhere(b, ACTION)
    ensures UpdateBlock(b, priority, action).Some? && |UpdateBlock(b, priority, action).value| == |b| + 1
  {
    hide Assigns, NewLine, Whole, Settled, IsMarker, CommentIn, BareCr, Terminated;
    Keys();
    var b1 := WithPriority(b, priority, i);
    Rewrite(b, PRIORITY, priority, i);
    PriorityKeepsAction(b, priority, i);
    FirstIs(b, PRIORITY, i);
    ReplaceAt(b, PRIORITY, priority);
    NowhereIs(b1, ACTION);
    ReplaceAt(b1, ACTION, action);
    AppendTerminated(b1, action);
  }

  lemma AppendTerminated(b: seq<string>, action: string)
    requires b != [] && Terminated(Last(b))
    ensures |AppendAction(b, action)| == |b| + 1
  {
  }

  /** A block without a priority is not updated. */
  lemma UpdateNeedsPriority(block: seq<string>, priority: string, action: string)
    requires block != []
    ensures UpdateBlock(block, priority, action).None? <==> Nowhere(block, PRIORITY)
  {
    hide Assigns, NewLine, AppendAction;
    ReplaceAt(block, PRIORITY, priority);
    FirstAssignIs(block, PRIORITY);
  }

  /** Updating a block twice is updating it once, unless it was unappendable. */
  lemma UpdateBlockTwice(block: seq<string>, priority: string, action: string)
    requires Whole(block) && UpdateBlock(block, priority, action).Some?
    ensures var b := UpdateBlock(block, priority, action).value;
            && Whole(b) && (Terminated(Last(block)) ==> Terminated(Last(b)))
            && UpdateBlock(b, priority, action).Some?
            && (UpdateBlock(b, priority, action) == Some(b) <==> !Unappendable(block))
  {
    hide Assigns, NewLine, WellFormed, IsMarker, Settled, CommentIn, BareCr, Terminated, UpdateBlock;
    UpdateNeedsPriority(block, priority, action);
    FirstAssignIs(block, PRIORITY);
    FirstAssignIs(block, ACTION);
    var i := FirstAssign(block, PRIORITY).value;
    var b := UpdateBlock(block, priority, action).value;
    if FirstAssign(block, ACTION).Some? {
      var j := FirstAssign(block, ACTION).value;
      UpdateFound(block, priority, action, i, j);
      SettledIsFixed(b, priority, action, i, j);
    } else {
      UpdateMissing(block, priority, action, i);
      if BareCr(Last(block)) {
        MissingGrows(b, priority, action, i);
      } else {
        SettledIsFixed(b, priority, action, i, |b| - 1);
      }
    }
  }

  // --------------------------------------------------------------- whole files

  function Rules(text: string): seq<seq<string>> {
    Segments(Lines(text))
  }

  lemma {:induction false} FlattenAround(segs: seq<seq<string>>, k: nat)
    requires k < |segs|
    ensures Flatten(segs) == Flatten(segs[..k]) + segs[k] + Flatten(segs[k + 1..])
  {
    if k == 0 {
      assert segs[..0] == [];
      assert Flatten(segs[..0]) + segs[0] == segs[0];
    } else {
      var tail := segs[1..];
      FlattenAround(tail, k - 1);
      assert tail[..k - 1] == segs[..k][1..];
      assert tail[k..] == segs[k + 1..];
      assert Flatten(segs[..k]) == segs[0] + Flatten(tail[..k - 1]);
      assert segs[0] + (Flatten(tail[..k - 1]) + segs[k] + Flatten(segs[k + 1..]))
          == segs[0] + Flatten(tail[..k - 1]) + segs[k] + Flatten(segs[k + 1..]);
    }
  }

  lemma WellFormedParts(a: seq<string>, b: seq<string>, c: seq<string>)
    requires WellFormed(a + b + c) && b != []
    ensures WellFormed(a) && WellFormed(b) && WellFormed(c)
    ensures (a != [] ==> Terminated(Last(a))) && (c != [] ==> Terminated(Last(b)))
  {
    hide Terminated;
    var all := a + b + c;
    assert forall i :: 0 <= i < |a| ==> all[i] == a[i];
    assert forall i :: 0 <= i < |b| ==> all[|a| + i] == b[i];
    assert forall i :: 0 <= i < |c| ==> all[|a| + |b| + i] == c[i];
  }

  /** Lines that end where a new block is put in the place of an old one. */
  lemma LinesOfThree(a: seq<string>, b: seq<string>, c: seq<string>)
    requires WellFormed(a) && WellFormed(b) && WellFormed(c) && b != []
    requires (a != [] ==> Terminated(Last(a))) && (c != [] ==> Terminated(Last(b)))
    ensures Lines(Concat(a) + Concat(b) + Concat(c)) == a + b + c
  {
    hide Concat, Lines, Terminated, WellFormed;
    var ab := a + b;
    assert ab[|ab| - 1] == Last(b);
    LinesAppend(a, b);
    ConcatAppend(a, b);
    LinesAppend(ab, c);
  }

  lemma RulesAreWhole(text: string, k: nat)
    requires 1 <= k < |Rules(text)|
    ensures GoodSegments(Rules(text)) && Whole(Rules(text)[k])
    ensures var segs := Rules(text);
            var a, c := Flatten(segs[..k]), Flatten(segs[k + 1..]);
            && WellFormed(a) && WellFormed(c)
            && (a != [] ==> Terminated(Last(a))) && (c != [] ==> Terminated(Last(segs[k])))
            && text == Concat(a) + Concat(segs[k]) + Concat(c)
  {
    hide IsMarker, Terminated;
    var segs := Rules(text);
    SegmentsAreGood(Lines(text));
    FlattenSegments(Lines(text));
    FlattenAround(segs, k);
    var a, c := Flatten(segs[..k]), Flatten(segs[k + 1..]);
    WellFormedParts(a, segs[k], c);
    ConcatLines(text);
    ConcatAppend(a + segs[k], c);
    ConcatAppend(a, segs[k]);
  }

  /** An update changes the chosen rule's block and nothing else: every other block, and the number of headers, stay. */
  lemma UpdateRuleKeepsOthers(text: string, index: nat, priority: string, action: string)
    requires UpdateRule(text, index, priority, action).Ok?
    ensures 1 <= index < |Rules(text)| && UpdateBlock(Rules(text)[index], priority, action).Some?
    ensures var text' := UpdateRule(text, index, priority, action).value;
            Rules(text') == Rules(text)[index := UpdateBlock(Rules(text)[index], priority, action).value]
  {
    hide IsMarker, Terminated, UpdateBlock, Unappendable;
    var segs := Rules(text);
    RulesAreWhole(text, index);
    UpdateBlockTwice(segs[index], priority, action);
    var b := UpdateBlock(segs[index], priority, action).value;
    var a, c := Flatten(segs[..index]), Flatten(segs[index + 1..]);
    LinesOfThree(a, b, c);
    var segs' := segs[index := b];
    FlattenAround(segs', index);
    assert segs'[..index] == segs[..index] && segs'[index + 1..] == segs[index + 1..];
    SegmentsOf(segs');
  }

  /**
   * Updating twice is updating once, exactly when the rule's text did not stop
   * in a bare carriage return without an action: then each update adds another
   * action line, because the first one landed behind the carriage return.
   */
  lemma UpdateRuleTwice(text: string, index: nat, priority: string, action: string)
    requires UpdateRule(text, index, priority, action).Ok?
    ensures 1 <= index < |Rules(text)| && Rules(text)[index] != []
    ensures var text' := UpdateRule(text, index, priority, action).value;
            && UpdateRule(text', index, priority, action).Ok?
            && (UpdateRule(text', index, priority, action) == Ok(text') <==> !Unappendable(Rules(text)[index]))
  {
    hide IsMarker, Terminated, UpdateBlock, Unappendable, GoodSegments;
    var segs := Rules(text);
    RulesAreWhole(text, index);
    UpdateBlockTwice(segs[index], priority, action);
    UpdateRuleKeepsOthers(text, index, priority, action);
    var text' := UpdateRule(text, index, priority, action).value;
    var b := UpdateBlock(segs[index], priority, action).value;
    var segs' := segs[index := b];
    assert Rules(text') == segs';
    assert segs'[..index] == segs[..index] && segs'[index + 1..] == segs[index + 1..];
    UpdateRuleKeepsOthers(text', index, priority, action);
    var text'' := UpdateRule(text', index, priority, action).value;
    var c := UpdateBlock(b, priority, action).value;
    assert Rules(text'') == segs'[index := c];
    assert segs'[index] == b && segs'[index := c][index] == c;
  }

  /** The two errors, and nothing else, stop an update. */
  lemma UpdateRuleErrors(text: string, index: int, priority: string, action: string)
    ensures UpdateRule(text, index, priority, action) == Err(NoSuchRule) <==> !(1 <= index < |Rules(text)|)
    ensures UpdateRule(text, index, priority, action) == Err(NoPriority) <==>
              1 <= index < |Rules(text)| && Nowhere(Rules(text)[index], PRIORITY)
  {
    hide UpdateBlock, Assigns, IsMarker;
    if 1 <= index < |Rules(text)| {
      RulesAreWhole(text, index);
      UpdateNeedsPriority(Rules(text)[index], priority, action);
    }
  }

  /**
   * The first priority and action of `b` read back as the new values with the
   * comments they had in `block`, and the other lines stay; a missing action is
   * one line more, at the end.
   */
  ghost predicate ReadsBack(block: seq<string>, b: seq<string>, priority: string, action: string) {
    exists i: nat, j: nat ::
      && First(block, PRIORITY, i) && First(b, PRIORITY, i) && First(b, ACTION, j)
      && ValueIn(b[i], PRIORITY) == Some(priority)
      && CommentIn(b[i], PRIORITY) == CommentIn(block[i], PRIORITY)
      && ValueIn(b[j], ACTION) == Some(action)
      && KeepsOthers(block, b, i, j)
  }

  /** With an action at line `j` only the two lines change; without one a line is added, which has no comment. */
  ghost predicate KeepsOthers(block: seq<string>, b: seq<string>, i: nat, j: nat) {
    && (First(block, ACTION, j) || Nowhere(block, ACTION))
    && (First(block, ACTION, j) ==>
          && |b| == |block| && Assigns(b[j], ACTION) && CommentIn(b[j], ACTION) == CommentIn(block[j], ACTION)
          && forall k: nat :: k < |b| && k != i && k != j ==> b[k] == block[k])
    && (Nowhere(block, ACTION) ==>
          && j == |block| && |b| == |block| + 1
          && forall k: nat :: k < |block| && k != i ==> LineKept(block, b, k))
  }

  lemma SettledReadBack(block: seq<string>, b: seq<string>, priority: string, action: string, i: nat, j: nat)
    requires Whole(b) && First(block, PRIORITY, i) && SettledBoth(b, priority, action, i, j)
    requires CommentIn(b[i], PRIORITY) == CommentIn(block[i], PRIORITY) && KeepsOthers(block, b, i, j)
    ensures ReadsBack(block, b, priority, action)
  {
    hide Assigns, Settled, CommentIn, ValueIn, Terminated, IsLine, IsMarker, KeepsOthers;
    Keys();
    SettledReads(b[i], PRIORITY, priority);
    SettledReads(b[j], ACTION, action);
  }

  /** A block whose priority was rewritten before a line was added keeps its other lines. */
  lemma AddedKeepsOthers(block: seq<string>, b: seq<string>, priority: string, i: nat)
    requires First(block, PRIORITY, i) && Nowhere(block, ACTION)
    requires OneLineAdded(WithPriority(block, priority, i), b)
    ensures KeepsOthers(block, b, i, |b| - 1)
  {
    hide Assigns, NewLine, Terminated, CommentIn;
    var b1 := WithPriority(block, priority, i);
    forall k: nat | k < |block| && k != i
      ensures LineKept(block, b, k)
    {
      assert LineKept(b1, b, k);
    }
  }

  lemma UpdateBlockReads(block: seq<string>, priority: string, action: string)
    requires Whole(block) && UpdateBlock(block, priority, action).Some? && !Unappendable(block)
    ensures ReadsBack(block, UpdateBlock(block, priority, action).value, priority, action)
  {
    hide Assigns, NewLine, WellFormed, IsMarker, Settled, CommentIn, BareCr, Terminated, UpdateBlock, ReadsBack, OneLineAdded;
    UpdateNeedsPriority(block, priority, action);
    FirstAssignIs(block, PRIORITY);
    FirstAssignIs(block, ACTION);
    var i := FirstAssign(block, PRIORITY).value;
    var b := UpdateBlock(block, priority, action).value;
    if FirstAssign(block, ACTION).Some? {
      var j := FirstAssign(block, ACTION).value;
      UpdateFound(block, priority, action, i, j);
      SettledReadBack(block, b, priority, action, i, j);
    } else {
      UpdateMissing(block, priority, action, i);
      AddedKeepsOthers(block, b, priority, i);
      SettledReadBack(block, b, priority, action, i, |b| - 1);
    }
  }

  /** In the updated file the rule reads back as the new priority and action. */
  lemma UpdateRuleReads(text: string, index: nat, priority: string, action: string)
    requires UpdateRule(text, index, priority, action).Ok? && 1 <= index < |Rules(text)|
    requires Rules(text)[index] != [] && !Unappendable(Rules(text)[index])
    ensures var rules' := Rules(UpdateRule(text, index, priority, action).value);
            |rules'| == |Rules(text)| && ReadsBack(Rules(text)[index], rules'[index], priority, action)
  {
    hide ReadsBack, UpdateBlock, UpdateRule, Unappendable, IsMarker, Terminated;
    RulesAreWhole(text, index);
    UpdateRuleKeepsOthers(text, index, priority, action);
    UpdateBlockReads(Rules(text)[index], priority, action);
  }

  // A rule whose text stops in a bare carriage return.
  const BareRule: seq<string> := ["[[rule]]\n", "priority = 1\r"]

  lemma MarkerLine()
    ensures IsLine(MARKER + "\n") && Terminated(MARKER + "\n") && IsMarker(MARKER + "\n")
  {
    ContentOf(MARKER, true);
    BlanksOf("", MARKER);
    assert "" + MARKER == MARKER;
  }

  lemma BarePriorityLine()
    ensures var line := "priority = 1\r";
            BareCr(line) && !IsMarker(line) && Assigns(line, PRIORITY) && !Assigns(line, ACTION)
  {
    hide Blanks, Assignment;
    Keys();
    var line := "priority = 1\r";
    AssignmentOf("", PRIORITY, " ", " ", "1\r");
    assert "" + PRIORITY + " " + "=" + " " + "1\r" == line;
    ContentOf(line, false);
    assert line + "" == line;
    OneKey(line, PRIORITY, ACTION);
    AssignmentIsNoMarker(line, PRIORITY);
  }

  lemma BareRuleFacts()
    ensures Whole(BareRule) && First(BareRule, PRIORITY, 1) && Unappendable(BareRule)
  {
    hide Assigns, IsMarker;
    Keys();
    BarePriorityLine();
    MarkerLine();
    assert MARKER + "\n" == BareRule[0];
    MarkerIsNoAssignment(BareRule[0], PRIORITY);
    MarkerIsNoAssignment(BareRule[0], ACTION);
  }

  /** A text on which a second update changes the file again. */
  lemma UpdateNotIdempotent(priority: string, action: string)
    ensures var once := UpdateRule(Concat(BareRule), 1, priority, action);
            once.Ok? && UpdateRule(once.value, 1, priority, action) != once
  {
    hide Assigns, IsMarker, Unappendable, UpdateBlock;
    BareRuleFacts();
    LinesConcat(BareRule);
    var segs := [[], BareRule];
    assert segs[1..] == [BareRule] && [BareRule][1..] == [];
    assert Flatten([BareRule]) == BareRule + Flatten([]);
    assert Flatten(segs) == [] + Flatten([BareRule]);
    SegmentsOf(segs);
    UpdateNeedsPriority(BareRule, priority, action);
    UpdateRuleTwice(Concat(BareRule), 1, priority, action);
  }
}
