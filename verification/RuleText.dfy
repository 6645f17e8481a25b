/**
 * The text editor for personal-rule files in examples/mail_assistant/rules.py:
 * `_quoted`, `_comment_suffix`, `_replace_assignment`, `_update_rule` and
 * `_append_rule`.
 *
 * The source finds assignments and `[[rule]]` headers with multi-line regular
 * expressions, which see a text as its lines with their "\n" terminators (the
 * last line may have none).  The model works on exactly that list of lines; a
 * carriage return is an ordinary character of a line, as it is for `^` and `$`.
 */
module RuleText {
  import opened Common
  import opened Text

  // ------------------------------------------------------------------- quoting

  /** `_quoted`. */
  function Quoted(v: string): string {
    "\"" + Replace(Replace(Replace(v, '\\', "\\\\"), '"', "\\\""), '\n', "\\n") + "\""
  }

  /** The same escaping, one character at a time. */
  function Escape(c: char): string {
    if c == '\\' then "\\\\" else if c == '"' then "\\\"" else if c == '\n' then "\\n" else [c]
  }

  function EscapeAll(v: string): string {
    if v == "" then "" else Escape(v[0]) + EscapeAll(v[1..])
  }

  lemma {:induction false} ReplaceAppend(a: string, b: string, from: char, to: string)
    ensures Replace(a + b, from, to) == Replace(a, from, to) + Replace(b, from, to)
  {
    if a == "" {
      assert a + b == b;
    } else {
      assert (a + b)[1..] == a[1..] + b;
      ReplaceAppend(a[1..], b, from, to);
    }
  }

  /** Three replacements in a row escape each character once. */
  lemma {:induction false} QuotedIsEscaped(v: string)
    ensures Quoted(v) == "\"" + EscapeAll(v) + "\""
  {
    EscapedByThree(v);
  }

  lemma {:induction false} EscapedByThree(v: string)
    ensures Replace(Replace(Replace(v, '\\', "\\\\"), '"', "\\\""), '\n', "\\n") == EscapeAll(v)
  {
    if v != "" {
      EscapedByThree(v[1..]);
      var head, tail := [v[0]], v[1..];
      assert v == head + tail;
      ReplaceAppend(head, tail, '\\', "\\\\");
      var h1, t1 := Replace(head, '\\', "\\\\"), Replace(tail, '\\', "\\\\");
      ReplaceAppend(h1, t1, '"', "\\\"");
      var h2, t2 := Replace(h1, '"', "\\\""), Replace(t1, '"', "\\\"");
      ReplaceAppend(h2, t2, '\n', "\\n");
      EscapedOne(v[0]);
    }
  }

  lemma EscapedOne(c: char)
    ensures Replace(Replace(Replace([c], '\\', "\\\\"), '"', "\\\""), '\n', "\\n") == Escape(c)
  {
    assert forall d: char :: [d][1..] == "";
    if c == '\\' {
      ReplaceAbsent("\\\\", '"', "\\\"");
      ReplaceAbsent("\\\\", '\n', "\\n");
      assert Replace("\\", '\\', "\\\\") == "\\\\" + Replace("", '\\', "\\\\");
    } else if c == '"' {
      assert Replace("\"", '"', "\\\"") == "\\\"" + Replace("", '"', "\\\"");
      ReplaceAbsent("\\\"", '\n', "\\n");
    }
  }

  lemma {:induction false} EscapeHasNoNewline(v: string)
    ensures '\n' !in EscapeAll(v)
  {
    if v != "" {
      EscapeHasNoNewline(v[1..]);
    }
  }

  lemma QuotedHasNoNewline(v: string)
    ensures '\n' !in Quoted(v) && |Quoted(v)| >= 2 && Quoted(v)[0] == '"' && Quoted(v)[|Quoted(v)| - 1] == '"'
  {
    QuotedIsEscaped(v);
    EscapeHasNoNewline(v);
  }

  /** Reading a TOML basic string with the escapes that `_quoted` writes: its value and what follows. */
  function ReadBasic(s: string): Option<(string, string)> {
    if s == "" || s[0] != '"' then None else ReadEscaped(s[1..])
  }

  function ReadEscaped(s: string): Option<(string, string)> {
    if s == "" then None
    else if s[0] == '"' then Some(("", s[1..]))
    else if s[0] != '\\' then Prepend(s[0], ReadEscaped(s[1..]))
    else if |s| < 2 then None
    else if s[1] == '\\' || s[1] == '"' then Prepend(s[1], ReadEscaped(s[2..]))
    else if s[1] == 'n' then Prepend('\n', ReadEscaped(s[2..]))
    else None
  }

  function Prepend(c: char, r: Option<(string, string)>): Option<(string, string)> {
    match r
    case None => None
    case Some((value, rest)) => Some(([c] + value, rest))
  }

  lemma ReadOne(c: char, tail: string)
    ensures ReadEscaped(Escape(c) + tail) == Prepend(c, ReadEscaped(tail))
  {
    var s := Escape(c) + tail;
    if |Escape(c)| == 1 {
      assert s[1..] == tail;
    } else {
      assert s[2..] == tail;
    }
  }

  lemma {:induction false} ReadBackEscaped(v: string, rest: string)
    ensures ReadEscaped(EscapeAll(v) + "\"" + rest) == Some((v, rest))
  {
    if v == "" {
      assert EscapeAll(v) + "\"" + rest == "\"" + rest;
      assert ("\"" + rest)[1..] == rest;
    } else {
      hide ReadEscaped;
      ReadBackEscaped(v[1..], rest);
      var tail := EscapeAll(v[1..]) + "\"" + rest;
      assert EscapeAll(v) + "\"" + rest == Escape(v[0]) + tail;
      ReadOne(v[0], tail);
      assert v == [v[0]] + v[1..];
    }
  }

  /** A quoted value reads back as itself, whatever follows it. */
  lemma ReadBack(v: string, rest: string)
    ensures ReadBasic(Quoted(v) + rest) == Some((v, rest))
  {
    QuotedIsEscaped(v);
    assert (Quoted(v) + rest)[1..] == EscapeAll(v) + "\"" + rest;
    ReadBackEscaped(v, rest);
  }

  // ------------------------------------------------------------ comment suffix

  /** What `_comment_suffix` still returns from a position in a given state. */
  function Scan(s: string, quote: Option<char>, escaped: bool): (r: string)
    ensures r == "" || r[0] == '#'
  {
    if s == "" then ""
    else if escaped then Scan(s[1..], quote, false)
    else if s[0] == '\\' && quote == Some('"') then Scan(s[1..], quote, true)
    else if s[0] == '\'' || s[0] == '"' then
      Scan(s[1..], if quote == Some(s[0]) then None else if quote.None? then Some(s[0]) else quote, false)
    else if s[0] == '#' && quote.None? then s
    else Scan(s[1..], quote, false)
  }

  function CommentSuffix(value: string): string {
    Scan(value, None, false)
  }

  /** The comment is a suffix of the scanned text. */
  lemma {:induction false} ScanIsSuffix(s: string, quote: Option<char>, escaped: bool)
    ensures var r := Scan(s, quote, escaped); |r| <= |s| && r == s[|s| - |r|..]
  {
    if s != "" {
      if escaped {
        ScanIsSuffix(s[1..], quote, false);
      } else if s[0] == '\\' && quote == Some('"') {
        ScanIsSuffix(s[1..], quote, true);
      } else if s[0] == '\'' || s[0] == '"' {
        ScanIsSuffix(s[1..], if quote == Some(s[0]) then None else if quote.None? then Some(s[0]) else quote, false);
      } else if s[0] != '#' || quote.Some? {
        ScanIsSuffix(s[1..], quote, false);
      }
    }
  }

  /** `_comment_suffix` with its loop variables. */
  method CommentSuffixLoop(value: string) returns (suffix: string)
    ensures suffix == CommentSuffix(value)
  {
    var quote: Option<char> := None;
    var escaped := false;
    for index := 0 to |value|
      invariant CommentSuffix(value) == Scan(value[index..], quote, escaped)
    {
      var character := value[index];
      assert value[index..][1..] == value[index + 1..];
      if escaped {
        escaped := false;
        continue;
      }
      if character == '\\' && quote == Some('"') {
        escaped := true;
      } else if character == '\'' || character == '"' {
        quote := if quote == Some(character) then None else if quote.None? then Some(character) else quote;
      } else if character == '#' && quote.None? {
        return value[index..];
      }
    }
    return "";
  }

  lemma ScanOne(c: char, tail: string)
    ensures Scan(Escape(c) + tail, Some('"'), false) == Scan(tail, Some('"'), false)
  {
    var s := Escape(c) + tail;
    if |Escape(c)| == 1 {
      assert s[1..] == tail;
    } else {
      assert s[1..][1..] == tail;
    }
  }

  lemma {:induction false} ScanEscaped(v: string, rest: string)
    ensures Scan(EscapeAll(v) + "\"" + rest, Some('"'), false) == Scan(rest, None, false)
  {
    if v == "" {
      assert EscapeAll(v) + "\"" + rest == "\"" + rest;
      assert ("\"" + rest)[1..] == rest;
    } else {
      hide Scan;
      ScanEscaped(v[1..], rest);
      var tail := EscapeAll(v[1..]) + "\"" + rest;
      assert EscapeAll(v) + "\"" + rest == Escape(v[0]) + tail;
      ScanOne(v[0], tail);
    }
  }

  /** Whatever the quoted value contains, scanning it leaves only what follows. */
  lemma CommentAfterQuoted(v: string, rest: string)
    ensures CommentSuffix(Quoted(v) + rest) == CommentSuffix(rest)
  {
    QuotedIsEscaped(v);
    assert (Quoted(v) + rest)[1..] == EscapeAll(v) + "\"" + rest;
    ScanEscaped(v, rest);
  }

  /** A comment placed after a quoted value is recovered, for every value. */
  lemma CommentRecovered(v: string, comment: string)
    requires comment == "" || comment[0] == '#'
    ensures CommentSuffix(Quoted(v) + (if comment == "" then "" else " " + comment)) == comment
  {
    if comment == "" {
      CommentAfterQuoted(v, "");
    } else {
      CommentAfterQuoted(v, " " + comment);
      assert (" " + comment)[1..] == comment;
      assert Scan(" " + comment, None, false) == Scan(comment, None, false);
    }
  }

  // --------------------------------------------------------------------- lines

  predicate Terminated(line: string) {
    line != "" && line[|line| - 1] == '\n'
  }

  /** One line: not empty, with "\n" nowhere but at its end. */
  predicate IsLine(line: string) {
    line != "" && '\n' !in line[..|line| - 1]
  }

  predicate WellFormed(lines: seq<string>) {
    && (forall i :: 0 <= i < |lines| ==> IsLine(lines[i]))
    && (forall i :: 0 <= i < |lines| - 1 ==> Terminated(lines[i]))
  }

  function Concat(lines: seq<string>): string {
    if lines == [] then "" else lines[0] + Concat(lines[1..])
  }

  /** The lines of a text with their terminators. */
  function Lines(text: string): (lines: seq<string>)
    ensures WellFormed(lines)
    ensures lines == [] <==> text == ""
  {
    if text == "" then []
    else
      var rest := Lines(text[1..]);
      if text[0] == '\n' || rest == [] then [[text[0]]] + rest
      else [[text[0]] + rest[0]] + rest[1..]
  }

  lemma {:induction false} ConcatLines(text: string)
    ensures Concat(Lines(text)) == text
  {
    if text != "" {
      var rest := Lines(text[1..]);
      ConcatLines(text[1..]);
      assert text == [text[0]] + text[1..];
      if text[0] == '\n' || rest == [] {
        assert ([[text[0]]] + rest)[1..] == rest;
      } else {
        var all := [[text[0]] + rest[0]] + rest[1..];
        assert all[1..] == rest[1..];
        assert Concat(all) == ([text[0]] + rest[0]) + Concat(rest[1..]);
        assert Concat(all) == [text[0]] + (rest[0] + Concat(rest[1..]));
      }
    }
  }

  lemma {:induction false} ConcatAppend(a: seq<string>, b: seq<string>)
    ensures Concat(a + b) == Concat(a) + Concat(b)
  {
    if a == [] {
      assert a + b == b;
    } else {
      assert (a + b)[1..] == a[1..] + b;
      ConcatAppend(a[1..], b);
    }
  }

  /** A line followed by further text is the first line when it is terminated or nothing follows. */
  lemma {:induction false} LinesCons(line: string, text: string)
    requires IsLine(line) && (Terminated(line) || text == "")
    ensures Lines(line + text) == [line] + Lines(text)
  {
    var all := line + text;
    if |line| == 1 {
      assert all[1..] == text;
      assert line == [line[0]];
    } else {
      assert line[..|line| - 1][0] == line[0];
      assert all[1..] == line[1..] + text;
      assert line[1..][..|line[1..]| - 1] == line[..|line| - 1][1..];
      LinesCons(line[1..], text);
      assert line == [line[0]] + line[1..];
    }
  }

  lemma {:induction false} LinesConcat(lines: seq<string>)
    requires WellFormed(lines)
    ensures Lines(Concat(lines)) == lines
  {
    if lines != [] {
      LinesConcat(lines[1..]);
      LinesCons(lines[0], Concat(lines[1..]));
    }
  }

  /** Two texts can be read line by line separately when the first ends a line. */
  lemma LinesAppend(a: seq<string>, b: seq<string>)
    requires WellFormed(a) && WellFormed(b)
    requires b == [] || a == [] || Terminated(a[|a| - 1])
    ensures WellFormed(a + b) && Lines(Concat(a) + Concat(b)) == a + b
  {
    ConcatAppend(a, b);
    LinesConcat(a + b);
  }

  // --------------------------------------------------------------- assignments

  predicate Blank(c: char) {
    c == ' ' || c == '\t'
  }

  predicate AllBlank(s: string) {
    forall i :: 0 <= i < |s| ==> Blank(s[i])
  }

  predicate NoLeadingBlank(s: string) {
    s == "" || !Blank(s[0])
  }

  /** Leading blanks and the rest. */
  function Blanks(s: string): (string, string) {
    if s != "" && Blank(s[0]) then
      var (blanks, rest) := Blanks(s[1..]);
      ([s[0]] + blanks, rest)
    else ("", s)
  }

  /** They make up the text, and the rest starts with no blank. */
  lemma {:induction false} BlanksSplit(s: string)
    ensures var (blanks, rest) := Blanks(s); s == blanks + rest && AllBlank(blanks) && NoLeadingBlank(rest)
  {
    if s != "" && Blank(s[0]) {
      BlanksSplit(s[1..]);
    }
  }

  lemma {:induction false} BlanksOf(blanks: string, rest: string)
    requires AllBlank(blanks) && NoLeadingBlank(rest)
    ensures Blanks(blanks + rest) == (blanks, rest)
  {
    if blanks == "" {
      assert blanks + rest == rest;
    } else {
      assert (blanks + rest)[1..] == blanks[1..] + rest;
      BlanksOf(blanks[1..], rest);
      assert blanks == [blanks[0]] + blanks[1..];
    }
  }

  /** `key =` with its blanks at the start of a line, and the rest of the line. */
  function Assignment(s: string, key: string): Option<(string, string)> {
    var (b1, k) := Blanks(s);
    if !(key <= k) then None
    else
      var (b2, e) := Blanks(k[|key|..]);
      if e == "" || e[0] != '=' then None
      else
        var (b3, rest) := Blanks(e[1..]);
        Some((b1 + key + b2 + "=" + b3, rest))
  }

  lemma AssignmentParts(s: string, key: string)
    requires Assignment(s, key).Some?
    ensures s == Assignment(s, key).value.0 + Assignment(s, key).value.1
    ensures NoLeadingBlank(Assignment(s, key).value.1)
  {
    hide Blanks;
    var (b1, k) := Blanks(s);
    BlanksSplit(s);
    var (b2, e) := Blanks(k[|key|..]);
    BlanksSplit(k[|key|..]);
    var (b3, rest) := Blanks(e[1..]);
    BlanksSplit(e[1..]);
    assert k == key + (b2 + e);
    assert e == "=" + (b3 + rest);
  }

  predicate IsKey(key: string) {
    key != "" && forall i :: 0 <= i < |key| ==> !Blank(key[i]) && key[i] !in {'=', '\r', '\n', '['}
  }

  lemma AssignmentOf(b1: string, key: string, b2: string, b3: string, value: string)
    requires IsKey(key) && AllBlank(b1) && AllBlank(b2) && AllBlank(b3) && NoLeadingBlank(value)
    ensures Assignment(b1 + key + b2 + "=" + b3 + value, key) == Some((b1 + key + b2 + "=" + b3, value))
  {
    hide Blanks;
    var e := "=" + b3 + value;
    var k := key + b2 + e;
    assert b1 + key + b2 + "=" + b3 + value == b1 + k;
    BlanksOf(b1, k);
    assert k[|key|..] == b2 + e;
    BlanksOf(b2, e);
    assert e[1..] == b3 + value;
    BlanksOf(b3, value);
  }

  /** The part of an assignment line before its value can be kept and given another value. */
  lemma AssignmentKeeps(s: string, key: string, value: string)
    requires IsKey(key) && Assignment(s, key).Some? && NoLeadingBlank(value)
    ensures Assignment(Assignment(s, key).value.0 + value, key) == Some((Assignment(s, key).value.0, value))
  {
    hide Blanks;
    var (b1, k) := Blanks(s);
    BlanksSplit(s);
    var (b2, e) := Blanks(k[|key|..]);
    BlanksSplit(k[|key|..]);
    var (b3, rest) := Blanks(e[1..]);
    BlanksSplit(e[1..]);
    AssignmentOf(b1, key, b2, b3, value);
  }

  /** The content of a line without its terminator. */
  function Content(line: string): string
    requires line != ""
  {
    if Terminated(line) then line[..|line| - 1] else line
  }

  function Terminator(line: string): string {
    if Terminated(line) then "\n" else ""
  }

  predicate Assigns(line: string, key: string) {
    line != "" && Assignment(Content(line), key).Some?
  }

  predicate EndsWithCr(s: string) {
    s != "" && s[|s| - 1] == '\r'
  }

  /** `str.lstrip`. */
  function LStrip(s: string): string {
    if s != "" && s[0] in {' ', '\t', '\n', '\r', '\U{0B}', '\U{0C}'} then LStrip(s[1..]) else s
  }

  /** The value part of an assignment without the carriage return that may end its line. */
  function Bare(rest: string): string {
    if EndsWithCr(rest) then rest[..|rest| - 1] else rest
  }

  /** The comment that the value part carries. */
  function CommentOf(rest: string): string {
    CommentSuffix(Bare(rest))
  }

  /** The replacement text for the value part. */
  function NewValue(rest: string, value: string): string {
    var suffix := CommentOf(rest);
    Quoted(value) + (if suffix == "" then "" else " " + LStrip(suffix)) + (if EndsWithCr(rest) then "\r" else "")
  }

  function NewLine(line: string, key: string, value: string): string
    requires Assigns(line, key)
  {
    var (head, rest) := Assignment(Content(line), key).value;
    head + NewValue(rest, value) + Terminator(line)
  }

  /** `_replace_assignment` on the lines of a block: the first assignment of the key is rewritten. */
  function ReplaceAssignment(lines: seq<string>, key: string, value: string): (r: (seq<string>, bool))
    ensures |r.0| == |lines|
    ensures !r.1 ==> r.0 == lines
    ensures r.1 <==> exists i :: 0 <= i < |lines| && Assigns(lines[i], key)
  {
    if lines == [] then ([], false)
    else if Assigns(lines[0], key) then ([NewLine(lines[0], key, value)] + lines[1..], true)
    else
      var (rest, found) := ReplaceAssignment(lines[1..], key, value);
      ([lines[0]] + rest, found)
  }
}
