/**
 * Text that goes into IMAP commands: `_quoted_mailbox` and
 * `_validated_message_id` in examples/mail_assistant/imap_trash.py.
 */
module ImapText {
  import opened Common
  import opened Text

  datatype TextError = LineBreakInMailbox | UnsafeMessageId

  // ---------------------------------------------------------------------- quoting

  predicate OneLine(s: string) {
    '\r' !in s && '\n' !in s
  }

  /** `_quoted_mailbox`. */
  function Quoted(value: string): Result<string, TextError> {
    if !OneLine(value) then Err(LineBreakInMailbox)
    else Ok("\"" + Replace(Replace(value, '\\', "\\\\"), '"', "\\\"") + "\"")
  }

  /** The escapes in one pass. */
  function Escaped(value: string): string {
    if value == "" then ""
    else (if value[0] == '\\' || value[0] == '"' then ['\\', value[0]] else [value[0]]) + Escaped(value[1..])
  }

  lemma ReplaceFirst(c: char, s: string, from: char, to: string)
    ensures Replace([c] + s, from, to) == (if c == from then to else [c]) + Replace(s, from, to)
  {
    assert ([c] + s)[1..] == s;
  }

  lemma {:induction false} QuotedIsEscaped(value: string)
    ensures Replace(Replace(value, '\\', "\\\\"), '"', "\\\"") == Escaped(value)
  {
    hide Replace;
    if value == "" {
      ReplaceAbsent("", '\\', "\\\\");
      ReplaceAbsent("", '"', "\\\"");
    } else {
      var c, rest := value[0], value[1..];
      assert value == [c] + rest;
      QuotedIsEscaped(rest);
      var inner := Replace(rest, '\\', "\\\\");
      ReplaceFirst(c, rest, '\\', "\\\\");
      if c == '\\' {
        assert "\\\\" + inner == ['\\'] + (['\\'] + inner);
        ReplaceFirst('\\', ['\\'] + inner, '"', "\\\"");
        ReplaceFirst('\\', inner, '"', "\\\"");
        assert ['\\'] + (['\\'] + Replace(inner, '"', "\\\"")) == ['\\', '\\'] + Replace(inner, '"', "\\\"");
      } else {
        ReplaceFirst(c, inner, '"', "\\\"");
      }
    }
  }

  /** The rest of an IMAP quoted string behind its opening quote (section 4.3 of RFC 3501): its value and what follows. */
  function ReadTail(s: string): Option<(string, string)> {
    if s == "" || s[0] == '\r' || s[0] == '\n' then None
    else if s[0] == '"' then Some(("", s[1..]))
    else if s[0] == '\\' then
      if |s| >= 2 && (s[1] == '\\' || s[1] == '"') then
        match ReadTail(s[2..])
        case None => None
        case Some((value, rest)) => Some(([s[1]] + value, rest))
      else None
    else
      match ReadTail(s[1..])
      case None => None
      case Some((value, rest)) => Some(([s[0]] + value, rest))
  }

  function ReadQuoted(s: string): Option<(string, string)> {
    if s != "" && s[0] == '"' then ReadTail(s[1..]) else None
  }

  lemma ReadPlain(c: char, t: string)
    requires c != '\r' && c != '\n' && c != '"' && c != '\\'
    ensures ReadTail([c] + t) == match ReadTail(t) case None => None case Some((value, rest)) => Some(([c] + value, rest))
  {
    assert ([c] + t)[1..] == t;
  }

  lemma ReadEscape(c: char, t: string)
    requires c == '"' || c == '\\'
    ensures ReadTail(['\\', c] + t) == match ReadTail(t) case None => None case Some((value, rest)) => Some(([c] + value, rest))
  {
    assert (['\\', c] + t)[2..] == t;
  }

  lemma ReadEnd(t: string)
    ensures ReadTail("\"" + t) == Some(("", t))
  {
    assert ("\"" + t)[1..] == t;
  }

  lemma EscapedStep(c: char, t: string)
    ensures Escaped([c] + t) == (if c == '\\' || c == '"' then ['\\', c] else [c]) + Escaped(t)
    ensures Escaped("") == ""
  {
    assert ([c] + t)[1..] == t;
  }

  lemma {:induction false} EscapedReadsBack(value: string, rest: string)
    requires OneLine(value)
    ensures ReadTail(Escaped(value) + "\"" + rest) == Some((value, rest))
  {
    hide ReadTail, Escaped;
    if value == "" {
      EscapedStep('x', "");
      ReadEnd(rest);
      assert "" + "\"" + rest == "\"" + rest;
    } else {
      var c, tail := value[0], value[1..];
      assert value == [c] + tail && c in value;
      EscapedReadsBack(tail, rest);
      EscapedStep(c, tail);
      var behind := Escaped(tail) + "\"" + rest;
      if c == '\\' || c == '"' {
        assert ['\\', c] + Escaped(tail) + "\"" + rest == ['\\', c] + behind;
        ReadEscape(c, behind);
      } else {
        assert [c] + Escaped(tail) + "\"" + rest == [c] + behind;
        ReadPlain(c, behind);
      }
    }
  }

  /** Every name without a line break is quoted, and the server reads exactly it, wherever the argument stands. */
  lemma QuotedRoundTrip(value: string, rest: string)
    ensures Quoted(value).Ok? <==> OneLine(value)
    ensures Quoted(value).Ok? ==> ReadQuoted(Quoted(value).value + rest) == Some((value, rest))
  {
    hide Replace, ReadTail;
    if OneLine(value) {
      QuotedIsEscaped(value);
      EscapedReadsBack(value, rest);
      assert (Quoted(value).value + rest)[1..] == Escaped(value) + "\"" + rest;
    }
  }

  // ------------------------------------------------------------------- message ids

  predicate Alphanumeric(c: char) {
    'A' <= c <= 'Z' || 'a' <= c <= 'z' || '0' <= c <= '9'
  }

  predicate LocalChar(c: char) {
    Alphanumeric(c) || c in "!#$%&'*+-/=?^_`{|}~."
  }

  predicate DomainChar(c: char) {
    Alphanumeric(c) || c == '.' || c == '-'
  }

  predicate Parts(s: string, at: nat) {
    && 0 < at < |s| - 1 && s[at] == '@'
    && (forall i :: 0 <= i < at ==> LocalChar(s[i]))
    && (forall i :: at < i < |s| ==> DomainChar(s[i]))
  }

  /** `_validated_message_id`; `strip` is Python's. */
  function ValidatedId(strip: string -> string, value: string): Result<string, TextError> {
    var normalized := strip(value);
    if exists at | 0 <= at < |normalized| :: Parts(normalized, at) then Ok(normalized) else Err(UnsafeMessageId)
  }

  /** Letters and digits of ASCII. */
  ghost predicate LetterOrDigit(n: int) {
    48 <= n <= 57 || 65 <= n <= 90 || 97 <= n <= 122
  }

  ghost predicate LocalCode(n: int) {
    LetterOrDigit(n) || n in {33, 35, 36, 37, 38, 39, 42, 43, 45, 46, 47, 61, 63, 94, 95, 96, 123, 124, 125, 126}
  }

  ghost predicate DomainCode(n: int) {
    LetterOrDigit(n) || n == 45 || n == 46
  }

  lemma CharsMean(c: char)
    ensures LocalChar(c) <==> LocalCode(c as int)
    ensures DomainChar(c) <==> DomainCode(c as int)
  {
    var special := "!#$%&'*+-/=?^_`{|}~.";
    assert c in special <==> c in {'!', '#', '$', '%', '&', '\'', '*', '+', '-', '/', '=', '?', '^', '_', '`', '{', '|', '}', '~', '.'};
  }

  /**
   * An id is validated exactly when the stripped text is an at sign between two
   * parts that are not empty, of the characters that may stand there unquoted.
   */
  lemma ValidatedIdMeans(strip: string -> string, value: string, id: string)
    ensures ValidatedId(strip, value) == Ok(id) <==>
              id == strip(value) && exists at: nat :: 0 < at < |id| - 1 && IsId(id, at)
  {
    forall c: char
      ensures LocalChar(c) <==> LocalCode(c as int)
      ensures DomainChar(c) <==> DomainCode(c as int)
    {
      CharsMean(c);
    }
    hide LocalChar, DomainChar, LocalCode, DomainCode;
    forall at: nat
      ensures Parts(id, at) <==> 0 < at < |id| - 1 && IsId(id, at)
    {
    }
  }

  ghost predicate IsId(id: string, at: nat)
    requires at < |id|
  {
    && id[at] == '@'
    && (forall i :: 0 <= i < at ==> LocalCode(id[i] as int))
    && (forall i :: at < i < |id| ==> DomainCode(id[i] as int))
  }

  /** A validated id needs no escape, with or without angle brackets, and has one at sign. */
  lemma ValidatedIdIsPlain(strip: string -> string, value: string)
    requires ValidatedId(strip, value).Ok?
    ensures var id := ValidatedId(strip, value).value;
            && multiset(id)['@'] == 1
            && Quoted(id) == Ok("\"" + id + "\"")
            && Quoted("<" + id + ">") == Ok("\"" + ("<" + id + ">") + "\"")
  {
    var id := ValidatedId(strip, value).value;
    var at :| 0 <= at < |id| && Parts(id, at);
    OneAt(id, at);
    NoEscape(id, at);
    PlainQuotes(id);
    PlainQuotes("<" + id + ">");
  }

  lemma NoEscape(id: string, at: nat)
    requires Parts(id, at)
    ensures '\r' !in id && '\n' !in id && '"' !in id && '\\' !in id
  {
    forall c | c in id
      ensures c != '\r' && c != '\n' && c != '"' && c != '\\'
    {
      var i :| 0 <= i < |id| && id[i] == c;
      if i < at {
        assert LocalChar(id[i]);
      } else if i > at {
        assert DomainChar(id[i]);
      }
    }
  }

  lemma PlainQuotes(s: string)
    requires '\r' !in s && '\n' !in s && '"' !in s && '\\' !in s
    ensures Quoted(s) == Ok("\"" + s + "\"")
  {
    ReplaceAbsent(s, '\\', "\\\\");
    ReplaceAbsent(s, '"', "\\\"");
  }

  lemma {:induction false} CountNone(s: string, c: char)
    requires c !in s
    ensures multiset(s)[c] == 0
  {
  }

  lemma OneAt(id: string, at: nat)
    requires Parts(id, at)
    ensures multiset(id)['@'] == 1
  {
    var front, back := id[..at], id[at + 1..];
    forall i | 0 <= i < |front|
      ensures front[i] != '@'
    {
      assert LocalChar(id[i]);
    }
    forall i | 0 <= i < |back|
      ensures back[i] != '@'
    {
      assert DomainChar(id[at + 1 + i]);
    }
    CountNone(front, '@');
    CountNone(back, '@');
    assert id == front + ['@'] + back;
  }
}
