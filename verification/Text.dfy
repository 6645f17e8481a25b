/** Splitting and joining text at a separator character, and `str.replace` of one character. */
module Text {
  import opened Common

  predicate Free(s: string, c: char) {
    c !in s
  }

  predicate AllFree(parts: seq<string>, c: char) {
    forall i :: 0 <= i < |parts| ==> Free(parts[i], c)
  }

  /** `s.split(sep)`; never empty. */
  function Split(s: string, sep: char): (parts: seq<string>)
    ensures |parts| > 0 && AllFree(parts, sep)
  {
    if s == "" then [""]
    else
      var rest := Split(s[1..], sep);
      if s[0] == sep then [""] + rest else [[s[0]] + rest[0]] + rest[1..]
  }

  /** `sep.join(parts)`. */
  function Join(parts: seq<string>, sep: char): string
    requires |parts| > 0
  {
    if |parts| == 1 then parts[0] else parts[0] + [sep] + Join(parts[1..], sep)
  }

  lemma {:induction false} JoinSplit(s: string, sep: char)
    ensures Join(Split(s, sep), sep) == s
  {
    if s != "" {
      JoinSplit(s[1..], sep);
      var rest := Split(s[1..], sep);
      assert s == [s[0]] + s[1..];
      if s[0] == sep {
        assert Split(s, sep)[1..] == rest;
      } else {
        var all := Split(s, sep);
        assert all[1..] == rest[1..];
        if |rest| > 1 {
          assert Join(all, sep) == [s[0]] + (rest[0] + [sep] + Join(rest[1..], sep));
        }
      }
    }
  }

  lemma {:induction false} SplitFree(s: string, sep: char)
    requires Free(s, sep)
    ensures Split(s, sep) == [s]
  {
    if s != "" {
      SplitFree(s[1..], sep);
      assert s == [s[0]] + s[1..];
    }
  }

  lemma {:induction false} SplitAppend(a: string, sep: char, b: string)
    ensures Split(a + [sep] + b, sep) == Split(a, sep) + Split(b, sep)
  {
    var t := a + [sep] + b;
    if a == "" {
      assert t[0] == sep && t[1..] == b;
    } else {
      assert t[0] == a[0] && t[1..] == a[1..] + [sep] + b;
      SplitAppend(a[1..], sep, b);
      var rest, tail := Split(a[1..], sep), Split(b, sep);
      if a[0] == sep {
        assert [""] + (rest + tail) == ([""] + rest) + tail;
      } else {
        assert (rest + tail)[0] == rest[0];
        assert [[a[0]] + rest[0]] + (rest + tail)[1..] == ([[a[0]] + rest[0]] + rest[1..]) + tail;
      }
    }
  }

  lemma {:induction false} SplitJoin(parts: seq<string>, sep: char)
    requires |parts| > 0 && AllFree(parts, sep)
    ensures Split(Join(parts, sep), sep) == parts
  {
    if |parts| == 1 {
      SplitFree(parts[0], sep);
    } else {
      SplitJoin(parts[1..], sep);
      SplitAppend(parts[0], sep, Join(parts[1..], sep));
      SplitFree(parts[0], sep);
    }
  }

  lemma {:induction false} JoinAppend(a: seq<string>, b: seq<string>, sep: char)
    requires |a| > 0 && |b| > 0
    ensures Join(a + b, sep) == Join(a, sep) + [sep] + Join(b, sep)
  {
    if |a| == 1 {
      assert (a + b)[1..] == b;
    } else {
      assert (a + b)[1..] == a[1..] + b;
      JoinAppend(a[1..], b, sep);
    }
  }

  /** `s.replace(from, to)` for a one-character `from`. */
  function Replace(s: string, from: char, to: string): (r: string)
    ensures from !in to ==> from !in r
  {
    if s == "" then ""
    else (if s[0] == from then to else [s[0]]) + Replace(s[1..], from, to)
  }

  lemma {:induction false} ReplaceAbsent(s: string, from: char, to: string)
    requires from !in s
    ensures Replace(s, from, to) == s
  {
    if s != "" {
      ReplaceAbsent(s[1..], from, to);
    }
  }

  lemma {:induction false} ReplaceKeepsFree(s: string, from: char, to: string, c: char)
    requires c !in s && c !in to
    ensures c !in Replace(s, from, to)
  {
    if s != "" {
      ReplaceKeepsFree(s[1..], from, to, c);
    }
  }

  lemma {:induction false} JoinKeepsFree(parts: seq<string>, sep: char, c: char)
    requires |parts| > 0 && AllFree(parts, c) && c != sep
    ensures c !in Join(parts, sep)
  {
    if |parts| > 1 {
      JoinKeepsFree(parts[1..], sep, c);
    }
  }

  lemma {:induction false} SplitKeepsFree(s: string, sep: char, c: char)
    requires c !in s
    ensures AllFree(Split(s, sep), c)
  {
    if s != "" {
      SplitKeepsFree(s[1..], sep, c);
    }
  }

  predicate At(part: string, text: string, i: nat) {
    i + |part| <= |text| && text[i..i + |part|] == part
  }

  /** `part in text`. */
  predicate Contains(part: string, text: string) {
    exists i: nat | i <= |text| :: At(part, text, i)
  }

  /** `text.rsplit("@", 1)[1] if "@" in text else None`. */
  function AfterLastAt(text: string): (r: Option<string>)
    ensures r.None? <==> '@' !in text
    ensures r.Some? ==> '@' !in r.value && |r.value| < |text| && text[|text| - |r.value| - 1..] == "@" + r.value
  {
    if text == "" then None
    else
      var n := |text| - 1;
      if text[n] == '@' then Some("")
      else
        assert text == text[..n] + [text[n]];
        match AfterLastAt(text[..n])
        case None => None
        case Some(d) =>
          assert text[|text| - |d + [text[n]]| - 1..] == text[..n][n - |d| - 1..] + [text[n]];
          Some(d + [text[n]])
  }
}
