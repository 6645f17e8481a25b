/**
 * Applying `normalize_text` twice (scripts/normalize_conversation_corpus.py):
 * when the second pass changes nothing, and the texts on which it does.
 */
module NormalizeTwice {
  import opened Text
  import opened NormalizeText

  // -------------------------------------------------------------------- idempotence

  /** A second pass over the output does nothing but NFC, as long as NFC keeps clean text clean. */
  lemma SecondPassIsNfc(nfc: string -> string, raw: string)
    requires Clean(nfc(Normalized(nfc, raw)))
    ensures Normalized(nfc, Normalized(nfc, raw)) == nfc(Normalized(nfc, raw))
  {
    hide Finish, Unix, Clean;
    OutputIsClean(nfc, raw);
    CleanIsFixed(Normalized(nfc, raw));
    CleanIsFixed(nfc(Normalized(nfc, raw)));
  }

  /** NFC turns no clean text into an unclean one. */
  ghost predicate KeepsClean(nfc: string -> string) {
    forall s: string :: Clean(s) ==> Clean(nfc(s))
  }

  /** Normalization is idempotent on a text exactly when NFC leaves its output alone. */
  lemma IdempotentIff(nfc: string -> string, raw: string)
    requires KeepsClean(nfc)
    ensures var out := Normalized(nfc, raw);
            Normalized(nfc, out) == out <==> nfc(out) == out
  {
    hide Normalized, Clean;
    OutputIsClean(nfc, raw);
    SecondPassIsNfc(nfc, raw);
  }

  /** Texts that normalization leaves alone, with no operation counted, are the clean texts in NFC. */
  lemma NothingCountedIff(nfc: string -> string, s: string)
    ensures CountsOf(nfc, s) == NOTHING <==> Clean(s) && nfc(s) == s
    ensures CountsOf(nfc, s) == NOTHING ==> Normalized(nfc, s) == s
  {
    hide Clean, Unix, Blanks, Strip, Collapse, TrimLines, Finish;
    if Clean(s) && nfc(s) == s {
      CleanCountsNothing(nfc, s);
      CleanIsFixed(s);
    }
    if CountsOf(nfc, s) == NOTHING {
      NothingCounted(nfc, s);
      OutputIsClean(nfc, s);
    }
  }

  lemma CleanCountsNothing(nfc: string -> string, s: string)
    requires Clean(s) && nfc(s) == s
    ensures CountsOf(nfc, s) == NOTHING
  {
    hide Strip, Collapse, TrimLines, Finish, StripEscapes, Replace, Filter, Dropped, NoTrailing, NoLongRun;
    CleanIsFixed(s);
    PlainFixed(s);
    CrlfAbsent(s);
    TrimFixed(s);
    CollapseFixed(s);
    assert LineCounts(s) == NOTHING;
    ReplaceAbsent(s, NBSP, " ");
    assert CharCounts(NOTHING, s) == NOTHING;
    assert Finish(s) == Strip(s) by { FinishClean(s); }
    assert SpaceCounts(NOTHING, s) == NOTHING;
  }

  lemma FinishClean(s: string)
    requires Blanks(s) == s && TrimLines(s) == s && Collapse(s) == s
    ensures Finish(s) == Strip(s)
  {
  }

  lemma NothingCounted(nfc: string -> string, s: string)
    requires CountsOf(nfc, s) == NOTHING
    ensures nfc(s) == s && Normalized(nfc, s) == s
  {
    hide Strip, Collapse, TrimLines, StripEscapes, Replace, Filter, CountCrlf, CrlfToLf, Count, CountControls, CountFormats, TrailingRuns, LongRuns, Dropped, NoTrailing, NoLongRun, DroppedControl, DroppedFormat;
    var t := nfc(Unix(s));
    CrAbsent(s);
    assert Unix(s) == s;
    assert t == s;
    SeparatorsApart(StripEscapes(t).0);
    SeparatorsApart(Replace(StripEscapes(t).0, NBSP, " "));
    NothingDropped(Respace(StripEscapes(t).0));
    assert Blanks(t) == t;
    TrimFixed(t);
    CollapseFixed(t);
  }

  lemma NothingDropped(s: string)
    ensures CountControls(s) == 0 && CountFormats(s) == 0 ==> Filter(s) == s
  {
    FilterCounts(s);
  }

  lemma DropOne(a: string, z: char, b: string)
    requires Plain(a + b) && DroppedFormat(z)
    ensures Blanks(a + [z] + b) == a + b
  {
    hide Replace, Filter, StripEscapes;
    var s := a + [z] + b;
    assert Dropped(ESC) && Dropped('\r') && forall c :: c in a || c in b ==> c in a + b;
    ReplaceAbsent(s, NBSP, " ");
    ReplaceAbsent(s, LINE_SEP, "\n");
    ReplaceAbsent(s, PARA_SEP, "\n");
    FilterCounts(a);
    FilterCounts(b);
    FilterAppend(a, [z]);
    FilterAppend(a + [z], b);
    FilterNext([z], 0);
    FilterEmpty();
    assert [z][..0] == "" && [z][..1] == [z];
    assert StripEscapes(s).0 == s && Respace(s) == s;
    assert Filter([z]) == "" && Filter(a) == a && Filter(b) == b;
    assert a + "" == a;
  }

  lemma FinishBlanks(s: string, t: string)
    requires Blanks(s) == t && Blanks(t) == t
    ensures Finish(s) == Finish(t)
  {
  }

  lemma DroppedJoins(nfc: string -> string, a: string, z: char, b: string)
    requires DroppedFormat(z) && Clean(a + b) && nfc(a + [z] + b) == a + [z] + b
    ensures Normalized(nfc, a + [z] + b) == a + b
  {
    hide Finish, Unix, Blanks, Plain, NoTrailing, NoLongRun;
    DropOne(a, z, b);
    PlainFixed(a + b);
    assert '\r' !in a + [z] + b;
    UnixFixed(a + [z] + b);
    FinishBlanks(a + [z] + b, a + b);
    CleanIsFixed(a + b);
  }

  /** A zero-width character that keeps apart what NFC would compose makes normalization not idempotent. */
  lemma DroppingBreaksIdempotence(nfc: string -> string, a: string, z: char, b: string)
    requires KeepsClean(nfc) && DroppedFormat(z) && Clean(a + b)
    requires nfc(a + [z] + b) == a + [z] + b && nfc(a + b) != a + b
    ensures var out := Normalized(nfc, a + [z] + b); Normalized(nfc, out) != out
  {
    hide Normalized, Clean, KeepsClean, DroppedFormat;
    DroppedJoins(nfc, a, z, b);
    IdempotentIff(nfc, a + [z] + b);
  }

  /** The text e, zero-width space, combining acute accent is in NFC; without the space it is not. */
  lemma AccentExample(nfc: string -> string)
    requires KeepsClean(nfc)
    requires nfc("e" + ['\U{200B}'] + "\U{301}") == "e" + ['\U{200B}'] + "\U{301}" && nfc("e\U{301}") == "\U{E9}"
    ensures var out := Normalized(nfc, "e" + ['\U{200B}'] + "\U{301}"); Normalized(nfc, out) != out
  {
    hide Normalized, KeepsClean;
    var joined := "e\U{301}";
    assert "e" + "\U{301}" == joined;
    assert joined[0] == 'e' && joined[1] == '\U{301}';
    assert |"\U{E9}"| == 1 && |joined| == 2;
    DroppingBreaksIdempotence(nfc, "e", '\U{200B}', "\U{301}");
  }

  // ------------------------------------------------------------ where nothing joins

  /** Characters that never compose with a neighbour and that the program treats as white space. */
  predicate Break(c: char) {
    Outer(c) || c == NBSP || c == LINE_SEP || c == PARA_SEP
  }

  ghost predicate Word(w: string) {
    forall c :: c in w ==> !Break(c)
  }

  /** NFC decides word by word: a text is in NFC exactly when every part without a break is. */
  ghost predicate WordWise(nfc: string -> string) {
    forall s: string :: nfc(s) == s <==> WordsStable(nfc, s)
  }

  ghost predicate WordsStable(nfc: string -> string, s: string) {
    forall w :: Word(w) && Contains(w, s) ==> nfc(w) == w
  }

  /** Every word of one text is a word of the other. */
  ghost predicate WordsFrom(r: string, s: string) {
    forall w :: Word(w) && Contains(w, r) ==> Contains(w, s)
  }

  lemma WordsFromTrans(r: string, s: string, t: string)
    requires WordsFrom(r, s) && WordsFrom(s, t)
    ensures WordsFrom(r, t)
  {
    hide Word, Contains;
  }

  lemma WordsFromStable(nfc: string -> string, r: string, s: string)
    requires WordsFrom(r, s) && WordsStable(nfc, s)
    ensures WordsStable(nfc, r)
  {
    hide Word, Contains;
  }

  lemma SliceWords(s: string, a: nat, b: nat)
    requires a <= b <= |s|
    ensures WordsFrom(s[a..b], s)
  {
    hide Word;
    forall w | Word(w) && Contains(w, s[a..b])
      ensures Contains(w, s)
    {
      var i: nat :| i <= |s[a..b]| && At(w, s[a..b], i);
      forall n | 0 <= n < |w|
        ensures s[a + i + n] == w[n]
      {
        assert s[a..b][i..i + |w|][n] == s[a..b][i + n];
      }
      assert At(w, s, a + i);
    }
  }

  lemma {:induction false} ReplaceAt(s: string, from: char, to: char, i: nat)
    requires i < |s|
    ensures |Replace(s, from, [to])| == |s|
    ensures Replace(s, from, [to])[i] == if s[i] == from then to else s[i]
  {
    ReplaceLength(s, from, to);
    if i > 0 {
      ReplaceAt(s[1..], from, to, i - 1);
    }
  }

  lemma {:induction false} ReplaceLength(s: string, from: char, to: char)
    ensures |Replace(s, from, [to])| == |s|
  {
    if s != "" {
      ReplaceLength(s[1..], from, to);
    }
  }

  lemma ReplaceWords(s: string, from: char, to: char)
    requires Break(to)
    ensures WordsFrom(Replace(s, from, [to]), s)
  {
    hide Replace, Break;
    var r := Replace(s, from, [to]);
    ReplaceLength(s, from, to);
    forall w | Word(w) && Contains(w, r)
      ensures Contains(w, s)
    {
      var i: nat :| i <= |r| && At(w, r, i);
      forall n | 0 <= n < |w|
        ensures s[i + n] == w[n]
      {
        ReplaceAt(s, from, to, i + n);
        assert r[i..i + |w|][n] == r[i + n];
        assert w[n] in w;
      }
      assert At(w, s, i);
    }
  }

  /** A word at the start of the shortened text starts the text itself. */
  ghost predicate StartsFrom(r: string, s: string) {
    forall w :: Word(w) && w <= r ==> w <= s
  }

  lemma WordTail(w: string)
    requires Word(w) && w != ""
    ensures Word(w[1..])
  {
    hide Break;
  }

  lemma ExtendStarts(c: char, r: string, s: string)
    requires StartsFrom(r, s)
    ensures StartsFrom([c] + r, [c] + s)
  {
    hide Word;
    forall w | Word(w) && w <= [c] + r
      ensures w <= [c] + s
    {
      if w != "" {
        WordTail(w);
        assert w[1..] <= r;
        assert w == [c] + w[1..];
      }
    }
  }

  lemma ExtendWords(c: char, r: string, s: string)
    requires WordsFrom(r, s) && StartsFrom(r, s)
    ensures WordsFrom([c] + r, [c] + s) && StartsFrom([c] + r, [c] + s)
  {
    hide Word;
    ExtendStarts(c, r, s);
    forall w | Word(w) && Contains(w, [c] + r)
      ensures Contains(w, [c] + s)
    {
      var i: nat :| i <= |[c] + r| && At(w, [c] + r, i);
      if i == 0 {
        assert w <= [c] + r;
        assert At(w, [c] + s, 0);
      } else {
        assert At(w, r, i - 1);
        assert Contains(w, s);
        var k: nat :| k <= |s| && At(w, s, k);
        assert At(w, [c] + s, k + 1);
      }
    }
  }

  lemma WordStarts(w: string, r: string)
    requires Word(w) && w != "" && w <= r
    ensures !Break(r[0])
  {
    assert r[0] in w;
  }

  /** A text in front of which a character was dropped; the text starts with a break or is empty. */
  lemma SkipWords(c: char, r: string, s: string)
    requires WordsFrom(r, s) && (r == "" || Break(r[0]))
    ensures WordsFrom(r, [c] + s) && StartsFrom(r, [c] + s)
  {
    hide Break;
    SliceWords([c] + s, 1, |[c] + s|);
    assert ([c] + s)[1..|[c] + s|] == s;
    WordsFromTrans(r, s, [c] + s);
    forall w | Word(w) && w <= r
      ensures w == ""
    {
      if w != "" {
        WordStarts(w, r);
      }
    }
  }

  lemma {:induction false} TrimWords(s: string)
    ensures WordsFrom(TrimLines(s), s) && StartsFrom(TrimLines(s), s)
  {
    hide WordsFrom, StartsFrom;
    if s == "" {
      NoWords();
    } else {
      TrimWords(s[1..]);
      assert s == [s[0]] + s[1..];
      var rest := TrimLines(s[1..]);
      if Blank(s[0]) && (rest == "" || rest[0] == '\n') {
        SkipWords(s[0], rest, s[1..]);
      } else {
        ExtendWords(s[0], rest, s[1..]);
      }
    }
  }

  lemma NoWords()
    ensures WordsFrom("", "") && StartsFrom("", "")
  {
  }

  lemma {:induction false} CollapseWords(s: string)
    ensures WordsFrom(Collapse(s), s) && StartsFrom(Collapse(s), s)
  {
    hide WordsFrom, StartsFrom;
    if s == "" {
      NoWords();
    } else {
      CollapseWords(s[1..]);
      assert s == [s[0]] + s[1..];
      var rest := Collapse(s[1..]);
      var all := [s[0]] + rest;
      if FourFeeds(all, 0) {
        assert all[1..] == rest;
        SkipWords(s[0], rest, s[1..]);
      } else {
        ExtendWords(s[0], rest, s[1..]);
      }
    }
  }

  // ---------------------------------------------------------- no word gets lost

  /** A break in front of a text adds no word to it. */
  lemma SkipBack(c: char, s: string, r: string)
    requires Break(c) && WordsFrom(s, r)
    ensures WordsFrom([c] + s, r) && StartsFrom([c] + s, r)
  {
    hide Break;
    forall w | Word(w) && w <= [c] + s
      ensures w == ""
    {
      if w != "" {
        WordStarts(w, [c] + s);
      }
    }
    forall w | Word(w) && Contains(w, [c] + s)
      ensures Contains(w, r)
    {
      if w == "" {
        assert At(w, r, 0);
      } else {
        var i: nat :| i <= |[c] + s| && At(w, [c] + s, i);
        assert i > 0 || w <= [c] + s;
        assert At(w, s, i - 1);
        assert Contains(w, s);
      }
    }
  }

  /** A word does not reach the break behind the text. */
  lemma WordEnds(w: string, s: string, c: char, i: nat)
    requires Break(c) && Word(w) && w != "" && At(w, s + [c], i)
    ensures i + |w| <= |s|
  {
    hide Break;
    var last := |w| - 1;
    assert w[last] == (s + [c])[i..i + |w|][last] == (s + [c])[i + last];
    assert w[last] in w;
  }

  /** A break behind a text adds no word to it. */
  lemma SkipLast(s: string, c: char)
    requires Break(c)
    ensures WordsFrom(s + [c], s)
  {
    hide Break;
    forall w | Word(w) && Contains(w, s + [c])
      ensures Contains(w, s)
    {
      var i: nat :| i <= |s + [c]| && At(w, s + [c], i);
      if w == "" {
        assert At(w, s, 0);
      } else {
        WordEnds(w, s, c, i);
        assert At(w, s, i);
      }
    }
  }

  lemma WordsFromSelf(s: string)
    ensures WordsFrom(s, s)
  {
    hide Word, Contains;
  }

  lemma {:induction false} TrimKeepsWords(s: string)
    ensures WordsFrom(s, TrimLines(s)) && StartsFrom(s, TrimLines(s))
  {
    hide WordsFrom, StartsFrom;
    if s == "" {
      NoWords();
    } else {
      TrimKeepsWords(s[1..]);
      assert s == [s[0]] + s[1..];
      var rest := TrimLines(s[1..]);
      if Blank(s[0]) && (rest == "" || rest[0] == '\n') {
        SkipBack(s[0], s[1..], rest);
      } else {
        ExtendWords(s[0], s[1..], rest);
      }
    }
  }

  lemma {:induction false} CollapseKeepsWords(s: string)
    ensures WordsFrom(s, Collapse(s)) && StartsFrom(s, Collapse(s))
  {
    hide WordsFrom, StartsFrom;
    if s == "" {
      NoWords();
    } else {
      CollapseKeepsWords(s[1..]);
      assert s == [s[0]] + s[1..];
      var all := [s[0]] + Collapse(s[1..]);
      if FourFeeds(all, 0) {
        assert all[1..] == Collapse(s[1..]);
        SkipBack(s[0], s[1..], Collapse(s[1..]));
      } else {
        ExtendWords(s[0], s[1..], Collapse(s[1..]));
      }
    }
  }

  lemma {:induction false} LStripKeepsWords(s: string)
    ensures WordsFrom(s, LStrip(s))
  {
    hide WordsFrom;
    if s != "" && Outer(s[0]) {
      LStripKeepsWords(s[1..]);
      assert s == [s[0]] + s[1..];
      SkipBack(s[0], s[1..], LStrip(s[1..]));
    } else {
      WordsFromSelf(s);
    }
  }

  lemma {:induction false} RStripKeepsWords(s: string)
    ensures WordsFrom(s, RStrip(s))
  {
    hide WordsFrom;
    if s != "" && Outer(s[|s| - 1]) {
      var front := s[..|s| - 1];
      RStripKeepsWords(front);
      assert s == front + [s[|s| - 1]];
      SkipLast(front, s[|s| - 1]);
      WordsFromTrans(s, front, RStrip(front));
    } else {
      WordsFromSelf(s);
    }
  }

  function Spaced(s: string): string {
    Strip(Collapse(TrimLines(s)))
  }

  /** The stages behind the filter delete only breaks: both texts have the same words. */
  lemma SpacedKeepsWords(s: string)
    ensures WordsFrom(s, Spaced(s)) && WordsFrom(Spaced(s), s)
  {
    hide TrimLines, Collapse, LStrip, RStrip, WordsFrom, StartsFrom;
    var u := TrimLines(s);
    var v := Collapse(u);
    TrimWords(s);
    TrimKeepsWords(s);
    CollapseWords(u);
    CollapseKeepsWords(u);
    LStripKeepsWords(v);
    RStripKeepsWords(LStrip(v));
    WordsFromTrans(v, LStrip(v), Spaced(s));
    WordsFromTrans(u, v, Spaced(s));
    WordsFromTrans(s, u, Spaced(s));
    var i, j := StripIsSlice(v);
    SliceWords(v, i, j);
    WordsFromTrans(v, u, s);
    WordsFromTrans(Spaced(s), v, s);
  }

  lemma FinishIsSpaced(s: string)
    ensures Finish(s) == Spaced(Blanks(s))
  {
  }

  /**
   * Normalization is idempotent on a text exactly when NFC leaves alone the text
   * behind the filter, that is, when dropping escape sequences, controls and
   * zero-width characters joins nothing that NFC would compose.
   */
  lemma IdempotentIffFiltered(nfc: string -> string, raw: string)
    requires KeepsClean(nfc) && WordWise(nfc)
    ensures var filtered := Blanks(nfc(Unix(raw)));
            Normalized(nfc, Normalized(nfc, raw)) == Normalized(nfc, raw) <==> nfc(filtered) == filtered
  {
    hide Finish, Blanks, Unix, Spaced, WordsStable, WordsFrom, KeepsClean;
    var filtered, out := Blanks(nfc(Unix(raw))), Normalized(nfc, raw);
    IdempotentIff(nfc, raw);
    FinishIsSpaced(nfc(Unix(raw)));
    SpacedKeepsWords(filtered);
    assert nfc(filtered) == filtered <==> WordsStable(nfc, filtered);
    assert nfc(out) == out <==> WordsStable(nfc, out);
    if WordsStable(nfc, filtered) {
      WordsFromStable(nfc, out, filtered);
    }
    if WordsStable(nfc, out) {
      WordsFromStable(nfc, filtered, out);
    }
  }

  /** Nothing is dropped: no escape sequence, no control but LF and TAB, no zero-width character. */
  ghost predicate NothingToDrop(s: string) {
    forall c :: c in s ==> !Dropped(c)
  }

  lemma {:induction false} ReplaceMembers(s: string, from: char, to: char)
    ensures forall c :: c in Replace(s, from, [to]) ==> c in s || c == to
  {
    if s != "" {
      ReplaceMembers(s[1..], from, to);
    }
  }

  lemma BlanksWords(s: string)
    requires NothingToDrop(s)
    ensures WordsFrom(Blanks(s), s)
  {
    hide Replace, Filter, StripEscapes, WordsFrom;
    assert Dropped(ESC);
    var u := Replace(s, NBSP, " ");
    var v := Replace(u, LINE_SEP, "\n");
    var w := Replace(v, PARA_SEP, "\n");
    ReplaceMembers(s, NBSP, ' ');
    ReplaceMembers(u, LINE_SEP, '\n');
    ReplaceMembers(v, PARA_SEP, '\n');
    FilterCounts(w);
    assert StripEscapes(s).0 == s && Filter(w) == w;
    ReplaceWords(s, NBSP, ' ');
    ReplaceWords(u, LINE_SEP, '\n');
    ReplaceWords(v, PARA_SEP, '\n');
    WordsFromTrans(v, u, s);
    WordsFromTrans(w, v, s);
  }

  lemma FinishWords(s: string)
    requires NothingToDrop(s)
    ensures WordsFrom(Finish(s), s)
  {
    hide Blanks, TrimLines, Collapse, Strip, WordsFrom, Dropped, NothingToDrop;
    var t := Blanks(s);
    var u := TrimLines(t);
    var v := Collapse(u);
    BlanksWords(s);
    TrimWords(t);
    CollapseWords(u);
    var i, j := StripIsSlice(v);
    SliceWords(v, i, j);
    WordsFromTrans(u, t, s);
    WordsFromTrans(v, u, s);
    WordsFromTrans(v[i..j], v, s);
  }

  /** If no stage drops a character, normalizing twice is normalizing once. */
  lemma IdempotentWithoutDrops(nfc: string -> string, raw: string)
    requires WordWise(nfc) && nfc(nfc(Unix(raw))) == nfc(Unix(raw)) && NothingToDrop(nfc(Unix(raw)))
    ensures Normalized(nfc, Normalized(nfc, raw)) == Normalized(nfc, raw)
  {
    hide Finish, Unix, NothingToDrop, WordsFrom, WordsStable, Clean;
    var t := nfc(Unix(raw));
    var out := Normalized(nfc, raw);
    assert WordsStable(nfc, t);
    FinishWords(t);
    WordsFromStable(nfc, out, t);
    assert nfc(out) == out;
    OutputIsClean(nfc, raw);
    SecondPassIsNfc(nfc, raw);
  }
}
