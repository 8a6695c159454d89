/**
 The cleanup of a reply against plain descriptions of it: which texts are forbidden, what removal takes
 out, and that tidying changes whitespace at line ends only.
 */
module ReplyCleaning {
  import opened Base
  import opened ReplyText

  // ---------------------------------------------------------------- forbidden mentions

  /** The literal stands at position `i`, in any mixture of cases. */
  predicate Spelled(s: string, i: nat, word: string) {
    i + |word| <= |s| && Lower(s[i..i + |word|]) == word
  }

  /** An opening tag at position `i`: its name ends there, and it is closed somewhere. */
  ghost predicate OpensTag(c: Chars, s: string, i: nat) {
    Spelled(s, i, "<at") && i + 3 < |s| && !c.isWord(s[i + 3]) && exists j :: i + 3 <= j < |s| && s[j] == '>'
  }

  ghost predicate MentionsAt(c: Chars, s: string, i: nat) {
    OpensTag(c, s, i) || Spelled(s, i, "</at>") || Spelled(s, i, "@\U{6240}\U{6709}\U{4EBA}") || Spelled(s, i, "@_all")
    || Spelled(s, i, "@all")
  }

  lemma SpelledHere(s: string, i: nat, word: string)
    requires i <= |s|
    ensures StartsWith(s[i..], word) <==> Spelled(s, i, word)
  {
    if i + |word| <= |s| {
      var found := s[i..i + |word|];
      assert forall k :: 0 <= k < |word| ==> s[i..][k] == found[k];
      assert forall k :: 0 <= k < |word| ==> Lower(found)[k] == LowerChar(found[k]);
    }
  }

  lemma TagOpensHere(c: Chars, s: string, i: nat)
    requires i <= |s|
    ensures TagHere(c, s[i..]) <==> OpensTag(c, s, i)
  {
    SpelledHere(s, i, "<at");
    if i + 3 <= |s| {
      assert s[i..][3..] == s[i + 3..];
      if '>' in s[i + 3..] {
        var k :| 0 <= k < |s[i + 3..]| && s[i + 3..][k] == '>';
        assert s[i + 3 + k] == '>';
      }
      if exists j :: i + 3 <= j < |s| && s[j] == '>' {
        var j :| i + 3 <= j < |s| && s[j] == '>';
        assert s[i + 3..][j - i - 3] == '>';
      }
    }
  }

  lemma MentionHere(c: Chars, s: string, i: nat)
    requires i <= |s|
    ensures ForbiddenHere(c, s[i..]) <==> MentionsAt(c, s, i)
  {
    TagOpensHere(c, s, i);
    SpelledHere(s, i, "</at>");
    SpelledHere(s, i, "@\U{6240}\U{6709}\U{4EBA}");
    SpelledHere(s, i, "@_all");
    SpelledHere(s, i, "@all");
  }

  lemma {:induction false} ForbiddenFrom(c: Chars, s: string, from: nat)
    requires from <= |s|
    ensures Forbidden(c, s[from..]) <==> exists i :: from <= i < |s| && MentionsAt(c, s, i)
    decreases |s| - from
  {
    if from < |s| {
      assert s[from..][1..] == s[from + 1..];
      MentionHere(c, s, from);
      ForbiddenFrom(c, s, from + 1);
    }
  }

  /** A text is forbidden exactly if a tag or one of the group mentions stands somewhere in it, in any case. */
  lemma ForbiddenExactly(c: Chars, s: string)
    ensures HadForbidden(c, s) <==> exists i :: 0 <= i < |s| && MentionsAt(c, s, i)
  {
    FlagMeansForbidden(c, s);
    ForbiddenFrom(c, s, 0);
    assert s[0..] == s;
  }

  // ---------------------------------------------------------------- removal

  lemma {:induction false} FirstClose(s: string, tail: string)
    requires '<' !in s
    ensures FindToken(s + (TAG_CLOSE + tail), TAG_CLOSE) == Some(|s|)
  {
    var text := s + (TAG_CLOSE + tail);
    if s == [] {
      assert text == TAG_CLOSE + tail;
      assert StartsWith(text, TAG_CLOSE);
    } else {
      assert text[0] == s[0] && s[0] != '<';
      assert text[1..] == s[1..] + (TAG_CLOSE + tail);
      FirstClose(s[1..], tail);
    }
  }

  lemma {:induction false} FirstBracket(s: string, tail: string)
    requires '>' !in s
    ensures '>' in s + (['>'] + tail) && IndexOf(s + (['>'] + tail), '>') == |s|
  {
    var text := s + (['>'] + tail);
    assert text[|s|] == '>';
    if s != [] {
      assert text[0] == s[0];
      assert text[1..] == s[1..] + (['>'] + tail);
      FirstBracket(s[1..], tail);
    }
  }

  /** A tag with its name, its text and its closing tag is taken out as a whole. */
  lemma SpanIsRemoved(c: Chars, attributes: string, text: string, tail: string)
    requires attributes != [] && !c.isWord(attributes[0]) && '>' !in attributes && '<' !in text
    ensures RemoveSpans(c, TAG_OPEN + (attributes + (['>'] + (text + (TAG_CLOSE + tail))))) == RemoveSpans(c, tail)
  {
    var rest := text + (TAG_CLOSE + tail);
    var s := TAG_OPEN + (attributes + (['>'] + rest));
    assert s[3..] == attributes + (['>'] + rest);
    FirstBracket(attributes, rest);
    assert StartsWith(s, TAG_OPEN) && s[3] == attributes[0];
    assert TagHere(c, s) && TagLength(c, s) == 3 + |attributes| + 1;
    assert s[TagLength(c, s)..] == rest;
    FirstClose(text, tail);
    assert SpanLength(c, s) == TagLength(c, s) + |text| + |TAG_CLOSE|;
    assert s[SpanLength(c, s)..] == rest[|text| + |TAG_CLOSE|..] == tail;
  }

  /** So the composer's cleanup drops it with its text. */
  lemma SpanIsCleaned(c: Chars, attributes: string, text: string, tail: string)
    requires attributes != [] && !c.isWord(attributes[0]) && '>' !in attributes && '<' !in text
    requires '\r' !in attributes && '\r' !in text && '\r' !in tail
    ensures Clean(c, TAG_OPEN + (attributes + (['>'] + (text + (TAG_CLOSE + tail))))) == Clean(c, tail)
  {
    NoCarriageReturn(TAG_OPEN + (attributes + (['>'] + (text + (TAG_CLOSE + tail)))));
    NoCarriageReturn(tail);
    SpanIsRemoved(c, attributes, text, tail);
  }

  /** A mention is taken out wherever the scan meets it, and any other character is kept. */
  lemma MentionIsRemoved(c: Chars, s: string)
    requires s != []
    ensures !ForbiddenHere(c, s) ==> RemoveMentions(c, s) == [s[0]] + RemoveMentions(c, s[1..])
    ensures !TagHere(c, s) && Spelled(s, 0, "@all") ==> RemoveMentions(c, s) == RemoveMentions(c, s[4..])
    ensures !TagHere(c, s) && Spelled(s, 0, "@_all") ==> RemoveMentions(c, s) == RemoveMentions(c, s[5..])
    ensures !TagHere(c, s) && Spelled(s, 0, "</at>") ==> RemoveMentions(c, s) == RemoveMentions(c, s[5..])
    ensures !TagHere(c, s) && Spelled(s, 0, "@\U{6240}\U{6709}\U{4EBA}") ==> RemoveMentions(c, s) == RemoveMentions(c, s[4..])
    ensures TagHere(c, s) ==> RemoveMentions(c, s) == RemoveMentions(c, s[3 + IndexOf(s[3..], '>') + 1..])
  {
    assert s[0..] == s;
    SpelledHere(s, 0, "@all");
    SpelledHere(s, 0, "@_all");
    SpelledHere(s, 0, "</at>");
    SpelledHere(s, 0, "@\U{6240}\U{6709}\U{4EBA}");
    if |s| > 1 {
      assert StartsWith(s, AT_ALL) ==> LowerChar(s[0]) == '@' && LowerChar(s[1]) == 'a';
      assert StartsWith(s, AT_UNDERSCORE_ALL) ==> LowerChar(s[1]) == '_';
      assert StartsWith(s, AT_EVERYONE) ==> LowerChar(s[1]) == '\U{6240}';
      assert StartsWith(s, TAG_CLOSE) ==> LowerChar(s[0]) == '<';
    }
  }

  // ---------------------------------------------------------------- tidying

  /** What is left of a text without its whitespace. */
  function Ink(c: Chars, s: string): string {
    if s == [] then [] else (if c.isSpace(s[0]) then [] else [s[0]]) + Ink(c, s[1..])
  }

  lemma {:induction false} TrimKeepsInk(c: Chars, s: string, t: string)
    requires Sane(c) && Trims(c, s, t)
    ensures Ink(c, s) == Ink(c, t)
    decreases |s|
  {
    if s != [] {
      if t != [] && t[0] == s[0] && Trims(c, s[1..], t[1..]) {
        TrimKeepsInk(c, s[1..], t[1..]);
      } else if Trims(c, s[1..], t) {
        TrimKeepsInk(c, s[1..], t);
      } else {
        TrimKeepsInk(c, s[1..], t[1..]);
      }
    }
  }

  lemma {:induction false} StripLeftKeepsInk(c: Chars, s: string)
    ensures Ink(c, StripLeft(s, c.isSpace)) == Ink(c, s)
  {
    if s != [] && c.isSpace(s[0]) {
      StripLeftKeepsInk(c, s[1..]);
    }
  }

  lemma StripKeepsInk(c: Chars, s: string)
    requires Sane(c)
    ensures Ink(c, Strip(c, s)) == Ink(c, s)
  {
    var right := StripRight(s, c.isSpace);
    StrippedLineTrims(c, s, [], []);
    assert s + [] == s && right + [] == right;
    TrimKeepsInk(c, s, right);
    StripLeftKeepsInk(c, right);
  }

  /** Tidying loses nothing but whitespace. */
  lemma TidyKeepsInk(c: Chars, s: string)
    requires Sane(c)
    ensures Ink(c, Tidy(c, s)) == Ink(c, s)
  {
    var plain := ReplaceCrLf(s);
    CrLfTrims(c, s);
    TrimKeepsInk(c, s, plain);
    CrTrims(c, plain);
    TrimKeepsInk(c, plain, NormalizeBreaks(s));
    var joined := JoinStripped(c, Lines(NormalizeBreaks(s)));
    LinesTrim(c, NormalizeBreaks(s));
    TrimKeepsInk(c, NormalizeBreaks(s), joined);
    StripKeepsInk(c, joined);
  }

  /** No carriage return, no whitespace at either end, and none in front of a line break. */
  ghost predicate IsTidy(c: Chars, s: string) {
    && '\r' !in s
    && (s != [] ==> !c.isSpace(s[0]) && !c.isSpace(s[|s| - 1]))
    && forall i :: 0 < i < |s| && s[i] == '\n' && s[i - 1] != '\n' ==> !c.isSpace(s[i - 1])
  }

  lemma NothingToStrip(c: Chars, s: string)
    requires s != [] ==> !c.isSpace(s[0]) && !c.isSpace(s[|s| - 1])
    ensures Strip(c, s) == s
  {
  }

  /** No line of the text ends in whitespace. */
  ghost predicate LinesEndInInk(c: Chars, s: string) {
    && (s != [] && s[|s| - 1] != '\n' ==> !c.isSpace(s[|s| - 1]))
    && forall i :: 0 < i < |s| && s[i] == '\n' && s[i - 1] != '\n' ==> !c.isSpace(s[i - 1])
  }

  lemma {:induction false} FirstLineHasNoBreak(s: string)
    ensures '\n' !in Lines(s)[0]
  {
    if s != [] && s[0] != '\n' {
      FirstLineHasNoBreak(s[1..]);
    }
  }

  lemma LaterLinesEndInInk(c: Chars, s: string, line: string, rest: string)
    requires LinesEndInInk(c, s) && '\n' !in line && s == line + ['\n'] + rest
    ensures LinesEndInInk(c, rest) && (line != [] ==> !c.isSpace(line[|line| - 1]))
  {
    var n := |line|;
    assert n > 0 ==> s[n] == '\n' && s[n - 1] == line[n - 1];
    forall i | 0 < i < |rest| && rest[i] == '\n' && rest[i - 1] != '\n' ensures !c.isSpace(rest[i - 1]) {
      assert s[n + 1 + i] == rest[i] && s[n + i] == rest[i - 1];
    }
    assert rest != [] ==> rest[|rest| - 1] == s[|s| - 1];
  }

  lemma {:induction false} NothingToTrim(c: Chars, s: string)
    requires Sane(c) && LinesEndInInk(c, s)
    ensures JoinStripped(c, Lines(s)) == s
    decreases |s|
  {
    var rest := FirstLine(s);
    var lines := Lines(s);
    FirstLineHasNoBreak(s);
    if |lines| > 1 {
      LaterLinesEndInInk(c, s, lines[0], rest);
      NothingToTrim(c, rest);
    }
    assert StripRight(lines[0], c.isSpace) == lines[0];
  }

  /** A text that is tidy already is left as it is; so whitespace inside a line is kept. */
  lemma TidyTextIsKept(c: Chars, s: string)
    requires Sane(c) && IsTidy(c, s)
    ensures Tidy(c, s) == s
  {
    NoCarriageReturn(s);
    NothingToTrim(c, s);
    NothingToStrip(c, s);
  }

  // ---------------------------------------------------------------- line breaks

  /** One line break, as any platform writes it. */
  predicate IsBreak(mark: string, rest: string) {
    mark == "\r\n" || mark == "\n" || (mark == "\r" && (rest == [] || rest[0] != '\n'))
  }

  lemma BreakFirst(mark: string, rest: string)
    requires IsBreak(mark, rest)
    ensures NormalizeBreaks(mark + rest) == ['\n'] + NormalizeBreaks(rest)
  {
    if mark == "\r\n" {
      assert (mark + rest)[2..] == rest;
      assert (['\n'] + ReplaceCrLf(rest))[1..] == ReplaceCrLf(rest);
    } else {
      assert (mark + rest)[1..] == rest && (mark + rest)[0] == mark[0];
      assert ReplaceCrLf(mark + rest) == [mark[0]] + ReplaceCrLf(rest);
      assert ([mark[0]] + ReplaceCrLf(rest))[1..] == ReplaceCrLf(rest);
    }
  }

  /** Every kind of line break becomes one line feed, and nothing else is touched. */
  lemma {:induction false} BreakIsNormalized(line: string, mark: string, rest: string)
    requires IsBreak(mark, rest) && '\n' !in line && '\r' !in line
    ensures NormalizeBreaks(line + (mark + rest)) == line + (['\n'] + NormalizeBreaks(rest))
  {
    var s := line + (mark + rest);
    if line == [] {
      assert s == mark + rest;
      BreakFirst(mark, rest);
    } else {
      assert s[0] == line[0] && s[1..] == line[1..] + (mark + rest);
      BreakIsNormalized(line[1..], mark, rest);
      assert ReplaceCrLf(s) == [s[0]] + ReplaceCrLf(s[1..]);
      assert ReplaceCrLf(s)[1..] == ReplaceCrLf(s[1..]);
    }
  }

  // ---------------------------------------------------------------- the result is tidy

  lemma {:induction false} CrIsReplaced(s: string)
    ensures '\r' !in ReplaceCr(s)
  {
    if s != [] {
      CrIsReplaced(s[1..]);
    }
  }

  lemma {:induction false} LinesHaveNoReturn(s: string)
    requires '\r' !in s
    ensures forall i :: 0 <= i < |Lines(s)| ==> '\r' !in Lines(s)[i]
  {
    if s != [] {
      LinesHaveNoReturn(s[1..]);
    }
  }

  lemma {:induction false} LinesHaveNoBreak(s: string)
    ensures forall i :: 0 <= i < |Lines(s)| ==> '\n' !in Lines(s)[i]
  {
    if s != [] {
      LinesHaveNoBreak(s[1..]);
    }
  }

  lemma StripRightEnd(c: Chars, line: string)
    requires '\n' !in line && '\r' !in line
    ensures var r := StripRight(line, c.isSpace);
            (r != [] ==> !c.isSpace(r[|r| - 1])) && '\n' !in r && '\r' !in r
  {
    var k := StripRightKeepsHead(line, c.isSpace);
    StripRightEndsInInk(line, c.isSpace);
  }

  lemma {:induction false} StripRightEndsInInk(s: string, isSpace: char -> bool)
    ensures var r := StripRight(s, isSpace); r != [] ==> !isSpace(r[|r| - 1])
  {
    if s != [] && isSpace(s[|s| - 1]) {
      StripRightEndsInInk(s[..|s| - 1], isSpace);
    }
  }

  lemma FirstLineJoined(c: Chars, line: string, rest: string)
    requires '\n' !in line && '\r' !in line && (line != [] ==> !c.isSpace(line[|line| - 1]))
    requires LinesEndInInk(c, rest) && '\r' !in rest
    ensures LinesEndInInk(c, line + ['\n'] + rest) && '\r' !in line + ['\n'] + rest
  {
    var s, n := line + ['\n'] + rest, |line|;
    assert forall i :: 0 <= i < n ==> s[i] == line[i] && line[i] != '\n';
    forall i | 0 < i < |s| && s[i] == '\n' && s[i - 1] != '\n' ensures !c.isSpace(s[i - 1]) {
      if i == n {
        assert s[i - 1] == line[n - 1];
      } else {
        assert s[i] == rest[i - n - 1] && i - n - 1 > 0 && s[i - 1] == rest[i - n - 2];
      }
    }
    assert s[|s| - 1] != '\n' ==> rest != [] && s[|s| - 1] == rest[|rest| - 1];
  }

  lemma {:induction false} JoinedLinesEndInInk(c: Chars, lines: seq<string>)
    requires forall i :: 0 <= i < |lines| ==> '\n' !in lines[i] && '\r' !in lines[i]
    ensures LinesEndInInk(c, JoinStripped(c, lines)) && '\r' !in JoinStripped(c, lines)
    decreases |lines|
  {
    if lines != [] {
      StripRightEnd(c, lines[0]);
      if |lines| > 1 {
        JoinedLinesEndInInk(c, lines[1..]);
        FirstLineJoined(c, StripRight(lines[0], c.isSpace), JoinStripped(c, lines[1..]));
      }
    }
  }

  lemma {:induction false} StripLeftIsSuffix(s: string, isSpace: char -> bool) returns (k: nat)
    ensures k <= |s| && StripLeft(s, isSpace) == s[k..] && (k < |s| ==> !isSpace(s[k]))
  {
    if s != [] && isSpace(s[0]) {
      var rest := StripLeftIsSuffix(s[1..], isSpace);
      k := rest + 1;
      assert s[1..][rest..] == s[k..];
    } else {
      k := 0;
      assert s[0..] == s;
    }
  }

  /** Tidying yields a tidy text. */
  lemma TidyIsTidy(c: Chars, s: string)
    requires Sane(c)
    ensures IsTidy(c, Tidy(c, s))
  {
    var normal := NormalizeBreaks(s);
    CrIsReplaced(ReplaceCrLf(s));
    LinesHaveNoReturn(normal);
    LinesHaveNoBreak(normal);
    var joined := JoinStripped(c, Lines(normal));
    JoinedLinesEndInInk(c, Lines(normal));
    var to := StripRightKeepsHead(joined, c.isSpace);
    StripRightEndsInInk(joined, c.isSpace);
    var right := StripRight(joined, c.isSpace);
    var k := StripLeftIsSuffix(right, c.isSpace);
    SliceIsTidy(c, joined, k, to);
    assert right[k..] == joined[k..to];
  }

  lemma SliceIsTidy(c: Chars, s: string, from: nat, to: nat)
    requires from <= to <= |s| && LinesEndInInk(c, s) && '\r' !in s
    requires from < to ==> !c.isSpace(s[from]) && !c.isSpace(s[to - 1])
    ensures IsTidy(c, s[from..to])
  {
    var t := s[from..to];
    forall i | 0 < i < |t| && t[i] == '\n' && t[i - 1] != '\n' ensures !c.isSpace(t[i - 1]) {
      assert s[from + i] == t[i] && s[from + i - 1] == t[i - 1];
    }
  }
}
