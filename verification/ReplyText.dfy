/**
 Feishu-safe reply text: which mentions are forbidden, how a proposed reply is cleaned, and why a reply
 without a forbidden mention comes out without one.
 */
module ReplyText {
  import opened Base

  /** The character classes of the regular expressions and of `str.strip`. */
  datatype Chars = Chars(isWord: char -> bool, isSpace: char -> bool)

  const TAG_OPEN: string := "<at"
  const TAG_CLOSE: string := "</at>"
  const AT_EVERYONE: string := "@\U{6240}\U{6709}\U{4EBA}"
  const AT_UNDERSCORE_ALL: string := "@_all"
  const AT_ALL: string := "@all"

  ghost predicate Solid(c: Chars, token: string) {
    forall x: char :: LowerChar(x) in token ==> !c.isSpace(x)
  }

  ghost predicate Sane(c: Chars) {
    && (forall x: char :: c.isSpace(x) ==> !c.isWord(x))
    && c.isSpace(' ') && c.isSpace('\n') && c.isSpace('\r')
    && Solid(c, TAG_OPEN) && Solid(c, TAG_CLOSE) && Solid(c, AT_EVERYONE) && Solid(c, AT_UNDERSCORE_ALL) && Solid(c, AT_ALL)
  }

  // ---------------------------------------------------------------- forbidden mentions

  /** A case-insensitive literal at the head of a text. */
  predicate StartsWith(s: string, token: string) {
    |token| <= |s| && forall i :: 0 <= i < |token| ==> LowerChar(s[i]) == token[i]
  }

  /** `<at\b[^>]*>` */
  predicate TagHere(c: Chars, s: string) {
    StartsWith(s, TAG_OPEN) && |s| > 3 && !c.isWord(s[3]) && '>' in s[3..]
  }

  predicate ForbiddenHere(c: Chars, s: string) {
    TagHere(c, s) || StartsWith(s, TAG_CLOSE) || StartsWith(s, AT_EVERYONE) || StartsWith(s, AT_UNDERSCORE_ALL) || StartsWith(s, AT_ALL)
  }

  /** `FORBIDDEN_MENTION_RE.search` */
  predicate Forbidden(c: Chars, s: string) {
    s != [] && (ForbiddenHere(c, s) || Forbidden(c, s[1..]))
  }

  function IndexOf(s: string, x: char): (i: nat)
    requires x in s
    ensures i < |s| && s[i] == x
  {
    if s[0] == x then 0 else 1 + IndexOf(s[1..], x)
  }

  function FindToken(s: string, token: string): (r: Option<nat>)
    ensures r.Some? ==> r.value + |token| <= |s|
  {
    if s == [] then None
    else if StartsWith(s, token) then Some(0)
    else
      match FindToken(s[1..], token)
      case None => None
      case Some(i) => Some(i + 1)
  }

  function TagLength(c: Chars, s: string): (n: nat)
    requires TagHere(c, s)
    ensures 0 < n <= |s|
  {
    3 + IndexOf(s[3..], '>') + 1
  }

  /** Length of the forbidden mention a text starts with, or 0. */
  function MentionLength(c: Chars, s: string): (n: nat)
    ensures n <= |s| && (n > 0 <==> ForbiddenHere(c, s))
  {
    if TagHere(c, s) then TagLength(c, s)
    else if StartsWith(s, TAG_CLOSE) then |TAG_CLOSE|
    else if StartsWith(s, AT_EVERYONE) then |AT_EVERYONE|
    else if StartsWith(s, AT_UNDERSCORE_ALL) then |AT_UNDERSCORE_ALL|
    else if StartsWith(s, AT_ALL) then |AT_ALL|
    else 0
  }

  /** Length of the `<at ...>...</at>` span a text starts with, or 0. */
  function SpanLength(c: Chars, s: string): (n: nat)
    ensures n <= |s| && (n > 0 ==> TagHere(c, s))
  {
    if !TagHere(c, s) then 0
    else
      match FindToken(s[TagLength(c, s)..], TAG_CLOSE)
      case None => 0
      case Some(i) => TagLength(c, s) + i + |TAG_CLOSE|
  }

  predicate HasSpan(c: Chars, s: string) {
    s != [] && (SpanLength(c, s) > 0 || HasSpan(c, s[1..]))
  }

  /** `AGENT_AT_SPAN_RE.sub("", ...)` */
  function RemoveSpans(c: Chars, s: string): string {
    if s == [] then []
    else if SpanLength(c, s) > 0 then RemoveSpans(c, s[SpanLength(c, s)..])
    else [s[0]] + RemoveSpans(c, s[1..])
  }

  /** `FORBIDDEN_MENTION_RE.sub("", ...)` */
  function RemoveMentions(c: Chars, s: string): string {
    if s == [] then []
    else if MentionLength(c, s) > 0 then RemoveMentions(c, s[MentionLength(c, s)..])
    else [s[0]] + RemoveMentions(c, s[1..])
  }

  // ---------------------------------------------------------------- whitespace

  /** `replace("\r\n", "\n")` */
  function ReplaceCrLf(s: string): string {
    if s == [] then []
    else if |s| >= 2 && s[0] == '\r' && s[1] == '\n' then ['\n'] + ReplaceCrLf(s[2..])
    else [s[0]] + ReplaceCrLf(s[1..])
  }

  /** `replace("\r", "\n")` */
  function ReplaceCr(s: string): string {
    if s == [] then [] else [if s[0] == '\r' then '\n' else s[0]] + ReplaceCr(s[1..])
  }

  /** `split("\n")` */
  function Lines(s: string): (lines: seq<string>)
    ensures lines != []
  {
    if s == [] then [[]]
    else
      var rest := Lines(s[1..]);
      if s[0] == '\n' then [[]] + rest else [[s[0]] + rest[0]] + rest[1..]
  }

  /** `"\n".join(line.rstrip() for line in ...)` */
  function JoinStripped(c: Chars, lines: seq<string>): string {
    if lines == [] then []
    else if |lines| == 1 then StripRight(lines[0], c.isSpace)
    else StripRight(lines[0], c.isSpace) + ['\n'] + JoinStripped(c, lines[1..])
  }

  function Strip(c: Chars, s: string): string {
    StripLeft(StripRight(s, c.isSpace), c.isSpace)
  }

  function NormalizeBreaks(s: string): string {
    ReplaceCr(ReplaceCrLf(s))
  }

  /** The whitespace part of the cleanup alone. */
  function Tidy(c: Chars, s: string): string {
    Strip(c, JoinStripped(c, Lines(NormalizeBreaks(s))))
  }

  /** The whole cleanup of `compose`. */
  function Clean(c: Chars, s: string): string {
    Strip(c, JoinStripped(c, Lines(RemoveMentions(c, RemoveSpans(c, NormalizeBreaks(s))))))
  }

  predicate HadForbidden(c: Chars, s: string) {
    HasSpan(c, s) || Forbidden(c, s)
  }

  // ---------------------------------------------------------------- whitespace cannot make a mention

  /**
   `t` is `s` with some whitespace dropped in front of a line break or the end, and carriage returns
   turned into line breaks.
   */
  ghost predicate Trims(c: Chars, s: string, t: string) {
    if s == [] then t == []
    else
      || (t != [] && t[0] == s[0] && Trims(c, s[1..], t[1..]))
      || (c.isSpace(s[0]) && t == [] && Trims(c, s[1..], t))
      || (c.isSpace(s[0]) && t != [] && t[0] == '\n' && (Trims(c, s[1..], t) || Trims(c, s[1..], t[1..])))
  }

  lemma {:induction false} TokenSurvivesTrim(c: Chars, s: string, t: string, token: string)
    requires Sane(c) && Solid(c, token) && Trims(c, s, t) && StartsWith(t, token)
    ensures StartsWith(s, token) && Trims(c, s[|token|..], t[|token|..])
    decreases |token|
  {
    if token == [] {
      assert s[0..] == s && t[0..] == t;
    } else {
      assert LowerChar(t[0]) in token;
      assert t[0] != '\n';
      var rest := token[1..];
      assert forall x: char :: LowerChar(x) in rest ==> LowerChar(x) in token;
      assert StartsWith(t[1..], rest);
      TokenSurvivesTrim(c, s[1..], t[1..], rest);
      assert s[1..][|rest|..] == s[|token|..] && t[1..][|rest|..] == t[|token|..];
      forall i | 0 <= i < |token| ensures LowerChar(s[i]) == token[i] {
        assert i > 0 ==> s[1..][i - 1] == s[i] && rest[i - 1] == token[i];
        assert LowerChar(t[0]) == token[0];
      }
    }
  }

  lemma {:induction false} CharSurvivesTrim(c: Chars, s: string, t: string, x: char)
    requires Trims(c, s, t) && x in t && x != '\n'
    ensures x in s
    decreases |s|
  {
    if t[0] == s[0] && Trims(c, s[1..], t[1..]) {
      if x != t[0] {
        CharSurvivesTrim(c, s[1..], t[1..], x);
      }
    } else if Trims(c, s[1..], t) {
      CharSurvivesTrim(c, s[1..], t, x);
    } else {
      CharSurvivesTrim(c, s[1..], t[1..], x);
    }
  }

  lemma MentionSurvivesTrim(c: Chars, s: string, t: string)
    requires Sane(c) && Trims(c, s, t) && ForbiddenHere(c, t)
    ensures ForbiddenHere(c, s)
  {
    if TagHere(c, t) {
      TokenSurvivesTrim(c, s, t, TAG_OPEN);
      CharSurvivesTrim(c, s[3..], t[3..], '>');
    } else if StartsWith(t, TAG_CLOSE) {
      TokenSurvivesTrim(c, s, t, TAG_CLOSE);
    } else if StartsWith(t, AT_EVERYONE) {
      TokenSurvivesTrim(c, s, t, AT_EVERYONE);
    } else if StartsWith(t, AT_UNDERSCORE_ALL) {
      TokenSurvivesTrim(c, s, t, AT_UNDERSCORE_ALL);
    } else {
      TokenSurvivesTrim(c, s, t, AT_ALL);
    }
  }

  /** Trimming whitespace at line ends cannot create a forbidden mention. */
  lemma {:induction false} TrimMakesNoMention(c: Chars, s: string, t: string)
    requires Sane(c) && Trims(c, s, t) && Forbidden(c, t)
    ensures Forbidden(c, s)
    decreases |s|
  {
    if ForbiddenHere(c, t) {
      MentionSurvivesTrim(c, s, t);
    } else if t[0] == s[0] && Trims(c, s[1..], t[1..]) {
      TrimMakesNoMention(c, s[1..], t[1..]);
    } else if Trims(c, s[1..], t) {
      TrimMakesNoMention(c, s[1..], t);
    } else {
      TrimMakesNoMention(c, s[1..], t[1..]);
    }
  }

  // ---------------------------------------------------------------- every cleanup step is such a trim

  lemma {:induction false} CrLfTrims(c: Chars, s: string)
    requires Sane(c)
    ensures Trims(c, s, ReplaceCrLf(s))
  {
    if |s| >= 2 && s[0] == '\r' && s[1] == '\n' {
      CrLfTrims(c, s[2..]);
      var t := ReplaceCrLf(s);
      assert s[1..][1..] == s[2..] && t[1..] == ReplaceCrLf(s[2..]);
      assert Trims(c, s[1..], t);
    } else if s != [] {
      CrLfTrims(c, s[1..]);
    }
  }

  lemma {:induction false} CrTrims(c: Chars, s: string)
    requires Sane(c)
    ensures Trims(c, s, ReplaceCr(s))
  {
    if s != [] {
      CrTrims(c, s[1..]);
    }
  }

  lemma {:induction false} SpacesTrimAway(c: Chars, spaces: string, u: string, v: string)
    requires (forall i :: 0 <= i < |spaces| ==> c.isSpace(spaces[i])) && Trims(c, u, v) && (v == [] || v[0] == '\n')
    ensures Trims(c, spaces + u, v)
  {
    if spaces == [] {
      assert spaces + u == u;
    } else {
      assert (spaces + u)[1..] == spaces[1..] + u;
      SpacesTrimAway(c, spaces[1..], u, v);
    }
  }

  lemma {:induction false} SameHeadTrims(c: Chars, head: string, u: string, v: string)
    requires Trims(c, u, v)
    ensures Trims(c, head + u, head + v)
  {
    if head == [] {
      assert head + u == u && head + v == v;
    } else {
      assert (head + u)[1..] == head[1..] + u && (head + v)[1..] == head[1..] + v;
      SameHeadTrims(c, head[1..], u, v);
    }
  }

  lemma {:induction false} StripRightKeepsHead(s: string, isSpace: char -> bool) returns (k: nat)
    ensures k <= |s| && StripRight(s, isSpace) == s[..k] && forall i :: k <= i < |s| ==> isSpace(s[i])
  {
    if s != [] && isSpace(s[|s| - 1]) {
      k := StripRightKeepsHead(s[..|s| - 1], isSpace);
      assert s[..|s| - 1][..k] == s[..k];
      assert forall i :: k <= i < |s| - 1 ==> s[..|s| - 1][i] == s[i];
    } else {
      k := |s|;
      assert s[..k] == s;
    }
  }

  lemma StrippedLineTrims(c: Chars, line: string, u: string, v: string)
    requires Trims(c, u, v) && (v == [] || v[0] == '\n')
    ensures Trims(c, line + u, StripRight(line, c.isSpace) + v)
  {
    var k := StripRightKeepsHead(line, c.isSpace);
    assert forall i :: 0 <= i < |line| - k ==> line[k..][i] == line[k + i];
    SpacesTrimAway(c, line[k..], u, v);
    SameHeadTrims(c, line[..k], line[k..] + u, v);
    assert line + u == line[..k] + (line[k..] + u);
  }

  /** Where the first line ends. */
  lemma {:induction false} FirstLine(s: string) returns (rest: string)
    ensures |Lines(s)| == 1 ==> s == Lines(s)[0]
    ensures |Lines(s)| > 1 ==> s == Lines(s)[0] + ['\n'] + rest && Lines(rest) == Lines(s)[1..] && |rest| < |s|
  {
    rest := [];
    if s != [] {
      if s[0] == '\n' {
        rest := s[1..];
      } else {
        rest := FirstLine(s[1..]);
        assert s == [s[0]] + s[1..];
      }
    }
  }

  lemma FirstLineTrims(c: Chars, line: string, rest: string, tail: string)
    requires Trims(c, rest, tail)
    ensures Trims(c, line + ['\n'] + rest, StripRight(line, c.isSpace) + ['\n'] + tail)
  {
    SameHeadTrims(c, ['\n'], rest, tail);
    StrippedLineTrims(c, line, ['\n'] + rest, ['\n'] + tail);
    assert line + ['\n'] + rest == line + (['\n'] + rest);
    assert StripRight(line, c.isSpace) + ['\n'] + tail == StripRight(line, c.isSpace) + (['\n'] + tail);
  }

  lemma {:induction false} LinesTrim(c: Chars, s: string)
    requires Sane(c)
    ensures Trims(c, s, JoinStripped(c, Lines(s)))
    decreases |s|
  {
    var rest := FirstLine(s);
    var lines := Lines(s);
    if |lines| == 1 {
      StrippedLineTrims(c, s, [], []);
      assert s + [] == s && StripRight(s, c.isSpace) + [] == StripRight(s, c.isSpace);
    } else {
      LinesTrim(c, rest);
      FirstLineTrims(c, lines[0], rest, JoinStripped(c, lines[1..]));
    }
  }

  lemma {:induction false} StripLeftMakesNoMention(c: Chars, s: string)
    requires Forbidden(c, StripLeft(s, c.isSpace))
    ensures Forbidden(c, s)
  {
    if s != [] && c.isSpace(s[0]) {
      StripLeftMakesNoMention(c, s[1..]);
    }
  }

  lemma StripMakesNoMention(c: Chars, s: string)
    requires Sane(c) && !Forbidden(c, s)
    ensures !Forbidden(c, Strip(c, s))
  {
    var right := StripRight(s, c.isSpace);
    StrippedLineTrims(c, s, [], []);
    assert s + [] == s && right + [] == right;
    if Forbidden(c, right) {
      TrimMakesNoMention(c, s, right);
    }
    if Forbidden(c, Strip(c, s)) {
      StripLeftMakesNoMention(c, right);
    }
  }

  lemma NormalizeMakesNoMention(c: Chars, s: string)
    requires Sane(c) && !Forbidden(c, s)
    ensures !Forbidden(c, NormalizeBreaks(s))
  {
    CrLfTrims(c, s);
    CrTrims(c, ReplaceCrLf(s));
    if Forbidden(c, NormalizeBreaks(s)) {
      TrimMakesNoMention(c, ReplaceCrLf(s), NormalizeBreaks(s));
      TrimMakesNoMention(c, s, ReplaceCrLf(s));
    }
  }

  /** A text that is only tidied has no forbidden mention unless it had one before. */
  lemma TidyMakesNoMention(c: Chars, s: string)
    requires Sane(c) && !Forbidden(c, s)
    ensures !Forbidden(c, Tidy(c, s))
  {
    NormalizeMakesNoMention(c, s);
    var normal := NormalizeBreaks(s);
    LinesTrim(c, normal);
    var joined := JoinStripped(c, Lines(normal));
    if Forbidden(c, joined) {
      TrimMakesNoMention(c, normal, joined);
    }
    StripMakesNoMention(c, joined);
  }

  // ---------------------------------------------------------------- removal

  lemma {:induction false} NothingToRemove(c: Chars, s: string)
    requires !Forbidden(c, s)
    ensures RemoveSpans(c, s) == s && RemoveMentions(c, s) == s && !HasSpan(c, s)
  {
    if s != [] {
      NothingToRemove(c, s[1..]);
    }
  }

  /**
   A proposed reply without a forbidden mention is only tidied: the composer deletes nothing but
   whitespace, and what comes out has no forbidden mention.
   */
  lemma CleanReplyIsOnlyTidied(c: Chars, s: string)
    requires Sane(c) && !HadForbidden(c, s)
    ensures Clean(c, s) == Tidy(c, s) && !Forbidden(c, Clean(c, s))
  {
    NormalizeMakesNoMention(c, s);
    NothingToRemove(c, NormalizeBreaks(s));
    TidyMakesNoMention(c, s);
  }

  /** The two searches that set the flag amount to one: a span starts with a forbidden tag. */
  lemma {:induction false} FlagMeansForbidden(c: Chars, s: string)
    ensures HadForbidden(c, s) <==> Forbidden(c, s)
  {
    if s != [] {
      FlagMeansForbidden(c, s[1..]);
    }
  }

  lemma {:induction false} NothingBeginsWithout(c: Chars, s: string)
    requires '<' !in s && '@' !in s
    ensures !Forbidden(c, s)
  {
    if s != [] {
      assert s[0] != '<' && s[0] != '@';
      NothingBeginsWithout(c, s[1..]);
    }
  }

  lemma AtSignBefore(c: Chars, rest: string)
    requires rest != [] && rest[0] == '@'
    ensures MentionLength(c, ['@'] + rest) == 0
  {
    var s := ['@'] + rest;
    assert s[0] == '@' && s[1] == '@';
  }

  lemma AllIsRemoved(c: Chars, rest: string)
    requires '<' !in rest && '@' !in rest
    ensures RemoveMentions(c, AT_ALL + rest) == rest
  {
    var s := AT_ALL + rest;
    assert StartsWith(s, AT_ALL) && s[0] == '@' && s[1] == 'a';
    assert s[4..] == rest;
    NothingBeginsWithout(c, rest);
    NothingToRemove(c, rest);
  }

  lemma DoubledAtLeavesMention(c: Chars, rest: string)
    requires '<' !in rest && '@' !in rest
    ensures RemoveMentions(c, ['@'] + (AT_ALL + rest)) == ['@'] + rest
  {
    AtSignBefore(c, AT_ALL + rest);
    AllIsRemoved(c, rest);
    assert (['@'] + (AT_ALL + rest))[1..] == AT_ALL + rest;
  }

  lemma {:induction false} LaterMention(c: Chars, s: string, i: nat)
    requires i < |s| && ForbiddenHere(c, s[i..])
    ensures Forbidden(c, s)
  {
    if i > 0 {
      assert s[1..][i - 1..] == s[i..];
      LaterMention(c, s[1..], i - 1);
    }
  }

  const DOUBLED_ALL: string := "@@allall"

  function Doubled(rest: string): string {
    ['@'] + (AT_ALL + rest)
  }

  lemma DoubledIsCleanedTo(c: Chars, rest: string)
    requires Sane(c) && '<' !in rest && '@' !in rest && '\r' !in rest && forall i :: 0 <= i < |rest| ==> !c.isSpace(rest[i])
    ensures Clean(c, Doubled(rest)) == ['@'] + rest
  {
    var s := Doubled(rest);
    assert '\r' !in s && '<' !in s;
    NoCarriageReturn(s);
    NoTag(c, s);
    DoubledAtLeavesMention(c, rest);
    assert LowerChar('@') in AT_ALL;
    OneSolidLine(c, ['@'] + rest);
  }

  lemma DoubledIsFlagged(c: Chars, rest: string)
    ensures Forbidden(c, Doubled(rest))
  {
    assert Doubled(rest)[1..] == AT_ALL + rest;
    assert StartsWith(AT_ALL + rest, AT_ALL);
    LaterMention(c, Doubled(rest), 1);
  }

  lemma AllIsForbidden(c: Chars)
    ensures Forbidden(c, AT_ALL)
  {
    assert StartsWith(AT_ALL, AT_ALL);
  }

  /**
   The removal is a single pass, so a text that had a mention ("@@allall") can still have one after
   it; only the flag, not the cleaned text, tells the gate.
   */
  lemma OnePassCanLeaveMention(c: Chars)
    requires Sane(c)
    ensures HadForbidden(c, DOUBLED_ALL) && Clean(c, DOUBLED_ALL) == AT_ALL && Forbidden(c, Clean(c, DOUBLED_ALL))
  {
    var rest := "all";
    assert LowerChar('a') in AT_ALL && LowerChar('l') in AT_ALL;
    assert ['@'] + rest == AT_ALL;
    DoubledAllIsDoubled(rest);
    DoubledIsFlagged(c, rest);
    DoubledIsCleanedTo(c, rest);
    AllIsForbidden(c);
  }

  lemma DoubledAllIsDoubled(rest: string)
    requires rest == "all"
    ensures DOUBLED_ALL == Doubled(rest)
  {
  }

  lemma {:induction false} NoCarriageReturn(s: string)
    requires '\r' !in s
    ensures NormalizeBreaks(s) == s
  {
    if s != [] {
      NoCarriageReturn(s[1..]);
    }
  }

  lemma {:induction false} NoTag(c: Chars, s: string)
    requires '<' !in s
    ensures RemoveSpans(c, s) == s
  {
    if s != [] {
      assert s[0] != '<' && '<' !in s[1..];
      NoTag(c, s[1..]);
    }
  }

  /** A text without whitespace is left as it is. */
  lemma {:induction false} OneSolidLine(c: Chars, s: string)
    requires Sane(c) && forall i :: 0 <= i < |s| ==> !c.isSpace(s[i])
    ensures Lines(s) == [s] && Strip(c, JoinStripped(c, Lines(s))) == s
  {
    if s != [] {
      assert s[0] != '\n' && forall i :: 0 <= i < |s| - 1 ==> s[1..][i] == s[i + 1];
      OneSolidLine(c, s[1..]);
      assert [s[0]] + s[1..] == s;
    }
  }
}
