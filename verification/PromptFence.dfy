/**
 The fenced JSON sections of a task-session prompt: how one is written, and how it is read back out of
 a prompt that also holds quoted conversation text.
 */
module PromptFence {
  import opened Base

  const MIN_FENCE: nat := 3

  // ---------------------------------------------------------------- searching

  predicate OccursAt(s: string, pattern: string, i: nat) {
    i + |pattern| <= |s| && s[i..i + |pattern|] == pattern
  }

  /** `str.find` from a position. */
  function Find(s: string, pattern: string, from: nat): (r: Option<nat>)
    ensures r.Some? ==> from <= r.value && OccursAt(s, pattern, r.value)
    decreases |s| - from
  {
    if from + |pattern| > |s| then None
    else if OccursAt(s, pattern, from) then Some(from)
    else Find(s, pattern, from + 1)
  }

  /** It is the first occurrence that is found, and one is found whenever there is any. */
  lemma {:induction false} FindIsFirst(s: string, pattern: string, from: nat, at: nat)
    requires from <= at && OccursAt(s, pattern, at)
    ensures var r := Find(s, pattern, from);
            r.Some? && r.value <= at && ((forall i :: from <= i < at ==> !OccursAt(s, pattern, i)) ==> r.value == at)
    decreases at - from
  {
    if !OccursAt(s, pattern, from) {
      FindIsFirst(s, pattern, from + 1, at);
    }
  }

  // ---------------------------------------------------------------- backticks

  function Ticks(n: nat): (r: string)
    ensures |r| == n
  {
    seq(n, i => '`')
  }

  ghost predicate AllTicks(s: string, i: nat, n: nat) {
    i + n <= |s| && forall k :: i <= k < i + n ==> s[k] == '`'
  }

  /** Length of the run of backticks that starts at position `i`. */
  function TicksAt(s: string, i: nat): (n: nat)
    ensures n > 0 ==> i + n <= |s|
    decreases |s| - i
  {
    if i < |s| && s[i] == '`' then 1 + TicksAt(s, i + 1) else 0
  }

  function Max(a: nat, b: nat): nat { if a >= b then a else b }

  function LongestRunFrom(s: string, i: nat): nat
    decreases |s| - i
  {
    if i >= |s| then 0 else Max(TicksAt(s, i), LongestRunFrom(s, i + 1))
  }

  /** `_longest_backtick_run` */
  function LongestRun(s: string): nat {
    LongestRunFrom(s, 0)
  }

  lemma {:induction false} TicksAtIsWholeRun(s: string, i: nat, n: nat)
    requires AllTicks(s, i, n)
    ensures n <= TicksAt(s, i)
    ensures (i + n < |s| ==> s[i + n] != '`') ==> TicksAt(s, i) == n
    decreases n
  {
    if n > 0 {
      TicksAtIsWholeRun(s, i + 1, n - 1);
    }
  }

  /** No run is longer, wherever it starts. */
  lemma {:induction false} LongestRunBounds(s: string, from: nat, i: nat, n: nat)
    requires AllTicks(s, i, n) && from <= i
    ensures n <= LongestRunFrom(s, from)
    decreases i - from
  {
    if n > 0 {
      if from == i {
        TicksAtIsWholeRun(s, i, n);
      } else {
        LongestRunBounds(s, from + 1, i, n);
      }
    }
  }

  /** The computed length is that of some run, unless there is none. */
  lemma {:induction false} LongestRunOccurs(s: string, from: nat) returns (i: nat)
    ensures AllTicks(s, i, LongestRunFrom(s, from))
    decreases |s| - from
  {
    if from >= |s| {
      i := 0;
    } else if TicksAt(s, from) >= LongestRunFrom(s, from + 1) {
      i := from;
      TicksAtAreTicks(s, from);
    } else {
      i := LongestRunOccurs(s, from + 1);
    }
  }

  lemma {:induction false} TicksAtAreTicks(s: string, i: nat)
    requires i <= |s|
    ensures AllTicks(s, i, TicksAt(s, i))
    decreases |s| - i
  {
    if i < |s| && s[i] == '`' {
      TicksAtAreTicks(s, i + 1);
    }
  }

  // ---------------------------------------------------------------- printer and parser

  const JSON_TAG: string := "json\n"

  function Title(heading: string): (r: string)
    ensures r != [] && r[0] == '#'
  {
    "## " + heading
  }

  function Marker(heading: string): string {
    Title(heading) + "\n\n"
  }

  function Close(width: nat): string {
    "\n" + Ticks(width)
  }

  function FenceWidth(text: string): nat {
    Max(MIN_FENCE, LongestRun(text) + 1)
  }

  ghost predicate HasRun(text: string, n: nat) {
    exists i: nat :: AllTicks(text, i, n)
  }

  /** The fence is the shortest that is at least three backticks wide and wider than every run of the text. */
  lemma FenceIsShortest(text: string, n: nat, at: nat)
    ensures FenceWidth(text) >= 3
    ensures AllTicks(text, at, n) ==> n < FenceWidth(text)
    ensures FenceWidth(text) > 3 ==> HasRun(text, FenceWidth(text) - 1)
  {
    if AllTicks(text, at, n) {
      LongestRunBounds(text, 0, at, n);
    }
    var i := LongestRunOccurs(text, 0);
    assert AllTicks(text, i, LongestRun(text));
  }

  function Body(text: string): string {
    Ticks(FenceWidth(text)) + JSON_TAG + text + "\n" + Ticks(FenceWidth(text))
  }

  /** `_markdown_json_section`, given the serialized value. */
  function Section(heading: string, text: string): string {
    Marker(heading) + Body(text)
  }

  datatype Parsed = Found(text: string) | MissingSection | InvalidSection | UnterminatedSection

  function ParseText(prompt: string, start: nat, close: string): Parsed {
    match Find(prompt, close, start)
    case None => UnterminatedSection
    case Some(end) => Found(prompt[start..end])
  }

  /** What follows the marker: an opening fence, and the text up to a line that starts with the same fence. */
  function ParseBody(prompt: string, start: nat): Parsed {
    var width := TicksAt(prompt, start);
    if width < MIN_FENCE || !OccursAt(prompt, JSON_TAG, start + width) then InvalidSection
    else ParseText(prompt, start + width + |JSON_TAG|, Close(width))
  }

  /** `task_session_prompt_json_section`, up to the JSON decoder. */
  function ParseSection(prompt: string, heading: string): Parsed {
    match Find(prompt, Marker(heading), 0)
    case None => MissingSection
    case Some(at) => ParseBody(prompt, at + |Marker(heading)|)
  }

  /** The same parser as the source writes it, moving `start` forward. */
  method ReadSection(prompt: string, heading: string) returns (r: Parsed)
    ensures r == ParseSection(prompt, heading)
  {
    var marker := Marker(heading);
    var start := 0;
    var found := Find(prompt, marker, start);
    if found.None? {
      return MissingSection;
    }
    start := found.value + |marker|;
    r := ReadBody(prompt, start);
  }

  method ReadBody(prompt: string, bodyStart: nat) returns (r: Parsed)
    ensures r == ParseBody(prompt, bodyStart)
  {
    var start := bodyStart;
    var width := TicksAt(prompt, start);
    if width < MIN_FENCE || !OccursAt(prompt, JSON_TAG, start + width) {
      return InvalidSection;
    }
    start := start + width + |JSON_TAG|;
    var end := Find(prompt, Close(width), start);
    if end.None? {
      return UnterminatedSection;
    }
    return Found(prompt[start..end.value]);
  }

  // ---------------------------------------------------------------- the round trip

  lemma CloseAt(s: string, width: nat, i: nat)
    requires OccursAt(s, Close(width), i)
    ensures AllTicks(s, i + 1, width)
  {
    forall k | i + 1 <= k < i + 1 + width ensures s[k] == '`' {
      assert s[i..i + |Close(width)|][k - i] == s[k];
    }
  }

  /** The closing fence cannot occur before the end of a text whose runs are all shorter. */
  lemma NoCloseInside(s: string, text: string, width: nat, i: nat)
    requires width > LongestRun(text) && i < |text| < |s| && s[..|text|] == text && s[|text|] == '\n'
    ensures !OccursAt(s, Close(width), i)
  {
    if OccursAt(s, Close(width), i) {
      CloseAt(s, width, i);
      if i + 1 + width <= |text| {
        assert forall k :: i + 1 <= k < i + 1 + width ==> text[k] == s[k];
        LongestRunBounds(text, 0, i + 1, width);
      }
    }
  }

  lemma OccursInSuffix(head: string, tail: string, pattern: string, i: nat)
    ensures OccursAt(head + tail, pattern, |head| + i) <==> OccursAt(tail, pattern, i)
  {
    if i + |pattern| <= |tail| {
      assert (head + tail)[|head| + i..|head| + i + |pattern|] == tail[i..i + |pattern|];
    }
  }

  lemma MiddleOccurs(a: string, b: string, c: string)
    ensures OccursAt(a + b + c, b, |a|) && (a + b + c)[..|a|] == a
  {
  }

  ghost predicate NoneIn(s: string, pattern: string, from: nat, to: nat) {
    forall i :: from <= i < to ==> !OccursAt(s, pattern, i)
  }

  /** The first occurrence in a tail is the first one from the tail's start on. */
  lemma {:induction false} FindInTail(lead: string, tail: string, pattern: string, from: nat, n: nat)
    requires from <= n && OccursAt(tail, pattern, n) && NoneIn(tail, pattern, from, n)
    ensures Find(lead + tail, pattern, |lead| + from) == Some(|lead| + n)
    decreases n - from
  {
    OccursInSuffix(lead, tail, pattern, from);
    if from < n {
      FindInTail(lead, tail, pattern, from + 1, n);
    }
  }

  lemma CloseIsFirst(text: string, width: nat, after: string)
    requires width > LongestRun(text)
    ensures var tail := text + Close(width) + after;
            OccursAt(tail, Close(width), |text|) && NoneIn(tail, Close(width), 0, |text|)
  {
    var close := Close(width);
    var tail := text + close + after;
    MiddleOccurs(text, close, after);
    assert close[0] == '\n' && tail[|text|] == close[0];
    forall i | 0 <= i < |text| ensures !OccursAt(tail, close, i) {
      NoCloseInside(tail, text, width, i);
    }
  }

  lemma OpeningIsRead(head: string, width: nat, tail: string)
    ensures var prompt := head + Ticks(width) + JSON_TAG + tail;
            TicksAt(prompt, |head|) == width && OccursAt(prompt, JSON_TAG, |head| + width)
  {
    var prompt := head + Ticks(width) + JSON_TAG + tail;
    MiddleOccurs(head + Ticks(width), JSON_TAG, tail);
    forall k | |head| <= k < |head| + width ensures prompt[k] == '`' {
      assert prompt[k] == Ticks(width)[k - |head|];
    }
    assert prompt[|head| + width] == JSON_TAG[0];
    TicksAtIsWholeRun(prompt, |head|, width);
  }

  lemma TextIsRead(lead: string, text: string, width: nat, after: string)
    requires width > LongestRun(text)
    ensures ParseText(lead + (text + Close(width) + after), |lead|, Close(width)) == Found(text)
  {
    var close := Close(width);
    var tail := text + close + after;
    CloseIsFirst(text, width, after);
    FindInTail(lead, tail, close, 0, |text|);
    assert tail == text + (close + after);
    TextBetween(lead, text, close + after);
  }

  lemma ParsedBody(prompt: string, start: nat, width: nat, textAt: nat, text: string)
    requires TicksAt(prompt, start) == width >= MIN_FENCE && OccursAt(prompt, JSON_TAG, start + width)
    requires textAt == start + width + |JSON_TAG| && ParseText(prompt, textAt, Close(width)) == Found(text)
    ensures ParseBody(prompt, start) == Found(text)
  {
  }

  lemma FencedTextIsRead(head: string, text: string, width: nat, after: string)
    requires width >= MIN_FENCE && width > LongestRun(text)
    ensures ParseBody((head + Ticks(width) + JSON_TAG) + (text + Close(width) + after), |head|) == Found(text)
  {
    var lead := head + Ticks(width) + JSON_TAG;
    var tail := text + Close(width) + after;
    OpeningIsRead(head, width, tail);
    TextIsRead(lead, text, width, after);
    ParsedBody(lead + tail, |head|, width, |lead|, text);
  }

  lemma BodyIsRead(prompt: string, start: nat, head: string, text: string, after: string)
    requires prompt == head + Body(text) + after && |head| == start
    ensures ParseBody(prompt, start) == Found(text)
  {
    BodyAsTail(head, text, after);
    FencedTextIsRead(head, text, FenceWidth(text), after);
  }

  lemma TextBetween(a: string, b: string, c: string)
    ensures (a + (b + c))[|a|..|a| + |b|] == b
  {
  }

  lemma BodyAsTail(head: string, text: string, after: string)
    ensures var width := FenceWidth(text);
            head + Body(text) + after == (head + Ticks(width) + JSON_TAG) + (text + Close(width) + after)
  {
  }

  lemma ParsedSection(prompt: string, heading: string, at: nat)
    requires Find(prompt, Marker(heading), 0) == Some(at)
    ensures ParseSection(prompt, heading) == ParseBody(prompt, at + |Marker(heading)|)
  {
  }

  lemma CutAround(s: string, pattern: string, at: nat) returns (head: string, tail: string)
    requires OccursAt(s, pattern, at)
    ensures |head| == at && s == head + pattern + tail
  {
    head, tail := s[..at], s[at + |pattern|..];
  }

  lemma OccursBehind(s: string, first: string, second: string, at: nat)
    requires OccursAt(s, first + second, at)
    ensures OccursAt(s, second, at + |first|)
  {
    var found := s[at..at + |first + second|];
    assert s[at + |first|..at + |first| + |second|] == found[|first|..];
  }

  lemma BodyIsReadWhereItOccurs(prompt: string, text: string, start: nat)
    requires OccursAt(prompt, Body(text), start)
    ensures ParseBody(prompt, start) == Found(text)
  {
    var head, tail := CutAround(prompt, Body(text), start);
    BodyIsRead(prompt, start, head, text, tail);
  }

  /**
   The round trip, for every heading, text and surrounding prompt: if the first occurrence of the
   heading's marker is the printed section, the parser returns exactly the printed text.
   */
  lemma PrintedSectionIsRead(prompt: string, heading: string, text: string, at: nat)
    requires OccursAt(prompt, Section(heading, text), at) && Find(prompt, Marker(heading), 0) == Some(at)
    ensures ParseSection(prompt, heading) == Found(text)
  {
    OccursBehind(prompt, Marker(heading), Body(text), at);
    BodyIsReadWhereItOccurs(prompt, text, at + |Marker(heading)|);
    ParsedSection(prompt, heading, at);
  }

  // ---------------------------------------------------------------- quoted messages before the section

  function Quote(lines: seq<string>): string
    requires lines != []
  {
    if |lines| == 1 then "> " + lines[0] else "> " + lines[0] + "\n" + Quote(lines[1..])
  }

  /** `_markdown_blockquote`, given the lines of the text. */
  method QuoteLines(lines: seq<string>) returns (r: string)
    requires lines != []
    ensures r == Quote(lines)
  {
    r := "> " + lines[|lines| - 1];
    var i := |lines| - 1;
    assert lines[i..] == [lines[i]];
    while i > 0
      invariant 0 <= i < |lines| && r == Quote(lines[i..])
    {
      i := i - 1;
      assert lines[i..][1..] == lines[i + 1..];
      r := "> " + lines[i] + "\n" + r;
    }
    assert lines[0..] == lines;
  }

  predicate EndsWith(s: string, suffix: string) {
    |suffix| <= |s| && s[|s| - |suffix|..] == suffix
  }

  predicate OneLine(s: string) {
    '\n' !in s
  }

  /** No blank line inside, and no line break at the end. */
  predicate Compact(q: string) {
    q != [] && q[|q| - 1] != '\n' && forall i :: 0 <= i < |q| - 1 ==> q[i] != '\n' || q[i + 1] != '\n'
  }

  lemma {:induction false} QuoteIsCompact(lines: seq<string>)
    requires lines != [] && forall i :: 0 <= i < |lines| ==> OneLine(lines[i])
    ensures Compact(Quote(lines)) && Quote(lines)[0] == '>'
  {
    var line := "> " + lines[0];
    assert OneLine(lines[0]);
    assert OneLine(line);
    if |lines| > 1 {
      assert forall i :: 0 <= i < |lines| - 1 ==> OneLine(lines[1..][i]) by {
        assert forall i :: 0 <= i < |lines| - 1 ==> lines[1..][i] == lines[i + 1];
      }
      QuoteIsCompact(lines[1..]);
    }
  }

  lemma LongSuffixHasBreak(x: string, y: string, suffix: string)
    requires |y| < |suffix| && EndsWith(x + "\n" + y, suffix)
    ensures '\n' in suffix
  {
    var whole := x + "\n" + y;
    assert suffix[|suffix| - |y| - 1] == whole[|x|];
  }

  lemma SuffixAfterBreak(x: string, y: string, suffix: string)
    requires OneLine(suffix)
    ensures EndsWith(x + "\n" + y, suffix) <==> EndsWith(y, suffix)
  {
    var whole := x + "\n" + y;
    if |suffix| <= |y| {
      assert whole[|whole| - |suffix|..] == y[|y| - |suffix|..];
    } else if EndsWith(whole, suffix) {
      LongSuffixHasBreak(x, y, suffix);
    }
  }

  lemma SuffixAfterQuoteMark(line: string, suffix: string)
    requires suffix != [] && suffix[0] == '#'
    ensures EndsWith("> " + line, suffix) <==> EndsWith(line, suffix)
  {
    var whole := "> " + line;
    if |suffix| <= |line| {
      assert whole[|whole| - |suffix|..] == line[|line| - |suffix|..];
    }
  }

  /** The quoted text ends with a heading exactly when its last line does. */
  lemma {:induction false} QuoteEndsLikeLastLine(lines: seq<string>, suffix: string)
    requires lines != [] && suffix != [] && suffix[0] == '#' && OneLine(suffix)
    ensures EndsWith(Quote(lines), suffix) <==> EndsWith(lines[|lines| - 1], suffix)
  {
    if |lines| == 1 {
      SuffixAfterQuoteMark(lines[0], suffix);
    } else {
      SuffixAfterBreak("> " + lines[0], Quote(lines[1..]), suffix);
      QuoteEndsLikeLastLine(lines[1..], suffix);
    }
  }

  lemma MarkerChars(s: string, title: string, at: nat)
    requires OccursAt(s, title + "\n\n", at)
    ensures at + |title| + 2 <= |s| && s[at + |title|] == '\n' && s[at + |title| + 1] == '\n'
    ensures s[at..at + |title|] == title
  {
    var marker := title + "\n\n";
    var found := s[at..at + |marker|];
    assert found[|title|] == s[at + |title|] && found[|title| + 1] == s[at + |title| + 1];
    assert found[..|title|] == s[at..at + |title|];
  }

  lemma BreakInside(s: string, title: string, at: nat, i: nat)
    requires at <= i < at + |title| <= |s| && s[at..at + |title|] == title && s[i] == '\n'
    ensures '\n' in title
  {
    assert title[i - at] == s[i];
  }

  lemma BlankLineFollowsTheBlock(q: string, rest: string, e: nat)
    requires Compact(q)
    requires var s := q + "\n\n" + rest; e <= |q| && s[e] == '\n' && s[e + 1] == '\n'
    ensures e == |q|
  {
    var s := q + "\n\n" + rest;
    assert forall i :: 0 <= i < |q| ==> s[i] == q[i];
  }

  /** A marker that starts in a block or in the blank line behind it must end exactly where the block ends. */
  lemma EarlyMarkerEndsTheBlock(q: string, title: string, rest: string, at: nat)
    requires Compact(q) && OneLine(title) && title != [] && title[0] == '#'
    requires at < |q| + 2 && OccursAt(q + "\n\n" + rest, title + "\n\n", at)
    ensures at + |title| == |q| && EndsWith(q, title)
  {
    var s := q + "\n\n" + rest;
    MarkerChars(s, title, at);
    assert s[at] == title[0];
    assert s[|q|] == '\n' && s[|q| + 1] == '\n';
    if at + |title| > |q| {
      BreakInside(s, title, at, |q|);
    }
    BlankLineFollowsTheBlock(q, rest, at + |title|);
    assert s[at..|q|] == q[at..];
  }

  lemma NoMarkerBefore(q: string, title: string, rest: string, to: nat)
    requires Compact(q) && OneLine(title) && title != [] && title[0] == '#'
    requires to <= |q| + 2 && (EndsWith(q, title) ==> to <= |q| - |title|)
    ensures NoneIn(q + "\n\n" + rest, title + "\n\n", 0, to)
  {
    forall i | 0 <= i < to ensures !OccursAt(q + "\n\n" + rest, title + "\n\n", i) {
      if OccursAt(q + "\n\n" + rest, title + "\n\n", i) {
        EarlyMarkerEndsTheBlock(q, title, rest, i);
      }
    }
  }

  lemma FoundAt(s: string, pattern: string, at: nat)
    requires OccursAt(s, pattern, at) && NoneIn(s, pattern, 0, at)
    ensures Find(s, pattern, 0) == Some(at)
  {
    FindIsFirst(s, pattern, 0, at);
  }

  lemma MarkerAtBlockEnd(q: string, title: string, rest: string)
    requires EndsWith(q, title)
    ensures OccursAt(q + "\n\n" + rest, title + "\n\n", |q| - |title|)
  {
    var head := q[..|q| - |title|];
    assert q == head + title;
    assert q + "\n\n" + rest == head + (title + "\n\n") + rest;
    MiddleOccurs(head, title + "\n\n", rest);
  }

  /** A body is only read where a fence starts. */
  lemma NoFenceNoBody(prompt: string, start: nat)
    requires start < |prompt| && prompt[start] != '`'
    ensures ParseBody(prompt, start) == InvalidSection
  {
  }

  lemma SectionStarts(heading: string, text: string, after: string)
    ensures var rest := Section(heading, text) + after;
            OccursAt(rest, Marker(heading), 0) && rest != [] && rest[0] == '#'
  {
    var rest := Section(heading, text) + after;
    assert rest == [] + Marker(heading) + (Body(text) + after);
    MiddleOccurs([], Marker(heading), Body(text) + after);
    assert rest[0] == Marker(heading)[0];
  }

  lemma TitleIsOneLine(heading: string)
    requires OneLine(heading)
    ensures OneLine(Title(heading))
  {
    assert OneLine("## ");
  }

  ghost predicate AllOneLine(lines: seq<string>) {
    forall i :: 0 <= i < |lines| ==> OneLine(lines[i])
  }

  // ---------------------------------------------------------------- blocks before the section

  /** Blocks, each with the blank line behind it, and what follows them. */
  function Stack(blocks: seq<string>, rest: string): string {
    if blocks == [] then rest else blocks[0] + "\n\n" + Stack(blocks[1..], rest)
  }

  ghost predicate AllCompact(blocks: seq<string>) {
    forall i :: 0 <= i < |blocks| ==> Compact(blocks[i])
  }

  predicate SomeEnds(blocks: seq<string>, title: string) {
    blocks != [] && (EndsWith(blocks[0], title) || SomeEnds(blocks[1..], title))
  }

  /** What stands behind a block that ends with the title is no fence. */
  predicate Guarded(blocks: seq<string>, rest: string, title: string) {
    blocks == []
    || ((EndsWith(blocks[0], title) ==> StartsPlain(Stack(blocks[1..], rest))) && Guarded(blocks[1..], rest, title))
  }

  predicate StartsPlain(s: string) {
    s != [] && s[0] != '`'
  }

  /** The search goes on behind a block that does not end with the title. */
  lemma SearchPassesBlock(pre: string, q: string, rest: string, title: string)
    requires Compact(q) && OneLine(title) && title != [] && title[0] == '#'
    requires NoneIn(pre + (q + "\n\n" + rest), title + "\n\n", 0, |pre|)
    ensures var to := if EndsWith(q, title) then |q| - |title| else |q| + 2;
            NoneIn(pre + (q + "\n\n" + rest), title + "\n\n", 0, |pre| + to)
  {
    var to := if EndsWith(q, title) then |q| - |title| else |q| + 2;
    var tail, marker := q + "\n\n" + rest, title + "\n\n";
    NoMarkerBefore(q, title, rest, to);
    forall i | 0 <= i < |pre| + to ensures !OccursAt(pre + tail, marker, i) {
      if i >= |pre| {
        OccursInSuffix(pre, tail, marker, i - |pre|);
      }
    }
  }

  lemma StopsAtBlock(pre: string, q: string, rest: string, heading: string)
    requires Compact(q) && OneLine(heading) && EndsWith(q, Title(heading)) && StartsPlain(rest)
    requires NoneIn(pre + (q + "\n\n" + rest), Marker(heading), 0, |pre|)
    ensures ParseSection(pre + (q + "\n\n" + rest), heading) == InvalidSection
  {
    var title := Title(heading);
    var tail := q + "\n\n" + rest;
    var at := |q| - |title|;
    TitleIsOneLine(heading);
    SearchPassesBlock(pre, q, rest, title);
    MarkerAtBlockEnd(q, title, rest);
    OccursInSuffix(pre, tail, Marker(heading), at);
    FoundAt(pre + tail, Marker(heading), |pre| + at);
    ParsedSection(pre + tail, heading, |pre| + at);
    assert (pre + tail)[|pre| + |q| + 2] == rest[0];
    NoFenceNoBody(pre + tail, |pre| + |q| + 2);
  }

  lemma SectionAfter(pre: string, heading: string, text: string, after: string)
    requires NoneIn(pre + (Section(heading, text) + after), Marker(heading), 0, |pre|)
    ensures ParseSection(pre + (Section(heading, text) + after), heading) == Found(text)
  {
    var rest := Section(heading, text) + after;
    SectionStarts(heading, text, after);
    OccursInSuffix(pre, rest, Marker(heading), 0);
    FoundAt(pre + rest, Marker(heading), |pre|);
    assert pre + Section(heading, text) + after == pre + rest;
    MiddleOccurs(pre, Section(heading, text), after);
    PrintedSectionIsRead(pre + rest, heading, text, |pre|);
  }

  /**
   Behind any text in which the marker does not start, and any blocks: the section is read exactly when
   no block ends with its title. Otherwise the parser stops behind the first block that does.
   */
  lemma {:induction false} SectionBehindBlocksIsReadExactly(pre: string, blocks: seq<string>, heading: string, text: string, after: string)
    requires OneLine(heading) && AllCompact(blocks)
    requires Guarded(blocks, Section(heading, text) + after, Title(heading))
    requires NoneIn(pre + Stack(blocks, Section(heading, text) + after), Marker(heading), 0, |pre|)
    ensures ParseSection(pre + Stack(blocks, Section(heading, text) + after), heading)
            == if SomeEnds(blocks, Title(heading)) then InvalidSection else Found(text)
    decreases |blocks|
  {
    var rest := Section(heading, text) + after;
    if blocks == [] {
      SectionAfter(pre, heading, text, after);
    } else {
      var q, more := blocks[0], Stack(blocks[1..], rest);
      if EndsWith(q, Title(heading)) {
        StopsAtBlock(pre, q, more, heading);
      } else {
        TitleIsOneLine(heading);
        SearchPassesBlock(pre, q, more, Title(heading));
        MoveOn(pre, q, more);
        SectionBehindBlocksIsReadExactly(pre + (q + "\n\n"), blocks[1..], heading, text, after);
      }
    }
  }

  lemma MoveOn(pre: string, q: string, more: string)
    ensures pre + (q + "\n\n" + more) == (pre + (q + "\n\n")) + more
    ensures |pre + (q + "\n\n")| == |pre| + |q| + 2
  {
  }
}
