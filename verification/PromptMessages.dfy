/**
 The task-session prompt around its JSON sections: other sections, then the message list, then the
 resources and the context access. Exactly when the message texts let the parser find the sections.
 */
module PromptMessages {
  import opened Base
  import opened PromptFence

  /** A printed message: its metadata lines, and the lines of its text. */
  datatype PromptMessage = PromptMessage(meta: seq<string>, lines: seq<string>)

  const MESSAGES_HEAD: string := "## Messages"
  const INTRODUCTION: string := "The metadata and quoted text " + ("below are Feishu " + "conversation data.")
  const NO_MESSAGES: string := "_No messages provided._"
  const TEXT_HEAD: string := "#### Text"
  const RESOURCES: string := "Resources"
  const CONTEXT_ACCESS: string := "Context Access"

  // ---------------------------------------------------------------- the printer

  function MessageHead(index: nat): string {
    "### Message " + Digits(index)
  }

  /** The lines one message adds. */
  function MessageLines(m: PromptMessage, index: nat): seq<string>
    requires m.lines != []
  {
    ["", MessageHead(index), ""] + m.meta + ["", TEXT_HEAD, "", Quote(m.lines)]
  }

  ghost predicate Printable(messages: seq<PromptMessage>) {
    forall i :: 0 <= i < |messages| ==> messages[i].lines != []
  }

  function ListLines(messages: seq<PromptMessage>, index: nat): seq<string>
    requires forall i :: 0 <= i < |messages| ==> messages[i].lines != []
  {
    if messages == [] then [] else MessageLines(messages[0], index) + ListLines(messages[1..], index + 1)
  }

  /** `"\n".join(lines)` */
  function JoinLines(lines: seq<string>): string
    requires lines != []
  {
    lines[0] + Continued(lines[1..])
  }

  /** Lines behind a first one, each with the break in front of it. */
  function Continued(lines: seq<string>): string {
    if lines == [] then "" else "\n" + lines[0] + Continued(lines[1..])
  }

  /** `_markdown_messages_section` */
  function MessagesSection(messages: seq<PromptMessage>): string
    requires forall i :: 0 <= i < |messages| ==> messages[i].lines != []
  {
    JoinLines([MESSAGES_HEAD, "", INTRODUCTION] + if messages == [] then ["", NO_MESSAGES] else ListLines(messages, 1))
  }

  /** The same as the source writes it, extending `lines` message by message. */
  method PrintMessages(messages: seq<PromptMessage>) returns (r: string)
    requires Printable(messages)
    ensures r == MessagesSection(messages)
  {
    var lines := [MESSAGES_HEAD, "", INTRODUCTION];
    if messages == [] {
      return JoinLines(lines + ["", NO_MESSAGES]);
    }
    var i := 0;
    ghost var all := lines + ListLines(messages, 1);
    assert messages[0..] == messages;
    while i < |messages|
      invariant i <= |messages| && lines != []
      invariant lines + ListLines(messages[i..], i + 1) == all
    {
      var m := messages[i];
      assert messages[i..][1..] == messages[i + 1..];
      assert lines + (MessageLines(m, i + 1) + ListLines(messages[i + 1..], i + 2))
             == lines + MessageLines(m, i + 1) + ListLines(messages[i + 1..], i + 2);
      lines := lines + MessageLines(m, i + 1);
      i := i + 1;
    }
    assert messages[i..] == [] && ListLines([], i + 1) == [];
    assert lines == lines + ListLines(messages[i..], i + 1);
    r := JoinLines(lines);
  }

  // ---------------------------------------------------------------- the printed text as blocks

  /** Blocks behind a first one, each with a blank line in front of it. */
  function Paragraphs(blocks: seq<string>): string {
    if blocks == [] then "" else "\n\n" + blocks[0] + Paragraphs(blocks[1..])
  }

  function MessageBlocks(m: PromptMessage, index: nat): seq<string>
    requires m.lines != [] && m.meta != []
  {
    ["### Message " + Digits(index), JoinLines(m.meta), "#### Text", Quote(m.lines)]
  }

  function ListBlocks(messages: seq<PromptMessage>, index: nat): seq<string>
    requires forall i :: 0 <= i < |messages| ==> messages[i].lines != [] && messages[i].meta != []
  {
    if messages == [] then [] else MessageBlocks(messages[0], index) + ListBlocks(messages[1..], index + 1)
  }

  lemma {:induction false} ContinuedAppend(xs: seq<string>, ys: seq<string>)
    ensures Continued(xs + ys) == Continued(xs) + Continued(ys)
  {
    if xs == [] {
      assert xs + ys == ys;
    } else {
      assert (xs + ys)[1..] == xs[1..] + ys;
      ContinuedAppend(xs[1..], ys);
    }
  }

  lemma {:induction false} ParagraphsAppend(xs: seq<string>, ys: seq<string>)
    ensures Paragraphs(xs + ys) == Paragraphs(xs) + Paragraphs(ys)
  {
    if xs == [] {
      assert xs + ys == ys;
    } else {
      assert (xs + ys)[1..] == xs[1..] + ys;
      ParagraphsAppend(xs[1..], ys);
    }
  }

  /** A line behind an empty one is a paragraph. */
  lemma EmptyThenLine(x: string)
    ensures Continued(["", x]) == Paragraphs([x])
  {
    assert ["", x][1..] == [x] && [x][1..] == [];
    assert Continued([x]) == "\n" + x;
    assert Paragraphs([x]) == "\n\n" + x;
  }

  lemma EmptyThenLines(xs: seq<string>)
    requires xs != []
    ensures Continued([""] + xs) == Paragraphs([JoinLines(xs)])
  {
    assert ([""] + xs)[1..] == xs;
    assert [JoinLines(xs)][1..] == [];
    assert Continued([""] + xs) == "\n" + Continued(xs);
    assert Continued(xs) == "\n" + JoinLines(xs);
    assert Paragraphs([JoinLines(xs)]) == "\n\n" + JoinLines(xs);
  }

  lemma MessageIsBlocks(m: PromptMessage, index: nat)
    requires m.lines != [] && m.meta != []
    ensures Continued(MessageLines(m, index)) == Paragraphs(MessageBlocks(m, index))
  {
    var head, text, quote := MessageHead(index), TEXT_HEAD, Quote(m.lines);
    var meta := JoinLines(m.meta);
    assert MessageLines(m, index) == ["", head] + (([""] + m.meta) + (["", text] + ["", quote]));
    ContinuedAppend(["", head], ([""] + m.meta) + (["", text] + ["", quote]));
    ContinuedAppend([""] + m.meta, ["", text] + ["", quote]);
    ContinuedAppend(["", text], ["", quote]);
    EmptyThenLine(head);
    EmptyThenLines(m.meta);
    EmptyThenLine(text);
    EmptyThenLine(quote);
    assert MessageBlocks(m, index) == [head] + ([meta] + ([text] + [quote]));
    ParagraphsAppend([head], [meta] + ([text] + [quote]));
    ParagraphsAppend([meta], [text] + [quote]);
    ParagraphsAppend([text], [quote]);
  }

  lemma {:induction false} ListIsBlocks(messages: seq<PromptMessage>, index: nat)
    requires forall i :: 0 <= i < |messages| ==> messages[i].lines != [] && messages[i].meta != []
    ensures Continued(ListLines(messages, index)) == Paragraphs(ListBlocks(messages, index))
    decreases |messages|
  {
    if messages != [] {
      MessageIsBlocks(messages[0], index);
      ListIsBlocks(messages[1..], index + 1);
      ContinuedAppend(MessageLines(messages[0], index), ListLines(messages[1..], index + 1));
      ParagraphsAppend(MessageBlocks(messages[0], index), ListBlocks(messages[1..], index + 1));
    }
  }

  /** The blocks of the message list, behind its heading. */
  function Blocks(messages: seq<PromptMessage>): seq<string>
    requires forall i :: 0 <= i < |messages| ==> messages[i].lines != [] && messages[i].meta != []
  {
    [MESSAGES_HEAD, INTRODUCTION] + if messages == [] then [NO_MESSAGES] else ListBlocks(messages, 1)
  }

  lemma SectionIsBlocks(messages: seq<PromptMessage>)
    requires forall i :: 0 <= i < |messages| ==> messages[i].lines != [] && messages[i].meta != []
    ensures "\n\n" + MessagesSection(messages) == Paragraphs(Blocks(messages))
  {
    var tail := if messages == [] then ["", NO_MESSAGES] else ListLines(messages, 1);
    var blocks := if messages == [] then [NO_MESSAGES] else ListBlocks(messages, 1);
    if messages == [] {
      EmptyThenLine(NO_MESSAGES);
    } else {
      ListIsBlocks(messages, 1);
    }
    HeadAndIntroduction(MESSAGES_HEAD, INTRODUCTION, tail, blocks);
  }

  lemma HeadAndIntroduction(head: string, introduction: string, tail: seq<string>, blocks: seq<string>)
    requires Continued(tail) == Paragraphs(blocks)
    ensures "\n\n" + JoinLines([head, "", introduction] + tail) == Paragraphs([head, introduction] + blocks)
  {
    assert ([head, "", introduction] + tail)[1..] == ["", introduction] + tail;
    ContinuedAppend(["", introduction], tail);
    EmptyThenLine(introduction);
    assert [head, introduction] + blocks == [head] + ([introduction] + blocks);
    ParagraphsAppend([head], [introduction] + blocks);
    ParagraphsAppend([introduction], blocks);
    assert [head][1..] == [];
    assert Paragraphs([head]) == "\n\n" + head;
  }

  // ---------------------------------------------------------------- which blocks can end with a title

  /** The last character of a JSON value on one line. */
  predicate EndsLikeJson(line: string) {
    line != [] && line[|line| - 1] in "\"]}0123456789elyN"
  }

  predicate MetaLine(line: string) {
    OneLine(line) && EndsLikeJson(line)
  }

  /** A message as the printer gets it: at least its id as metadata, and the lines `splitlines` returns. */
  ghost predicate WellFormed(m: PromptMessage) {
    && m.lines != [] && AllOneLine(m.lines)
    && m.meta != [] && forall i :: 0 <= i < |m.meta| ==> MetaLine(m.meta[i])
  }

  ghost predicate AllWellFormed(messages: seq<PromptMessage>) {
    forall i :: 0 <= i < |messages| ==> WellFormed(messages[i])
  }

  /** The two sections printed behind the messages. */
  predicate IsLaterSection(heading: string) {
    heading == RESOURCES || heading == CONTEXT_ACCESS
  }

  lemma LaterTitle(heading: string)
    requires IsLaterSection(heading)
    ensures OneLine(heading) && |Title(heading)| >= 12 && Title(heading)[|Title(heading)| - 1] == 's'
  {
    if heading == RESOURCES {
      assert Title(heading) == "## Resources";
    } else {
      assert Title(heading) == "## Context Access";
    }
  }

  lemma OtherLastChar(s: string, title: string)
    requires s != [] && title != [] && s[|s| - 1] != title[|title| - 1]
    ensures !EndsWith(s, title)
  {
    if |title| <= |s| {
      assert s[|s| - |title|..][|title| - 1] == s[|s| - 1];
    }
  }

  lemma OneLineIsCompact(s: string)
    requires s != [] && OneLine(s)
    ensures Compact(s)
  {
  }

  lemma {:induction false} MetaBlock(meta: seq<string>)
    requires meta != [] && forall i :: 0 <= i < |meta| ==> MetaLine(meta[i])
    ensures Compact(JoinLines(meta)) && EndsLikeJson(JoinLines(meta)) && JoinLines(meta)[0] != '\n'
    decreases |meta|
  {
    OneLineIsCompact(meta[0]);
    if |meta| == 1 {
      assert JoinLines(meta) == meta[0];
    } else {
      MetaBlock(meta[1..]);
      assert JoinLines(meta) == meta[0] + "\n" + JoinLines(meta[1..]);
    }
  }

  lemma HeadBlock(index: nat)
    ensures Compact(MessageHead(index)) && '0' <= MessageHead(index)[|MessageHead(index)| - 1] <= '9' && MessageHead(index)[0] == '#'
  {
    var digits := Digits(index);
    assert OneLine("### Message ") && OneLine(digits);
    OneLineIsCompact(MessageHead(index));
  }

  /** The message's own last line that could be taken for the section's title. */
  predicate Hides(m: PromptMessage, heading: string)
    requires m.lines != []
  {
    EndsWith(m.lines[|m.lines| - 1], Title(heading))
  }

  ghost predicate SomeHides(messages: seq<PromptMessage>, heading: string) {
    exists i :: 0 <= i < |messages| && messages[i].lines != [] && Hides(messages[i], heading)
  }

  lemma TextHeadBlock(title: string)
    requires title != [] && title[|title| - 1] == 's'
    ensures !EndsWith(TEXT_HEAD, title)
  {
    OtherLastChar(TEXT_HEAD, title);
  }

  /** Of one message's blocks only the quoted text can end with the title. */
  lemma MessageBlocksEnd(m: PromptMessage, index: nat, heading: string)
    requires WellFormed(m) && IsLaterSection(heading)
    ensures var title := Title(heading);
            && !EndsWith(MessageHead(index), title) && !EndsWith(JoinLines(m.meta), title) && !EndsWith(TEXT_HEAD, title)
            && (EndsWith(Quote(m.lines), title) <==> Hides(m, heading))
  {
    var title := Title(heading);
    LaterTitle(heading);
    TitleIsOneLine(heading);
    HeadBlock(index);
    MetaBlock(m.meta);
    TextHeadBlock(title);
    OtherLastChar(MessageHead(index), title);
    OtherLastChar(JoinLines(m.meta), title);
    QuoteEndsLikeLastLine(m.lines, title);
  }

  lemma MessageBlocksCompact(m: PromptMessage, index: nat)
    requires WellFormed(m)
    ensures AllCompact(MessageBlocks(m, index))
  {
    HeadBlock(index);
    MetaBlock(m.meta);
    OneLineIsCompact(TEXT_HEAD);
    QuoteIsCompact(m.lines);
  }

  lemma {:induction false} StackAppend(xs: seq<string>, ys: seq<string>, rest: string)
    ensures Stack(xs + ys, rest) == Stack(xs, Stack(ys, rest))
  {
    if xs == [] {
      assert xs + ys == ys;
    } else {
      assert (xs + ys)[1..] == xs[1..] + ys;
      StackAppend(xs[1..], ys, rest);
    }
  }

  lemma {:induction false} EndsAppend(xs: seq<string>, ys: seq<string>, title: string)
    ensures SomeEnds(xs + ys, title) <==> SomeEnds(xs, title) || SomeEnds(ys, title)
  {
    if xs == [] {
      assert xs + ys == ys;
    } else {
      assert (xs + ys)[1..] == xs[1..] + ys;
      EndsAppend(xs[1..], ys, title);
    }
  }

  lemma {:induction false} GuardedAppend(xs: seq<string>, ys: seq<string>, rest: string, title: string)
    requires Guarded(xs, Stack(ys, rest), title) && Guarded(ys, rest, title)
    ensures Guarded(xs + ys, rest, title)
  {
    if xs == [] {
      assert xs + ys == ys;
    } else {
      assert (xs + ys)[1..] == xs[1..] + ys;
      StackAppend(xs[1..], ys, rest);
      GuardedAppend(xs[1..], ys, rest, title);
    }
  }

  lemma FourBlocks(a: string, b: string, c: string, d: string, rest: string, title: string)
    requires !EndsWith(a, title) && !EndsWith(b, title) && !EndsWith(c, title) && StartsPlain(rest)
    ensures SomeEnds([a, b, c, d], title) <==> EndsWith(d, title)
    ensures Guarded([a, b, c, d], rest, title)
  {
    assert [a, b, c, d][1..] == [b, c, d] && [b, c, d][1..] == [c, d] && [c, d][1..] == [d] && [d][1..] == [];
    assert SomeEnds([d], title) <==> EndsWith(d, title);
    assert SomeEnds([c, d], title) <==> EndsWith(d, title);
    assert SomeEnds([b, c, d], title) <==> EndsWith(d, title);
    assert Guarded([d], rest, title);
    assert Guarded([c, d], rest, title);
    assert Guarded([b, c, d], rest, title);
  }

  lemma MessageGuard(m: PromptMessage, index: nat, heading: string, rest: string)
    requires WellFormed(m) && IsLaterSection(heading) && StartsPlain(rest)
    ensures AllCompact(MessageBlocks(m, index)) && Guarded(MessageBlocks(m, index), rest, Title(heading))
    ensures SomeEnds(MessageBlocks(m, index), Title(heading)) <==> Hides(m, heading)
  {
    MessageBlocksCompact(m, index);
    MessageBlocksEnd(m, index, heading);
    FourBlocks(MessageHead(index), JoinLines(m.meta), TEXT_HEAD, Quote(m.lines), rest, Title(heading));
  }

  lemma CompactAppend(xs: seq<string>, ys: seq<string>)
    requires AllCompact(xs) && AllCompact(ys)
    ensures AllCompact(xs + ys)
  {
  }

  lemma SomeHidesFirst(messages: seq<PromptMessage>, heading: string)
    requires messages != [] && messages[0].lines != []
    ensures SomeHides(messages, heading) <==> Hides(messages[0], heading) || SomeHides(messages[1..], heading)
  {
    if SomeHides(messages, heading) {
      var i :| 0 <= i < |messages| && messages[i].lines != [] && Hides(messages[i], heading);
      assert i > 0 ==> messages[1..][i - 1] == messages[i];
    }
    if SomeHides(messages[1..], heading) {
      var i :| 0 <= i < |messages[1..]| && messages[1..][i].lines != [] && Hides(messages[1..][i], heading);
      assert messages[i + 1] == messages[1..][i];
    }
  }

  lemma ListStartsPlain(messages: seq<PromptMessage>, index: nat, rest: string)
    requires AllWellFormed(messages) && StartsPlain(rest)
    ensures StartsPlain(Stack(ListBlocks(messages, index), rest))
  {
    if messages != [] {
      HeadBlock(index);
      var blocks := ListBlocks(messages, index);
      assert blocks[0] == MessageHead(index);
      assert Stack(blocks, rest)[0] == MessageHead(index)[0];
    }
  }

  lemma {:induction false} ListGuard(messages: seq<PromptMessage>, index: nat, heading: string, rest: string)
    requires AllWellFormed(messages) && IsLaterSection(heading) && StartsPlain(rest)
    ensures AllCompact(ListBlocks(messages, index)) && Guarded(ListBlocks(messages, index), rest, Title(heading))
    ensures SomeEnds(ListBlocks(messages, index), Title(heading)) <==> SomeHides(messages, heading)
    decreases |messages|
  {
    if messages != [] {
      var first, more := MessageBlocks(messages[0], index), ListBlocks(messages[1..], index + 1);
      ListGuard(messages[1..], index + 1, heading, rest);
      ListStartsPlain(messages[1..], index + 1, rest);
      MessageGuard(messages[0], index, heading, Stack(more, rest));
      CompactAppend(first, more);
      GuardedAppend(first, more, rest, Title(heading));
      EndsAppend(first, more, Title(heading));
      SomeHidesFirst(messages, heading);
    }
  }

  // ---------------------------------------------------------------- the whole prompt

  /** `"\n\n".join(sections)` */
  function JoinSections(sections: seq<string>): string
    requires sections != []
  {
    sections[0] + Paragraphs(sections[1..])
  }

  /** The resources section, printed only when there are resources. */
  function ResourceSections(resources: Option<string>): seq<string> {
    match resources
    case None => []
    case Some(json) => [Section(RESOURCES, json)]
  }

  function ResourceBlocks(resources: Option<string>): seq<string> {
    match resources
    case None => []
    case Some(json) => [Title(RESOURCES), Body(json)]
  }

  /** Indented JSON: no blank line, and it neither starts nor ends with a line break. */
  predicate JsonText(json: string) {
    Compact(json) && json[0] != '\n'
  }

  /** Only the context access is printed behind the resources. */
  predicate MayPrecede(resources: Option<string>, heading: string) {
    resources.Some? ==> JsonText(resources.value) && heading == CONTEXT_ACCESS
  }

  lemma {:induction false} ParagraphsAreStacked(blocks: seq<string>, rest: string)
    ensures Paragraphs(blocks) + "\n\n" + rest == "\n\n" + Stack(blocks, rest)
  {
    if blocks != [] {
      ParagraphsAreStacked(blocks[1..], rest);
      PrependParagraph(blocks[0], Paragraphs(blocks[1..]), rest, Stack(blocks[1..], rest));
    }
  }

  lemma PrependParagraph(first: string, more: string, rest: string, stacked: string)
    requires more + "\n\n" + rest == "\n\n" + stacked
    ensures ("\n\n" + first + more) + "\n\n" + rest == "\n\n" + (first + "\n\n" + stacked)
  {
    assert ("\n\n" + first + more) + "\n\n" + rest == "\n\n" + first + (more + "\n\n" + rest);
  }

  lemma ResourcesAreBlocks(resources: Option<string>)
    ensures Paragraphs(ResourceSections(resources)) == Paragraphs(ResourceBlocks(resources))
  {
    if resources.Some? {
      TwoParagraphs(Title(RESOURCES), Body(resources.value));
    }
  }

  lemma TwoParagraphs(title: string, body: string)
    ensures Paragraphs([title + "\n\n" + body]) == Paragraphs([title, body])
  {
    assert [title, body][1..] == [body] && [body][1..] == [] && [title + "\n\n" + body][1..] == [];
    assert Paragraphs([body]) == "\n\n" + body;
  }

  /** The prompt is a lead, the blocks before the section, the section, and the rest. */
  lemma PromptIsStacked(lead: seq<string>, messages: seq<PromptMessage>, resources: Option<string>, section: string, more: seq<string>)
    requires lead != [] && forall i :: 0 <= i < |messages| ==> messages[i].lines != [] && messages[i].meta != []
    ensures JoinSections(lead + [MessagesSection(messages)] + ResourceSections(resources) + [section] + more)
            == (JoinSections(lead) + "\n\n") + Stack(Blocks(messages) + ResourceBlocks(resources), section + Paragraphs(more))
  {
    var blocks := Blocks(messages) + ResourceBlocks(resources);
    var rest := section + Paragraphs(more);
    SplitPrompt(lead, MessagesSection(messages), ResourceSections(resources), section, more);
    SectionIsBlocks(messages);
    ResourcesAreBlocks(resources);
    ParagraphsAppend(Blocks(messages), ResourceBlocks(resources));
    ParagraphsAreStacked(blocks, rest);
    Assemble(JoinSections(lead), Paragraphs(Blocks(messages)), Paragraphs(ResourceBlocks(resources)), rest, Stack(blocks, rest));
  }

  lemma SplitPrompt(lead: seq<string>, list: string, extra: seq<string>, section: string, more: seq<string>)
    requires lead != []
    ensures JoinSections(lead + [list] + extra + [section] + more)
            == JoinSections(lead) + (("\n\n" + list) + (Paragraphs(extra) + ("\n\n" + (section + Paragraphs(more)))))
  {
    var tail := [list] + (extra + ([section] + more));
    assert (lead + [list] + extra + [section] + more)[1..] == lead[1..] + tail;
    ParagraphsAppend(lead[1..], tail);
    FirstParagraph(list, extra + ([section] + more));
    ParagraphsAppend(extra, [section] + more);
    FirstParagraph(section, more);
    assert lead[0] + (Paragraphs(lead[1..]) + Paragraphs(tail)) == JoinSections(lead) + Paragraphs(tail);
  }

  lemma FirstParagraph(x: string, xs: seq<string>)
    ensures Paragraphs([x] + xs) == ("\n\n" + x) + Paragraphs(xs)
    ensures "\n\n" + (x + Paragraphs(xs)) == ("\n\n" + x) + Paragraphs(xs)
  {
    assert ([x] + xs)[1..] == xs;
  }

  lemma Assemble(lead: string, a: string, b: string, rest: string, stacked: string)
    requires a + b + "\n\n" + rest == "\n\n" + stacked
    ensures lead + (a + (b + ("\n\n" + rest))) == (lead + "\n\n") + stacked
  {
    assert a + (b + ("\n\n" + rest)) == a + b + "\n\n" + rest;
  }

  /** A marker that starts in the lead ends there: the title holds no line break. */
  lemma LeadIsMarkerFree(lead: string, rest: string, heading: string)
    requires OneLine(heading) && Find(lead + "\n\n", Marker(heading), 0).None?
    ensures NoneIn((lead + "\n\n") + rest, Marker(heading), 0, |lead + "\n\n"|)
  {
    var pre, marker, title := lead + "\n\n", Marker(heading), Title(heading);
    TitleIsOneLine(heading);
    forall i | 0 <= i < |pre| ensures !OccursAt(pre + rest, marker, i) {
      if OccursAt(pre + rest, marker, i) {
        MarkerChars(pre + rest, title, i);
        assert (pre + rest)[|lead|] == '\n' && (pre + rest)[|lead| + 1] == '\n';
        assert (pre + rest)[i] == title[0];
        if i + |title| > |lead| {
          BreakInside(pre + rest, title, i, |lead|);
        }
        assert (pre + rest)[i..i + |marker|] == pre[i..i + |marker|];
        FindIsFirst(pre, marker, 0, i);
      }
    }
  }

  lemma {:induction false} NoEndIsGuarded(blocks: seq<string>, rest: string, title: string)
    requires !SomeEnds(blocks, title)
    ensures Guarded(blocks, rest, title)
  {
    if blocks != [] {
      NoEndIsGuarded(blocks[1..], rest, title);
    }
  }

  lemma TwoEnds(a: string, b: string, title: string)
    requires !EndsWith(a, title) && !EndsWith(b, title)
    ensures !SomeEnds([a, b], title)
  {
    assert [a, b][1..] == [b] && [b][1..] == [];
    assert !SomeEnds([b], title);
  }

  lemma BodyIsCompact(json: string)
    requires JsonText(json)
    ensures Compact(Body(json)) && Body(json)[|Body(json)| - 1] == '`'
  {
    var ticks := Ticks(FenceWidth(json));
    FencedIsCompact(ticks, "json", json);
    assert ticks + JSON_TAG + json + "\n" + ticks == ticks + "json" + "\n" + json + "\n" + ticks;
  }

  lemma FencedIsCompact(ticks: string, tag: string, json: string)
    requires JsonText(json) && ticks != [] && OneLine(ticks) && OneLine(tag)
    ensures Compact(ticks + tag + "\n" + json + "\n" + ticks)
  {
    var opening := ticks + tag;
    var whole := opening + "\n" + json + "\n" + ticks;
    assert forall i :: 0 <= i < |opening| ==> whole[i] == opening[i];
    assert forall i :: 0 <= i < |opening| ==> opening[i] != '\n';
    assert forall i :: 0 <= i < |json| ==> whole[|opening| + 1 + i] == json[i];
    assert forall i :: 0 <= i < |ticks| ==> whole[|opening| + |json| + 2 + i] == ticks[i];
    assert whole[|opening| + |json| + 1] == '\n';
  }

  lemma ResourcesGuard(resources: Option<string>, heading: string, rest: string)
    requires MayPrecede(resources, heading) && StartsPlain(rest)
    ensures var blocks := ResourceBlocks(resources);
            && AllCompact(blocks) && !SomeEnds(blocks, Title(heading)) && Guarded(blocks, rest, Title(heading))
            && StartsPlain(Stack(blocks, rest))
  {
    if resources.Some? {
      var title, body := Title(RESOURCES), Body(resources.value);
      assert IsLaterSection(RESOURCES) && IsLaterSection(heading);
      LaterTitle(RESOURCES);
      LaterTitle(heading);
      TitleIsOneLine(RESOURCES);
      OneLineIsCompact(title);
      BodyIsCompact(resources.value);
      OtherLastChar(body, Title(heading));
      assert |title| == 12 && |Title(heading)| == 17;
      TwoEnds(title, body, Title(heading));
      NoEndIsGuarded([title, body], rest, Title(heading));
      assert Stack([title, body], rest)[0] == title[0];
    }
  }

  lemma JoinedOneLine(a: string, b: string)
    requires OneLine(a) && OneLine(b) && b != []
    ensures OneLine(a + b) && (a + b)[|a + b| - 1] == b[|b| - 1]
  {
  }

  lemma IntroductionIsOneLine()
    ensures OneLine(INTRODUCTION) && INTRODUCTION[|INTRODUCTION| - 1] == '.'
  {
    JoinedOneLine("below are Feishu ", "conversation data.");
    JoinedOneLine("The metadata and quoted text ", "below are Feishu " + "conversation data.");
  }

  lemma TwoLinesGuard(a: string, b: string, rest: string, title: string)
    requires a != [] && b != [] && OneLine(a) && OneLine(b) && !EndsWith(a, title) && !EndsWith(b, title)
    ensures AllCompact([a, b]) && !SomeEnds([a, b], title) && Guarded([a, b], rest, title)
  {
    OneLineIsCompact(a);
    OneLineIsCompact(b);
    TwoEnds(a, b, title);
    NoEndIsGuarded([a, b], rest, title);
  }

  lemma HeadGuard(heading: string, rest: string)
    requires IsLaterSection(heading)
    ensures var blocks := [MESSAGES_HEAD, INTRODUCTION];
            AllCompact(blocks) && !SomeEnds(blocks, Title(heading)) && Guarded(blocks, rest, Title(heading))
  {
    LaterTitle(heading);
    IntroductionIsOneLine();
    assert |MESSAGES_HEAD| == 11 && OneLine(MESSAGES_HEAD);
    OtherLastChar(INTRODUCTION, Title(heading));
    TwoLinesGuard(MESSAGES_HEAD, INTRODUCTION, rest, Title(heading));
  }

  lemma EmptyListGuard(heading: string, rest: string)
    requires IsLaterSection(heading)
    ensures var blocks := [NO_MESSAGES];
            AllCompact(blocks) && !SomeEnds(blocks, Title(heading)) && Guarded(blocks, rest, Title(heading))
  {
    LaterTitle(heading);
    var none := NO_MESSAGES;
    OneLineIsCompact(none);
    OtherLastChar(none, Title(heading));
    assert [none][1..] == [];
    NoEndIsGuarded([none], rest, Title(heading));
  }

  lemma BlocksGuard(messages: seq<PromptMessage>, heading: string, rest: string)
    requires AllWellFormed(messages) && IsLaterSection(heading) && StartsPlain(rest)
    ensures AllCompact(Blocks(messages)) && Guarded(Blocks(messages), rest, Title(heading))
    ensures SomeEnds(Blocks(messages), Title(heading)) <==> SomeHides(messages, heading)
  {
    var head := [MESSAGES_HEAD, INTRODUCTION];
    var list := if messages == [] then [NO_MESSAGES] else ListBlocks(messages, 1);
    if messages == [] {
      EmptyListGuard(heading, rest);
    } else {
      ListGuard(messages, 1, heading, rest);
    }
    HeadGuard(heading, Stack(list, rest));
    CompactAppend(head, list);
    GuardedAppend(head, list, rest, Title(heading));
    EndsAppend(head, list, Title(heading));
  }

  /**
   For every prompt whose sections before the messages hold no marker of the heading, every list of
   messages, with or without resources in between: the printed section is read back exactly when no
   message's last line ends with its title. Otherwise the parser reports an invalid section.
   */
  lemma SectionIsReadExactly(
    lead: seq<string>, messages: seq<PromptMessage>, resources: Option<string>, heading: string, text: string, more: seq<string>)
    requires lead != [] && Find(JoinSections(lead) + "\n\n", Marker(heading), 0).None?
    requires AllWellFormed(messages) && IsLaterSection(heading) && MayPrecede(resources, heading)
    ensures var prompt := JoinSections(
                            lead + [MessagesSection(messages)] + ResourceSections(resources) + [Section(heading, text)] + more);
            ParseSection(prompt, heading) == if SomeHides(messages, heading) then InvalidSection else Found(text)
  {
    var blocks, extra := Blocks(messages), ResourceBlocks(resources);
    var after := Paragraphs(more);
    var rest := Section(heading, text) + after;
    SectionStarts(heading, text, after);
    LaterTitle(heading);
    ResourcesGuard(resources, heading, rest);
    BlocksGuard(messages, heading, Stack(extra, rest));
    CompactAppend(blocks, extra);
    GuardedAppend(blocks, extra, rest, Title(heading));
    EndsAppend(blocks, extra, Title(heading));
    PromptIsStacked(lead, messages, resources, Section(heading, text), more);
    LeadIsMarkerFree(JoinSections(lead), Stack(blocks + extra, rest), heading);
    SectionBehindBlocksIsReadExactly(JoinSections(lead) + "\n\n", blocks + extra, heading, text, after);
  }
}
