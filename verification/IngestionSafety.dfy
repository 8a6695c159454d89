/**
 What the checkpoint protocol promises: whatever cuts a tick short, a window is only completed once
 every item the source holds for it has been handled.
 */
module IngestionSafety {
  import opened Base
  import opened Framing
  import opened IngestionModel

  // ---------------------------------------------------------------- a stable source

  /** The items of each window, and the position in them that each page token stands for. */
  datatype Source = Source(items: (int, int) -> seq<Raw>, offset: (int, int, Token) -> nat)

  ghost function Offset(src: Source, start: int, end: int, token: Option<Token>): nat {
    match token
    case None => 0
    case Some(t) => src.offset(start, end, t)
  }

  /** Two fetches of one item: they may differ only in what the replay identity leaves out. */
  ghost predicate SameReplay(a: Raw, b: Raw) {
    a.sentAt == b.sentAt && a.messageId == b.messageId && a.identity == b.identity
  }

  ghost predicate Agree(xs: seq<Raw>, ys: seq<Raw>) {
    |xs| == |ys| && forall i :: 0 <= i < |xs| ==> SameReplay(xs[i], ys[i])
  }

  /**
   The provider's contract: a page is the slice that starts at its token, its own token stands for the
   slice's end, and a page that says there is no more reaches the end of the window.
   */
  ghost predicate HonestPage(src: Source, q: Query, page: Page) {
    var all := src.items(q.start, q.end);
    var from := Offset(src, q.start, q.end, q.token);
    from <= |all| ==>
      && from + |page.items| <= |all|
      && Agree(page.items, all[from..from + |page.items|])
      && (!page.hasMore ==> from + |page.items| == |all|)
      && (!IsTerminal(page) ==> Offset(src, q.start, q.end, page.next) == from + |page.items|)
  }

  /** Every reply is a failure or an honest page. */
  ghost predicate HonestFetch(src: Source, fetch: Fetch) {
    forall n, q :: fetch(n, q).Fetched? ==> HonestPage(src, q, fetch(n, q).page)
  }

  ghost predicate HonestRun(src: Source, envs: seq<TickEnv>) {
    forall i :: 0 <= i < |envs| ==> HonestFetch(src, envs[i].fetch)
  }

  // ---------------------------------------------------------------- pages that end a drain early

  /** A query a drain can make, and a page that passes its size checks. */
  predicate Asked(q: Query) {
    1 <= q.pageSize <= PAGE_SIZE
  }

  predicate Accepted(q: Query, page: Page) {
    1 <= page.pageCount <= q.pageLimit && (|page.items| <= q.pageSize || q.pageSize == PAGE_SIZE)
  }

  /** Behind position `reach` the window holds only repetitions of items before it, if those are readable. */
  ghost predicate NothingNew(all: seq<Raw>, reach: nat) {
    reach <= |all|
    && (AllNormal(all[..reach]) ==>
          forall k :: reach <= k < |all| ==> all[k].identity.Some? && all[k].identity.value in IdentitySet(all[..reach]))
  }

  /**
   A page that claims more items and carries no token ends the drain as complete. It withholds an item
   if the window holds one behind the page that is no repetition.
   */
  ghost predicate Withholds(src: Source, q: Query, page: Page) {
    var all := src.items(q.start, q.end);
    var reach := Offset(src, q.start, q.end, q.token) + |page.items|;
    Asked(q) && Accepted(q, page) && page.hasMore && IsTerminal(page) && reach <= |all| && !NothingNew(all, reach)
  }

  ghost predicate NeverWithholds(src: Source, fetch: Fetch) {
    forall n, q :: fetch(n, q).Fetched? ==> !Withholds(src, q, fetch(n, q).page)
  }

  ghost predicate NoneWithholds(src: Source, envs: seq<TickEnv>) {
    forall i :: 0 <= i < |envs| ==> NeverWithholds(src, envs[i].fetch)
  }

  // ---------------------------------------------------------------- the drain

  /** What a drain that started at offset `from` of the window may return. */
  ghost predicate DrainedSlice(src: Source, w: Window, from: nat, out: DrainOutcome, withheld: bool) {
    var all := src.items(w.start, w.end);
    out.Drained? ==>
      && from + |out.items| <= |all|
      && Agree(out.items, all[from..from + |out.items|])
      && (out.complete && !withheld ==> NothingNew(all, from + |out.items|))
      && (!out.complete ==> Offset(src, w.start, w.end, out.token) == from + |out.items|)
  }

  lemma {:induction false} DrainFromReturnsSlice(config: Config, src: Source, w: Window, env: TickEnv, d: DrainState, from: nat)
    requires HonestFetch(src, env.fetch)
    requires from + |d.items| == Offset(src, w.start, w.end, d.token) <= |src.items(w.start, w.end)|
    requires Agree(d.items, src.items(w.start, w.end)[from..from + |d.items|])
    ensures DrainedSlice(src, w, from, DrainFrom(config, w, env, d), !NeverWithholds(src, env.fetch))
    decreases config.maxPages - d.pages
  {
    var all := src.items(w.start, w.end);
    if DrainCutOff(config, env, d).None? {
      var q := NextQuery(config, w, d);
      var reply := env.fetch(d.calls, q);
      if reply.Fetched? && PageWithinCaps(config, d, reply.page) {
        var page := reply.page;
        assert HonestPage(src, q, page);
        var items := d.items + page.items;
        assert Agree(items, all[from..from + |items|]);
        if !IsTerminal(page) && d.token != page.next && page.next.value !in d.seen {
          DrainFromReturnsSlice(config, src, w, env, AfterPage(d, page), from);
        }
      }
    }
  }

  /**
   The drain returns exactly the slice from the window's token up to the token it returns. When it
   reports completion, nothing new is left behind the slice unless a page withheld something.
   */
  lemma DrainReturnsSlice(config: Config, src: Source, w: Window, env: TickEnv)
    requires HonestFetch(src, env.fetch)
    requires Offset(src, w.start, w.end, w.token) <= |src.items(w.start, w.end)|
    ensures DrainedSlice(src, w, Offset(src, w.start, w.end, w.token), Drain(config, w, env), !NeverWithholds(src, env.fetch))
  {
    DrainFromReturnsSlice(config, src, w, env, DrainState([], w.token, {}, 0, 0), Offset(src, w.start, w.end, w.token));
  }

  /** How many times the drain calls the provider. */
  ghost function FetchCalls(config: Config, w: Window, env: TickEnv, d: DrainState): nat
    decreases config.maxPages - d.pages
  {
    if DrainCutOff(config, env, d).Some? then 0
    else
      var reply := env.fetch(d.calls, NextQuery(config, w, d));
      if reply.Fetched? && PageWithinCaps(config, d, reply.page) && !IsTerminal(reply.page)
         && d.token != reply.page.next && reply.page.next.value !in d.seen
      then 1 + FetchCalls(config, w, env, AfterPage(d, reply.page))
      else 1
  }

  /** Some reading of the clock was past the tick's deadline, or past the earlier one for further pages. */
  ghost predicate BudgetSpent(config: Config, env: TickEnv) {
    exists n :: env.drainClock(n) >= env.startedAt + config.budget || env.drainClock(n) >= FetchDeadline(config, env.startedAt)
  }

  /** Caps for every page source, honest or not, cyclic tokens included. */
  lemma {:induction false} DrainRespectsCaps(config: Config, w: Window, env: TickEnv, d: DrainState)
    requires d.pages <= config.maxPages && |d.items| <= config.maxMessages
    ensures FetchCalls(config, w, env, d) <= config.maxPages - d.pages
    ensures var out := DrainFrom(config, w, env, d);
            out.Drained? ==>
              && d.items <= out.items && |out.items| <= config.maxMessages && out.pages <= config.maxPages
              && (out.complete <==> out.reason.None?)
              && (out.reason == Some(PageCap) ==> out.pages == config.maxPages)
              && (out.reason == Some(MessageCap) ==> |out.items| == config.maxMessages)
              && (out.reason == Some(TickBudget) ==> BudgetSpent(config, env))
    decreases config.maxPages - d.pages
  {
    if DrainCutOff(config, env, d).None? {
      var reply := env.fetch(d.calls, NextQuery(config, w, d));
      if reply.Fetched? && PageWithinCaps(config, d, reply.page) && !IsTerminal(reply.page)
         && d.token != reply.page.next && reply.page.next.value !in d.seen {
        DrainRespectsCaps(config, w, env, AfterPage(d, reply.page));
      }
    }
  }

  // ---------------------------------------------------------------- sorting

  lemma {:induction false} InsertKeepsItems(x: Raw, s: seq<Raw>)
    ensures multiset(InsertByKey(x, s)) == multiset{x} + multiset(s)
  {
    if s != [] && !KeyLeq(x, s[0]) {
      assert s == [s[0]] + s[1..];
      InsertKeepsItems(x, s[1..]);
    }
  }

  lemma {:induction false} InsertKeepsOrder(x: Raw, s: seq<Raw>)
    requires SortedByKey(s)
    ensures SortedByKey(InsertByKey(x, s))
    ensures InsertByKey(x, s)[0] == x || (s != [] && InsertByKey(x, s)[0] == s[0])
  {
    if s != [] && !KeyLeq(x, s[0]) {
      InsertKeepsOrder(x, s[1..]);
      StringLeqTotal(x.messageId, s[0].messageId);
    }
  }

  lemma {:induction false} SortSorts(s: seq<Raw>)
    ensures multiset(SortRaws(s)) == multiset(s)
    ensures SortedByKey(SortRaws(s))
  {
    if s != [] {
      assert s == [s[0]] + s[1..];
      SortSorts(s[1..]);
      InsertKeepsItems(s[0], SortRaws(s[1..]));
      InsertKeepsOrder(s[0], SortRaws(s[1..]));
    }
  }

  function WithKey(s: seq<Raw>, sentAt: Option<int>, messageId: string): seq<Raw> {
    if s == [] then []
    else (if s[0].sentAt == sentAt && s[0].messageId == messageId then [s[0]] else []) + WithKey(s[1..], sentAt, messageId)
  }

  lemma {:induction false} StringLeqReflexive(s: string)
    ensures StringLeq(s, s)
  {
    if s != [] {
      StringLeqReflexive(s[1..]);
    }
  }

  lemma {:induction false} InsertIsStable(x: Raw, s: seq<Raw>, sentAt: Option<int>, messageId: string)
    ensures WithKey(InsertByKey(x, s), sentAt, messageId) == WithKey([x] + s, sentAt, messageId)
  {
    assert ([x] + s)[1..] == s;
    if s != [] && !KeyLeq(x, s[0]) {
      StringLeqReflexive(x.messageId);
      InsertIsStable(x, s[1..], sentAt, messageId);
      assert ([x] + s[1..])[1..] == s[1..];
      assert ([s[0]] + InsertByKey(x, s[1..]))[1..] == InsertByKey(x, s[1..]);
    }
  }

  /** Items with equal keys keep the order they were fetched in. */
  lemma {:induction false} SortIsStable(s: seq<Raw>, sentAt: Option<int>, messageId: string)
    ensures WithKey(SortRaws(s), sentAt, messageId) == WithKey(s, sentAt, messageId)
  {
    if s != [] {
      SortIsStable(s[1..], sentAt, messageId);
      InsertIsStable(s[0], SortRaws(s[1..]), sentAt, messageId);
      assert ([s[0]] + SortRaws(s[1..]))[1..] == SortRaws(s[1..]);
    }
  }

  lemma {:induction false} SortLeavesSortedAlone(s: seq<Raw>)
    requires SortedByKey(s)
    ensures SortRaws(s) == s
  {
    if s != [] {
      SortLeavesSortedAlone(s[1..]);
    }
  }

  lemma AgreeingSortedAgree(xs: seq<Raw>, ys: seq<Raw>)
    requires Agree(xs, ys) && SortedByKey(ys)
    ensures SortedByKey(xs)
  {
    forall i | 0 <= i < |xs| - 1 ensures KeyLeq(xs[i], xs[i + 1]) {
      assert SameReplay(xs[i], ys[i]) && SameReplay(xs[i + 1], ys[i + 1]);
    }
  }

  // ---------------------------------------------------------------- the processing cursor

  ghost predicate Covered(raws: seq<Raw>, handled: set<Encoded>) {
    forall i :: 0 <= i < |raws| ==> raws[i].identity.Some? && raws[i].identity.value in handled
  }

  ghost predicate AllIn(ids: seq<Encoded>, handled: set<Encoded>) {
    forall i :: 0 <= i < |ids| ==> ids[i] in handled
  }

  /** A saved cursor names a sequence of identities that have all been handled. */
  ghost predicate CursorSound(cursor: Cursor, handled: set<Encoded>) {
    cursor.completedItems == 0
    || exists ids: seq<Encoded> ::
         |ids| == cursor.completedItems && cursor.prefix == Sha256(FrameAll(ids)) && AllIn(ids, handled)
  }

  /** A resumed tick skips n items only if they are the n identities the cursor was made from. */
  lemma SkippedPrefixIsTheSavedOne(ordered: seq<Raw>, cursor: Cursor, saved: seq<Encoded>)
    requires |saved| == cursor.completedItems && cursor.prefix == Sha256(FrameAll(saved))
    ensures var n := ValidatedPrefix(ordered, Some(cursor));
            n != 0 ==> n == |saved| && AllNormal(ordered[..n]) && Identities(ordered[..n]) == saved
    ensures |saved| <= |ordered| && AllNormal(ordered[..|saved|]) && Identities(ordered[..|saved|]) == saved
            ==> ValidatedPrefix(ordered, Some(cursor)) == |saved|
  {
    var n := ValidatedPrefix(ordered, Some(cursor));
    if n != 0 {
      FramingIsInjective(Identities(ordered[..n]), saved);
    }
  }

  lemma SkippedItemsWereHandled(ordered: seq<Raw>, cursor: Option<Cursor>, handled: set<Encoded>)
    requires cursor.Some? ==> CursorSound(cursor.value, handled)
    ensures Covered(ordered[..ValidatedPrefix(ordered, cursor)], handled)
  {
    var n := ValidatedPrefix(ordered, cursor);
    if n != 0 {
      var saved: seq<Encoded> :| |saved| == n && cursor.value.prefix == Sha256(FrameAll(saved)) && AllIn(saved, handled);
      SkippedPrefixIsTheSavedOne(ordered, cursor.value, saved);
      var prefix := ordered[..n];
      forall i | 0 <= i < n ensures prefix[i].identity.Some? && prefix[i].identity.value in handled {
        assert Identities(prefix)[i] == prefix[i].identity.value;
        assert Identities(prefix)[i] == saved[i];
      }
    }
  }

  lemma SavedCursorIsSound(ordered: seq<Raw>, last: nat, handled: set<Encoded>)
    requires last <= |ordered| && Covered(ordered[..last], handled)
    ensures CursorSound(SavedCursor(ordered, last), handled)
    ensures SavedCursor(ordered, last).completedItems == last
  {
    var prefix := ordered[..last];
    assert AllNormal(prefix);
    var ids := Identities(prefix);
    assert |ids| == last && AllIn(ids, handled);
  }

  lemma HandledRange(ordered: seq<Raw>, first: nat, last: nat, before: set<Encoded>)
    requires first <= last <= |ordered|
    requires Covered(ordered[..first], before) && AllNormal(ordered[first..last])
    ensures Covered(ordered[..last], before + IdentitySet(ordered[first..last]))
  {
    var mid := ordered[first..last];
    forall i | 0 <= i < last
      ensures ordered[..last][i].identity.Some?
      ensures ordered[..last][i].identity.value in before + IdentitySet(mid)
    {
      if i < first {
        assert ordered[..first][i] == ordered[i];
      } else {
        assert mid[i - first] == ordered[i];
      }
    }
  }

  lemma CoveredUnderSorting(items: seq<Raw>, handled: set<Encoded>)
    requires Covered(SortRaws(items), handled)
    ensures Covered(items, handled)
  {
    SortSorts(items);
    forall i | 0 <= i < |items| ensures items[i].identity.Some? && items[i].identity.value in handled {
      assert items[i] in multiset(items);
      assert items[i] in SortRaws(items);
    }
  }

  lemma CoveredUnderReplay(xs: seq<Raw>, ys: seq<Raw>, handled: set<Encoded>)
    requires Agree(xs, ys) && Covered(xs, handled)
    ensures Covered(ys, handled)
  {
    forall i | 0 <= i < |ys| ensures ys[i].identity.Some? && ys[i].identity.value in handled {
      assert SameReplay(xs[i], ys[i]);
    }
  }

  // ---------------------------------------------------------------- the invariant of every tick

  /** What a saved backlog vouches for: everything before its token and its cursor was handled. */
  ghost predicate CheckpointSound(src: Source, s: SourceState) {
    match s.checkpoint.backlog
    case None => true
    case Some(b) =>
      var all := src.items(b.start, b.end);
      var from := Offset(src, b.start, b.end, b.token);
      && from <= |all|
      && Covered(all[..from], s.handled)
      && (b.cursor.Some? ==> CursorSound(b.cursor.value, s.handled))
  }

  ghost predicate WindowCovered(src: Source, w: Window, handled: set<Encoded>) {
    Covered(src.items(w.start, w.end), handled)
  }

  ghost predicate AllCovered(src: Source, done: seq<Window>, handled: set<Encoded>) {
    forall i :: 0 <= i < |done| ==> WindowCovered(src, done[i], handled)
  }

  lemma CursorStaysSound(cursor: Cursor, before: set<Encoded>, after: set<Encoded>)
    requires CursorSound(cursor, before) && before <= after
    ensures CursorSound(cursor, after)
  {
    if cursor.completedItems != 0 {
      var ids: seq<Encoded> :| |ids| == cursor.completedItems && cursor.prefix == Sha256(FrameAll(ids)) && AllIn(ids, before);
      assert AllIn(ids, after);
    }
  }

  /** The saved cursor, if there is one, vouches only for handled items. */
  ghost predicate CursorVouches(s: SourceState) {
    ResumeCursor(s.checkpoint).Some? ==> CursorSound(ResumeCursor(s.checkpoint).value, s.handled)
  }

  /** The batch part of a tick: every item up to the stop is covered, the skipped ones included. */
  lemma BatchCovers(config: Config, s: SourceState, env: TickEnv, items: seq<Raw>)
    requires CursorVouches(s)
    ensures |SortRaws(items)| == |items|
    ensures var ordered := SortRaws(items);
            var first := ValidatedPrefix(ordered, ResumeCursor(s.checkpoint));
            var (last, stop) := BatchStop(ordered, first, config, env, 0);
            Covered(ordered[..last], s.handled + IdentitySet(ordered[first..last]))
  {
    SortKeepsLength(items);
    var ordered := SortRaws(items);
    var first := ValidatedPrefix(ordered, ResumeCursor(s.checkpoint));
    SkippedItemsWereHandled(ordered, ResumeCursor(s.checkpoint), s.handled);
    HandledRange(ordered, first, BatchStop(ordered, first, config, env, 0).0, s.handled);
  }

  /** The checkpoint was kept, or has a backlog at the place where the window was opened. */
  predicate SamePlace(before: Checkpoint, w: Window, after: Checkpoint) {
    after == before
    || (after.backlog.Some? && after.lastSuccess == before.lastSuccess
        && Window(after.backlog.value.start, after.backlog.value.end, after.backlog.value.token) == w)
  }

  /**
   How a tick that drained its window ends: its batch is handled to the end and the drain is recorded,
   or the source stays where it was, with a cursor that vouches for what was handled.
   */
  lemma DrainedTickEnds(config: Config, s: SourceState, env: TickEnv, w: Window, out: DrainOutcome)
    requires CursorVouches(s) && w == OpenWindow(config.overlap, s.checkpoint, env.now)
    requires out == Drain(config, w, env) && out.Drained?
    ensures var t := Tick(config, s, env);
            && s.handled <= t.state.handled && CursorVouches(t.state)
            && (t.batchComplete ==>
                  && Covered(out.items, t.state.handled) && t.complete == out.complete
                  && t.state.checkpoint == RecordDrain(s.checkpoint, w, out.complete, out.token, None))
            && (!t.batchComplete ==> !t.complete && SamePlace(s.checkpoint, w, t.state.checkpoint))
  {
    BatchCovers(config, s, env, out.items);
    var ordered := SortRaws(out.items);
    var first := ValidatedPrefix(ordered, ResumeCursor(s.checkpoint));
    var (last, stop) := BatchStop(ordered, first, config, env, 0);
    var handled := s.handled + IdentitySet(ordered[first..last]);
    match stop
    case Raised =>
      if ResumeCursor(s.checkpoint).Some? {
        CursorStaysSound(ResumeCursor(s.checkpoint).value, s.handled, handled);
      }
    case OutOfTime => SavedCursorIsSound(ordered, last, handled);
    case Completed =>
      assert ordered[..last] == ordered;
      CoveredUnderSorting(out.items, handled);
  }

  /** Covering everything up to a position behind which nothing is new covers all. */
  lemma NothingNewIsCovered(all: seq<Raw>, reach: nat, handled: set<Encoded>)
    requires reach <= |all| && Covered(all[..reach], handled)
    ensures NothingNew(all, reach) ==> Covered(all, handled)
  {
    forall k | 0 <= k < |all| && NothingNew(all, reach) ensures all[k].identity.Some? && all[k].identity.value in handled {
      if k < reach {
        assert all[..reach][k] == all[k];
      } else {
        var i :| 0 <= i < reach && all[..reach][i].identity == all[k].identity;
        assert all[..reach][i].identity.value in handled;
      }
    }
  }

  /** Handling the drained slice covers the window up to the slice's end. */
  lemma SliceIsCovered(all: seq<Raw>, from: nat, reach: nat, items: seq<Raw>, before: set<Encoded>, after: set<Encoded>)
    requires from <= reach == from + |items| <= |all| && Agree(items, all[from..reach])
    requires Covered(all[..from], before) && before <= after && Covered(items, after)
    ensures Covered(all[..reach], after)
  {
    var slice := all[from..reach];
    CoveredUnderReplay(items, slice, after);
    assert all[..reach] == all[..from] + slice;
  }

  /** What handling the drained items to the end means for the window. */
  lemma CompletedBatchIsSafe(src: Source, w: Window, out: DrainOutcome, withheld: bool, before: set<Encoded>, after: set<Encoded>)
    requires out.Drained? && before <= after && Covered(out.items, after)
    requires var from := Offset(src, w.start, w.end, w.token);
             && from <= |src.items(w.start, w.end)| && Covered(src.items(w.start, w.end)[..from], before)
             && DrainedSlice(src, w, from, out, withheld)
    ensures out.complete && !withheld ==> WindowCovered(src, w, after)
    ensures !out.complete ==>
              var reach := Offset(src, w.start, w.end, out.token);
              reach <= |src.items(w.start, w.end)| && Covered(src.items(w.start, w.end)[..reach], after)
  {
    var all, from := src.items(w.start, w.end), Offset(src, w.start, w.end, w.token);
    SliceIsCovered(all, from, from + |out.items|, out.items, before, after);
    NothingNewIsCovered(all, from + |out.items|, after);
  }

  /**
   One tick keeps the checkpoint sound and never forgets a handled item, however it ends; and unless a
   page withholds an item it completes a window only if all of it has been handled.
   */
  lemma TickIsSafe(config: Config, src: Source, s: SourceState, env: TickEnv)
    requires CheckpointSound(src, s) && HonestFetch(src, env.fetch)
    ensures var t := Tick(config, s, env);
            && s.handled <= t.state.handled
            && CheckpointSound(src, t.state)
            && (t.complete && NeverWithholds(src, env.fetch) ==>
                  WindowCovered(src, OpenWindow(config.overlap, s.checkpoint, env.now), t.state.handled))
  {
    var w := OpenWindow(config.overlap, s.checkpoint, env.now);
    DrainReturnsSlice(config, src, w, env);
    var out := Drain(config, w, env);
    if out.Drained? {
      var t := Tick(config, s, env);
      DrainedTickEnds(config, s, env, w, out);
      if t.batchComplete {
        CompletedBatchIsSafe(src, w, out, !NeverWithholds(src, env.fetch), s.handled, t.state.handled);
      }
    }
  }

  lemma {:induction false} RunKeepsHandled(config: Config, src: Source, s: SourceState, envs: seq<TickEnv>)
    requires CheckpointSound(src, s) && HonestRun(src, envs)
    ensures s.handled <= Run(config, s, envs).handled
    ensures CheckpointSound(src, Run(config, s, envs))
    decreases |envs|
  {
    if envs != [] {
      TickIsSafe(config, src, s, envs[0]);
      RunKeepsHandled(config, src, Tick(config, s, envs[0]).state, envs[1..]);
    }
  }

  /**
   No message is skipped. Over any run of ticks, whatever the caps, clocks, fetch failures, token
   resets and processing failures do, every window that was completed had all its items handled. The
   condition on the pages is exact: see `IngestionWithholding`.
   */
  lemma {:induction false} NoMessageIsSkipped(config: Config, src: Source, s: SourceState, envs: seq<TickEnv>)
    requires CheckpointSound(src, s) && HonestRun(src, envs) && NoneWithholds(src, envs)
    ensures AllCovered(src, CompletedWindows(config, s, envs), Run(config, s, envs).handled)
    decreases |envs|
  {
    if envs != [] {
      var t := Tick(config, s, envs[0]);
      TickIsSafe(config, src, s, envs[0]);
      RunKeepsHandled(config, src, t.state, envs[1..]);
      NoMessageIsSkipped(config, src, t.state, envs[1..]);
      var rest := CompletedWindows(config, t.state, envs[1..]);
      var w := OpenWindow(config.overlap, s.checkpoint, envs[0].now);
      assert CompletedWindows(config, s, envs) == (if t.complete then [w] else []) + rest;
    }
  }
}
