/**
 How a drain and a tick end, in terms of the clocks, the pages and the items alone: when each of them
 stops early, why, and that nothing else stops them.
 */
module IngestionEndings {
  import opened Base
  import opened Framing
  import opened IngestionModel
  import opened IngestionSafety
  import opened IngestionProgress

  // ---------------------------------------------------------------- the batch

  function Deadline(config: Config, env: TickEnv): real {
    env.startedAt + config.budget
  }

  /** Item `k` of the pass was begun in time and handled. */
  ghost predicate HandledInTime(ordered: seq<Raw>, first: nat, config: Config, env: TickEnv, k: nat) {
    first + k < |ordered| && env.batchClock(k) < Deadline(config, env)
    && ordered[first + k].identity.Some? && !env.processingRaises(k)
  }

  /** Where the pass stops, counted from its first item: exactly at the first item late, unreadable or failing. */
  ghost predicate StopsAt(ordered: seq<Raw>, first: nat, config: Config, env: TickEnv, n: nat, stop: Stop) {
    && first + n <= |ordered|
    && (forall k :: 0 <= k < n ==> HandledInTime(ordered, first, config, env, k))
    && (stop == Completed <==> first + n == |ordered|)
    && (stop == OutOfTime <==> first + n < |ordered| && env.batchClock(n) >= Deadline(config, env))
    && (stop == Raised <==>
          first + n < |ordered| && env.batchClock(n) < Deadline(config, env)
          && (ordered[first + n].identity.None? || env.processingRaises(n)))
  }

  lemma {:induction false} PassStopsAt(ordered: seq<Raw>, first: nat, config: Config, env: TickEnv, calls: nat)
    requires first + calls <= |ordered| && forall k :: 0 <= k < calls ==> HandledInTime(ordered, first, config, env, k)
    ensures var (last, stop) := BatchStop(ordered, first + calls, config, env, calls);
            first + calls <= last && StopsAt(ordered, first, config, env, last - first, stop)
    decreases |ordered| - first - calls
  {
    if first + calls < |ordered| && HandledInTime(ordered, first, config, env, calls) {
      PassStopsAt(ordered, first, config, env, calls + 1);
    }
  }

  /** The same in terms of clocks and items, without the stop. */
  ghost predicate EndsLike(ordered: seq<Raw>, first: nat, config: Config, env: TickEnv, n: nat, raised: bool, finished: bool) {
    && first + n <= |ordered|
    && (forall k :: 0 <= k < n ==>
          && env.batchClock(k) < env.startedAt + config.budget
          && ordered[first + k].identity.Some? && !env.processingRaises(k))
    && (finished <==> first + n == |ordered|)
    && (!raised && !finished <==> first + n < |ordered| && env.batchClock(n) >= env.startedAt + config.budget)
    && (raised <==>
          first + n < |ordered| && env.batchClock(n) < env.startedAt + config.budget
          && (ordered[first + n].identity.None? || env.processingRaises(n)))
  }

  lemma PassReadsOut(ordered: seq<Raw>, first: nat, config: Config, env: TickEnv, n: nat, stop: Stop, raised: bool, finished: bool)
    requires StopsAt(ordered, first, config, env, n, stop) && (finished <==> stop == Completed) && (raised <==> stop == Raised)
    ensures EndsLike(ordered, first, config, env, n, raised, finished)
  {
    forall k | 0 <= k < n
      ensures env.batchClock(k) < env.startedAt + config.budget && ordered[first + k].identity.Some? && !env.processingRaises(k)
    {
      assert HandledInTime(ordered, first, config, env, k);
    }
  }

  /** A drained tick tells of its pass. */
  lemma TickTellsOfItsPass(config: Config, s: SourceState, env: TickEnv, w: Window, ordered: seq<Raw>, first: nat) returns (n: nat, stop: Stop)
    requires w == OpenWindow(config.overlap, s.checkpoint, env.now) && Drain(config, w, env).Drained?
    requires ordered == SortRaws(Drain(config, w, env).items) && first == ValidatedPrefix(ordered, ResumeCursor(s.checkpoint))
    ensures StopsAt(ordered, first, config, env, n, stop)
    ensures var t := Tick(config, s, env);
            && t.handledItems == n && (t.batchComplete <==> stop == Completed) && (t.raised <==> stop == Raised)
            && t.state.handled == s.handled + IdentitySet(ordered[first..first + n])
  {
    SortKeepsLength(Drain(config, w, env).items);
    PassStopsAt(ordered, first, config, env, 0);
    var r := BatchStop(ordered, first, config, env, 0);
    n, stop := r.0 - first, r.1;
  }

  /**
   How a tick that drained its window ends. It handles the ordered items behind the validated prefix one
   by one, beginning none at or after the deadline; it defers the batch exactly because the deadline is
   met with an item left, raises exactly at an item that is unreadable or fails, and finishes otherwise.
   */
  lemma TickEndsExactly(config: Config, s: SourceState, env: TickEnv, w: Window, ordered: seq<Raw>, first: nat)
    requires w == OpenWindow(config.overlap, s.checkpoint, env.now) && Drain(config, w, env).Drained?
    requires ordered == SortRaws(Drain(config, w, env).items) && first == ValidatedPrefix(ordered, ResumeCursor(s.checkpoint))
    ensures var t := Tick(config, s, env);
            var n := t.handledItems;
            && EndsLike(ordered, first, config, env, n, t.raised, t.batchComplete)
            && t.state.handled == s.handled + IdentitySet(ordered[first..first + n])
  {
    var n, stop := TickTellsOfItsPass(config, s, env, w, ordered, first);
    var t := Tick(config, s, env);
    PassReadsOut(ordered, first, config, env, n, stop, t.raised, t.batchComplete);
  }

  /** No item is begun at or after the deadline, whatever becomes of the drain. */
  lemma NoItemBeginsLate(config: Config, s: SourceState, env: TickEnv)
    ensures forall k :: 0 <= k < Tick(config, s, env).handledItems ==> env.batchClock(k) < env.startedAt + config.budget
  {
    var w := OpenWindow(config.overlap, s.checkpoint, env.now);
    var out := Drain(config, w, env);
    if out.Drained? {
      var ordered := SortRaws(out.items);
      TickEndsExactly(config, s, env, w, ordered, ValidatedPrefix(ordered, ResumeCursor(s.checkpoint)));
    }
  }

  /** What a tick leaves behind in each of its endings; a batch cut short keeps the window's token and counts what is done. */
  lemma TickLeavesExactly(config: Config, s: SourceState, env: TickEnv, w: Window, out: DrainOutcome)
    requires w == OpenWindow(config.overlap, s.checkpoint, env.now) && out == Drain(config, w, env) && out.Drained?
    ensures var t := Tick(config, s, env);
            var c := t.state.checkpoint;
            && (t.raised ==> c == s.checkpoint)
            && (t.complete <==> t.batchComplete && out.complete)
            && (t.complete ==> c == Checkpoint(Some(w.end), None))
            && (t.batchComplete && !t.complete ==>
                  c == Checkpoint(s.checkpoint.lastSuccess, Some(Backlog(w.start, w.end, out.token, None))))
            && (!t.raised && !t.batchComplete ==>
                  && c.lastSuccess == s.checkpoint.lastSuccess && c.backlog.Some?
                  && c.backlog.value.(cursor := None) == Backlog(w.start, w.end, w.token, None)
                  && c.backlog.value.cursor.Some?)
  {
    SortKeepsLength(out.items);
  }

  // ---------------------------------------------------------------- the order of a batch

  /** Unreadable times come first, then earlier ones before later ones, and equal times by message id. */
  lemma BatchIsChronological(items: seq<Raw>, i: nat)
    requires i + 1 < |SortRaws(items)|
    ensures var a, b := SortRaws(items)[i], SortRaws(items)[i + 1];
            && (a.sentAt.Some? ==> b.sentAt.Some? && a.sentAt.value <= b.sentAt.value)
            && (a.sentAt == b.sentAt ==> StringLeq(a.messageId, b.messageId))
  {
    SortSorts(items);
    assert KeyLeq(SortRaws(items)[i], SortRaws(items)[i + 1]);
  }

  // ---------------------------------------------------------------- the drain

  /** What is kept back of the budget for processing: half of it, but at most five seconds. */
  function Reserve(config: Config): real {
    if config.budget >= 10.0 then 5.0 else config.budget / 2.0
  }

  /** The clock allows no first page, or with items in hand no further one. */
  predicate TooLate(config: Config, env: TickEnv, items: seq<Raw>, call: nat) {
    env.drainClock(call) >= env.startedAt + config.budget
    || (items != [] && env.drainClock(call) >= env.startedAt + config.budget - Reserve(config))
  }

  /**
   A drain stops before its window's end exactly because the page cap is met, else because the message
   cap is, else because the clock read before the next page is too late.
   */
  lemma {:induction false} DrainStopsExactly(config: Config, w: Window, env: TickEnv, d: DrainState)
    requires d.pages <= config.maxPages && |d.items| <= config.maxMessages
    ensures var out := DrainFrom(config, w, env, d);
            out.Drained? && !out.complete ==>
              && (out.reason == Some(PageCap) <==> out.pages == config.maxPages)
              && (out.reason == Some(MessageCap) <==> out.pages < config.maxPages && |out.items| == config.maxMessages)
              && (out.reason == Some(TickBudget) <==> out.pages < config.maxPages && |out.items| < config.maxMessages)
              && (out.reason == Some(TickBudget) ==> TooLate(config, env, out.items, d.calls + FetchCalls(config, w, env, d)))
    decreases config.maxPages - d.pages
  {
    if DrainCutOff(config, env, d).None? {
      var reply := env.fetch(d.calls, NextQuery(config, w, d));
      if reply.Fetched? && PageWithinCaps(config, d, reply.page) && !IsTerminal(reply.page)
         && d.token != reply.page.next && reply.page.next.value !in d.seen {
        DrainStopsExactly(config, w, env, AfterPage(d, reply.page));
      }
    }
  }

  /** At a cap, and when the clock is too late, no further page is fetched: the drain keeps what it has. */
  lemma DrainStopsWhenItMust(config: Config, w: Window, env: TickEnv, d: DrainState)
    ensures d.pages >= config.maxPages ==> DrainFrom(config, w, env, d) == Drained(d.items, false, d.token, d.pages, Some(PageCap))
    ensures d.pages < config.maxPages && |d.items| >= config.maxMessages ==>
              DrainFrom(config, w, env, d) == Drained(d.items, false, d.token, d.pages, Some(MessageCap))
    ensures d.pages < config.maxPages && |d.items| < config.maxMessages && TooLate(config, env, d.items, d.calls) ==>
              DrainFrom(config, w, env, d) == Drained(d.items, false, d.token, d.pages, Some(TickBudget))
  {
  }

  /** May the drain ask for another page? */
  predicate MayGoOn(config: Config, env: TickEnv, d: DrainState) {
    d.pages < config.maxPages && |d.items| < config.maxMessages && !TooLate(config, env, d.items, d.calls)
  }

  /** The size and the number of pages a query of the drain asks for. */
  function Asks(config: Config, w: Window, d: DrainState): Query
    requires d.pages < config.maxPages && |d.items| < config.maxMessages
  {
    Query(w.start, w.end, d.token, if config.maxMessages - |d.items| < 50 then config.maxMessages - |d.items| else 50,
          config.maxPages - d.pages)
  }

  /**
   One page of the drain. A page no larger than asked for is taken: with its items and its page count the
   drain ends as complete if there is no further page to ask for, raises if the next token was met before,
   and otherwise goes on behind it. A page larger than that, or a failed fetch, raises.
   */
  lemma DrainTakesOnePage(config: Config, w: Window, env: TickEnv, d: DrainState)
    requires MayGoOn(config, env, d)
    ensures var q := Asks(config, w, d);
            var reply := env.fetch(d.calls, q);
            var out := DrainFrom(config, w, env, d);
            match reply
            case FetchRaised => out.DrainRaised?
            case Fetched(page) =>
              var last := !page.hasMore || page.next == None || page.next == Some("");
              var sized := |page.items| <= config.maxMessages - |d.items| && 1 <= page.pageCount <= q.pageLimit;
              if !sized then out.DrainRaised?
              else if last then out == Drained(d.items + page.items, true, None, d.pages + page.pageCount, None)
              else if page.next == d.token || page.next.value in d.seen then out == DrainRaised(false)
              else
                out == DrainFrom(config, w, env, DrainState(d.items + page.items, page.next, d.seen + {page.next.value},
                                                            d.pages + page.pageCount, d.calls + 1))
  {
    assert DrainCutOff(config, env, d).None?;
    assert NextQuery(config, w, d) == Asks(config, w, d);
  }

  /** Every fetch succeeds with one page, no larger than asked for, that ends the window or holds an item. */
  ghost predicate SteadyFetch(fetch: Fetch) {
    forall n, q :: SteadyReply(q, fetch(n, q))
  }

  predicate SteadyReply(q: Query, reply: FetchResult) {
    && reply.Fetched? && reply.page.pageCount == 1 && |reply.page.items| <= q.pageSize
    && (reply.page.hasMore ==> reply.page.next.Some? && reply.page.next.value != "" && reply.page.items != [])
  }

  /** The tokens seen so far stand for positions no later than the current one. */
  ghost predicate SeenBehind(src: Source, w: Window, d: DrainState, at: nat) {
    && Offset(src, w.start, w.end, d.token) == at
    && forall t :: t in d.seen ==> src.offset(w.start, w.end, t) <= at
  }

  lemma SteadyPageMovesOn(config: Config, src: Source, w: Window, env: TickEnv, d: DrainState, at: nat)
    requires HonestFetch(src, env.fetch) && SteadyFetch(env.fetch) && DrainCutOff(config, env, d).None?
    requires SeenBehind(src, w, d, at) && at <= |src.items(w.start, w.end)|
    ensures var page := env.fetch(d.calls, NextQuery(config, w, d)).page;
            && PageWithinCaps(config, d, page) && (!page.hasMore <==> IsTerminal(page))
            && (page.hasMore ==>
                  && d.token != page.next && page.next.value !in d.seen
                  && at + |page.items| <= |src.items(w.start, w.end)|
                  && SeenBehind(src, w, AfterPage(d, page), at + |page.items|))
  {
    var q := NextQuery(config, w, d);
    assert SteadyReply(q, env.fetch(d.calls, q));
    assert HonestPage(src, q, env.fetch(d.calls, q).page);
  }

  /**
   An honest source that answers steadily is drained without an exception; and to the end of its
   window unless a cap or the clock stops the drain.
   */
  lemma {:induction false} SteadyDrainGoesOn(config: Config, src: Source, w: Window, env: TickEnv, d: DrainState, from: nat, at: nat)
    requires HonestFetch(src, env.fetch) && SteadyFetch(env.fetch)
    requires SeenBehind(src, w, d, at) && at == from + |d.items| <= |src.items(w.start, w.end)|
    requires d.pages <= |d.items|
    ensures var out := DrainFrom(config, w, env, d);
            && out.Drained? && out.pages <= |out.items| + 1
            && (!out.complete ==> out.pages <= |out.items|)
    decreases config.maxPages - d.pages
  {
    if DrainCutOff(config, env, d).None? {
      var page := env.fetch(d.calls, NextQuery(config, w, d)).page;
      assert SteadyReply(NextQuery(config, w, d), env.fetch(d.calls, NextQuery(config, w, d)));
      SteadyPageMovesOn(config, src, w, env, d, at);
      if page.hasMore {
        SteadyDrainGoesOn(config, src, w, env, AfterPage(d, page), from, at + |page.items|);
      }
    }
  }

  /** Every reading of the clock while draining leaves the reserve. */
  ghost predicate DrainInTime(config: Config, env: TickEnv) {
    forall call :: env.drainClock(call) < env.startedAt + config.budget - Reserve(config)
  }

  lemma InTimeIsNotTooLate(config: Config, env: TickEnv, items: seq<Raw>)
    requires DrainInTime(config, env) && config.budget >= 0.0
    ensures forall call :: !TooLate(config, env, items, call)
  {
    forall call ensures !TooLate(config, env, items, call) {
      assert env.drainClock(call) < env.startedAt + config.budget - Reserve(config);
    }
  }

  /**
   A window that fits the caps, of an honest and steady source, read in time, is drained to its end: the
   drain reports completion and holds all the items behind the window's token.
   */
  lemma UndisturbedDrainIsWhole(config: Config, src: Source, w: Window, env: TickEnv)
    requires HonestFetch(src, env.fetch) && SteadyFetch(env.fetch) && DrainInTime(config, env) && config.budget >= 0.0
    requires var left := |src.items(w.start, w.end)| - Offset(src, w.start, w.end, w.token);
             0 <= left < config.maxMessages && left < config.maxPages
    ensures var out := Drain(config, w, env);
            && out.Drained? && out.complete
            && Agree(out.items, src.items(w.start, w.end)[Offset(src, w.start, w.end, w.token)..])
  {
    var all, from := src.items(w.start, w.end), Offset(src, w.start, w.end, w.token);
    var start := DrainState([], w.token, {}, 0, 0);
    var out := Drain(config, w, env);
    SteadyDrainGoesOn(config, src, w, env, start, from, from);
    DrainStopsExactly(config, w, env, start);
    InTimeIsNotTooLate(config, env, out.items);
    DrainReturnsSlice(config, src, w, env);
    WholeWindow(config, src, w, env, start, from);
    assert all[from..|all|] == all[from..];
  }

  /** A complete drain of a steady source stopped at a page that says there is no more, so at the end. */
  lemma {:induction false} WholeWindow(config: Config, src: Source, w: Window, env: TickEnv, d: DrainState, from: nat)
    requires HonestFetch(src, env.fetch) && SteadyFetch(env.fetch)
    requires from + |d.items| == Offset(src, w.start, w.end, d.token) <= |src.items(w.start, w.end)|
    ensures var out := DrainFrom(config, w, env, d);
            out.Drained? && out.complete ==> from + |out.items| == |src.items(w.start, w.end)|
    decreases config.maxPages - d.pages
  {
    if DrainCutOff(config, env, d).None? {
      var q := NextQuery(config, w, d);
      var reply := env.fetch(d.calls, q);
      assert SteadyReply(q, reply);
      assert HonestPage(src, q, reply.page);
      if PageWithinCaps(config, d, reply.page) && !IsTerminal(reply.page)
         && d.token != reply.page.next && reply.page.next.value !in d.seen {
        WholeWindow(config, src, w, env, AfterPage(d, reply.page), from);
      }
    }
  }

  /** A page that claims more with an empty token ends the drain just as one without a token does. */
  lemma EmptyTokenEndsTheDrain(config: Config, w: Window, env: TickEnv, page: Page)
    requires config.maxPages >= 1 && config.maxMessages >= 1 && env.drainClock(0) < env.startedAt + config.budget
    requires var q := Query(w.start, w.end, w.token, if config.maxMessages < 50 then config.maxMessages else 50, config.maxPages);
             env.fetch(0, q) == Fetched(page)
    requires |page.items| <= config.maxMessages && 1 <= page.pageCount <= config.maxPages
    ensures page.next == None || page.next == Some("") || !page.hasMore
            ==> Drain(config, w, env) == Drained(page.items, true, None, page.pageCount, None)
  {
    var d := DrainState([], w.token, {}, 0, 0);
    assert DrainCutOff(config, env, d).None?;
    assert NextQuery(config, w, d)
           == Query(w.start, w.end, w.token, if config.maxMessages < 50 then config.maxMessages else 50, config.maxPages);
    assert [] + page.items == page.items;
  }

  /** The whole chain: such a window whose items can all be processed in time is completed by one tick. */
  lemma UndisturbedWindowCompletes(config: Config, src: Source, s: SourceState, env: TickEnv, w: Window)
    requires w == OpenWindow(config.overlap, s.checkpoint, env.now)
    requires HonestFetch(src, env.fetch) && SteadyFetch(env.fetch) && DrainInTime(config, env) && config.budget >= 0.0
    requires var left := |src.items(w.start, w.end)| - Offset(src, w.start, w.end, w.token);
             0 <= left < config.maxMessages && left < config.maxPages
    requires AllNormal(src.items(w.start, w.end))
    requires forall n :: env.batchClock(n) < env.startedAt + config.budget && !env.processingRaises(n)
    ensures Tick(config, s, env).complete && Tick(config, s, env).state.checkpoint == Checkpoint(Some(w.end), None)
  {
    var all, from := src.items(w.start, w.end), Offset(src, w.start, w.end, w.token);
    UndisturbedDrainIsWhole(config, src, w, env);
    var items := Drain(config, w, env).items;
    forall i | 0 <= i < |items| ensures items[i].identity.Some? {
      assert SameReplay(items[i], all[from..][i]) && all[from..][i] == all[from + i];
    }
    UndisturbedTickCompletes(config, s, env);
  }
}
