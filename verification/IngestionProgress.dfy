/**
 Liveness of one window. For a source that lists its items in sort-key order, exactly when a tick
 moves the saved position forward, and how many such ticks a window can take.
 */
module IngestionProgress {
  import opened Base
  import opened Framing
  import opened IngestionModel
  import opened IngestionSafety

  /** The saved position: the offset of the saved token, then the items done behind it. */
  datatype Position = Position(offset: nat, items: nat) {
    predicate Before(other: Position) {
      offset < other.offset || (offset == other.offset && items < other.items)
    }
  }

  ghost function SavedPosition(src: Source, c: Checkpoint): Position {
    match c.backlog
    case None => Position(0, 0)
    case Some(b) =>
      Position(Offset(src, b.start, b.end, b.token), if b.cursor.Some? then b.cursor.value.completedItems else 0)
  }

  /** A window's items, in sort-key order and all of them readable by the normalizer. */
  ghost predicate Orderly(all: seq<Raw>) {
    SortedByKey(all) && AllNormal(all)
  }

  ghost function SavedItems(cursor: Option<Cursor>): nat {
    if cursor.Some? then cursor.value.completedItems else 0
  }

  /** The cursor was made from the items that follow offset `from`. */
  ghost predicate CursorOn(all: seq<Raw>, from: nat, cursor: Option<Cursor>) {
    && from + SavedItems(cursor) <= |all|
    && (cursor.Some? ==> PrefixDigest(all[from..from + cursor.value.completedItems]) == Some(cursor.value.prefix))
  }

  ghost predicate OrderlyWindow(src: Source, w: Window, cursor: Option<Cursor>) {
    Orderly(src.items(w.start, w.end))
    && CursorOn(src.items(w.start, w.end), Offset(src, w.start, w.end, w.token), cursor)
  }

  lemma SliceOfSorted(s: seq<Raw>, i: nat, j: nat)
    requires SortedByKey(s) && i <= j <= |s|
    ensures SortedByKey(s[i..j])
  {
    forall k | 0 <= k < j - i - 1 ensures KeyLeq(s[i..j][k], s[i..j][k + 1]) {
      assert s[i..j][k] == s[i + k] && s[i..j][k + 1] == s[i + k + 1];
    }
  }

  lemma AgreeingIdentities(xs: seq<Raw>, ys: seq<Raw>)
    requires Agree(xs, ys) && AllNormal(ys)
    ensures AllNormal(xs) && Identities(xs) == Identities(ys)
    ensures PrefixDigest(xs) == PrefixDigest(ys)
  {
    forall i | 0 <= i < |xs| ensures xs[i].identity.Some? && xs[i].identity == ys[i].identity {
      assert SameReplay(xs[i], ys[i]);
    }
    assert Identities(xs) == Identities(ys);
  }

  lemma BatchIsSorted(all: seq<Raw>, from: nat, items: seq<Raw>)
    requires Orderly(all) && from + |items| <= |all| && Agree(items, all[from..from + |items|])
    ensures SortRaws(items) == items && AllNormal(items)
  {
    var slice := all[from..from + |items|];
    SliceOfSorted(all, from, from + |items|);
    AgreeingSortedAgree(items, slice);
    SortLeavesSortedAlone(items);
    AgreeingIdentities(items, slice);
  }

  lemma SliceOfSlice<T>(s: seq<T>, from: nat, length: nat, n: nat)
    requires from + length <= |s| && n <= length
    ensures s[from..from + length][..n] == s[from..from + n]
  {
  }

  lemma SliceIsNormal(all: seq<Raw>, i: nat, j: nat)
    requires AllNormal(all) && i <= j <= |all|
    ensures AllNormal(all[i..j])
  {
  }

  lemma BatchPrefixIsSourcePrefix(all: seq<Raw>, from: nat, items: seq<Raw>, n: nat)
    requires AllNormal(all) && from + |items| <= |all| && n <= |items|
    requires Agree(items, all[from..from + |items|])
    ensures PrefixDigest(items[..n]) == PrefixDigest(all[from..from + n])
  {
    SliceIsNormal(all, from, from + |items|);
    PrefixOfAgreeing(items, all[from..from + |items|], n);
    SliceOfSlice(all, from, |items|, n);
  }

  /** A batch fetched from an orderly window is already sorted and carries the source's identities. */
  lemma BatchIsSourceSlice(all: seq<Raw>, from: nat, items: seq<Raw>, n: nat)
    requires Orderly(all) && from + |items| <= |all| && n <= |items|
    requires Agree(items, all[from..from + |items|])
    ensures SortRaws(items) == items && AllNormal(items)
    ensures PrefixDigest(items[..n]) == PrefixDigest(all[from..from + n])
  {
    BatchIsSorted(all, from, items);
    BatchPrefixIsSourcePrefix(all, from, items, n);
  }

  lemma PrefixOfAgreeing(xs: seq<Raw>, ys: seq<Raw>, n: nat)
    requires Agree(xs, ys) && AllNormal(ys) && n <= |xs|
    ensures PrefixDigest(xs[..n]) == PrefixDigest(ys[..n])
  {
    forall i | 0 <= i < n ensures SameReplay(xs[..n][i], ys[..n][i]) && ys[..n][i].identity.Some? {
      assert SameReplay(xs[i], ys[i]);
    }
    AgreeingIdentities(xs[..n], ys[..n]);
  }

  lemma MatchingPrefixIsSkipped(ordered: seq<Raw>, cursor: Cursor)
    requires cursor.completedItems <= |ordered|
    requires PrefixDigest(ordered[..cursor.completedItems]) == Some(cursor.prefix)
    ensures ValidatedPrefix(ordered, Some(cursor)) == cursor.completedItems
  {
  }

  /** A tick starts after the saved prefix if the refetch reaches that far, else from nothing. */
  lemma ResumePoint(all: seq<Raw>, from: nat, items: seq<Raw>, cursor: Option<Cursor>)
    requires Orderly(all) && CursorOn(all, from, cursor)
    requires from + |items| <= |all| && Agree(items, all[from..from + |items|])
    ensures ValidatedPrefix(items, cursor) == (if SavedItems(cursor) <= |items| then SavedItems(cursor) else 0)
  {
    if cursor.Some? && SavedItems(cursor) <= |items| {
      BatchIsSourceSlice(all, from, items, SavedItems(cursor));
      MatchingPrefixIsSkipped(items, cursor.value);
    }
  }

  lemma SavedCursorIsOnSource(all: seq<Raw>, from: nat, items: seq<Raw>, last: nat)
    requires Orderly(all) && from + |items| <= |all| && last <= |items|
    requires Agree(items, all[from..from + |items|])
    ensures SavedCursor(items, last).completedItems == last
    ensures CursorOn(all, from, Some(SavedCursor(items, last)))
  {
    BatchIsSourceSlice(all, from, items, last);
    assert AllNormal(items[..last]);
  }

  /** The new position of a tick that neither raised nor completed its window, in the tick's own numbers. */
  lemma DeferredPosition(config: Config, src: Source, s: SourceState, env: TickEnv, w: Window, from: nat)
    requires w == OpenWindow(config.overlap, s.checkpoint, env.now) && from == Offset(src, w.start, w.end, w.token)
    requires HonestFetch(src, env.fetch) && OrderlyWindow(src, w, ResumeCursor(s.checkpoint))
    requires !Tick(config, s, env).raised && !Tick(config, s, env).complete
    ensures var t, n := Tick(config, s, env), SavedItems(ResumeCursor(s.checkpoint));
            && t.state.checkpoint.backlog.Some?
            && (var b := t.state.checkpoint.backlog.value;
                && b.start == w.start && b.end == w.end
                && OrderlyWindow(src, Window(b.start, b.end, b.token), b.cursor)
                && (if t.batchComplete
                    then Offset(src, b.start, b.end, b.token) == from + t.fetchedItems && b.cursor.None?
                    else && Offset(src, b.start, b.end, b.token) == from
                         && SavedItems(b.cursor) == (if n <= t.fetchedItems then n else 0) + t.handledItems
                         && SavedItems(b.cursor) <= t.fetchedItems))
  {
    var all := src.items(w.start, w.end);
    DrainReturnsSlice(config, src, w, env);
    var items := Drain(config, w, env).items;
    ResumePoint(all, from, items, ResumeCursor(s.checkpoint));
    BatchIsSourceSlice(all, from, items, 0);
    var first := ValidatedPrefix(items, ResumeCursor(s.checkpoint));
    SavedCursorIsOnSource(all, from, items, BatchStop(items, first, config, env, 0).0);
  }

  /** What a caller sees of a tick that counts: a non-empty batch done, or an item handled after a long enough refetch. */
  predicate Counts(t: TickResult, savedItems: nat) {
    if t.batchComplete then t.fetchedItems > 0 else t.handledItems > 0 && savedItems <= t.fetchedItems
  }

  /**
   The exact law of progress. A tick that neither raises nor completes its window moves the saved
   position forward if and only if it finished a non-empty batch, or handled at least one item of a
   batch at least as long as the saved prefix. A shorter refetch moves the position back.
   */
  lemma ProgressExactly(config: Config, src: Source, s: SourceState, env: TickEnv)
    requires HonestFetch(src, env.fetch)
    requires OrderlyWindow(src, OpenWindow(config.overlap, s.checkpoint, env.now), ResumeCursor(s.checkpoint))
    requires !Tick(config, s, env).raised && !Tick(config, s, env).complete
    ensures var t := Tick(config, s, env);
            var before, after := SavedPosition(src, s.checkpoint), SavedPosition(src, t.state.checkpoint);
            before.Before(after) <==> Counts(t, before.items)
  {
    var w := OpenWindow(config.overlap, s.checkpoint, env.now);
    DeferredPosition(config, src, s, env, w, Offset(src, w.start, w.end, w.token));
  }

  /** The guarantee the caller sees: refetch enough and handle one item, and the tick counts. */
  lemma HandlingAnItemIsProgress(config: Config, src: Source, s: SourceState, env: TickEnv)
    requires HonestFetch(src, env.fetch)
    requires OrderlyWindow(src, OpenWindow(config.overlap, s.checkpoint, env.now), ResumeCursor(s.checkpoint))
    requires var t := Tick(config, s, env);
             !t.raised && t.handledItems > 0 && SavedPosition(src, s.checkpoint).items <= t.fetchedItems
    ensures var t := Tick(config, s, env);
            t.complete || SavedPosition(src, s.checkpoint).Before(SavedPosition(src, t.state.checkpoint))
  {
    if !Tick(config, s, env).complete {
      ProgressExactly(config, src, s, env);
      SortKeepsLength(Drain(config, OpenWindow(config.overlap, s.checkpoint, env.now), env).items);
    }
  }

  // ---------------------------------------------------------------- nothing stands in the way

  lemma {:induction false} UndisturbedBatchStop(ordered: seq<Raw>, i: nat, config: Config, env: TickEnv, calls: nat)
    requires i <= |ordered| && AllNormal(ordered)
    requires forall n :: env.batchClock(n) < env.startedAt + config.budget && !env.processingRaises(n)
    ensures BatchStop(ordered, i, config, env, calls) == (|ordered|, Completed)
    decreases |ordered| - i
  {
    if i < |ordered| {
      assert env.batchClock(calls) < env.startedAt + config.budget;
      UndisturbedBatchStop(ordered, i + 1, config, env, calls + 1);
    }
  }

  lemma SortedIsNormal(items: seq<Raw>)
    requires AllNormal(items)
    ensures AllNormal(SortRaws(items))
  {
    SortSorts(items);
    forall i | 0 <= i < |SortRaws(items)| ensures SortRaws(items)[i].identity.Some? {
      assert SortRaws(items)[i] in multiset(items);
    }
  }

  /**
   A tick that fetched its window to the end, whose items can all be processed and whose clock stays
   within the budget, handles everything it does not skip and completes the window.
   */
  lemma UndisturbedTickCompletes(config: Config, s: SourceState, env: TickEnv)
    requires forall n :: env.batchClock(n) < env.startedAt + config.budget && !env.processingRaises(n)
    requires var out := Drain(config, OpenWindow(config.overlap, s.checkpoint, env.now), env);
             out.Drained? && out.complete && AllNormal(out.items)
    ensures var t, w := Tick(config, s, env), OpenWindow(config.overlap, s.checkpoint, env.now);
            var ordered := SortRaws(Drain(config, w, env).items);
            && !t.raised && t.complete && t.state.checkpoint == Checkpoint(Some(w.end), None)
            && t.handledItems == |ordered| - ValidatedPrefix(ordered, ResumeCursor(s.checkpoint))
  {
    var items := Drain(config, OpenWindow(config.overlap, s.checkpoint, env.now), env).items;
    var ordered := SortRaws(items);
    SortKeepsLength(items);
    SortedIsNormal(items);
    UndisturbedBatchStop(ordered, ValidatedPrefix(ordered, ResumeCursor(s.checkpoint)), config, env, 0);
  }

  lemma {:induction false} LaterPagesKeepTheToken(config: Config, w: Window, env: TickEnv, d: DrainState)
    requires d.pages > 0
    ensures DrainFrom(config, w, env, d) != DrainRaised(true)
    decreases config.maxPages - d.pages
  {
    if DrainCutOff(config, env, d).None? {
      var reply := env.fetch(d.calls, NextQuery(config, w, d));
      if reply.Fetched? && PageWithinCaps(config, d, reply.page) && !IsTerminal(reply.page)
         && d.token != reply.page.next && reply.page.next.value !in d.seen {
        LaterPagesKeepTheToken(config, w, env, AfterPage(d, reply.page));
      }
    }
  }

  /**
   A resumed token is given up exactly when its own fetch fails. The window then starts again from its
   first page, so a token the provider no longer accepts cannot hold a source up.
   */
  lemma TokenIsResetExactly(config: Config, s: SourceState, env: TickEnv, b: Backlog)
    requires s.checkpoint.backlog == Some(b)
    ensures var w := OpenWindow(config.overlap, s.checkpoint, env.now);
            var d := DrainState([], w.token, {}, 0, 0);
            var firstFetchFails := DrainCutOff(config, env, d).None? && env.fetch(0, NextQuery(config, w, d)).FetchRaised?;
            && (Drain(config, w, env) == DrainRaised(true) <==> b.token.Some? && firstFetchFails)
            && (b.token.Some? && firstFetchFails ==>
                  Tick(config, s, env).raised
                  && Tick(config, s, env).state
                     == s.(checkpoint := Checkpoint(s.checkpoint.lastSuccess, Some(Backlog(b.start, b.end, None, None)))))
  {
    var w := OpenWindow(config.overlap, s.checkpoint, env.now);
    var d := DrainState([], w.token, {}, 0, 0);
    if DrainCutOff(config, env, d).None? {
      var reply := env.fetch(0, NextQuery(config, w, d));
      if reply.Fetched? && PageWithinCaps(config, d, reply.page) && !IsTerminal(reply.page)
         && d.token != reply.page.next && reply.page.next.value !in d.seen {
        LaterPagesKeepTheToken(config, w, env, AfterPage(d, reply.page));
      }
    }
  }

  // ---------------------------------------------------------------- how long a window can take

  /** Every tick of the run defers its window, without raising, and counts. */
  ghost predicate AllDefer(config: Config, src: Source, s: SourceState, envs: seq<TickEnv>)
    decreases |envs|
  {
    envs == []
    || (var t := Tick(config, s, envs[0]);
        && HonestFetch(src, envs[0].fetch)
        && !t.raised && !t.complete
        && Counts(t, SavedPosition(src, s.checkpoint).items)
        && AllDefer(config, src, t.state, envs[1..]))
  }

  ghost function Rank(p: Position, size: nat): int { p.offset * (size + 1) + p.items }

  lemma RankIsBounded(p: Position, size: nat)
    requires p.offset + p.items <= size
    ensures Rank(p, size) < (size + 1) * (size + 1)
  {
    assert p.offset * (size + 1) <= size * (size + 1);
  }

  lemma LaterPositionRanksHigher(p: Position, q: Position, size: nat)
    requires p.Before(q) && p.items <= size
    ensures Rank(p, size) + 1 <= Rank(q, size)
  {
    if p.offset < q.offset {
      assert (p.offset + 1) * (size + 1) <= q.offset * (size + 1);
    }
  }

  ghost predicate ResumesOrderly(src: Source, c: Checkpoint, start: int, end: int) {
    && c.backlog.Some? && c.backlog.value.start == start && c.backlog.value.end == end
    && OrderlyWindow(src, Window(start, end, c.backlog.value.token), c.backlog.value.cursor)
  }

  lemma DeferralRanksHigher(config: Config, src: Source, s: SourceState, env: TickEnv, start: int, end: int)
    requires ResumesOrderly(src, s.checkpoint, start, end) && AllDefer(config, src, s, [env])
    ensures var t := Tick(config, s, env);
            var size := |src.items(start, end)|;
            && ResumesOrderly(src, t.state.checkpoint, start, end)
            && Rank(SavedPosition(src, s.checkpoint), size) + 1 <= Rank(SavedPosition(src, t.state.checkpoint), size)
  {
    var w := OpenWindow(config.overlap, s.checkpoint, env.now);
    DeferredPosition(config, src, s, env, w, Offset(src, w.start, w.end, w.token));
    ProgressExactly(config, src, s, env);
    LaterPositionRanksHigher(SavedPosition(src, s.checkpoint), SavedPosition(src, Tick(config, s, env).state.checkpoint),
                             |src.items(start, end)|);
  }

  /**
   A resumed window of `size` items is deferred by fewer than (size + 1)^2 ticks that count: after that
   many, one of them has raised, completed it, handled nothing or refetched too little.
   */
  lemma {:induction false} ProgressiveDeferralsAreBounded(config: Config, src: Source, s: SourceState, envs: seq<TickEnv>,
                                                          start: int, end: int)
    requires ResumesOrderly(src, s.checkpoint, start, end) && AllDefer(config, src, s, envs)
    ensures var size := |src.items(start, end)|;
            Rank(SavedPosition(src, s.checkpoint), size) + |envs| < (size + 1) * (size + 1)
    decreases |envs|
  {
    if envs == [] {
      RankIsBounded(SavedPosition(src, s.checkpoint), |src.items(start, end)|);
    } else {
      DeferralRanksHigher(config, src, s, envs[0], start, end);
      ProgressiveDeferralsAreBounded(config, src, Tick(config, s, envs[0]).state, envs[1..], start, end);
    }
  }
}
