/**
 Coverage of the time line: where completed windows begin and end, and which late messages they
 therefore contain.
 */
module IngestionTime {
  import opened Base
  import opened Framing
  import opened IngestionModel
  import opened IngestionSafety

  /** The wall clock read by successive ticks never runs backwards from `now`. */
  ghost predicate ClockFrom(now: int, envs: seq<TickEnv>)
    decreases |envs|
  {
    envs == [] || (now <= envs[0].now && ClockFrom(envs[0].now, envs[1..]))
  }

  /** Where the next completed window of this source must start. */
  ghost predicate StartsAt(overlap: nat, lastSuccess: Option<int>, w: Window) {
    w.start == lastSuccess.GetOr(w.end) - overlap
  }

  /** The saved times lie in the past, and a saved window continues the last success. */
  ghost predicate TimesSound(overlap: nat, c: Checkpoint, now: int) {
    && (c.lastSuccess.Some? ==> c.lastSuccess.value <= now)
    && (c.backlog.Some? ==>
          var b := c.backlog.value;
          && b.end <= now
          && StartsAt(overlap, c.lastSuccess, Window(b.start, b.end, None))
          && (c.lastSuccess.Some? ==> c.lastSuccess.value <= b.end))
  }

  /** What one tick does to the times, for every provider and every way a tick can end. */
  lemma TickKeepsTimes(config: Config, s: SourceState, env: TickEnv, now: int)
    requires TimesSound(config.overlap, s.checkpoint, now) && now <= env.now
    ensures var t := Tick(config, s, env);
            var w := OpenWindow(config.overlap, s.checkpoint, env.now);
            && TimesSound(config.overlap, t.state.checkpoint, env.now)
            && t.state.checkpoint.lastSuccess == (if t.complete then Some(w.end) else s.checkpoint.lastSuccess)
            && StartsAt(config.overlap, s.checkpoint.lastSuccess, w)
            && (s.checkpoint.lastSuccess.Some? ==> s.checkpoint.lastSuccess.value <= w.end)
  {
    var w := OpenWindow(config.overlap, s.checkpoint, env.now);
    var out := Drain(config, w, env);
    if out.Drained? {
      SortKeepsLength(out.items);
    }
  }

  /** Consecutive windows: each starts `overlap` before the previous end, and ends never go back. */
  ghost predicate Chained(overlap: nat, lastSuccess: Option<int>, done: seq<Window>)
    decreases |done|
  {
    done == []
    || (StartsAt(overlap, lastSuccess, done[0])
        && (lastSuccess.Some? ==> lastSuccess.value <= done[0].end)
        && Chained(overlap, Some(done[0].end), done[1..]))
  }

  ghost function LastEnd(lastSuccess: Option<int>, done: seq<Window>): Option<int> {
    if done == [] then lastSuccess else Some(done[|done| - 1].end)
  }

  /** `last_success_at` is always the end of the newest completed window, and no gap opens up. */
  lemma {:induction false} CompletedWindowsAreChained(config: Config, s: SourceState, envs: seq<TickEnv>, now: int)
    requires TimesSound(config.overlap, s.checkpoint, now) && ClockFrom(now, envs)
    ensures var done := CompletedWindows(config, s, envs);
            && Chained(config.overlap, s.checkpoint.lastSuccess, done)
            && Run(config, s, envs).checkpoint.lastSuccess == LastEnd(s.checkpoint.lastSuccess, done)
    decreases |envs|
  {
    if envs != [] {
      var t := Tick(config, s, envs[0]);
      TickKeepsTimes(config, s, envs[0], now);
      CompletedWindowsAreChained(config, t.state, envs[1..], envs[0].now);
      var done, rest := CompletedWindows(config, s, envs), CompletedWindows(config, t.state, envs[1..]);
      if t.complete {
        assert done[1..] == rest;
      } else {
        assert done == rest;
      }
    }
  }

  lemma {:induction false} ChainedWindows(overlap: nat, lastSuccess: Option<int>, done: seq<Window>, i: nat)
    requires Chained(overlap, lastSuccess, done) && i < |done|
    ensures done[i].start <= done[i].end
    ensures i > 0 ==> done[i].start == done[i - 1].end - overlap && done[i - 1].end <= done[i].end
    ensures i == 0 ==> StartsAt(overlap, lastSuccess, done[0])
    ensures lastSuccess.Some? ==> lastSuccess.value <= done[i].end
    decreases i
  {
    if i > 0 {
      ChainedWindows(overlap, Some(done[0].end), done[1..], i - 1);
    }
  }

  /**
   A message that becomes visible at most `overlap` seconds after it was sent lies inside the first
   completed window whose end is not before its visibility, resumed windows included.
   */
  lemma LateArrivalIsCovered(overlap: nat, lastSuccess: Option<int>, done: seq<Window>, sent: int, visible: int, i: nat)
    requires Chained(overlap, lastSuccess, done)
    requires i < |done| && done[0].start <= sent <= visible <= sent + overlap
    requires visible <= done[i].end
    requires i > 0 ==> done[i - 1].end < visible
    ensures done[i].start <= sent <= done[i].end
  {
    ChainedWindows(overlap, lastSuccess, done, i);
  }

  /** The source's window lists hold `m` whenever the window spans its time and ends after it is visible. */
  ghost predicate Lists(src: Source, m: Raw, sent: int, visible: int) {
    forall start, end :: start <= sent <= end && visible <= end ==> m in src.items(start, end)
  }

  /**
   The two guarantees together: from a fresh store, once any window ending at or after a message's
   visibility has completed, the message has been handled.
   */
  lemma {:induction false} TimelyMessageIsHandled(config: Config, src: Source, envs: seq<TickEnv>, now: int,
                                                  m: Raw, sent: int, visible: int, i: nat)
    requires HonestRun(src, envs) && NoneWithholds(src, envs) && ClockFrom(now, envs) && Lists(src, m, sent, visible)
    requires var done := CompletedWindows(config, FRESH, envs);
             i < |done| && visible <= done[i].end && done[0].start <= sent <= visible <= sent + config.overlap
    ensures m.identity.Some? && m.identity.value in Run(config, FRESH, envs).handled
    decreases i
  {
    var done := CompletedWindows(config, FRESH, envs);
    if i > 0 && visible <= done[i - 1].end {
      TimelyMessageIsHandled(config, src, envs, now, m, sent, visible, i - 1);
    } else {
      CompletedWindowsAreChained(config, FRESH, envs, now);
      LateArrivalIsCovered(config.overlap, None, done, sent, visible, i);
      NoMessageIsSkipped(config, src, FRESH, envs);
      var items := src.items(done[i].start, done[i].end);
      assert m in items;
      var k :| 0 <= k < |items| && items[k] == m;
      assert WindowCovered(src, done[i], Run(config, FRESH, envs).handled);
    }
  }

  // ---------------------------------------------------------------- the very first window

  /** Ticks of a source with no checkpoint yet that raise before one is recorded. */
  function LeadingFailures(config: Config, s: SourceState, envs: seq<TickEnv>): nat
    decreases |envs|
  {
    if envs != [] && Tick(config, s, envs[0]).raised
    then 1 + LeadingFailures(config, Tick(config, s, envs[0]).state, envs[1..])
    else 0
  }

  /**
   Coverage starts with the first tick that records a checkpoint, not with the first tick: a source
   whose first ticks raise keeps no window open, so the start moves with the clock until one does not.
   */
  lemma {:induction false} CoverageStartsAtFirstRecordedTick(config: Config, s: SourceState, envs: seq<TickEnv>)
    requires s.checkpoint == Checkpoint(None, None)
    ensures var done, k := CompletedWindows(config, s, envs), LeadingFailures(config, s, envs);
            done != [] ==> k < |envs| && done[0].start == envs[k].now - config.overlap
    decreases |envs|
  {
    if envs != [] {
      var t := Tick(config, s, envs[0]);
      var w := OpenWindow(config.overlap, s.checkpoint, envs[0].now);
      var out := Drain(config, w, envs[0]);
      if out.Drained? {
        SortKeepsLength(out.items);
      }
      if t.raised {
        CoverageStartsAtFirstRecordedTick(config, t.state, envs[1..]);
      } else if !t.complete {
        BacklogKeepsItsWindow(config, t.state, envs[1..]);
      }
    }
  }

  /** A saved window is the next one to complete, however many ticks it takes. */
  lemma {:induction false} BacklogKeepsItsWindow(config: Config, s: SourceState, envs: seq<TickEnv>)
    requires s.checkpoint.backlog.Some?
    ensures var done, b := CompletedWindows(config, s, envs), s.checkpoint.backlog.value;
            done != [] ==> done[0].start == b.start && done[0].end == b.end
    decreases |envs|
  {
    if envs != [] {
      var t := Tick(config, s, envs[0]);
      var out := Drain(config, OpenWindow(config.overlap, s.checkpoint, envs[0].now), envs[0]);
      if out.Drained? {
        SortKeepsLength(out.items);
      }
      if !t.complete {
        BacklogKeepsItsWindow(config, t.state, envs[1..]);
      }
    }
  }

  /**
   So a message sent inside the first attempted window can be lost: with an overlap of 120 seconds,
   a first tick at time 0 whose fetch fails and a second at time 1000, the only completed window
   starts at 880.
   */
  lemma FirstFetchFailureLosesCoverage()
    ensures exists config: Config, envs: seq<TickEnv> ::
              && config.overlap == 120 && ClockFrom(0, envs) && |envs| == 2 && envs[0].now == 0
              && CompletedWindows(config, FRESH, envs) == [Window(880, 1000, None)]
  {
    var config := Config(120, 20, 1000, 30.0);
    var failing := TickEnv(0, 0.0, (n, q) => FetchRaised, n => 0.0, n => 0.0, n => false);
    var working := TickEnv(1000, 0.0, (n, q) => Fetched(Page([], None, false, 1)), n => 0.0, n => 0.0, n => false);
    var envs := [failing, working];
    assert envs[1..] == [working] && envs[1..][1..] == [];
    assert ClockFrom(0, envs);
    assert Tick(config, FRESH, failing).state == FRESH && !Tick(config, FRESH, failing).complete;
    var w := OpenWindow(120, FRESH.checkpoint, 1000);
    assert Drain(config, w, working) == Drained([], true, None, 1, None);
    assert Tick(config, FRESH, working).complete;
    assert CompletedWindows(config, FRESH, [working]) == [w] + CompletedWindows(config, Tick(config, FRESH, working).state, []);
    assert CompletedWindows(config, FRESH, envs) == [] + CompletedWindows(config, FRESH, [working]);
  }
}
