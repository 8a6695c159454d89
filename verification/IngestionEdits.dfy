/**
 Sources whose messages are edited between fetches. A page then shows the messages of its slice in some
 version; a saved cursor does not survive a change of its prefix, and every message of a completed
 window has been handled in some version.
 */
module IngestionEdits {
  import opened Base
  import opened Framing
  import opened IngestionModel
  import opened IngestionSafety
  import opened IngestionWithholding

  /** The message that a replay identity is a version of. */
  type Naming = Encoded -> string

  ghost predicate Named(name: Naming, raws: seq<Raw>) {
    forall i :: 0 <= i < |raws| && raws[i].identity.Some? ==> name(raws[i].identity.value) == raws[i].messageId
  }

  /** The same messages in the same order, each perhaps in another version. */
  ghost predicate SameMessages(xs: seq<Raw>, ys: seq<Raw>) {
    |xs| == |ys| && forall i :: 0 <= i < |xs| ==> xs[i].sentAt == ys[i].sentAt && xs[i].messageId == ys[i].messageId
  }

  /** `HonestPage` without its promise that refetched items keep their replay identities. */
  ghost predicate HonestEdition(src: Source, name: Naming, q: Query, page: Page) {
    var all := src.items(q.start, q.end);
    var from := Offset(src, q.start, q.end, q.token);
    from <= |all| ==>
      && from + |page.items| <= |all|
      && SameMessages(page.items, all[from..from + |page.items|]) && Named(name, page.items)
      && (!page.hasMore ==> from + |page.items| == |all|)
      && (!IsTerminal(page) ==> Offset(src, q.start, q.end, page.next) == from + |page.items|)
  }

  ghost predicate HonestEditions(src: Source, name: Naming, fetch: Fetch) {
    forall n, q :: fetch(n, q).Fetched? ==> HonestEdition(src, name, q, fetch(n, q).page)
  }

  ghost predicate EditedRun(src: Source, name: Naming, envs: seq<TickEnv>) {
    forall i :: 0 <= i < |envs| ==> HonestEditions(src, name, envs[i].fetch)
  }

  ghost predicate HasMessage(raws: seq<Raw>, messageId: string) {
    exists i :: 0 <= i < |raws| && raws[i].messageId == messageId
  }

  /** Behind position `reach` the window only holds messages that it also holds before it. */
  ghost predicate NoOtherMessage(all: seq<Raw>, reach: nat) {
    reach <= |all| && forall k :: reach <= k < |all| ==> HasMessage(all[..reach], all[k].messageId)
  }

  /** A readable page that claims more, carries no token and leaves another message behind. */
  ghost predicate WithholdsMessage(src: Source, q: Query, page: Page) {
    var all := src.items(q.start, q.end);
    var reach := Offset(src, q.start, q.end, q.token) + |page.items|;
    && Asked(q) && Accepted(q, page) && page.hasMore && IsTerminal(page) && AllNormal(page.items)
    && reach <= |all| && !NoOtherMessage(all, reach)
  }

  ghost predicate NeverWithholdsMessage(src: Source, fetch: Fetch) {
    forall n, q :: fetch(n, q).Fetched? ==> !WithholdsMessage(src, q, fetch(n, q).page)
  }

  ghost predicate NoMessageWithheld(src: Source, envs: seq<TickEnv>) {
    forall i :: 0 <= i < |envs| ==> NeverWithholdsMessage(src, envs[i].fetch)
  }

  // ---------------------------------------------------------------- the drain

  ghost predicate DrainedEdition(src: Source, name: Naming, w: Window, from: nat, out: DrainOutcome, withheld: bool) {
    var all := src.items(w.start, w.end);
    out.Drained? ==>
      && from + |out.items| <= |all|
      && SameMessages(out.items, all[from..from + |out.items|]) && Named(name, out.items)
      && (out.complete && !withheld && AllNormal(out.items) ==> NoOtherMessage(all, from + |out.items|))
      && (!out.complete ==> Offset(src, w.start, w.end, out.token) == from + |out.items|)
  }

  lemma PageContinues(items: seq<Raw>, more: seq<Raw>, name: Naming, all: seq<Raw>, from: nat, mid: nat, to: nat)
    requires from <= mid <= to <= |all|
    requires SameMessages(items, all[from..mid]) && SameMessages(more, all[mid..to]) && Named(name, items) && Named(name, more)
    ensures SameMessages(items + more, all[from..to]) && Named(name, items + more)
  {
    assert all[from..to] == all[from..mid] + all[mid..to];
  }

  lemma LastPageIsNormal(items: seq<Raw>, more: seq<Raw>)
    requires AllNormal(items + more)
    ensures AllNormal(more)
  {
    forall i | 0 <= i < |more| ensures more[i].identity.Some? {
      assert (items + more)[|items| + i] == more[i];
    }
  }

  lemma LastPageLeavesNoOther(src: Source, name: Naming, q: Query, page: Page)
    requires HonestEdition(src, name, q, page) && !WithholdsMessage(src, q, page)
    requires Asked(q) && Accepted(q, page) && IsTerminal(page) && AllNormal(page.items)
    requires Offset(src, q.start, q.end, q.token) <= |src.items(q.start, q.end)|
    ensures NoOtherMessage(src.items(q.start, q.end), Offset(src, q.start, q.end, q.token) + |page.items|)
  {
  }

  lemma {:induction false} DrainFromReturnsEdition(config: Config, src: Source, name: Naming, w: Window, env: TickEnv, d: DrainState,
                                                   from: nat)
    requires HonestEditions(src, name, env.fetch)
    requires from + |d.items| == Offset(src, w.start, w.end, d.token) <= |src.items(w.start, w.end)|
    requires SameMessages(d.items, src.items(w.start, w.end)[from..from + |d.items|]) && Named(name, d.items)
    ensures DrainedEdition(src, name, w, from, DrainFrom(config, w, env, d), !NeverWithholdsMessage(src, env.fetch))
    decreases config.maxPages - d.pages
  {
    var all := src.items(w.start, w.end);
    if DrainCutOff(config, env, d).None? {
      var q := NextQuery(config, w, d);
      var reply := env.fetch(d.calls, q);
      if reply.Fetched? && PageWithinCaps(config, d, reply.page) {
        var page := reply.page;
        assert HonestEdition(src, name, q, page);
        var items, mid := d.items + page.items, from + |d.items|;
        PageContinues(d.items, page.items, name, all, from, mid, mid + |page.items|);
        if !IsTerminal(page) && d.token != page.next && page.next.value !in d.seen {
          DrainFromReturnsEdition(config, src, name, w, env, AfterPage(d, page), from);
        } else if IsTerminal(page) && AllNormal(items) && NeverWithholdsMessage(src, env.fetch) {
          LastPageIsNormal(d.items, page.items);
          LastPageLeavesNoOther(src, name, q, page);
        }
      }
    }
  }

  // ---------------------------------------------------------------- what is handled

  /** Some version of the message has been handled. */
  ghost predicate HandledAs(name: Naming, messageId: string, handled: set<Encoded>) {
    exists id :: id in handled && name(id) == messageId
  }

  ghost predicate Reached(name: Naming, raws: seq<Raw>, handled: set<Encoded>) {
    forall i :: 0 <= i < |raws| ==> HandledAs(name, raws[i].messageId, handled)
  }

  ghost predicate WindowReached(src: Source, name: Naming, w: Window, handled: set<Encoded>) {
    Reached(name, src.items(w.start, w.end), handled)
  }

  ghost predicate AllReached(src: Source, name: Naming, done: seq<Window>, handled: set<Encoded>) {
    forall i :: 0 <= i < |done| ==> WindowReached(src, name, done[i], handled)
  }

  lemma ReachedStays(name: Naming, raws: seq<Raw>, before: set<Encoded>, after: set<Encoded>)
    requires Reached(name, raws, before) && before <= after
    ensures Reached(name, raws, after)
  {
    forall i | 0 <= i < |raws| ensures HandledAs(name, raws[i].messageId, after) {
      var id :| id in before && name(id) == raws[i].messageId;
      assert id in after;
    }
  }

  lemma CoveredIsReached(name: Naming, items: seq<Raw>, slice: seq<Raw>, handled: set<Encoded>)
    requires Covered(items, handled) && Named(name, items) && SameMessages(items, slice)
    ensures Reached(name, slice, handled)
  {
    forall i | 0 <= i < |slice| ensures HandledAs(name, slice[i].messageId, handled) {
      assert name(items[i].identity.value) == slice[i].messageId;
    }
  }

  lemma ReachedTogether(name: Naming, all: seq<Raw>, from: nat, reach: nat, handled: set<Encoded>)
    requires from <= reach <= |all| && Reached(name, all[..from], handled) && Reached(name, all[from..reach], handled)
    ensures Reached(name, all[..reach], handled)
  {
    forall i | 0 <= i < reach ensures HandledAs(name, all[..reach][i].messageId, handled) {
      if i < from {
        assert all[..from][i] == all[..reach][i];
      } else {
        assert all[from..reach][i - from] == all[..reach][i];
      }
    }
  }

  lemma NoOtherIsReached(name: Naming, all: seq<Raw>, reach: nat, handled: set<Encoded>)
    requires NoOtherMessage(all, reach) && Reached(name, all[..reach], handled)
    ensures Reached(name, all, handled)
  {
    forall k | 0 <= k < |all| ensures HandledAs(name, all[k].messageId, handled) {
      if k < reach {
        assert all[..reach][k] == all[k];
      } else {
        var i :| 0 <= i < reach && all[..reach][i].messageId == all[k].messageId;
      }
    }
  }

  // ---------------------------------------------------------------- every run

  /** What a saved backlog vouches for: everything before its token was handled in some version. */
  ghost predicate CheckpointVouches(src: Source, name: Naming, s: SourceState) {
    && CursorVouches(s)
    && match s.checkpoint.backlog
       case None => true
       case Some(b) =>
         var all, from := src.items(b.start, b.end), Offset(src, b.start, b.end, b.token);
         from <= |all| && Reached(name, all[..from], s.handled)
  }

  /** What handling the drained items to the end means for the window. */
  lemma CompletedBatchReaches(src: Source, name: Naming, w: Window, out: DrainOutcome, withheld: bool,
                              before: set<Encoded>, after: set<Encoded>)
    requires out.Drained? && before <= after && Covered(out.items, after)
    requires var from := Offset(src, w.start, w.end, w.token);
             && from <= |src.items(w.start, w.end)| && Reached(name, src.items(w.start, w.end)[..from], before)
             && DrainedEdition(src, name, w, from, out, withheld)
    ensures out.complete && !withheld ==> WindowReached(src, name, w, after)
    ensures !out.complete ==>
              var reach := Offset(src, w.start, w.end, out.token);
              reach <= |src.items(w.start, w.end)| && Reached(name, src.items(w.start, w.end)[..reach], after)
  {
    var all, from := src.items(w.start, w.end), Offset(src, w.start, w.end, w.token);
    var reach := from + |out.items|;
    ReachedStays(name, all[..from], before, after);
    CoveredIsReached(name, out.items, all[from..reach], after);
    ReachedTogether(name, all, from, reach, after);
    if out.complete && !withheld {
      assert AllNormal(out.items);
      NoOtherIsReached(name, all, reach, after);
    }
  }

  /** One tick keeps the checkpoint true and completes a window only when all its messages were handled in some version. */
  lemma EditedTickIsSafe(config: Config, src: Source, name: Naming, s: SourceState, env: TickEnv)
    requires CheckpointVouches(src, name, s) && HonestEditions(src, name, env.fetch)
    ensures var t := Tick(config, s, env);
            && s.handled <= t.state.handled
            && CheckpointVouches(src, name, t.state)
            && (t.complete && NeverWithholdsMessage(src, env.fetch) ==>
                  WindowReached(src, name, OpenWindow(config.overlap, s.checkpoint, env.now), t.state.handled))
  {
    var w := OpenWindow(config.overlap, s.checkpoint, env.now);
    var from := Offset(src, w.start, w.end, w.token);
    DrainFromReturnsEdition(config, src, name, w, env, DrainState([], w.token, {}, 0, 0), from);
    var out := Drain(config, w, env);
    if out.Drained? {
      var t := Tick(config, s, env);
      DrainedTickEnds(config, s, env, w, out);
      if t.batchComplete {
        CompletedBatchReaches(src, name, w, out, !NeverWithholdsMessage(src, env.fetch), s.handled, t.state.handled);
      } else {
        ReachedStays(name, src.items(w.start, w.end)[..from], s.handled, t.state.handled);
      }
    }
  }

  lemma {:induction false} EditedRunKeepsHandled(config: Config, src: Source, name: Naming, s: SourceState, envs: seq<TickEnv>)
    requires CheckpointVouches(src, name, s) && EditedRun(src, name, envs)
    ensures s.handled <= Run(config, s, envs).handled && CheckpointVouches(src, name, Run(config, s, envs))
    decreases |envs|
  {
    if envs != [] {
      EditedTickIsSafe(config, src, name, s, envs[0]);
      EditedRunKeepsHandled(config, src, name, Tick(config, s, envs[0]).state, envs[1..]);
    }
  }

  /**
   No message is skipped when messages are edited between fetches: over any run, with changed replays
   and cursors that no longer match, every message of every completed window was handled in some version.
   */
  lemma {:induction false} NoEditedMessageIsSkipped(config: Config, src: Source, name: Naming, s: SourceState, envs: seq<TickEnv>)
    requires CheckpointVouches(src, name, s) && EditedRun(src, name, envs) && NoMessageWithheld(src, envs)
    ensures AllReached(src, name, CompletedWindows(config, s, envs), Run(config, s, envs).handled)
    decreases |envs|
  {
    if envs != [] {
      var t := Tick(config, s, envs[0]);
      var w := OpenWindow(config.overlap, s.checkpoint, envs[0].now);
      EditedTickIsSafe(config, src, name, s, envs[0]);
      EditedRunKeepsHandled(config, src, name, t.state, envs[1..]);
      NoEditedMessageIsSkipped(config, src, name, t.state, envs[1..]);
      if t.complete {
        ReachedStays(name, src.items(w.start, w.end), t.state.handled, Run(config, s, envs).handled);
      }
      assert CompletedWindows(config, s, envs) == (if t.complete then [w] else []) + CompletedWindows(config, t.state, envs[1..]);
    }
  }

  // ---------------------------------------------------------------- the exact condition

  ghost predicate TruthfulEditions(src: Source, name: Naming, provider: Provider) {
    forall q, page :: provider(q, page) ==> HonestEdition(src, name, q, page)
  }

  /** From every checkpoint that vouches, every message of every completed window of every run was handled in some version. */
  ghost predicate NeverSkipsMessage(src: Source, name: Naming, provider: Provider) {
    forall config, s, envs :: CheckpointVouches(src, name, s) && RepliesFrom(provider, envs)
                              ==> AllReached(src, name, CompletedWindows(config, s, envs), Run(config, s, envs).handled)
  }

  ghost predicate HasVersion(name: Naming, messageId: string) {
    exists id :: name(id) == messageId
  }

  ghost predicate EveryMessageHasVersions(name: Naming) {
    forall messageId: string :: HasVersion(name, messageId)
  }

  ghost function SomeVersion(name: Naming, messageId: string): (id: Encoded)
    requires EveryMessageHasVersions(name)
    ensures name(id) == messageId
  {
    assert HasVersion(name, messageId);
    var id :| name(id) == messageId;
    id
  }

  /** A checkpoint that resumes exactly at the query's token, with one version handled of each message before it. */
  ghost function ResumedWith(src: Source, name: Naming, q: Query): (s: SourceState)
    requires EveryMessageHasVersions(name) && Offset(src, q.start, q.end, q.token) <= |src.items(q.start, q.end)|
    ensures CheckpointVouches(src, name, s) && ResumeCursor(s.checkpoint).None?
    ensures OpenWindow(0, s.checkpoint, q.end) == Window(q.start, q.end, q.token)
    ensures forall id :: id in s.handled ==>
              HasMessage(src.items(q.start, q.end)[..Offset(src, q.start, q.end, q.token)], name(id))
  {
    var seen := src.items(q.start, q.end)[..Offset(src, q.start, q.end, q.token)];
    var handled := set i | 0 <= i < |seen| :: SomeVersion(name, seen[i].messageId);
    assert Reached(name, seen, handled) by {
      forall i | 0 <= i < |seen| ensures HandledAs(name, seen[i].messageId, handled) {
        assert SomeVersion(name, seen[i].messageId) in handled;
      }
    }
    SourceState(Checkpoint(None, Some(Backlog(q.start, q.end, q.token, None))), handled)
  }

  lemma PageMessages(src: Source, name: Naming, q: Query, page: Page, id: Encoded)
    requires HonestEdition(src, name, q, page) && WithholdsMessage(src, q, page) && id in IdentitySet(page.items)
    ensures var reach := Offset(src, q.start, q.end, q.token) + |page.items|;
            HasMessage(src.items(q.start, q.end)[..reach], name(id))
  {
    var all, from := src.items(q.start, q.end), Offset(src, q.start, q.end, q.token);
    var reach := from + |page.items|;
    var i :| 0 <= i < |page.items| && page.items[i].identity == Some(id);
    assert all[from..reach][i] == all[..reach][from + i];
  }

  lemma SeenStaysSeen(all: seq<Raw>, from: nat, reach: nat, messageId: string)
    requires from <= reach <= |all| && HasMessage(all[..from], messageId)
    ensures HasMessage(all[..reach], messageId)
  {
    var i :| 0 <= i < from && all[..from][i].messageId == messageId;
    assert all[..reach][i].messageId == messageId;
  }

  lemma WithheldMessageIsSkipped(src: Source, name: Naming, q: Query, page: Page)
    requires EveryMessageHasVersions(name) && HonestEdition(src, name, q, page) && WithholdsMessage(src, q, page)
    ensures var config, s, envs := ConfigFor(q, page, 0), ResumedWith(src, name, q), [EnvFor(q, page)];
            && CompletedWindows(config, s, envs) == [Window(q.start, q.end, q.token)]
            && !WindowReached(src, name, Window(q.start, q.end, q.token), Run(config, s, envs).handled)
  {
    var all, from := src.items(q.start, q.end), Offset(src, q.start, q.end, q.token);
    var reach := from + |page.items|;
    var s := ResumedWith(src, name, q);
    LonePageRun(q, page, 0, s);
    var handled := Run(ConfigFor(q, page, 0), s, [EnvFor(q, page)]).handled;
    forall id | id in handled ensures HasMessage(all[..reach], name(id)) {
      if id in IdentitySet(page.items) {
        PageMessages(src, name, q, page, id);
      } else {
        SeenStaysSeen(all, from, reach, name(id));
      }
    }
    UnseenIsUnhandled(name, all, reach, handled);
  }

  lemma UnseenIsUnhandled(name: Naming, all: seq<Raw>, reach: nat, handled: set<Encoded>)
    requires reach <= |all| && !NoOtherMessage(all, reach)
    requires forall id :: id in handled ==> HasMessage(all[..reach], name(id))
    ensures !Reached(name, all, handled)
  {
    var k :| reach <= k < |all| && !HasMessage(all[..reach], all[k].messageId);
    assert !HandledAs(name, all[k].messageId, handled);
  }

  lemma EditionsAreHonest(src: Source, name: Naming, provider: Provider, envs: seq<TickEnv>)
    requires TruthfulEditions(src, name, provider) && RepliesFrom(provider, envs)
    requires forall q, page :: provider(q, page) ==> !WithholdsMessage(src, q, page)
    ensures EditedRun(src, name, envs) && NoMessageWithheld(src, envs)
  {
  }

  /**
   For every source and every provider that shows its messages in any versions: all messages of all
   completed windows of all runs are handled in some version if and only if no readable page withholds one.
   */
  lemma NoEditedMessageIsSkippedExactly(src: Source, name: Naming, provider: Provider)
    requires EveryMessageHasVersions(name) && TruthfulEditions(src, name, provider)
    ensures NeverSkipsMessage(src, name, provider) <==> forall q, page :: provider(q, page) ==> !WithholdsMessage(src, q, page)
  {
    if forall q, page :: provider(q, page) ==> !WithholdsMessage(src, q, page) {
      forall config, s, envs | CheckpointVouches(src, name, s) && RepliesFrom(provider, envs)
        ensures AllReached(src, name, CompletedWindows(config, s, envs), Run(config, s, envs).handled)
      {
        EditionsAreHonest(src, name, provider, envs);
        NoEditedMessageIsSkipped(config, src, name, s, envs);
      }
    } else {
      var q, page :| provider(q, page) && WithholdsMessage(src, q, page);
      var s, config, envs := ResumedWith(src, name, q), ConfigFor(q, page, 0), [EnvFor(q, page)];
      WithheldMessageIsSkipped(src, name, q, page);
      assert RepliesFrom(provider, envs);
      assert !WindowReached(src, name, CompletedWindows(config, s, envs)[0], Run(config, s, envs).handled);
    }
  }
}
