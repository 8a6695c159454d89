/**
 How much the ingestion theorem asks of the provider. A page may claim more items and carry no token;
 the drain then ends as complete. Windows are covered in every run exactly when no such page leaves an
 item behind that is no repetition.
 */
module IngestionWithholding {
  import opened Base
  import opened Framing
  import opened IngestionModel
  import opened IngestionSafety
  import opened IngestionProgress

  /** The pages a provider may answer each query with. */
  type Provider = (Query, Page) -> bool

  ghost predicate Truthful(src: Source, provider: Provider) {
    forall q, page :: provider(q, page) ==> HonestPage(src, q, page)
  }

  ghost predicate RepliesFrom(provider: Provider, envs: seq<TickEnv>) {
    forall i, n, q :: 0 <= i < |envs| && envs[i].fetch(n, q).Fetched? ==> provider(q, envs[i].fetch(n, q).page)
  }

  /** From every sound checkpoint, every completed window of every run is covered. */
  ghost predicate NeverSkips(src: Source, provider: Provider) {
    forall config, s, envs :: CheckpointSound(src, s) && RepliesFrom(provider, envs)
                              ==> AllCovered(src, CompletedWindows(config, s, envs), Run(config, s, envs).handled)
  }

  // ---------------------------------------------------------------- a run that skips

  /** A configuration in which the first query of a window's drain is exactly `q`, and `page` is accepted. */
  function ConfigFor(q: Query, page: Page, overlap: nat): Config {
    Config(overlap, q.pageLimit, if q.pageSize < PAGE_SIZE || |page.items| < PAGE_SIZE then q.pageSize else |page.items|, 1.0)
  }

  /** A tick in which only `q` is answered, by `page`, and nothing else goes wrong. */
  function EnvFor(q: Query, page: Page): TickEnv {
    TickEnv(q.end, 0.0, (n, other) => if other == q then Fetched(page) else FetchRaised, n => 0.0, n => 0.0, n => false)
  }

  lemma PageEndsTheDrain(q: Query, page: Page, overlap: nat)
    requires Asked(q) && Accepted(q, page) && IsTerminal(page)
    ensures Drain(ConfigFor(q, page, overlap), Window(q.start, q.end, q.token), EnvFor(q, page))
            == Drained(page.items, true, None, page.pageCount, None)
  {
    var config, w, env := ConfigFor(q, page, overlap), Window(q.start, q.end, q.token), EnvFor(q, page);
    var d := DrainState([], w.token, {}, 0, 0);
    assert DrainCutOff(config, env, d).None?;
    assert NextQuery(config, w, d) == q;
    assert env.fetch(0, q) == Fetched(page);
    assert [] + page.items == page.items;
  }

  lemma SortedIdentities(items: seq<Raw>)
    ensures IdentitySet(SortRaws(items)) <= IdentitySet(items)
  {
    SortSorts(items);
    forall id | id in IdentitySet(SortRaws(items)) ensures id in IdentitySet(items) {
      var i :| 0 <= i < |SortRaws(items)| && SortRaws(items)[i].identity == Some(id);
      assert SortRaws(items)[i] in multiset(SortRaws(items));
      assert SortRaws(items)[i] in items;
    }
  }

  /** What the page's items are, in terms of the source. */
  lemma PageItems(src: Source, q: Query, page: Page)
    requires HonestPage(src, q, page) && Withholds(src, q, page)
    ensures var all, from := src.items(q.start, q.end), Offset(src, q.start, q.end, q.token);
            && AllNormal(page.items) && from + |page.items| <= |all| && AllNormal(all[..from + |page.items|])
            && IdentitySet(page.items) <= IdentitySet(all[..from + |page.items|])
            && IdentitySet(all[..from]) <= IdentitySet(all[..from + |page.items|])
  {
    var all, from := src.items(q.start, q.end), Offset(src, q.start, q.end, q.token);
    var seen := all[..from + |page.items|];
    forall i | 0 <= i < |page.items| ensures page.items[i].identity.Some? && page.items[i].identity == seen[from + i].identity {
      assert SameReplay(page.items[i], all[from..from + |page.items|][i]);
    }
    forall id | id in IdentitySet(all[..from]) ensures id in IdentitySet(seen) {
      var i :| 0 <= i < from && all[..from][i].identity == Some(id);
      assert seen[i].identity == Some(id);
    }
  }

  /** The tick completes the window and handles nothing behind the page. */
  lemma LonePageTick(q: Query, page: Page, overlap: nat, s: SourceState)
    requires Asked(q) && Accepted(q, page) && IsTerminal(page) && AllNormal(page.items)
    requires OpenWindow(overlap, s.checkpoint, q.end) == Window(q.start, q.end, q.token) && ResumeCursor(s.checkpoint).None?
    ensures var t := Tick(ConfigFor(q, page, overlap), s, EnvFor(q, page));
            t.complete && t.state.handled <= s.handled + IdentitySet(page.items)
  {
    var config, env := ConfigFor(q, page, overlap), EnvFor(q, page);
    PageEndsTheDrain(q, page, overlap);
    UndisturbedTickCompletes(config, s, env);
    SortKeepsLength(page.items);
    SortedIsNormal(page.items);
    UndisturbedBatchStop(SortRaws(page.items), 0, config, env, 0);
    SortedIdentities(page.items);
    assert SortRaws(page.items)[0..|page.items|] == SortRaws(page.items);
  }

  lemma LonePageRun(q: Query, page: Page, overlap: nat, s: SourceState)
    requires Asked(q) && Accepted(q, page) && IsTerminal(page) && AllNormal(page.items)
    requires OpenWindow(overlap, s.checkpoint, q.end) == Window(q.start, q.end, q.token) && ResumeCursor(s.checkpoint).None?
    ensures var config, envs := ConfigFor(q, page, overlap), [EnvFor(q, page)];
            && CompletedWindows(config, s, envs) == [Window(q.start, q.end, q.token)]
            && Run(config, s, envs).handled <= s.handled + IdentitySet(page.items)
  {
    var config, env := ConfigFor(q, page, overlap), EnvFor(q, page);
    LonePageTick(q, page, overlap, s);
    var t := Tick(config, s, env);
    assert [env][1..] == [];
    assert Run(config, s, [env]) == Run(config, t.state, []);
    assert CompletedWindows(config, s, [env]) == [Window(q.start, q.end, q.token)] + CompletedWindows(config, t.state, []);
  }

  /** So the completed window holds an item that no tick has handled. */
  lemma WithheldItemIsSkipped(src: Source, q: Query, page: Page, overlap: nat, s: SourceState)
    requires HonestPage(src, q, page) && Withholds(src, q, page)
    requires OpenWindow(overlap, s.checkpoint, q.end) == Window(q.start, q.end, q.token) && ResumeCursor(s.checkpoint).None?
    requires s.handled <= IdentitySet(src.items(q.start, q.end)[..Offset(src, q.start, q.end, q.token)])
    ensures var config, envs := ConfigFor(q, page, overlap), [EnvFor(q, page)];
            && CompletedWindows(config, s, envs) == [Window(q.start, q.end, q.token)]
            && !WindowCovered(src, Window(q.start, q.end, q.token), Run(config, s, envs).handled)
  {
    var all, from := src.items(q.start, q.end), Offset(src, q.start, q.end, q.token);
    PageItems(src, q, page);
    LonePageRun(q, page, overlap, s);
    var reach := from + |page.items|;
    var k :| reach <= k < |all| && (all[k].identity.None? || all[k].identity.value !in IdentitySet(all[..reach]));
    assert all[k].identity.None? || all[k].identity.value !in Run(ConfigFor(q, page, overlap), s, [EnvFor(q, page)]).handled;
  }

  /** A new source can lose a message that way in its very first tick. */
  lemma FreshSourceCanSkip(src: Source, q: Query, page: Page)
    requires HonestPage(src, q, page) && Withholds(src, q, page) && q.token.None? && q.start <= q.end
    ensures var config, envs := ConfigFor(q, page, q.end - q.start), [EnvFor(q, page)];
            && HonestRun(src, envs)
            && CompletedWindows(config, FRESH, envs) == [Window(q.start, q.end, None)]
            && !WindowCovered(src, Window(q.start, q.end, None), Run(config, FRESH, envs).handled)
  {
    WithheldItemIsSkipped(src, q, page, q.end - q.start, FRESH);
  }

  // ---------------------------------------------------------------- the exact condition

  /** A checkpoint that resumes exactly at the query's token. */
  ghost function ResumedAt(src: Source, q: Query): SourceState
    requires Offset(src, q.start, q.end, q.token) <= |src.items(q.start, q.end)|
  {
    SourceState(Checkpoint(None, Some(Backlog(q.start, q.end, q.token, None))),
                IdentitySet(src.items(q.start, q.end)[..Offset(src, q.start, q.end, q.token)]))
  }

  lemma ResumedAtIsSound(src: Source, q: Query, page: Page)
    requires HonestPage(src, q, page) && Withholds(src, q, page)
    ensures CheckpointSound(src, ResumedAt(src, q))
  {
    var all, from := src.items(q.start, q.end), Offset(src, q.start, q.end, q.token);
    PageItems(src, q, page);
    forall i | 0 <= i < from
      ensures all[..from][i].identity.Some? && all[..from][i].identity.value in IdentitySet(all[..from])
    {
      assert all[..from][i] == all[..from + |page.items|][i];
    }
  }

  lemma ProviderRunIsHonest(src: Source, provider: Provider, envs: seq<TickEnv>)
    requires Truthful(src, provider) && RepliesFrom(provider, envs)
    requires forall q, page :: provider(q, page) ==> !Withholds(src, q, page)
    ensures HonestRun(src, envs) && NoneWithholds(src, envs)
  {
  }

  /**
   For every source and every provider that keeps its contract: all completed windows of all runs are
   covered if and only if no page of the provider withholds an item.
   */
  lemma NoMessageIsSkippedExactly(src: Source, provider: Provider)
    requires Truthful(src, provider)
    ensures NeverSkips(src, provider) <==> forall q, page :: provider(q, page) ==> !Withholds(src, q, page)
  {
    if forall q, page :: provider(q, page) ==> !Withholds(src, q, page) {
      forall config, s, envs | CheckpointSound(src, s) && RepliesFrom(provider, envs)
        ensures AllCovered(src, CompletedWindows(config, s, envs), Run(config, s, envs).handled)
      {
        ProviderRunIsHonest(src, provider, envs);
        NoMessageIsSkipped(config, src, s, envs);
      }
    } else {
      var q, page :| provider(q, page) && Withholds(src, q, page);
      ResumedAtIsSound(src, q, page);
      var s, config, envs := ResumedAt(src, q), ConfigFor(q, page, 0), [EnvFor(q, page)];
      WithheldItemIsSkipped(src, q, page, 0, s);
      assert RepliesFrom(provider, envs);
      assert !WindowCovered(src, CompletedWindows(config, s, envs)[0], Run(config, s, envs).handled);
    }
  }

  /** Where every item of a window is readable and none repeats another, withholding is stopping short of the end. */
  lemma ShortPageWithholdsExactly(all: seq<Raw>, reach: nat)
    requires AllNormal(all) && reach <= |all|
    requires forall i, j :: 0 <= i < j < |all| ==> all[i].identity != all[j].identity
    ensures NothingNew(all, reach) <==> reach == |all|
  {
    if reach < |all| {
      assert forall i :: 0 <= i < reach ==> all[..reach][i] == all[i];
      assert all[reach].identity.value !in IdentitySet(all[..reach]);
    }
  }
}
