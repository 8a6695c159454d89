/**
 The imperative form of one ingestion source. Each method is proved equal to the corresponding
 function of `IngestionModel`, so every lemma about those functions is about this object.
 */
module IngestionService {
  import opened Base
  import opened Framing
  import opened IngestionModel

  datatype RawBatchResult = RawBatchResult(handledItems: nat, stop: Stop, cursor: Option<Cursor>)

  datatype StageOutcome = StageReturned(complete: bool, handledItems: nat) | StageRaised

  class MessageSource {
    const config: Config
    var checkpoint: Checkpoint
    var handled: set<Encoded>

    constructor (config: Config)
      ensures this.config == config && State() == FRESH
    {
      this.config := config;
      checkpoint := Checkpoint(None, None);
      handled := {};
    }

    ghost function State(): SourceState
      reads this
    {
      SourceState(checkpoint, handled)
    }

    /** `_drain`: pages are fetched until the source ends, a cap or the budget is reached, or a call fails. */
    method DrainWindow(window: Window, env: TickEnv) returns (out: DrainOutcome)
      modifies this`checkpoint
      ensures out == Drain(config, window, env)
      ensures checkpoint == if out == DrainRaised(true) then ResetResumedToken(old(checkpoint)) else old(checkpoint)
    {
      var items: seq<Raw> := [];
      var token := window.token;
      var seen: set<Token> := {};
      var pages: nat, calls: nat := 0, 0;
      while true
        invariant checkpoint == old(checkpoint)
        invariant DrainFrom(config, window, env, DrainState(items, token, seen, pages, calls)) == Drain(config, window, env)
        invariant pages <= config.maxPages
        decreases config.maxPages - pages
      {
        ghost var d := DrainState(items, token, seen, pages, calls);
        if pages >= config.maxPages {
          return Drained(items, false, token, pages, Some(PageCap));
        }
        if |items| >= config.maxMessages {
          return Drained(items, false, token, pages, Some(MessageCap));
        }
        var now := env.drainClock(calls);
        if now >= env.startedAt + config.budget || (items != [] && now >= FetchDeadline(config, env.startedAt)) {
          return Drained(items, false, token, pages, Some(TickBudget));
        }
        var pageSize := Min(PAGE_SIZE, config.maxMessages - |items|);
        var reply := env.fetch(calls, Query(window.start, window.end, token, pageSize, config.maxPages - pages));
        if reply.FetchRaised? {
          if pages == 0 && window.token.Some? {
            checkpoint := ResetResumedToken(checkpoint);
            return DrainRaised(true);
          }
          return DrainRaised(false);
        }
        var page := reply.page;
        if |page.items| > config.maxMessages - |items| || page.pageCount < 1 || page.pageCount > config.maxPages - pages {
          return DrainRaised(false);
        }
        items, pages := items + page.items, pages + page.pageCount;
        if IsTerminal(page) {
          return Drained(items, true, None, pages, None);
        }
        if token == page.next || page.next.value in seen {
          return DrainRaised(false);
        }
        seen, token, calls := seen + {page.next.value}, page.next, calls + 1;
        assert DrainState(items, token, seen, pages, calls) == AfterPage(d, page);
      }
    }

    /** `_process_raw_batch`: the ordered batch is handled item by item until done, out of time or failed. */
    method ProcessRawBatch(raws: seq<Raw>, cursor: Option<Cursor>, env: TickEnv) returns (batch: RawBatchResult)
      modifies this`handled
      ensures BatchResultIs(SortRaws(raws), ValidatedPrefix(SortRaws(raws), cursor), env, batch)
      ensures handled == old(handled) + HandledBy(SortRaws(raws), ValidatedPrefix(SortRaws(raws), cursor), env)
    {
      var ordered := SortRaws(raws);
      batch := ProcessOrdered(ordered, ValidatedPrefix(ordered, cursor), env);
    }

    ghost predicate BatchResultIs(ordered: seq<Raw>, first: nat, env: TickEnv, batch: RawBatchResult)
      requires first <= |ordered|
    {
      var (last, stop) := BatchStop(ordered, first, config, env, 0);
      batch == RawBatchResult(last - first, stop, if stop == OutOfTime then Some(SavedCursor(ordered, last)) else None)
    }

    ghost function HandledBy(ordered: seq<Raw>, first: nat, env: TickEnv): set<Encoded>
      requires first <= |ordered|
    {
      IdentitySet(ordered[first..BatchStop(ordered, first, config, env, 0).0])
    }

    method ProcessOrdered(ordered: seq<Raw>, first: nat, env: TickEnv) returns (batch: RawBatchResult)
      requires first <= |ordered|
      modifies this`handled
      ensures BatchResultIs(ordered, first, env, batch)
      ensures handled == old(handled) + HandledBy(ordered, first, env)
    {
      var completed := first;
      while completed < |ordered|
        invariant first <= completed <= |ordered|
        invariant BatchStop(ordered, completed, config, env, completed - first) == BatchStop(ordered, first, config, env, 0)
        invariant handled == old(handled) + IdentitySet(ordered[first..completed])
      {
        if env.batchClock(completed - first) >= env.startedAt + config.budget {
          return RawBatchResult(completed - first, OutOfTime, Some(SavedCursor(ordered, completed)));
        }
        var item := ordered[completed];
        if item.identity.None? || env.processingRaises(completed - first) {
          return RawBatchResult(completed - first, Raised, None);
        }
        handled := handled + {item.identity.value};
        IdentitySetGrows(ordered, first, completed);
        completed := completed + 1;
      }
      batch := RawBatchResult(completed - first, Completed, None);
    }

    /** One tick of the source: `_window`, `_drain`, `_process_drain_batch`, `_record_drain`. */
    method RunStage(env: TickEnv) returns (r: StageOutcome)
      modifies this
      ensures State() == Tick(config, old(State()), env).state
      ensures var t := Tick(config, old(State()), env);
              r == if t.raised then StageRaised else StageReturned(t.complete, t.handledItems)
    {
      var before := checkpoint;
      var window := OpenWindow(config.overlap, before, env.now);
      var drain := DrainWindow(window, env);
      if drain.DrainRaised? {
        return StageRaised;
      }
      SortKeepsLength(drain.items);
      var batch := ProcessRawBatch(drain.items, ResumeCursor(before), env);
      match batch.stop
      case Raised =>
        return StageRaised;
      case Completed =>
        checkpoint := RecordDrain(before, window, drain.complete, drain.token, None);
        return StageReturned(drain.complete, batch.handledItems);
      case OutOfTime =>
        checkpoint := RecordDrain(before, window, false, window.token, batch.cursor);
        return StageReturned(false, batch.handledItems);
    }
  }

  lemma IdentitySetGrows(ordered: seq<Raw>, first: nat, i: nat)
    requires first <= i < |ordered| && ordered[i].identity.Some?
    ensures IdentitySet(ordered[first..i + 1]) == IdentitySet(ordered[first..i]) + {ordered[i].identity.value}
  {
    var small, large := ordered[first..i], ordered[first..i + 1];
    assert large == small + [ordered[i]];
    forall id | id in IdentitySet(large) ensures id in IdentitySet(small) + {ordered[i].identity.value} {
      var k :| 0 <= k < |large| && large[k].identity == Some(id);
      if k < |small| {
        assert small[k] == large[k];
      }
    }
    forall id | id in IdentitySet(small) ensures id in IdentitySet(large) {
      var k :| 0 <= k < |small| && small[k].identity == Some(id);
      assert large[k] == small[k];
    }
    assert large[|small|].identity == Some(ordered[i].identity.value);
  }
}
