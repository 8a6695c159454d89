/**
 One message source of `IngestionService`: its checkpoint, the bounded drain of one window, the
 replay-safe processing of the fetched batch, and the checkpoint update that ends a tick.
 The fetch client, both clocks and processing failures are arbitrary functions of the call number.
 */
module IngestionModel {
  import opened Base
  import opened Framing

  const PAGE_SIZE: nat := 50
  const MAX_PROCESSING_RESERVE_SECONDS: real := 5.0

  type Token = string

  /**
   A fetched raw message. `identity` is the encoded replay identity of the normalized message, or
   `None` when the normalizer raises. `enrichment` stands for everything the identity leaves out.
   */
  datatype Raw = Raw(sentAt: Option<int>, messageId: string, identity: Option<Encoded>, enrichment: string)

  datatype Page = Page(items: seq<Raw>, next: Option<Token>, hasMore: bool, pageCount: int)

  datatype FetchResult = Fetched(page: Page) | FetchRaised

  datatype Query = Query(start: int, end: int, token: Option<Token>, pageSize: nat, pageLimit: nat)

  /** The provider: the reply to the n-th call of a tick, free to differ from call to call. */
  type Fetch = (nat, Query) -> FetchResult

  datatype Cursor = Cursor(completedItems: nat, prefix: Digest)

  datatype Backlog = Backlog(start: int, end: int, token: Option<Token>, cursor: Option<Cursor>)

  datatype Checkpoint = Checkpoint(lastSuccess: Option<int>, backlog: Option<Backlog>)

  datatype Window = Window(start: int, end: int, token: Option<Token>)

  datatype Config = Config(overlap: nat, maxPages: nat, maxMessages: nat, budget: real)

  /** Everything a tick reads from outside. */
  datatype TickEnv = TickEnv(
    now: int,
    startedAt: real,
    fetch: Fetch,
    drainClock: nat -> real,
    batchClock: nat -> real,
    processingRaises: nat -> bool)

  datatype DeferReason = PageCap | MessageCap | TickBudget

  datatype DrainOutcome =
    | Drained(items: seq<Raw>, complete: bool, token: Option<Token>, pages: nat, reason: Option<DeferReason>)
    | DrainRaised(resetsToken: bool)

  datatype Stop = Completed | OutOfTime | Raised

  /** A source's durable state: its checkpoint and the replay identities already handled. */
  datatype SourceState = SourceState(checkpoint: Checkpoint, handled: set<Encoded>)

  datatype TickResult = TickResult(
    state: SourceState,
    raised: bool,
    complete: bool,
    fetchedItems: nat,
    handledItems: nat,
    batchComplete: bool)

  // ---------------------------------------------------------------- ordering a batch

  /** `_raw_sort_key`: time first (an unreadable time sorts before every other), then message id. */
  predicate KeyLeq(a: Raw, b: Raw) {
    if a.sentAt == b.sentAt then StringLeq(a.messageId, b.messageId)
    else a.sentAt.None? || (b.sentAt.Some? && a.sentAt.value < b.sentAt.value)
  }

  ghost predicate SortedByKey(s: seq<Raw>) {
    forall i :: 0 <= i < |s| - 1 ==> KeyLeq(s[i], s[i + 1])
  }

  function InsertByKey(x: Raw, s: seq<Raw>): seq<Raw> {
    if s == [] || KeyLeq(x, s[0]) then [x] + s else [s[0]] + InsertByKey(x, s[1..])
  }

  /** Python's stable `sorted`. */
  function SortRaws(s: seq<Raw>): seq<Raw> {
    if s == [] then [] else InsertByKey(s[0], SortRaws(s[1..]))
  }

  // ---------------------------------------------------------------- the processing cursor

  predicate AllNormal(raws: seq<Raw>) {
    forall i :: 0 <= i < |raws| ==> raws[i].identity.Some?
  }

  function Identities(raws: seq<Raw>): (ids: seq<Encoded>)
    requires AllNormal(raws)
    ensures |ids| == |raws|
    ensures forall i :: 0 <= i < |raws| ==> ids[i] == raws[i].identity.value
  {
    if raws == [] then [] else [raws[0].identity.value] + Identities(raws[1..])
  }

  function PrefixDigest(raws: seq<Raw>): Option<Digest> {
    if AllNormal(raws) then Some(Sha256(FrameAll(Identities(raws)))) else None
  }

  function SavedCursor(ordered: seq<Raw>, completedItems: nat): Cursor
    requires completedItems <= |ordered|
  {
    match PrefixDigest(ordered[..completedItems])
    case Some(digest) => Cursor(completedItems, digest)
    case None => Cursor(0, Sha256([]))
  }

  function ResumeCursor(checkpoint: Checkpoint): Option<Cursor> {
    match checkpoint.backlog
    case Some(backlog) => backlog.cursor
    case None => None
  }

  /** How many leading items of the ordered batch the tick may skip. */
  function ValidatedPrefix(ordered: seq<Raw>, cursor: Option<Cursor>): (n: nat)
    ensures n <= |ordered|
  {
    if cursor.None? || cursor.value.completedItems == 0 then 0
    else if cursor.value.completedItems <= |ordered|
            && PrefixDigest(ordered[..cursor.value.completedItems]) == Some(cursor.value.prefix)
    then cursor.value.completedItems
    else 0
  }

  // ---------------------------------------------------------------- window and checkpoint

  function OpenWindow(overlap: nat, checkpoint: Checkpoint, now: int): Window {
    match checkpoint.backlog
    case Some(b) => Window(b.start, b.end, b.token)
    case None =>
      match checkpoint.lastSuccess
      case Some(last) => Window(last - overlap, now, None)
      case None => Window(now - overlap, now, None)
  }

  function RecordDrain(checkpoint: Checkpoint, window: Window, complete: bool, token: Option<Token>,
                       cursor: Option<Cursor>): Checkpoint {
    if complete then Checkpoint(Some(window.end), None)
    else Checkpoint(checkpoint.lastSuccess, Some(Backlog(window.start, window.end, token, cursor)))
  }

  function ResetResumedToken(checkpoint: Checkpoint): Checkpoint {
    match checkpoint.backlog
    case Some(b) => checkpoint.(backlog := Some(b.(token := None, cursor := None)))
    case None => checkpoint
  }

  // ---------------------------------------------------------------- the drain

  function Min(a: int, b: int): int { if a <= b then a else b }

  function FetchDeadline(config: Config, startedAt: real): real {
    var reserve := config.budget / 2.0;
    startedAt + config.budget
    - (if MAX_PROCESSING_RESERVE_SECONDS <= reserve then MAX_PROCESSING_RESERVE_SECONDS else reserve)
  }

  predicate IsTerminal(page: Page) {
    !page.hasMore || page.next.None? || page.next.value == ""
  }

  datatype DrainState = DrainState(items: seq<Raw>, token: Option<Token>, seen: set<Token>, pages: nat, calls: nat)

  function NextQuery(config: Config, window: Window, d: DrainState): Query
    requires |d.items| < config.maxMessages && d.pages < config.maxPages
  {
    Query(window.start, window.end, d.token, Min(PAGE_SIZE, config.maxMessages - |d.items|), config.maxPages - d.pages)
  }

  /** The budget checks made before each page: `Some(reason)` ends the drain. */
  function DrainCutOff(config: Config, env: TickEnv, d: DrainState): Option<DeferReason> {
    if d.pages >= config.maxPages then Some(PageCap)
    else if |d.items| >= config.maxMessages then Some(MessageCap)
    else if env.drainClock(d.calls) >= env.startedAt + config.budget then Some(TickBudget)
    else if d.items != [] && env.drainClock(d.calls) >= FetchDeadline(config, env.startedAt) then Some(TickBudget)
    else None
  }

  predicate PageWithinCaps(config: Config, d: DrainState, page: Page) {
    |d.items| + |page.items| <= config.maxMessages && 1 <= page.pageCount && d.pages + page.pageCount <= config.maxPages
  }

  function DrainFrom(config: Config, window: Window, env: TickEnv, d: DrainState): DrainOutcome
    decreases config.maxPages - d.pages
  {
    var cut := DrainCutOff(config, env, d);
    if cut.Some? then Drained(d.items, false, d.token, d.pages, cut)
    else
      match env.fetch(d.calls, NextQuery(config, window, d))
      case FetchRaised => DrainRaised(d.pages == 0 && window.token.Some?)
      case Fetched(page) =>
        if !PageWithinCaps(config, d, page) then DrainRaised(false)
        else if IsTerminal(page) then Drained(d.items + page.items, true, None, d.pages + page.pageCount, None)
        else if d.token == page.next || page.next.value in d.seen then DrainRaised(false)
        else DrainFrom(config, window, env, AfterPage(d, page))
  }

  function AfterPage(d: DrainState, page: Page): DrainState
    requires !IsTerminal(page) && 1 <= page.pageCount
  {
    DrainState(d.items + page.items, page.next, d.seen + {page.next.value}, d.pages + page.pageCount, d.calls + 1)
  }

  function Drain(config: Config, window: Window, env: TickEnv): DrainOutcome {
    DrainFrom(config, window, env, DrainState([], window.token, {}, 0, 0))
  }

  // ---------------------------------------------------------------- the batch

  /** Where the pass over the ordered batch stops, starting at item `i`, and why. */
  function BatchStop(ordered: seq<Raw>, i: nat, config: Config, env: TickEnv, calls: nat): (r: (nat, Stop))
    requires i <= |ordered|
    ensures i <= r.0 <= |ordered|
    ensures AllNormal(ordered[i..r.0])
    ensures r.1.Completed? ==> r.0 == |ordered|
    decreases |ordered| - i
  {
    if i == |ordered| then (i, Completed)
    else if env.batchClock(calls) >= env.startedAt + config.budget then (i, OutOfTime)
    else if ordered[i].identity.None? || env.processingRaises(calls) then (i, Raised)
    else
      var r := BatchStop(ordered, i + 1, config, env, calls + 1);
      assert forall k :: i < k < r.0 ==> ordered[k] == ordered[i + 1..r.0][k - i - 1];
      r
  }

  function IdentitySet(raws: seq<Raw>): set<Encoded> {
    set i | 0 <= i < |raws| && raws[i].identity.Some? :: raws[i].identity.value
  }

  // ---------------------------------------------------------------- a tick of one source

  function Tick(config: Config, s: SourceState, env: TickEnv): TickResult {
    var window := OpenWindow(config.overlap, s.checkpoint, env.now);
    match Drain(config, window, env)
    case DrainRaised(resets) =>
      TickResult(if resets then s.(checkpoint := ResetResumedToken(s.checkpoint)) else s, true, false, 0, 0, false)
    case Drained(items, complete, token, pages, reason) =>
      var ordered := SortRaws(items);
      SortKeepsLength(items);
      var first := ValidatedPrefix(ordered, ResumeCursor(s.checkpoint));
      var (last, stop) := BatchStop(ordered, first, config, env, 0);
      var handled := s.handled + IdentitySet(ordered[first..last]);
      match stop
      case Raised => TickResult(SourceState(s.checkpoint, handled), true, false, |items|, last - first, false)
      case Completed =>
        TickResult(SourceState(RecordDrain(s.checkpoint, window, complete, token, None), handled),
                   false, complete, |items|, last - first, true)
      case OutOfTime =>
        TickResult(SourceState(RecordDrain(s.checkpoint, window, false, window.token, Some(SavedCursor(ordered, last))), handled),
                   false, false, |items|, last - first, false)
  }

  lemma {:induction false} SortKeepsLength(s: seq<Raw>)
    ensures |SortRaws(s)| == |s|
  {
    if s != [] {
      SortKeepsLength(s[1..]);
      InsertKeepsLength(s[0], SortRaws(s[1..]));
    }
  }

  lemma {:induction false} InsertKeepsLength(x: Raw, s: seq<Raw>)
    ensures |InsertByKey(x, s)| == |s| + 1
  {
    if s != [] && !KeyLeq(x, s[0]) {
      InsertKeepsLength(x, s[1..]);
    }
  }

  /** A run of ticks of one source. */
  function Run(config: Config, s: SourceState, envs: seq<TickEnv>): SourceState
    decreases |envs|
  {
    if envs == [] then s else Run(config, Tick(config, s, envs[0]).state, envs[1..])
  }

  /** The windows the run completed, oldest first: exactly the ticks that set `last_success_at`. */
  function CompletedWindows(config: Config, s: SourceState, envs: seq<TickEnv>): seq<Window>
    decreases |envs|
  {
    if envs == [] then []
    else
      var tick := Tick(config, s, envs[0]);
      (if tick.complete then [OpenWindow(config.overlap, s.checkpoint, envs[0].now)] else [])
      + CompletedWindows(config, tick.state, envs[1..])
  }

  const FRESH: SourceState := SourceState(Checkpoint(None, None), {})
}
