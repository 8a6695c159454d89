/**
 Deterministic routing of one message: the candidate tasks, the matches among them, and the decision
 that is audited. The store's answers are lists whose order carries no meaning.
 */
module RoutingModel {
  import opened Base

  datatype Task = Task(id: nat, chatId: string, watching: bool, watchUntil: Option<int>)

  /** Why a task is a candidate, strongest first. */
  datatype Match = ReplyToMessage | SameThread | SameSender | DirectMention

  datatype Candidate = Candidate(task: Task, matchedBy: Match)

  /** A normalized message; an absent id is the empty string. */
  datatype Message = Message(
    chatId: string,
    threadId: string,
    replyTo: string,
    senderId: string,
    sentAt: Option<int>,
    directMention: bool,
    atAll: bool,
    isSelf: bool,
    isOwner: bool)

  datatype Source = GroupAtMe | PeerToPeer | ActiveWatch

  /** What the store answers while one message is routed. */
  datatype Lookups = Lookups(
    byReply: seq<Task>,
    byThread: seq<Task>,
    bySender: seq<Task>,
    byChat: seq<Task>,
    tasksOfMessage: seq<Task>,
    tasksOfReplyTarget: seq<Task>,
    historical: seq<Task>,
    sentAction: Option<Task>,
    latestFromSender: nat -> Option<int>,
    newTaskId: nat)

  datatype RouteName = NewTask | AttachTask | ReopenTask | CloseTask | Ignore | Ambiguous | HumanTakenOver

  datatype Reason =
    | DuplicateMessage | SelfMessage | NotIntervention | OwnerIntervention | AtAllSuppressed | NonDirectMention
    | SourceRevision | DeterministicShortcut | BurstWindow | ClosedRecallPlaceholder | RouterPlaceholder
    | NewTrigger | NoWatchCandidate | MissingChatId | Tombstone | NotEligible

  datatype Decision = Decision(route: RouteName, reason: Reason, target: Option<nat>, candidatesCount: nat)

  datatype RouterConfig = RouterConfig(burstSeconds: int)

  // ---------------------------------------------------------------- candidates

  predicate HasId(candidates: seq<Candidate>, id: nat) {
    exists i :: 0 <= i < |candidates| && candidates[i].task.id == id
  }

  /** `setdefault`: a task already there keeps the reason it came with. */
  function AddOne(candidates: seq<Candidate>, task: Task, why: Match): seq<Candidate> {
    if HasId(candidates, task.id) then candidates else candidates + [Candidate(task, why)]
  }

  function AddAll(candidates: seq<Candidate>, tasks: seq<Task>, why: Match): seq<Candidate>
    decreases |tasks|
  {
    if tasks == [] then candidates else AddAll(AddOne(candidates, tasks[0], why), tasks[1..], why)
  }

  /** The list looked up for one reason, or nothing when the message lacks what it is looked up by. */
  function ListFor(m: Message, l: Lookups, why: Match): seq<Task> {
    match why
    case ReplyToMessage => if m.replyTo != "" then l.byReply else []
    case SameThread => if m.threadId != "" then l.byThread else []
    case SameSender => if m.senderId != "" then l.bySender else []
    case DirectMention => if m.directMention then l.byChat else []
  }

  function Collect(m: Message, l: Lookups): seq<Candidate> {
    if m.chatId == "" then []
    else
      AddAll(AddAll(AddAll(AddAll([], ListFor(m, l, ReplyToMessage), ReplyToMessage),
                           ListFor(m, l, SameThread), SameThread),
                    ListFor(m, l, SameSender), SameSender),
             ListFor(m, l, DirectMention), DirectMention)
  }

  // ---------------------------------------------------------------- matches

  function Filter<T>(s: seq<T>, p: T -> bool): seq<T> {
    if s == [] then [] else (if p(s[0]) then [s[0]] else []) + Filter(s[1..], p)
  }

  /** The element of a one-element list. */
  function Only<T>(s: seq<T>): Option<T> {
    if |s| == 1 then Some(s[0]) else None
  }

  predicate IsActive(task: Task, now: int) {
    task.watching && (task.watchUntil.None? || task.watchUntil.value > now)
  }

  function OrElse<T>(first: Option<T>, second: Option<T>): Option<T> {
    if first.Some? then first else second
  }

  function DeterministicMatch(m: Message, candidates: seq<Candidate>): Option<Candidate> {
    if m.chatId == "" then None
    else OrElse(Only(Filter(candidates, (c: Candidate) => c.matchedBy == ReplyToMessage)),
                Only(Filter(candidates, (c: Candidate) => c.matchedBy == SameThread)))
  }

  predicate InBurst(burstSeconds: int, sentAt: int, latest: Option<int>) {
    latest.Some? && 0 <= sentAt - latest.value <= burstSeconds
  }

  function BurstMatch(config: RouterConfig, m: Message, l: Lookups, candidates: seq<Candidate>): Option<Candidate> {
    if config.burstSeconds <= 0 || m.chatId == "" || m.senderId == "" || m.sentAt.None? then None
    else Only(Filter(candidates, (c: Candidate) => c.task.chatId == m.chatId
                                     && InBurst(config.burstSeconds, m.sentAt.value, l.latestFromSender(c.task.id))))
  }

  function OwnerTakeoverTask(m: Message, l: Lookups, now: int): Option<Task> {
    if m.chatId == "" then None
    else OrElse(
      if m.replyTo == "" then None
      else Only(Filter(l.tasksOfReplyTarget, (t: Task) => t.chatId == m.chatId && IsActive(t, now))),
      if m.threadId == "" then None else Only(l.byThread))
  }

  function ExistingActiveTask(l: Lookups, now: int): Option<Task> {
    Only(Filter(l.tasksOfMessage, (t: Task) => IsActive(t, now)))
  }

  // ---------------------------------------------------------------- the decision

  function Ignored(reason: Reason): Decision { Decision(Ignore, reason, None, 0) }

  predicate IsTrigger(source: Source) { source.GroupAtMe? || source.PeerToPeer? }

  /** `route` for a message revision that has not been routed yet. */
  function FreshRoute(config: RouterConfig, m: Message, source: Source, changed: bool, l: Lookups, now: int): Decision {
    var existing := ExistingActiveTask(l, now);
    if changed && existing.Some? then Decision(AttachTask, SourceRevision, Some(existing.value.id), 1)
    else if l.sentAction.Some? then Decision(Ignore, SelfMessage, Some(l.sentAction.value.id), 0)
    else if m.isSelf then Ignored(SelfMessage)
    else if m.isOwner then
      match OwnerTakeoverTask(m, l, now)
      case None => Ignored(NotIntervention)
      case Some(task) => Decision(HumanTakenOver, OwnerIntervention, Some(task.id), 1)
    else if m.atAll then Ignored(AtAllSuppressed)
    else if source.GroupAtMe? && !m.directMention then Ignored(NonDirectMention)
    else RouteAmong(config, m, source, l, Collect(m, l))
  }

  function RouteAmong(config: RouterConfig, m: Message, source: Source, l: Lookups, candidates: seq<Candidate>): Decision {
    var deterministic := DeterministicMatch(m, candidates);
    var burst := BurstMatch(config, m, l, candidates);
    if deterministic.Some? then Decision(AttachTask, DeterministicShortcut, Some(deterministic.value.task.id), |candidates|)
    else if IsTrigger(source) && burst.Some? then Decision(AttachTask, BurstWindow, Some(burst.value.task.id), |candidates|)
    else if candidates == [] && IsTrigger(source) && m.chatId != "" then
      if l.historical != [] then Decision(Ambiguous, ClosedRecallPlaceholder, None, |l.historical|)
      else Decision(NewTask, NewTrigger, Some(l.newTaskId), 0)
    else if source.ActiveWatch? && candidates == [] then Ignored(NoWatchCandidate)
    else if candidates == [] && IsTrigger(source) then Ignored(MissingChatId)
    else Decision(Ambiguous, RouterPlaceholder, None, |candidates|)
  }
}
