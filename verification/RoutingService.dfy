/**
 The imperative form of the collector and the router. Each method is proved equal to the corresponding
 function, so the lemmas of `RoutingOrder` and `RoutingReplay` are about this object.
 */
module RoutingService {
  import opened Base
  import opened RoutingModel
  import opened RoutingReplay

  lemma {:induction false} FilterSnoc<T>(s: seq<T>, x: T, p: T -> bool)
    ensures Filter(s + [x], p) == Filter(s, p) + if p(x) then [x] else []
  {
    if s == [] {
      assert s + [x] == [x];
    } else {
      assert (s + [x])[1..] == s[1..] + [x];
      FilterSnoc(s[1..], x, p);
    }
  }

  /** The router of one message id, with the row, audits and work the store holds for it. */
  class MessageRouter {
    const config: RouterConfig
    var row: Option<MessageRow>
    var audits: seq<Audit>
    var work: seq<nat>

    constructor (config: RouterConfig)
      ensures this.config == config && State() == UNSEEN
    {
      this.config := config;
      row, audits, work := None, [], [];
    }

    ghost function State(): Ledger
      reads this
    {
      Ledger(row, audits, work)
    }

    /** One `for` loop of `collect`. */
    method AddMatches(candidates: seq<Candidate>, tasks: seq<Task>, why: Match) returns (r: seq<Candidate>)
      ensures r == AddAll(candidates, tasks, why)
    {
      r := candidates;
      var i := 0;
      while i < |tasks|
        invariant i <= |tasks|
        invariant AddAll(r, tasks[i..], why) == AddAll(candidates, tasks, why)
      {
        if !HasId(r, tasks[i].id) {
          r := r + [Candidate(tasks[i], why)];
        }
        i := i + 1;
      }
    }

    /** `CandidateCollector.collect` */
    method CollectCandidates(m: Message, l: Lookups) returns (r: seq<Candidate>)
      ensures r == Collect(m, l)
    {
      r := [];
      if m.chatId == "" {
        return;
      }
      if m.replyTo != "" {
        r := AddMatches(r, l.byReply, ReplyToMessage);
      }
      if m.threadId != "" {
        r := AddMatches(r, l.byThread, SameThread);
      }
      if m.senderId != "" {
        r := AddMatches(r, l.bySender, SameSender);
      }
      if m.directMention {
        r := AddMatches(r, l.byChat, DirectMention);
      }
    }

    /** `_burst_attach_match` */
    method BurstAttachMatch(m: Message, l: Lookups, candidates: seq<Candidate>) returns (r: Option<Candidate>)
      ensures r == BurstMatch(config, m, l, candidates)
    {
      if config.burstSeconds <= 0 || candidates == [] || m.chatId == "" || m.senderId == "" || m.sentAt.None? {
        return None;
      }
      ghost var p := (c: Candidate) => c.task.chatId == m.chatId
                                       && InBurst(config.burstSeconds, m.sentAt.value, l.latestFromSender(c.task.id));
      var eligible: seq<Candidate> := [];
      var i := 0;
      while i < |candidates|
        invariant i <= |candidates|
        invariant eligible == Filter(candidates[..i], p)
      {
        var c := candidates[i];
        FilterSnoc(candidates[..i], c, p);
        assert candidates[..i + 1] == candidates[..i] + [c];
        var latest := l.latestFromSender(c.task.id);
        if c.task.chatId == m.chatId && InBurst(config.burstSeconds, m.sentAt.value, latest) {
          eligible := eligible + [c];
        }
        i := i + 1;
      }
      assert candidates[..i] == candidates;
      r := if |eligible| == 1 then Some(eligible[0]) else None;
    }

    method Decide(m: Message, source: Source, changed: bool, l: Lookups, now: int) returns (d: Decision)
      ensures d == FreshRoute(config, m, source, changed, l, now)
    {
      var existing := ExistingActiveTask(l, now);
      if changed && existing.Some? {
        return Decision(AttachTask, SourceRevision, Some(existing.value.id), 1);
      }
      if l.sentAction.Some? {
        return Decision(Ignore, SelfMessage, Some(l.sentAction.value.id), 0);
      }
      if m.isSelf {
        return Ignored(SelfMessage);
      }
      if m.isOwner {
        var task := OwnerTakeoverTask(m, l, now);
        return if task.None? then Ignored(NotIntervention) else Decision(HumanTakenOver, OwnerIntervention, Some(task.value.id), 1);
      }
      if m.atAll {
        return Ignored(AtAllSuppressed);
      }
      if source.GroupAtMe? && !m.directMention {
        return Ignored(NonDirectMention);
      }
      var candidates := CollectCandidates(m, l);
      var deterministic := DeterministicMatch(m, candidates);
      if deterministic.Some? {
        return Decision(AttachTask, DeterministicShortcut, Some(deterministic.value.task.id), |candidates|);
      }
      if IsTrigger(source) {
        var burst := BurstAttachMatch(m, l, candidates);
        if burst.Some? {
          return Decision(AttachTask, BurstWindow, Some(burst.value.task.id), |candidates|);
        }
      }
      if candidates == [] && IsTrigger(source) && m.chatId != "" {
        if l.historical != [] {
          return Decision(Ambiguous, ClosedRecallPlaceholder, None, |l.historical|);
        }
        return Decision(NewTask, NewTrigger, Some(l.newTaskId), 0);
      }
      if source.ActiveWatch? && candidates == [] {
        return Ignored(NoWatchCandidate);
      }
      if candidates == [] && IsTrigger(source) {
        return Ignored(MissingChatId);
      }
      return Decision(Ambiguous, RouterPlaceholder, None, |candidates|);
    }

    method RecordAudit(revision: nat, d: Decision)
      modifies this`audits
      ensures audits == old(audits) + [Audit(revision, d)]
    {
      audits := audits + [Audit(revision, d)];
    }

    /** `route` */
    method Route(revision: nat, inserted: bool, changed: bool, env: RouteEnv) returns (d: Decision)
      modifies this`audits, this`work
      ensures (State(), d) == RouteCall(config, old(State()), revision, inserted, changed, env)
    {
      if !inserted && !changed && HasAudit(audits, revision) {
        if env.retryIncomplete {
          var existing := LatestNonDuplicate(audits, revision);
          if existing.Some? && Reuses(existing.value, env) {
            return existing.value;
          }
        }
        d := Ignored(DuplicateMessage);
        RecordAudit(revision, d);
        return;
      }
      d := Decide(env.message, env.source, changed, env.lookups, env.now);
      if StartsWork(d) {
        work := work + [revision];
      }
      RecordAudit(revision, d);
    }

    /** `_process_raw_message` for one snapshot, from the upsert to the route. */
    method Ingest(snapshot: Snapshot, current: Option<Snapshot>, handling: Handling)
      modifies this
      ensures State() == Step(config, old(State()), Poll(snapshot, current, handling))
    {
      var (first, upsert) := UpsertRow(row, snapshot, false);
      row := Some(first);
      if upsert.needsConfirmation {
        if current.None? {
          return;
        }
        var (second, confirmed) := UpsertRow(row, current.value, true);
        row, upsert := Some(second), confirmed;
      }
      if handling.StopsAfterUpsert? {
        return;
      }
      if upsert.isDeleted {
        if upsert.changed {
          RecordAudit(upsert.revision, Ignored(Tombstone));
        }
        return;
      }
      match handling
      case OwnerCommand =>
      case Ineligible => RecordAudit(upsert.revision, Ignored(NotEligible));
      case Routed(env) => var _ := Route(upsert.revision, upsert.inserted, upsert.changed, env);
      case StopsAfterUpsert =>
    }
  }
}
