/**
 What one poll of a message does: the revision its snapshot gets, when a confirming fetch is needed, and
 what is routed, resumed or recorded.
 */
module RoutingPolls {
  import opened Base
  import opened RoutingModel
  import opened RoutingReplay

  // ---------------------------------------------------------------- the upsert

  /** The content is one the row has had, its present one included. */
  predicate IsKnown(row: MessageRow, hash: SemanticHash) {
    row.hash.Some? && (row.hash.value == hash || hash in row.history)
  }

  /** The snapshot makes a new revision of a stored message. */
  predicate MakesRevision(row: MessageRow, snap: Snapshot, confirmed: bool) {
    && !row.deleted
    && if row.hash.None? then snap.deleted
       else !IsKnown(row, snap.hash) || (confirmed && (row.hash != Some(snap.hash) || snap.deleted))
  }

  /**
   The upsert, both ways. A first snapshot is inserted as revision one. A stored message gets a new
   revision, reported as a change, exactly for content it never had, for a deletion, and for older content
   that a fetch has confirmed; only older content that is not confirmed asks for confirmation. A migrated
   row is stamped silently, and a deleted row never changes.
   */
  lemma UpsertExactly(existing: Option<MessageRow>, snap: Snapshot, confirmed: bool)
    ensures var (after, u) := UpsertRow(existing, snap, confirmed);
            && u.revision == after.revision && u.isDeleted == after.deleted
            && match existing
               case None =>
                 after == MessageRow(1, Some(snap.hash), snap.deleted, {snap.hash}) && u.inserted && u.changed && !u.needsConfirmation
               case Some(row) =>
                 && !u.inserted
                 && (u.changed <==> MakesRevision(row, snap, confirmed))
                 && (u.needsConfirmation <==> !row.deleted && !confirmed && IsKnown(row, snap.hash) && row.hash != Some(snap.hash))
                 && if u.changed then
                      && after.revision == row.revision + 1 && after.hash == Some(snap.hash) && after.deleted == snap.deleted
                      && after.history
                         == (if row.hash.Some? then row.history + {row.hash.value} else {}) + {snap.hash}
                    else if row.hash.None? && !row.deleted then
                      after == MessageRow(row.revision, Some(snap.hash), false, {snap.hash})
                    else after == row
  {
  }

  // ---------------------------------------------------------------- duplicate calls

  /** The processing that follows a routed decision is still open, and nothing stands in its way. */
  predicate MayResume(d: Decision, env: RouteEnv) {
    || ((d.route == NewTask || d.route == AttachTask || d.route == ReopenTask)
        && !env.stageFinal && !env.resourceBlocks && env.taskStillExists)
    || (d.route == Ambiguous && (d.reason == RouterPlaceholder || d.reason == ClosedRecallPlaceholder) && !env.stageFinal)
  }

  /** A duplicate call is resumed exactly when the caller retries and the newest decision about its revision may be. */
  lemma ResumesExactly(config: RouterConfig, l: Ledger, revision: nat, env: RouteEnv)
    requires HasAudit(l.audits, revision)
    ensures var (after, d) := RouteCall(config, l, revision, false, false, env);
            var resumes := env.retryIncomplete && exists i: nat :: IsNewest(l.audits, revision, i) && MayResume(l.audits[i].decision, env);
            && (resumes ==> after == l && forall i: nat :: IsNewest(l.audits, revision, i) ==> d == l.audits[i].decision)
            && (!resumes ==>
                  d == Ignored(DuplicateMessage) && after == l.(audits := l.audits + [Audit(revision, Ignored(DuplicateMessage))]))
  {
    LatestIsTheNewest(l.audits, revision);
    forall i: nat, j: nat | IsNewest(l.audits, revision, i) && IsNewest(l.audits, revision, j) ensures i == j {
      OneIsNewest(l.audits, revision, i, j);
    }
  }

  lemma OneIsNewest(audits: seq<Audit>, revision: nat, i: nat, j: nat)
    requires IsNewest(audits, revision, i) && IsNewest(audits, revision, j)
    ensures i == j
  {
  }

  // ---------------------------------------------------------------- polls

  /** The ledger after a fresh decision about a revision: it is audited, and creating or attaching starts work. */
  ghost predicate Routes(before: Ledger, after: Ledger, revision: nat, d: Decision) {
    && after.audits == before.audits + [Audit(revision, d)]
    && after.work == before.work + if d.route == NewTask || d.route == AttachTask then [revision] else []
  }

  /** A message never seen is routed as revision one. */
  lemma NewMessageIsRouted(config: RouterConfig, l: Ledger, snap: Snapshot, current: Option<Snapshot>, env: RouteEnv)
    requires l.row.None? && !snap.deleted
    ensures var after := Step(config, l, Poll(snap, current, Routed(env)));
            && after.row == Some(MessageRow(1, Some(snap.hash), false, {snap.hash}))
            && Routes(l, after, 1, FreshRoute(config, env.message, env.source, true, env.lookups, env.now))
  {
  }

  /** Content the message never had is routed again, as its next revision. */
  lemma EditIsRouted(config: RouterConfig, l: Ledger, snap: Snapshot, current: Option<Snapshot>, env: RouteEnv)
    requires l.row.Some? && !l.row.value.deleted && l.row.value.hash.Some? && !IsKnown(l.row.value, snap.hash) && !snap.deleted
    ensures var after := Step(config, l, Poll(snap, current, Routed(env)));
            && after.row.Some? && after.row.value.revision == l.row.value.revision + 1 && after.row.value.hash == Some(snap.hash)
            && Routes(l, after, l.row.value.revision + 1, FreshRoute(config, env.message, env.source, true, env.lookups, env.now))
  {
    UpsertExactly(l.row, snap, false);
  }

  /** Older content is checked: what the fetch returns decides, and without it nothing changes. */
  lemma OlderContentIsChecked(config: RouterConfig, l: Ledger, snap: Snapshot, current: Option<Snapshot>, env: RouteEnv)
    requires l.row.Some? && !l.row.value.deleted && IsKnown(l.row.value, snap.hash) && l.row.value.hash != Some(snap.hash)
    ensures var after, row := Step(config, l, Poll(snap, current, Routed(env))), l.row.value;
            && (current.None? ==> after == l)
            && (current.Some? && !current.value.deleted && row.hash != Some(current.value.hash) ==>
                  && after.row.Some? && after.row.value.revision == row.revision + 1 && after.row.value.hash == Some(current.value.hash)
                  && Routes(l, after, row.revision + 1, FreshRoute(config, env.message, env.source, true, env.lookups, env.now)))
            && (current.Some? && !current.value.deleted && row.hash == Some(current.value.hash) ==>
                  after == RouteCall(config, l, row.revision, false, false, env).0)
  {
    UpsertExactly(l.row, snap, false);
    if current.Some? {
      UpsertExactly(l.row, current.value, true);
    }
    assert l.(row := Some(l.row.value)) == l;
  }

  /** A deletion of a message that was seen is recorded once, as its next revision, and starts nothing. */
  lemma DeletionIsRecorded(config: RouterConfig, l: Ledger, snap: Snapshot, current: Option<Snapshot>, env: RouteEnv)
    requires l.row.Some? && !l.row.value.deleted && l.row.value.hash.Some? && !IsKnown(l.row.value, snap.hash) && snap.deleted
    ensures var after := Step(config, l, Poll(snap, current, Routed(env)));
            && after.row.Some? && after.row.value.deleted && after.row.value.revision == l.row.value.revision + 1
            && after.audits == l.audits + [Audit(l.row.value.revision + 1, Ignored(Tombstone))] && after.work == l.work
  {
    UpsertExactly(l.row, snap, false);
  }

  /** A poll that only repeats the present content is a duplicate call, or the first route if none was made before. */
  lemma RepeatedContent(config: RouterConfig, l: Ledger, snap: Snapshot, current: Option<Snapshot>, env: RouteEnv)
    requires l.row.Some? && !l.row.value.deleted && l.row.value.hash == Some(snap.hash) && !snap.deleted
    ensures var after, row := Step(config, l, Poll(snap, current, Routed(env))), l.row.value;
            && after.row == l.row
            && (HasAudit(l.audits, row.revision) ==> after == RouteCall(config, l, row.revision, false, false, env).0)
            && (!HasAudit(l.audits, row.revision) ==>
                  Routes(l, after, row.revision, FreshRoute(config, env.message, env.source, false, env.lookups, env.now)))
  {
    UpsertExactly(l.row, snap, false);
    assert l.(row := Some(l.row.value)) == l;
  }

  /** What is not routed: an ineligible message is audited as such, an owner command and a stopped poll leave no audit. */
  lemma OtherHandling(config: RouterConfig, l: Ledger, snap: Snapshot, current: Option<Snapshot>, handling: Handling)
    requires l.row.None? && !snap.deleted && !handling.Routed?
    ensures var after := Step(config, l, Poll(snap, current, handling));
            && after.work == l.work && after.row == Some(MessageRow(1, Some(snap.hash), false, {snap.hash}))
            && after.audits == l.audits + if handling.Ineligible? then [Audit(1, Ignored(NotEligible))] else []
  {
  }
}
