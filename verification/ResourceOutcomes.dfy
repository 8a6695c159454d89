/**
 What becomes of one resource, in terms of what it met: exactly when its file is published, and which
 row every other cause leaves.
 */
module ResourceOutcomes {
  import opened Base
  import opened Framing
  import opened ResourceModel
  import opened ResourceSafety

  /** The row read at the start already records the file that is in place. */
  predicate IsInPlace(config: ResourceConfig, files: Files, existing: Rows, key: ResourceKey) {
    var output := OutputOf(config.naming, key);
    && Final(output) in files && key in existing
    && existing[key] == Row(Downloaded, Some(StoredPath(output, config.absolutePaths)), Some(Sha256(files[Final(output)])))
  }

  /** What stands at the temporary path when the client returns. */
  function Delivered(files: Files, temp: Path, leaves: Option<Content>): Option<Content> {
    if leaves.Some? then leaves else if temp in files then Some(files[temp]) else None
  }

  /** The size of the directory with the new file in the place of the one it replaces. */
  ghost function UsageWith(files: Files, temp: Path, final: Path, content: Content): int {
    Usage(files) - SizeAt(files, temp) - SizeAt(files, final) + |content|
  }

  /** The client is called: nothing refuses the resource beforehand. */
  ghost predicate IsTried(config: ResourceConfig, s: ResourceState, existing: Rows, key: ResourceKey, env: ResourceEnv) {
    env.policy == Allowed && !s.blocked && !IsInPlace(config, s.files, existing, key) && Usage(s.files) < config.maxDirBytes
  }

  /** The client succeeded, and what it left fits both limits and can be moved into place. */
  ghost predicate Works(config: ResourceConfig, s: ResourceState, key: ResourceKey, env: ResourceEnv) {
    var output := OutputOf(config.naming, key);
    var content := Delivered(s.files, Partial(output, env.uuid), env.leaves);
    && !env.raises && env.targetValid && env.ok
    && content.Some? && |content.value| <= config.maxResourceBytes
    && UsageWith(s.files, Partial(output, env.uuid), Final(output), content.value) <= config.maxDirBytes
    && !env.vanishes && !env.publishFails
  }

  lemma ArrivedUsage(files: Files, temp: Path, leaves: Option<Content>)
    ensures var arrived := Arrived(files, temp, leaves);
            && (temp in arrived <==> Delivered(files, temp, leaves).Some?)
            && (temp in arrived ==>
                  arrived[temp] == Delivered(files, temp, leaves).value
                  && Usage(arrived) == Usage(files) - SizeAt(files, temp) + |arrived[temp]|)
            && arrived - {temp} == files - {temp}
  {
    if leaves.Some? {
      UsageOfUpdate(files, temp, leaves.value);
    }
  }

  /** The verdict on what the client left. */
  lemma VerdictExactly(config: ResourceConfig, files: Files, temp: Path, final: Path, leaves: Option<Content>)
    requires temp.Partial? && final.Final? && Delivered(files, temp, leaves).Some?
    ensures var verdict := AfterDownload(config, Arrived(files, temp, leaves), temp, final);
            var content := Delivered(files, temp, leaves).value;
            && (verdict == FileTooLarge <==> |content| > config.maxResourceBytes)
            && (verdict == Fits <==> |content| <= config.maxResourceBytes && UsageWith(files, temp, final, content) <= config.maxDirBytes)
  {
    ArrivedUsage(files, temp, leaves);
  }

  /** The files when nothing is published: at most the temporary one has changed, and it is left only if its deletion failed. */
  ghost predicate NothingPublished(before: Files, after: Files, temp: Path, deleteFails: bool) {
    Finals(after) == Finals(before) && after - {temp} == before - {temp} && (temp in after && temp !in before ==> deleteFails)
  }

  lemma DroppedPublishesNothing(files: Files, temp: Path, leaves: Option<Content>, deleteFails: bool)
    requires temp.Partial?
    ensures NothingPublished(files, Discard(Arrived(files, temp, leaves), temp, deleteFails), temp, deleteFails)
    ensures NothingPublished(files, Arrived(files, temp, leaves) - {temp}, temp, deleteFails)
    ensures leaves.None? ==> NothingPublished(files, Arrived(files, temp, leaves), temp, deleteFails)
  {
    var after := Discard(Arrived(files, temp, leaves), temp, deleteFails);
    assert Finals(after) == Finals(files);
    assert Finals(Arrived(files, temp, leaves) - {temp}) == Finals(files);
  }

  /** The state a working download ends in. */
  ghost function Placed(config: ResourceConfig, s: ResourceState, key: ResourceKey, temp: Path, content: Content): ResourceState {
    var output := OutputOf(config.naming, key);
    ResourceState((s.files - {temp})[Final(output) := content],
                  s.rows[key := Row(Downloaded, Some(StoredPath(output, config.absolutePaths)), Some(Sha256(content)))],
                  s.blocked)
  }

  lemma WorkingOneIsPlaced(config: ResourceConfig, s: ResourceState, existing: Rows, key: ResourceKey, env: ResourceEnv)
    requires IsTried(config, s, existing, key, env) && Works(config, s, key, env)
    ensures var temp := Partial(OutputOf(config.naming, key), env.uuid);
            ProcessOne(config, s, existing, key, env) == Placed(config, s, key, temp, Delivered(s.files, temp, env.leaves).value)
  {
    var output := OutputOf(config.naming, key);
    var temp := Partial(output, env.uuid);
    ArrivedUsage(s.files, temp, env.leaves);
    VerdictExactly(config, s.files, temp, Final(output), env.leaves);
    assert !Verified(config, s.files, existing, key);
  }

  /** The row that is written when nothing is published, by cause, in the order in which the causes count. */
  ghost function FailedStatus(config: ResourceConfig, s: ResourceState, key: ResourceKey, env: ResourceEnv): ResourceStatus {
    var output := OutputOf(config.naming, key);
    var content := Delivered(s.files, Partial(output, env.uuid), env.leaves);
    if env.policy == DisabledByChat then Skipped
    else if env.policy == BotAbsent then BotNotJoined
    else if s.blocked || Usage(s.files) >= config.maxDirBytes then QuotaExceeded
    else if env.raises || !env.targetValid then DownloadFailed
    else if !env.ok then (if env.botAbsent then BotInvisible else DownloadFailed)
    else if content.None? then MissingFile
    else if |content.value| > config.maxResourceBytes then TooLarge
    else if UsageWith(s.files, Partial(output, env.uuid), Final(output), content.value) > config.maxDirBytes then QuotaExceeded
    else if env.vanishes then MissingFile
    else DownloadFailed
  }

  /** The processor is stopped by this resource: the directory is full before it, or would be with it. */
  ghost predicate Blocks(config: ResourceConfig, s: ResourceState, existing: Rows, key: ResourceKey, env: ResourceEnv) {
    && env.policy == Allowed && !s.blocked && !IsInPlace(config, s.files, existing, key)
    && FailedStatus(config, s, key, env) == QuotaExceeded
  }

  lemma FailedOneIsRecorded(config: ResourceConfig, s: ResourceState, existing: Rows, key: ResourceKey, env: ResourceEnv)
    requires !(env.policy == Allowed && !s.blocked && IsInPlace(config, s.files, existing, key))
    requires !(IsTried(config, s, existing, key, env) && Works(config, s, key, env))
    ensures var after, temp := ProcessOne(config, s, existing, key, env), Partial(OutputOf(config.naming, key), env.uuid);
            && after.rows == s.rows[key := Row(FailedStatus(config, s, key, env), None, None)]
            && NothingPublished(s.files, after.files, temp, env.deleteFails)
            && (after.blocked <==> s.blocked || Blocks(config, s, existing, key, env))
  {
    var output := OutputOf(config.naming, key);
    var temp := Partial(output, env.uuid);
    DroppedPublishesNothing(s.files, temp, env.leaves, env.deleteFails);
    ArrivedUsage(s.files, temp, env.leaves);
    if Delivered(s.files, temp, env.leaves).Some? {
      VerdictExactly(config, s.files, temp, Final(output), env.leaves);
    }
    assert Finals(s.files - {temp}) == Finals(s.files);
  }

  /**
   The exact law of one resource. A file is published and its row becomes "downloaded" if and only if the
   policy allows it, the processor is not stopped, no recorded copy is in place, the directory has room,
   the client neither raised nor reported failure, its target is valid, and what it left is there, fits
   both limits and could be moved. With a recorded copy in place nothing changes at all. In every other
   case no published file changes and the row tells the cause.
   */
  lemma PublishesExactly(config: ResourceConfig, s: ResourceState, existing: Rows, key: ResourceKey, env: ResourceEnv)
    ensures var after, temp := ProcessOne(config, s, existing, key, env), Partial(OutputOf(config.naming, key), env.uuid);
            if env.policy == Allowed && !s.blocked && IsInPlace(config, s.files, existing, key) then after == s
            else if IsTried(config, s, existing, key, env) && Works(config, s, key, env) then
              after == Placed(config, s, key, temp, Delivered(s.files, temp, env.leaves).value)
            else
              && after.rows == s.rows[key := Row(FailedStatus(config, s, key, env), None, None)]
              && FailedStatus(config, s, key, env) != Downloaded
              && NothingPublished(s.files, after.files, temp, env.deleteFails)
              && (after.blocked <==> s.blocked || Blocks(config, s, existing, key, env))
  {
    if env.policy == Allowed && !s.blocked && IsInPlace(config, s.files, existing, key) {
      assert Verified(config, s.files, existing, key);
    } else if IsTried(config, s, existing, key, env) && Works(config, s, key, env) {
      WorkingOneIsPlaced(config, s, existing, key, env);
    } else {
      FailedOneIsRecorded(config, s, existing, key, env);
    }
  }

  // ---------------------------------------------------------------- a whole call

  lemma {:induction false} EveryResourceHasRow(config: ResourceConfig, s: ResourceState, existing: Rows, call: Call, i: nat)
    requires i <= |call.keys| && existing.Keys <= s.rows.Keys
    ensures var after := ProcessFrom(config, s, existing, call, i);
            s.rows.Keys <= after.rows.Keys && forall k :: i <= k < |call.keys| ==> call.keys[k] in after.rows
    decreases |call.keys| - i
  {
    if i < |call.keys| {
      PublishesExactly(config, s, existing, call.keys[i], call.env(i));
      EveryResourceHasRow(config, ProcessOne(config, s, existing, call.keys[i], call.env(i)), existing, call, i + 1);
    }
  }

  /** After a call every resource of its message has a row. */
  lemma CallSettlesEveryResource(config: ResourceConfig, s: ResourceState, call: Call)
    ensures forall k :: 0 <= k < |call.keys| ==> call.keys[k] in Process(config, s, call).rows
  {
    if call.keys != [] {
      var begun := (if call.newProcessor then s.(blocked := false) else s).(files := CleanUp(s.files, call.stale));
      EveryResourceHasRow(config, begun, s.rows, call, 0);
    }
  }
}
