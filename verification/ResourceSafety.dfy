/** What every branch of every sequence of `process` calls keeps: the quota, and rows that tell the truth. */
module ResourceSafety {
  import opened Base
  import opened Framing
  import opened ResourceModel

  // ---------------------------------------------------------------- sums of sizes

  lemma {:induction false} UsageOfRemoval(files: Files, p: Path)
    requires p in files
    ensures Usage(files) == |files[p]| + Usage(files - {p})
    decreases |files|
  {
    var q :| q in files && Usage(files) == |files[q]| + Usage(files - {q});
    if q != p {
      UsageOfRemoval(files - {q}, p);
      assert files - {q} - {p} == files - {p} - {q};
      UsageOfRemoval(files - {p}, q);
    }
  }

  lemma UsageOfUpdate(files: Files, p: Path, c: Content)
    ensures Usage(files[p := c]) == Usage(files) - SizeAt(files, p) + |c|
  {
    UsageOfRemoval(files[p := c], p);
    assert files[p := c] - {p} == files - {p};
    if p in files {
      UsageOfRemoval(files, p);
    } else {
      assert files - {p} == files;
    }
  }

  lemma {:induction false} UsageOfSubmap(part: Files, files: Files)
    requires part.Keys <= files.Keys && forall p :: p in part ==> part[p] == files[p]
    ensures Usage(part) <= Usage(files)
    decreases |part|
  {
    if part != map[] {
      var p :| p in part;
      UsageOfRemoval(part, p);
      UsageOfRemoval(files, p);
      UsageOfSubmap(part - {p}, files - {p});
    }
  }

  // ---------------------------------------------------------------- the quota

  ghost predicate WithinQuota(config: ResourceConfig, files: Files) {
    Usage(Finals(files)) <= config.maxDirBytes
  }

  /** Publishing changes the total by exactly what the check allowed for. */
  lemma PublishedUsage(files: Files, temp: Path, final: Path)
    requires temp in files && temp.Partial? && final.Final?
    ensures Usage(Publish(files, temp, final)) == Usage(files) - SizeAt(files, final)
  {
    UsageOfRemoval(files, temp);
    UsageOfUpdate(files - {temp}, final, files[temp]);
  }

  /** The files one call may change, and how. */
  ghost predicate FilesStep(config: ResourceConfig, before: Files, after: Files, temp: Path, deletionFails: bool) {
    // published files stay, or one is replaced within the limits
    && (Finals(after) == Finals(before)
        || (Usage(after) <= config.maxDirBytes
            && forall p :: p in Finals(after) ==>
                 (p in before && before[p] == after[p]) || |after[p]| <= config.maxResourceBytes))
    // nothing published is lost
    && (forall p :: p in Finals(before) ==> p in after)
    // no temporary file of this call is left unless its deletion failed
    && (forall p :: p in after && p !in before ==> p.Final? || (p == temp && deletionFails))
    && (temp in after ==> deletionFails || temp in before)
    && (!deletionFails ==> Usage(after) <= Usage(before) || Usage(after) <= config.maxDirBytes)
  }

  /** The file maps a resource can end in: untouched, its temporary file dropped, or published. */
  ghost predicate Outcome(config: ResourceConfig, before: Files, after: Files, temp: Path, final: Path,
                          leaves: Option<Content>, fails: bool) {
    var arrived := Arrived(before, temp, leaves);
    || after == before
    || after == Discard(arrived, temp, fails)
    || after == arrived - {temp}
    || (temp in arrived && AfterDownload(config, arrived, temp, final).Fits? && after == Publish(arrived, temp, final))
  }

  lemma OneResourceOutcome(config: ResourceConfig, s: ResourceState, existing: Rows, key: ResourceKey, env: ResourceEnv)
    ensures var output := OutputOf(config.naming, key);
            Outcome(config, s.files, ProcessOne(config, s, existing, key, env).files,
                    Partial(output, env.uuid), Final(output), env.leaves, env.deleteFails)
  {
  }

  lemma DroppedStep(config: ResourceConfig, before: Files, temp: Path, leaves: Option<Content>, fails: bool)
    requires temp.Partial?
    ensures FilesStep(config, before, Discard(Arrived(before, temp, leaves), temp, fails), temp, fails)
  {
    var after := Discard(Arrived(before, temp, leaves), temp, fails);
    assert Finals(after) == Finals(before);
    if !fails {
      UsageOfSubmap(after, before);
    }
  }

  lemma OutcomeStep(config: ResourceConfig, before: Files, after: Files, temp: Path, final: Path,
                    leaves: Option<Content>, fails: bool)
    requires temp.Partial? && final.Final? && Outcome(config, before, after, temp, final, leaves, fails)
    ensures FilesStep(config, before, after, temp, fails)
  {
    var arrived := Arrived(before, temp, leaves);
    if after == before {
    } else if after == Discard(arrived, temp, fails) {
      DroppedStep(config, before, temp, leaves, fails);
    } else if after == arrived - {temp} {
      DroppedStep(config, before, temp, leaves, false);
    } else {
      PublishedUsage(arrived, temp, final);
    }
  }

  /** Every branch of `process` for one resource. */
  lemma OneResourceStep(config: ResourceConfig, s: ResourceState, existing: Rows, key: ResourceKey, env: ResourceEnv)
    ensures FilesStep(config, s.files, ProcessOne(config, s, existing, key, env).files,
                      Partial(OutputOf(config.naming, key), env.uuid), env.deleteFails)
  {
    var output := OutputOf(config.naming, key);
    OneResourceOutcome(config, s, existing, key, env);
    OutcomeStep(config, s.files, ProcessOne(config, s, existing, key, env).files,
                Partial(output, env.uuid), Final(output), env.leaves, env.deleteFails);
  }

  /** What any number of resources and calls do to the files; `fails` says some deletion may fail. */
  ghost predicate FilesRun(config: ResourceConfig, before: Files, after: Files, fails: bool) {
    && (WithinQuota(config, before) ==> WithinQuota(config, after))
    && (!fails && Usage(before) <= config.maxDirBytes ==> Usage(after) <= config.maxDirBytes)
    && (forall p :: p in after && p !in before ==> p.Final? || fails)
    && (forall p :: p in after && p.Final? ==> (p in before && after[p] == before[p]) || |after[p]| <= config.maxResourceBytes)
    && (forall p :: p in before && p.Final? ==> p in after)
  }

  lemma StepIsRun(config: ResourceConfig, before: Files, after: Files, temp: Path, fails: bool)
    requires FilesStep(config, before, after, temp, fails)
    ensures FilesRun(config, before, after, fails)
  {
    UsageOfSubmap(Finals(after), after);
    forall p | p in after && p.Final? ensures (p in before && after[p] == before[p]) || |after[p]| <= config.maxResourceBytes {
      assert p in Finals(after);
      if Finals(after) == Finals(before) {
        assert Finals(before)[p] == after[p];
      }
    }
    forall p | p in before && p.Final? ensures p in after {
      assert p in Finals(before);
    }
  }

  lemma RunsCompose(config: ResourceConfig, a: Files, b: Files, c: Files, fails: bool)
    requires FilesRun(config, a, b, fails) && FilesRun(config, b, c, fails)
    ensures FilesRun(config, a, c, fails)
  {
  }

  lemma CleanUpIsRun(config: ResourceConfig, files: Files, stale: Path -> bool)
    ensures FilesRun(config, files, CleanUp(files, stale), false)
  {
    assert Finals(CleanUp(files, stale)) == Finals(files);
    UsageOfSubmap(CleanUp(files, stale), files);
  }

  ghost predicate DeletionsIn(call: Call, fails: bool) {
    forall i {:trigger call.env(i)} :: call.env(i).deleteFails ==> fails
  }

  lemma {:induction false} ProcessFromIsRun(config: ResourceConfig, s: ResourceState, existing: Rows, call: Call, i: nat, fails: bool)
    requires i <= |call.keys| && DeletionsIn(call, fails)
    ensures FilesRun(config, s.files, ProcessFrom(config, s, existing, call, i).files, fails)
    decreases |call.keys| - i
  {
    if i < |call.keys| {
      var env := call.env(i);
      var next := ProcessOne(config, s, existing, call.keys[i], env);
      OneResourceStep(config, s, existing, call.keys[i], env);
      StepIsRun(config, s.files, next.files, Partial(OutputOf(config.naming, call.keys[i]), env.uuid), env.deleteFails);
      ProcessFromIsRun(config, next, existing, call, i + 1, fails);
      RunsCompose(config, s.files, next.files, ProcessFrom(config, s, existing, call, i).files, fails);
    }
  }

  /**
   The quota over every sequence of calls. Published files alone never exceed it, whatever fails; if
   every deletion succeeds the whole directory stays within it and no temporary file appears; every
   newly published file is within the single-file limit, and no published file is ever lost.
   */
  lemma {:induction false} QuotaIsKept(config: ResourceConfig, s: ResourceState, calls: seq<Call>, fails: bool)
    requires forall c :: 0 <= c < |calls| ==> DeletionsIn(calls[c], fails)
    ensures FilesRun(config, s.files, ProcessAll(config, s, calls).files, fails)
    decreases |calls|
  {
    if calls != [] {
      var call := calls[0];
      var next := Process(config, s, call);
      if call.keys != [] {
        var cleaned := CleanUp(s.files, call.stale);
        var begun := (if call.newProcessor then s.(blocked := false) else s).(files := cleaned);
        CleanUpIsRun(config, s.files, call.stale);
        ProcessFromIsRun(config, begun, s.rows, call, 0, fails);
        RunsCompose(config, s.files, cleaned, next.files, fails);
      }
      QuotaIsKept(config, next, calls[1..], fails);
      RunsCompose(config, s.files, next.files, ProcessAll(config, s, calls).files, fails);
    }
  }

  // ---------------------------------------------------------------- rows and files agree

  /** A row that says "downloaded" names a file of this resource whose digest is the stored one. */
  ghost predicate RowTrue(naming: Naming, files: Files, key: ResourceKey, row: Row) {
    var final := Final(OutputOf(naming, key));
    row.status == Downloaded ==>
      && row.path.Some? && row.path.value.output == final.output
      && final in files && row.sha == Some(Sha256(files[final]))
  }

  ghost predicate RowsAgree(naming: Naming, s: ResourceState) {
    forall key :: key in s.rows ==> RowTrue(naming, s.files, key, s.rows[key])
  }

  ghost predicate DistinctOutputs(naming: Naming, keys: iset<ResourceKey>) {
    forall a, b :: a in keys && b in keys && OutputOf(naming, a) == OutputOf(naming, b) ==> a == b
  }

  ghost predicate Within(keys: iset<ResourceKey>, calls: seq<Call>) {
    forall c, i :: 0 <= c < |calls| && 0 <= i < |calls[c].keys| ==> calls[c].keys[i] in keys
  }

  ghost predicate AgreesWithin(naming: Naming, s: ResourceState, keys: iset<ResourceKey>) {
    RowsAgree(naming, s) && forall key :: key in s.rows ==> key in keys
  }

  lemma DownloadedRowIsTrue(config: ResourceConfig, s: ResourceState, key: ResourceKey, env: ResourceEnv)
    ensures var after := Download(config, s, key, env);
            && key in after.rows && RowTrue(config.naming, after.files, key, after.rows[key])
            && (forall k :: k in after.rows && k != key ==> k in s.rows && after.rows[k] == s.rows[k])
  {
  }

  /** The row one resource ends with is true, and no other row changes. */
  lemma OneRowIsTrue(config: ResourceConfig, s: ResourceState, existing: Rows, key: ResourceKey, env: ResourceEnv)
    requires key in s.rows ==> RowTrue(config.naming, s.files, key, s.rows[key])
    ensures var after := ProcessOne(config, s, existing, key, env);
            && (key in after.rows ==> RowTrue(config.naming, after.files, key, after.rows[key]))
            && (forall k :: k in after.rows && k != key ==> k in s.rows && after.rows[k] == s.rows[k])
  {
    if env.policy.Allowed? && !s.blocked && !Verified(config, s.files, existing, key) && Usage(s.files) < config.maxDirBytes {
      DownloadedRowIsTrue(config, s, key, env);
    }
  }

  /** Files other than this resource's own output are left alone. */
  lemma OtherFinalsStay(config: ResourceConfig, s: ResourceState, existing: Rows, key: ResourceKey, env: ResourceEnv, p: Path)
    requires p.Final? && p != Final(OutputOf(config.naming, key))
    ensures var after := ProcessOne(config, s, existing, key, env).files;
            (p in after <==> p in s.files) && (p in after ==> after[p] == s.files[p])
  {
    OneResourceOutcome(config, s, existing, key, env);
  }

  lemma OneResourceAgrees(config: ResourceConfig, s: ResourceState, existing: Rows, key: ResourceKey, env: ResourceEnv,
                          keys: iset<ResourceKey>)
    requires DistinctOutputs(config.naming, keys) && AgreesWithin(config.naming, s, keys) && key in keys
    ensures AgreesWithin(config.naming, ProcessOne(config, s, existing, key, env), keys)
  {
    var after := ProcessOne(config, s, existing, key, env);
    OneRowIsTrue(config, s, existing, key, env);
    forall k | k in after.rows ensures RowTrue(config.naming, after.files, k, after.rows[k]) {
      if k != key {
        assert RowTrue(config.naming, s.files, k, s.rows[k]);
        OtherFinalsStay(config, s, existing, key, env, Final(OutputOf(config.naming, k)));
      }
    }
  }

  lemma {:induction false} ProcessFromAgrees(config: ResourceConfig, s: ResourceState, existing: Rows, call: Call, i: nat,
                                             keys: iset<ResourceKey>)
    requires i <= |call.keys| && (forall k :: 0 <= k < |call.keys| ==> call.keys[k] in keys)
    requires DistinctOutputs(config.naming, keys) && AgreesWithin(config.naming, s, keys)
    ensures AgreesWithin(config.naming, ProcessFrom(config, s, existing, call, i), keys)
    decreases |call.keys| - i
  {
    if i < |call.keys| {
      OneResourceAgrees(config, s, existing, call.keys[i], call.env(i), keys);
      ProcessFromAgrees(config, ProcessOne(config, s, existing, call.keys[i], call.env(i)), existing, call, i + 1, keys);
    }
  }

  lemma {:induction false} ProcessAllAgrees(config: ResourceConfig, s: ResourceState, calls: seq<Call>, keys: iset<ResourceKey>)
    requires DistinctOutputs(config.naming, keys) && AgreesWithin(config.naming, s, keys) && Within(keys, calls)
    ensures AgreesWithin(config.naming, ProcessAll(config, s, calls), keys)
    decreases |calls|
  {
    if calls != [] {
      var call := calls[0];
      var begun := (if call.newProcessor then s.(blocked := false) else s).(files := CleanUp(s.files, call.stale));
      assert forall k :: k in s.rows ==> RowTrue(config.naming, s.files, k, s.rows[k]);
      assert forall k :: 0 <= k < |call.keys| ==> call.keys[k] in keys;
      ProcessFromAgrees(config, begun, s.rows, call, 0, keys);
      ProcessAllAgrees(config, Process(config, s, call), calls[1..], keys);
    }
  }

  /** A download that works and fits is published, and its row records what was published. */
  lemma WorkingDownloadIsPublished(config: ResourceConfig, s: ResourceState, existing: Rows, key: ResourceKey, env: ResourceEnv)
    requires env.policy.Allowed? && env.ok && env.targetValid && !env.raises && !env.vanishes && !env.publishFails && env.leaves.Some?
    requires !s.blocked && !Verified(config, s.files, existing, key) && Partial(OutputOf(config.naming, key), env.uuid) !in s.files
    requires |env.leaves.value| <= config.maxResourceBytes
    requires Usage(s.files) < config.maxDirBytes && Usage(s.files) + |env.leaves.value| <= config.maxDirBytes
    ensures var output := OutputOf(config.naming, key);
            ProcessOne(config, s, existing, key, env)
            == ResourceState(s.files[Final(output) := env.leaves.value],
                             s.rows[key := Row(Downloaded, Some(StoredPath(output, config.absolutePaths)), Some(Sha256(env.leaves.value)))],
                             false)
  {
    var output := OutputOf(config.naming, key);
    var temp, final := Partial(output, env.uuid), Final(output);
    var arrived := Arrived(s.files, temp, env.leaves);
    UsageOfUpdate(s.files, temp, env.leaves.value);
    assert AfterDownload(config, arrived, temp, final).Fits?;
    assert arrived - {temp} == s.files;
  }

  ghost predicate RowsAlwaysAgree(config: ResourceConfig, keys: iset<ResourceKey>) {
    forall calls :: Within(keys, calls) ==> RowsAgree(config.naming, ProcessAll(config, EMPTY, calls))
  }

  function Working(content: Content): ResourceEnv {
    ResourceEnv(Allowed, "0", Some(content), false, true, true, false, false, false, false)
  }

  function WorkingCall(key: ResourceKey, content: Content): Call {
    Call([key], true, p => false, i => Working(content))
  }

  lemma WorkingCallPublishes(config: ResourceConfig, s: ResourceState, key: ResourceKey, content: Content)
    requires !Verified(config, s.files, s.rows, key) && forall p :: p in s.files ==> p.Final?
    requires |content| <= config.maxResourceBytes
    requires Usage(s.files) < config.maxDirBytes && Usage(s.files) + |content| <= config.maxDirBytes
    ensures var output := OutputOf(config.naming, key);
            Process(config, s, WorkingCall(key, content))
            == ResourceState(s.files[Final(output) := content],
                             s.rows[key := Row(Downloaded, Some(StoredPath(output, config.absolutePaths)), Some(Sha256(content)))],
                             false)
  {
    var call := WorkingCall(key, content);
    var begun := ResourceState(CleanUp(s.files, call.stale), s.rows, false);
    assert begun.files == s.files;
    WorkingDownloadIsPublished(config, begun, s.rows, key, Working(content));
    var next := ProcessOne(config, begun, s.rows, key, call.env(0));
    assert ProcessFrom(config, next, s.rows, call, 1) == next;
  }

  /** Two resources that share an output file: after both have been downloaded the first row is false. */
  lemma SharedOutputBreaksAgreement(config: ResourceConfig, a: ResourceKey, b: ResourceKey)
    requires config.maxResourceBytes >= 1 && config.maxDirBytes >= 1
    requires a != b && OutputOf(config.naming, a) == OutputOf(config.naming, b)
    ensures !RowsAgree(config.naming, ProcessAll(config, EMPTY, [WorkingCall(a, []), WorkingCall(b, [0])]))
  {
    var first, second := WorkingCall(a, []), WorkingCall(b, [0]);
    var output := OutputOf(config.naming, a);
    WorkingCallPublishes(config, EMPTY, a, []);
    var mid := Process(config, EMPTY, first);
    UsageOfUpdate(map[], Final(output), []);
    WorkingCallPublishes(config, mid, b, [0]);
    var end := Process(config, mid, second);
    assert [first, second][1..] == [second] && [second][1..] == [];
    assert ProcessAll(config, EMPTY, [first, second]) == ProcessAll(config, mid, [second]);
    assert ProcessAll(config, mid, [second]) == ProcessAll(config, end, []);
    assert !RowTrue(config.naming, end.files, a, end.rows[a]);
  }

  /**
   Rows and files agree after every sequence of calls exactly when no two of the resources share an
   output file.
   */
  lemma RowsAgreeExactly(config: ResourceConfig, keys: iset<ResourceKey>)
    requires config.maxResourceBytes >= 1 && config.maxDirBytes >= 1
    ensures RowsAlwaysAgree(config, keys) <==> DistinctOutputs(config.naming, keys)
  {
    if DistinctOutputs(config.naming, keys) {
      forall calls | Within(keys, calls) ensures RowsAgree(config.naming, ProcessAll(config, EMPTY, calls)) {
        ProcessAllAgrees(config, EMPTY, calls, keys);
      }
    } else {
      var a, b :| a in keys && b in keys && OutputOf(config.naming, a) == OutputOf(config.naming, b) && a != b;
      var calls := [WorkingCall(a, []), WorkingCall(b, [0])];
      assert Within(keys, calls);
      SharedOutputBreaksAgreement(config, a, b);
    }
  }

  /** The names of two different messages can meet: every character outside the safe class becomes '_'. */
  lemma UnsafeNamesCollide(naming: Naming, fileKey: string, kind: ResourceKind)
    requires !naming.isAlnum('.') && naming.isAlnum('a') && naming.isAlnum('b')
    ensures OutputOf(naming, ResourceKey("a.b", fileKey, kind)) == OutputOf(naming, ResourceKey("a_b", fileKey, kind))
  {
    assert SafeChars(naming, "a.b") == "a_b" == SafeChars(naming, "a_b");
  }

  /** How a character of a message id appears in a name. */
  function Shown(naming: Naming, c: char): char {
    if naming.isAlnum(c) || c == '-' || c == '_' then c else '_'
  }

  /** As far as a name shows it, the two ids are the same: 120 characters, the unsafe ones blotted out. */
  predicate SameName(naming: Naming, x: string, y: string) {
    && (|x| == |y| || (|x| >= 120 && |y| >= 120))
    && forall i :: 0 <= i < 120 && i < |x| && i < |y| ==> Shown(naming, x[i]) == Shown(naming, y[i])
  }

  /** Two resources share an output path exactly if their kinds, key hashes and shown message ids are the same. */
  lemma OutputsMeetExactly(naming: Naming, a: ResourceKey, b: ResourceKey)
    ensures OutputOf(naming, a) == OutputOf(naming, b) <==>
              a.kind == b.kind && naming.keyHash(a.fileKey) == naming.keyHash(b.fileKey) && SameName(naming, a.messageId, b.messageId)
  {
    ShownPart(naming, a.messageId);
    ShownPart(naming, b.messageId);
    var x, y := SafePathPart(naming, a.messageId), SafePathPart(naming, b.messageId);
    if SameName(naming, a.messageId, b.messageId) {
      assert x == y;
    }
  }

  lemma ShownPart(naming: Naming, id: string)
    ensures var part := SafePathPart(naming, id);
            && |part| == (if |id| <= 120 then |id| else 120)
            && forall i :: 0 <= i < |part| ==> part[i] == Shown(naming, id[i])
  {
  }

  predicate SafeId(naming: Naming, id: string) {
    |id| <= 120 && forall i :: 0 <= i < |id| ==> naming.isAlnum(id[i]) || id[i] == '-' || id[i] == '_'
  }

  /** What a caller can check: short message ids of safe characters, and file keys with different hashes. */
  lemma SafeIdsKeepOutputsDistinct(naming: Naming, keys: iset<ResourceKey>)
    requires forall k :: k in keys ==> SafeId(naming, k.messageId)
    requires forall a, b :: a in keys && b in keys && naming.keyHash(a.fileKey) == naming.keyHash(b.fileKey) ==> a.fileKey == b.fileKey
    ensures DistinctOutputs(naming, keys)
  {
    forall a, b | a in keys && b in keys && OutputOf(naming, a) == OutputOf(naming, b) ensures a == b {
      assert SafePathPart(naming, a.messageId) == a.messageId;
      assert SafePathPart(naming, b.messageId) == b.messageId;
    }
  }

  // ---------------------------------------------------------------- skipping and blocking

  ghost predicate Settled(config: ResourceConfig, s: ResourceState, key: ResourceKey) {
    && key in s.rows && s.rows[key].status == Downloaded
    && s.rows[key].path.Some? && s.rows[key].path.value.absolute == config.absolutePaths
  }

  /**
   Once rows and files agree, a message whose resources are all downloaded is left exactly as it is:
   no file is fetched and no row rewritten.
   */
  lemma {:induction false} SettledMessageIsSkipped(config: ResourceConfig, s: ResourceState, call: Call, i: nat)
    requires i <= |call.keys| && RowsAgree(config.naming, s) && !s.blocked
    requires forall k :: i <= k < |call.keys| ==> Settled(config, s, call.keys[k]) && call.env(k).policy.Allowed?
    ensures ProcessFrom(config, s, s.rows, call, i) == s
    decreases |call.keys| - i
  {
    if i < |call.keys| {
      var key := call.keys[i];
      assert RowTrue(config.naming, s.files, key, s.rows[key]);
      assert Verified(config, s.files, s.rows, key);
      SettledMessageIsSkipped(config, s, call, i + 1);
    }
  }

  /**
   Once the quota has stopped a processor, it downloads nothing more, and it rewrites the row of every
   allowed resource it still meets, even one whose file is in place.
   */
  lemma {:induction false} BlockedProcessorOnlyRewritesRows(config: ResourceConfig, s: ResourceState, existing: Rows, call: Call, i: nat)
    requires i <= |call.keys| && s.blocked
    ensures var after := ProcessFrom(config, s, existing, call, i);
            && after.blocked && after.files == s.files
            && (forall key :: key in after.rows ==>
                  if exists k :: i <= k < |call.keys| && call.keys[k] == key
                  then after.rows[key].status != Downloaded else key in s.rows && after.rows[key] == s.rows[key])
    decreases |call.keys| - i
  {
    if i < |call.keys| {
      BlockedProcessorOnlyRewritesRows(config, ProcessOne(config, s, existing, call.keys[i], call.env(i)), existing, call, i + 1);
    }
  }
}
