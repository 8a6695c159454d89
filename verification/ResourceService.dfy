/**
 The imperative form of the download service. Each method is proved equal to the corresponding
 function of `ResourceModel`, so every lemma about those functions is about this object.
 */
module ResourceService {
  import opened Base
  import opened Framing
  import opened ResourceModel
  import opened ResourceSafety

  /** `ResourceProcessor` with its `ResourceQuotaGuard`; a new one starts on the files and rows it finds. */
  class ResourceProcessor {
    const config: ResourceConfig
    var files: Files
    var rows: Rows
    var blocked: bool

    constructor (config: ResourceConfig, files: Files, rows: Rows)
      ensures this.config == config && State() == ResourceState(files, rows, false)
    {
      this.config, this.files, this.rows, this.blocked := config, files, rows, false;
    }

    ghost function State(): ResourceState
      reads this
    {
      ResourceState(files, rows, blocked)
    }

    /** `resource_dir_usage_bytes` */
    method UsageBytes() returns (total: nat)
      ensures total == Usage(files)
    {
      total := 0;
      var rest := files;
      while rest != map[]
        invariant rest.Keys <= files.Keys && total + Usage(rest) == Usage(files)
        decreases |rest|
      {
        var path :| path in rest;
        UsageOfRemoval(rest, path);
        total, rest := total + |rest[path]|, rest - {path};
      }
    }

    /** `cleanup_stale_partial_downloads` */
    method CleanUpStale(stale: Path -> bool)
      modifies this`files
      ensures files == CleanUp(old(files), stale)
      ensures forall p :: p in files <==> p in old(files) && !(p.Partial? && stale(p))
      ensures forall p :: p in files ==> files[p] == old(files)[p]
    {
      var rest := files.Keys;
      while rest != {}
        invariant rest <= old(files).Keys
        invariant forall p :: p in files <==> p in old(files) && (p in rest || !(p.Partial? && stale(p)))
        invariant forall p :: p in files ==> files[p] == old(files)[p]
        decreases |rest|
      {
        var path :| path in rest;
        rest := rest - {path};
        if path.Partial? && stale(path) {
          files := files - {path};
        }
      }
    }

    /** `before_download` */
    method BeforeDownload() returns (allow: bool)
      ensures allow == (Usage(files) < config.maxDirBytes)
    {
      var usage := UsageBytes();
      allow := usage < config.maxDirBytes;
    }

    /** `delete_downloaded_file` */
    method Delete(path: Path, fails: bool)
      modifies this`files
      ensures files == Discard(old(files), path, fails)
    {
      if !fails {
        files := files - {path};
      }
    }

    /** `after_download`: a file that breaks a limit is deleted before the verdict is returned. */
    method CheckDownload(temp: Path, final: Path, deleteFails: bool) returns (verdict: QuotaVerdict)
      requires temp in files && final in files ==> temp != final
      modifies this`files
      ensures verdict == AfterDownload(config, old(files), temp, final)
      ensures files == if verdict.Fits? then old(files) else Discard(old(files), temp, deleteFails)
    {
      var size := SizeAt(files, temp);
      if size > config.maxResourceBytes {
        Delete(temp, deleteFails);
        return FileTooLarge;
      }
      var replaced := SizeAt(files, final);
      var usage := UsageBytes();
      if usage - replaced > config.maxDirBytes {
        Delete(temp, deleteFails);
        return DirectoryFull;
      }
      verdict := Fits;
    }

    /** `_record_quota_blocked` and the other writes of a row without a file. */
    method RecordUnstored(key: ResourceKey, status: ResourceStatus)
      modifies this`rows
      ensures rows == old(rows)[key := Unstored(status)]
    {
      rows := rows[key := Unstored(status)];
    }

    /** From the provider call on. */
    method DownloadResource(key: ResourceKey, env: ResourceEnv)
      modifies this
      ensures State() == Download(config, old(State()), key, env)
    {
      var output := OutputOf(config.naming, key);
      var temp, final := Partial(output, env.uuid), Final(output);
      if env.leaves.Some? {
        files := files[temp := env.leaves.value];
      }
      if env.raises || !env.targetValid {
        Delete(temp, env.deleteFails);
        RecordUnstored(key, DownloadFailed);
        return;
      }
      if !env.ok {
        Delete(temp, env.deleteFails);
        RecordUnstored(key, if env.botAbsent then BotInvisible else DownloadFailed);
        return;
      }
      if temp !in files {
        RecordUnstored(key, MissingFile);
        return;
      }
      PublishDownload(key, output, env);
    }

    /** The checks and the atomic replace that follow a download the client reports as good. */
    method PublishDownload(key: ResourceKey, output: Output, env: ResourceEnv)
      requires output == OutputOf(config.naming, key) && Partial(output, env.uuid) in files
      requires env.ok && env.targetValid && !env.raises
      modifies this
      ensures State() == Download(config, old(State()), key, env.(leaves := None))
    {
      var temp, final := Partial(output, env.uuid), Final(output);
      var verdict := CheckDownload(temp, final, env.deleteFails);
      match verdict
      case FileTooLarge =>
        RecordUnstored(key, TooLarge);
      case DirectoryFull =>
        RecordUnstored(key, QuotaExceeded);
        blocked := true;
      case Fits =>
        if env.vanishes {
          files := files - {temp};
          RecordUnstored(key, MissingFile);
        } else if env.publishFails {
          Delete(temp, env.deleteFails);
          RecordUnstored(key, DownloadFailed);
        } else {
          var sha := Sha256(files[temp]);
          files := (files - {temp})[final := files[temp]];
          rows := rows[key := Row(Downloaded, Some(StoredPath(output, config.absolutePaths)), Some(sha))];
        }
    }

    /** The body of the loop of `process`. */
    method ProcessResource(existing: Rows, key: ResourceKey, env: ResourceEnv)
      modifies this
      ensures State() == ProcessOne(config, old(State()), existing, key, env)
    {
      if env.policy.DisabledByChat? {
        RecordUnstored(key, Skipped);
        return;
      }
      if env.policy.BotAbsent? {
        RecordUnstored(key, BotNotJoined);
        return;
      }
      if blocked {
        RecordUnstored(key, QuotaExceeded);
        return;
      }
      if Verified(config, files, existing, key) {
        return;
      }
      var allow := BeforeDownload();
      if !allow {
        RecordUnstored(key, QuotaExceeded);
        blocked := true;
        return;
      }
      DownloadResource(key, env);
    }

    /** `process` */
    method ProcessMessage(keys: seq<ResourceKey>, stale: Path -> bool, env: nat -> ResourceEnv)
      modifies this
      ensures State() == Process(config, old(State()), Call(keys, false, stale, env))
    {
      if keys == [] {
        return;
      }
      ghost var call := Call(keys, false, stale, env);
      CleanUpStale(stale);
      var existing := rows;
      var i := 0;
      while i < |keys|
        invariant i <= |keys|
        invariant ProcessFrom(config, State(), existing, call, i) == Process(config, old(State()), call)
      {
        ProcessResource(existing, keys[i], env(i));
        i := i + 1;
      }
    }
  }
}
