/**
 Resource downloads: a file tree under a byte quota and a table of rows about it. One resource is
 handled at a time; every branch ends in a new file map and, unless it skips, a new row.
 */
module ResourceModel {
  import opened Base
  import opened Framing

  const SAFE_PART_LIMIT: nat := 120

  type Content = seq<byte>

  datatype ResourceKind = Image | File

  datatype ResourceKey = ResourceKey(messageId: string, fileKey: string, kind: ResourceKind)

  /** The two lossy steps of naming an output: the character class kept, and the 12-digit key hash. */
  datatype Naming = Naming(isAlnum: char -> bool, keyHash: string -> string)

  datatype Output = Output(messagePart: string, kind: ResourceKind, keyHash: string)

  datatype Path = Final(output: Output) | Partial(output: Output, uuid: string) | Foreign(name: string)

  datatype StoredPath = StoredPath(output: Output, absolute: bool)

  datatype ResourceStatus =
    Skipped | BotNotJoined | BotInvisible | DownloadFailed | MissingFile | TooLarge | QuotaExceeded | Downloaded

  datatype Row = Row(status: ResourceStatus, path: Option<StoredPath>, sha: Option<Digest>)

  datatype ResourceConfig = ResourceConfig(naming: Naming, maxResourceBytes: nat, maxDirBytes: nat, absolutePaths: bool)

  type Files = map<Path, Content>

  type Rows = map<ResourceKey, Row>

  datatype ResourceState = ResourceState(files: Files, rows: Rows, blocked: bool)

  datatype Policy = Allowed | DisabledByChat | BotAbsent

  /** What one resource meets: the policy, the client's behaviour, and which file operations fail. */
  datatype ResourceEnv = ResourceEnv(
    policy: Policy,
    uuid: string,
    leaves: Option<Content>,
    raises: bool,
    targetValid: bool,
    ok: bool,
    botAbsent: bool,
    deleteFails: bool,
    vanishes: bool,
    publishFails: bool)

  // ---------------------------------------------------------------- names

  function SafeChars(naming: Naming, s: string): string {
    seq(|s|, i requires 0 <= i < |s| => if naming.isAlnum(s[i]) || s[i] == '-' || s[i] == '_' then s[i] else '_')
  }

  function SafePathPart(naming: Naming, s: string): string {
    var safe := SafeChars(naming, s);
    if |safe| <= SAFE_PART_LIMIT then safe else safe[..SAFE_PART_LIMIT]
  }

  function OutputOf(naming: Naming, key: ResourceKey): Output {
    Output(SafePathPart(naming, key.messageId), key.kind, naming.keyHash(key.fileKey))
  }

  // ---------------------------------------------------------------- sizes

  ghost function Usage(files: Files): nat {
    if files == map[] then 0
    else
      var p :| p in files;
      |files[p]| + Usage(files - {p})
  }

  /** The published files alone. */
  ghost function Finals(files: Files): Files {
    map p | p in files && p.Final? :: files[p]
  }

  // ---------------------------------------------------------------- one resource

  /** `_verified_existing_download`, judged by the rows read before the message's first resource. */
  predicate Verified(config: ResourceConfig, files: Files, existing: Rows, key: ResourceKey) {
    var final := Final(OutputOf(config.naming, key));
    && key in existing
    && existing[key].status == Downloaded
    && existing[key].path == Some(StoredPath(final.output, config.absolutePaths))
    && existing[key].sha.Some?
    && final in files
    && Sha256(files[final]) == existing[key].sha.value
  }

  function Unstored(status: ResourceStatus): Row { Row(status, None, None) }

  function Record(s: ResourceState, key: ResourceKey, status: ResourceStatus): ResourceState {
    s.(rows := s.rows[key := Unstored(status)])
  }

  function Discard(files: Files, temp: Path, deleteFails: bool): Files {
    if deleteFails then files else files - {temp}
  }

  function Arrived(files: Files, temp: Path, leaves: Option<Content>): Files {
    if leaves.Some? then files[temp := leaves.value] else files
  }

  function SizeAt(files: Files, p: Path): nat {
    if p in files then |files[p]| else 0
  }

  datatype QuotaVerdict = Fits | FileTooLarge | DirectoryFull

  /** `after_download`: the replaced file's size does not count against the new one. */
  ghost function AfterDownload(config: ResourceConfig, files: Files, temp: Path, final: Path): QuotaVerdict {
    if SizeAt(files, temp) > config.maxResourceBytes then FileTooLarge
    else if Usage(files) - SizeAt(files, final) > config.maxDirBytes then DirectoryFull
    else Fits
  }

  function Publish(files: Files, temp: Path, final: Path): Files
    requires temp in files
  {
    (files - {temp})[final := files[temp]]
  }

  /** From the provider call on. */
  ghost function Download(config: ResourceConfig, s: ResourceState, key: ResourceKey, env: ResourceEnv): ResourceState {
    var output := OutputOf(config.naming, key);
    var temp, final := Partial(output, env.uuid), Final(output);
    var arrived := Arrived(s.files, temp, env.leaves);
    var cleaned := s.(files := Discard(arrived, temp, env.deleteFails));
    if env.raises || !env.targetValid then Record(cleaned, key, DownloadFailed)
    else if !env.ok then Record(cleaned, key, if env.botAbsent then BotInvisible else DownloadFailed)
    else if temp !in arrived then Record(s.(files := arrived), key, MissingFile)
    else
      match AfterDownload(config, arrived, temp, final)
      case FileTooLarge => Record(cleaned, key, TooLarge)
      case DirectoryFull => Record(cleaned, key, QuotaExceeded).(blocked := true)
      case Fits =>
        if env.vanishes then Record(s.(files := arrived - {temp}), key, MissingFile)
        else if env.publishFails then Record(cleaned, key, DownloadFailed)
        else ResourceState(Publish(arrived, temp, final),
                           s.rows[key := Row(Downloaded, Some(StoredPath(output, config.absolutePaths)), Some(Sha256(arrived[temp])))],
                           s.blocked)
  }

  ghost function ProcessOne(config: ResourceConfig, s: ResourceState, existing: Rows, key: ResourceKey, env: ResourceEnv): ResourceState {
    if env.policy.DisabledByChat? then Record(s, key, Skipped)
    else if env.policy.BotAbsent? then Record(s, key, BotNotJoined)
    else if s.blocked then Record(s, key, QuotaExceeded)
    else if Verified(config, s.files, existing, key) then s
    else if Usage(s.files) >= config.maxDirBytes then Record(s, key, QuotaExceeded).(blocked := true)
    else Download(config, s, key, env)
  }

  // ---------------------------------------------------------------- calls

  /** One call of `process`: a message's resources, on a new or a used processor. */
  datatype Call = Call(keys: seq<ResourceKey>, newProcessor: bool, stale: Path -> bool, env: nat -> ResourceEnv)

  /** `cleanup_stale_partial_downloads`: only partial files can match, and only those the clock and the file system allow. */
  function CleanUp(files: Files, stale: Path -> bool): Files {
    map p | p in files && !(p.Partial? && stale(p)) :: files[p]
  }

  ghost function ProcessFrom(config: ResourceConfig, s: ResourceState, existing: Rows, call: Call, i: nat): ResourceState
    requires i <= |call.keys|
    decreases |call.keys| - i
  {
    if i == |call.keys| then s
    else ProcessFrom(config, ProcessOne(config, s, existing, call.keys[i], call.env(i)), existing, call, i + 1)
  }

  ghost function Process(config: ResourceConfig, s: ResourceState, call: Call): ResourceState {
    var begun := if call.newProcessor then s.(blocked := false) else s;
    if call.keys == [] then begun
    else ProcessFrom(config, begun.(files := CleanUp(s.files, call.stale)), s.rows, call, 0)
  }

  ghost function ProcessAll(config: ResourceConfig, s: ResourceState, calls: seq<Call>): ResourceState
    decreases |calls|
  {
    if calls == [] then s else ProcessAll(config, Process(config, s, calls[0]), calls[1..])
  }

  const EMPTY: ResourceState := ResourceState(map[], map[], false)
}
