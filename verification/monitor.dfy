/**
 * The body of `monitor.py`: one invocation collects a forensic record of the
 * repository and appends it, serialised, as one line of the log. Clock,
 * environment, hashing and serialisation are parameters of the invocation.
 */
module Monitor {
  import opened Wrappers
  import opened Files
  import opened Text
  import opened RepoWalk
  import opened WorkflowSteps
  import opened Fingerprint
  import opened ForensicLog

  const WorkflowPath: string := ".github/workflows/ci.yml"
  const RequirementsPath: string := "requirements.txt"

  /** One line of `forensic_log.jsonl`, field for field. */
  datatype Record = Record(
    timestamp: real,
    commit: Option<string>,
    fileCount: nat,
    repoFingerprint: string,
    workflowHash: Option<string>,
    requirementsHash: Option<string>,
    workflowStepCount: Option<nat>)

  /**
   * What one invocation observes: the files it can read, the triples
   * `os.walk(".")` yields, `time.time()` and `os.getenv("GITHUB_SHA")`.
   */
  datatype Environment = Environment(
    fs: FileSystem,
    walk: seq<WalkEntry>,
    now: real,
    githubSha: Option<string>)

  /** The record an invocation collects in the given environment. */
  function Collect(env: Environment, sha256: Bytes -> string, decode: Bytes -> Option<string>): (r: Record)
    ensures r.workflowHash.None? <==> WorkflowPath !in env.fs
    ensures r.requirementsHash.None? <==> RequirementsPath !in env.fs
    ensures r.workflowStepCount.Some? ==> r.workflowHash.Some?
    ensures r.fileCount <= ListedCount(env.walk)
  {
    Record(
      env.now,
      env.githubSha,
      FileCount(env.walk),
      sha256(FedBytes(env.walk, env.fs)),
      FileHash(env.fs, WorkflowPath, sha256),
      FileHash(env.fs, RequirementsPath, sha256),
      CountWorkflowSteps(env.fs, WorkflowPath, decode))
  }

  /**
   * One run of the script: the three per-file values, then the record, then
   * `open(log_file, "a").write(dumps(record) + "\n")`. When the log cannot be
   * opened (`writable` false) the script stops with the log untouched.
   */
  method Run(env: Environment, sha256: Bytes -> string, decode: Bytes -> Option<string>,
             dumps: Record -> string, log: LogFile, writable: bool)
    returns (record: Record, ok: bool)
    requires log.Valid()
    modifies log
    ensures record == Collect(env, sha256, decode)
    ensures log.Valid()
    ensures ok == writable
    ensures ok ==> log.present && log.text == old(log.text) + dumps(record) + "\n"
    ensures !ok ==> log.present == old(log.present) && log.text == old(log.text)
    ensures ok && '\n' !in dumps(record) && Terminated(old(log.text)) ==>
      log.Lines() == old(log.Lines()) + [dumps(record) + "\n"]
    ensures ok && '\n' !in dumps(record) && !Terminated(old(log.text)) ==>
      |old(log.Lines())| > 0 &&
      log.Lines() == old(log.Lines())[..|old(log.Lines())| - 1]
                     + [old(log.Lines())[|old(log.Lines())| - 1] + dumps(record) + "\n"]
  {
    var workflowHash := FileHash(env.fs, WorkflowPath, sha256);
    var requirementsHash := FileHash(env.fs, RequirementsPath, sha256);
    var workflowStepCount := CountWorkflowSteps(env.fs, WorkflowPath, decode);
    var fileCount := CountFiles(env.walk);
    var fingerprint := RepoFingerprint(env.walk, env.fs, sha256);
    record := Record(env.now, env.githubSha, fileCount, fingerprint,
                     workflowHash, requirementsHash, workflowStepCount);
    ok := log.Append(dumps(record), writable);
  }

  /** Without a readable workflow file both workflow fields are empty. */
  lemma MissingWorkflow(env: Environment, sha256: Bytes -> string, decode: Bytes -> Option<string>)
    requires WorkflowPath !in env.fs
    ensures Collect(env, sha256, decode).workflowHash == None
    ensures Collect(env, sha256, decode).workflowStepCount == None
  {
  }

  /**
   * The step count is missing while the hash is present exactly when the
   * workflow file can be read but not decoded as text.
   */
  lemma UndecodableWorkflow(env: Environment, sha256: Bytes -> string, decode: Bytes -> Option<string>)
    ensures var r := Collect(env, sha256, decode);
      r.workflowHash.Some? && r.workflowStepCount.None?
      <==> WorkflowPath in env.fs && decode(env.fs[WorkflowPath]).None?
  {
  }

  /** A readable, decodable workflow yields its digest and the count of its step lines. */
  lemma ReadableWorkflow(env: Environment, sha256: Bytes -> string, decode: Bytes -> Option<string>)
    requires WorkflowPath in env.fs && decode(env.fs[WorkflowPath]).Some?
    ensures Collect(env, sha256, decode).workflowHash == Some(sha256(env.fs[WorkflowPath]))
    ensures Collect(env, sha256, decode).workflowStepCount
      == Some(CountSteps(ReadLines(decode(env.fs[WorkflowPath]).value)))
  {
  }

  /**
   * The fingerprint digests one chunk per counted file that can be read:
   * never more than `file_count`, and exactly that many when every kept
   * file can be read.
   */
  lemma FingerprintCoversCountedFiles(env: Environment)
    ensures |ReadableChunks(KeptPaths(env.walk), env.fs)| <= FileCount(env.walk)
    ensures (forall p :: p in KeptPaths(env.walk) ==> p in env.fs)
      ==> |ReadableChunks(KeptPaths(env.walk), env.fs)| == FileCount(env.walk)
  {
    KeptPathsMatchFileCount(env.walk);
    if forall p :: p in KeptPaths(env.walk) ==> p in env.fs {
      AllReadableFeedsEveryFile(env.walk, env.fs);
    }
  }

  /**
   * The record depends on the file system only through the two named files
   * and the files the fingerprint reads: environments that agree there, and
   * on the walk, clock and commit, give the same record.
   */
  lemma RecordDependsOnlyOnReadFiles(env1: Environment, env2: Environment,
                                     sha256: Bytes -> string, decode: Bytes -> Option<string>)
    requires env1.walk == env2.walk && env1.now == env2.now && env1.githubSha == env2.githubSha
    requires forall p :: (p in KeptPaths(env1.walk) || p == WorkflowPath || p == RequirementsPath) ==>
      (p in env1.fs <==> p in env2.fs) && (p in env1.fs ==> env1.fs[p] == env2.fs[p])
    ensures Collect(env1, sha256, decode) == Collect(env2, sha256, decode)
  {
    FingerprintIgnoresExcludedFiles(env1.walk, env1.fs, env2.fs);
  }
}
