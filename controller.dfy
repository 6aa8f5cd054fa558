/**
 * The reconciliation pass of pkg/controllers/yukconfig_controller.go: the gates,
 * the status stamp, the tag resolution and comparison, the file updates and the Ready
 * condition. The outcomes of the Kubernetes `Get`, of the tag resolver, of
 * `updateFiles` and of the status write are inputs of `Reconcile`; `now` is the clock
 * reading of the pass. `UpdateFiles` composes the git client and the YAML updater.
 */
module Controller {
  import opened Wrappers
  import opened ApiTypes
  import opened YamlFile
  import opened Git

  const Second: int := 1000000000
  /** The check interval when the spec gives none: five minutes. */
  const DefaultCheckInterval: int := 5 * 60 * Second

  const ReadyCondition: string := "Ready"
  const EcrRequiredMessage: string := "ECR configuration is required when repository type is 'ecr'"
  const UnsupportedTypeMessage: string := "unsupported repository type: "
  const SynchronizedMessage: string := "Successfully synchronized with repository"
  const DefaultCommitMessage: string := "Update container image to "

  // ---------------------------------------------------------------- setCondition

  /** The first condition of the given type, if any. */
  function FindCondition(conditions: seq<Condition>, condType: string): (r: Option<nat>)
    ensures r.Some? ==> r.value < |conditions| && conditions[r.value].condType == condType
    ensures r.Some? ==> forall k :: 0 <= k < r.value ==> conditions[k].condType != condType
    ensures r.None? ==> forall k :: 0 <= k < |conditions| ==> conditions[k].condType != condType
  {
    if |conditions| == 0 then None
    else if conditions[0].condType == condType then Some(0)
    else
      match FindCondition(conditions[1..], condType)
      case None => None
      case Some(i) => Some(i + 1)
  }

  /** The conditions hold one of this type, and the first such has this status, reason and message. */
  predicate HasCondition(conditions: seq<Condition>, condType: string, status: ConditionStatus,
                         reason: string, message: string)
  {
    FindCondition(conditions, condType).Some?
    && var c := conditions[FindCondition(conditions, condType).value];
       c.status == status && c.reason == reason && c.message == message
  }

  /**
   * The conditions after `setCondition`: the first record of the type is replaced,
   * keeping its transition time when the status is unchanged; with no such record a
   * new one stamped `now` is appended.
   */
  function WithCondition(conditions: seq<Condition>, condType: string, status: ConditionStatus,
                         reason: string, message: string, now: int): seq<Condition>
  {
    match FindCondition(conditions, condType)
    case None => conditions + [Condition(condType, status, now, reason, message)]
    case Some(i) =>
      var transition := if conditions[i].status != status then now else conditions[i].lastTransitionTime;
      conditions[i := Condition(condType, status, transition, reason, message)]
  }

  /** `setCondition`: scan for the first record of the type, overwrite it in place or append. */
  method SetCondition(conditions: seq<Condition>, condType: string, status: ConditionStatus,
                      reason: string, message: string, now: int) returns (updated: seq<Condition>)
    ensures updated == WithCondition(conditions, condType, status, reason, message, now)
  {
    var condition := Condition(condType, status, now, reason, message);
    var i := 0;
    while i < |conditions|
      invariant 0 <= i <= |conditions|
      invariant forall k :: 0 <= k < i ==> conditions[k].condType != condType
    {
      if conditions[i].condType == condType {
        if conditions[i].status != status {
          condition := condition.(lastTransitionTime := now);
        } else {
          condition := condition.(lastTransitionTime := conditions[i].lastTransitionTime);
        }
        return conditions[i := condition];
      }
      i := i + 1;
    }
    return conditions + [condition];
  }

  /**
   * After setting, the first record of the type carries the new status, reason and
   * message; its transition time is the old one exactly when a record of the type
   * existed with the same status, and `now` otherwise.
   */
  lemma SetConditionReadsBack(conditions: seq<Condition>, condType: string, status: ConditionStatus,
                              reason: string, message: string, now: int)
    ensures var updated := WithCondition(conditions, condType, status, reason, message, now);
            var found := FindCondition(conditions, condType);
            HasCondition(updated, condType, status, reason, message)
            && updated[FindCondition(updated, condType).value].lastTransitionTime
               == if found.Some? && conditions[found.value].status == status
                  then conditions[found.value].lastTransitionTime else now
  {
    var updated := WithCondition(conditions, condType, status, reason, message, now);
    var found := FindCondition(conditions, condType);
    var j := if found.Some? then found.value else |conditions|;
    assert updated[j].condType == condType;
    forall k | 0 <= k < j
      ensures updated[k].condType != condType
    {
      assert updated[k] == conditions[k];
    }
    FindConditionAt(updated, condType, j);
  }

  /** A record of the type at `j` with none before it is what FindCondition returns. */
  lemma {:induction false} FindConditionAt(conditions: seq<Condition>, condType: string, j: nat)
    requires j < |conditions| && conditions[j].condType == condType
    requires forall k :: 0 <= k < j ==> conditions[k].condType != condType
    ensures FindCondition(conditions, condType) == Some(j)
  {
  }

  /**
   * Setting a condition grows the list by at most one (exactly when no record of the
   * type existed) and leaves every record except the first of the type as it was.
   */
  lemma SetConditionFrame(conditions: seq<Condition>, condType: string, status: ConditionStatus,
                          reason: string, message: string, now: int)
    ensures var updated := WithCondition(conditions, condType, status, reason, message, now);
            |updated| == |conditions| + (if FindCondition(conditions, condType).None? then 1 else 0)
            && forall k :: 0 <= k < |conditions| && FindCondition(conditions, condType) != Some(k)
                 ==> updated[k] == conditions[k]
  {
  }

  /**
   * Setting the same condition again changes nothing, whatever the clock says: the
   * status is unchanged, so the first transition time is kept.
   */
  lemma SetConditionIdempotent(conditions: seq<Condition>, condType: string, status: ConditionStatus,
                               reason: string, message: string, now: int, later: int)
    ensures var once := WithCondition(conditions, condType, status, reason, message, now);
            WithCondition(once, condType, status, reason, message, later) == once
  {
    var once := WithCondition(conditions, condType, status, reason, message, now);
    SetConditionReadsBack(conditions, condType, status, reason, message, now);
    var j := FindCondition(once, condType).value;
    assert once[j] == Condition(condType, status, once[j].lastTransitionTime, reason, message);
    assert once[j := once[j]] == once;
  }

  /** No two records of the list have the same type. */
  predicate TypesUnique(conditions: seq<Condition>)
  {
    forall i, j :: 0 <= i < j < |conditions| ==> conditions[i].condType != conditions[j].condType
  }

  /** Setting a condition on a list with one record per type keeps one record per type. */
  lemma SetConditionKeepsTypesUnique(conditions: seq<Condition>, condType: string, status: ConditionStatus,
                                     reason: string, message: string, now: int)
    requires TypesUnique(conditions)
    ensures TypesUnique(WithCondition(conditions, condType, status, reason, message, now))
  {
  }

  /**
   * Only the first record of the type is replaced: a list that already holds two
   * records of the type still holds two afterwards.
   */
  lemma SetConditionKeepsDuplicates(conditions: seq<Condition>, condType: string, status: ConditionStatus,
                                    reason: string, message: string, now: int, i: nat, j: nat)
    requires i < j < |conditions|
    requires conditions[i].condType == condType && conditions[j].condType == condType
    ensures var updated := WithCondition(conditions, condType, status, reason, message, now);
            !TypesUnique(updated) && updated[j] == conditions[j]
  {
    var updated := WithCondition(conditions, condType, status, reason, message, now);
    var found := FindCondition(conditions, condType);
    assert found.Some? && found.value <= i;
    assert updated[found.value].condType == condType;
    assert updated[j] == conditions[j];
  }

  // ---------------------------------------------------------------- updateFiles

  /** The file store after applying some targets, and the first target that failed, if any. */
  datatype Applied = Applied(files: map<string, Bytes>, failure: Option<(string, FileError)>)

  /** The path `updateFiles` hands to the updater for a target of the clone at `repoPath`. */
  function TargetPath(repoPath: string, target: UpdateTarget): string
  {
    repoPath + "/" + target.file
  }

  /** One call of `UpdateYAMLPath` for a target, as its contract describes it. */
  function ApplyTarget(files: map<string, Bytes>, readOnly: set<string>, codec: Codec, repoPath: string,
                       target: UpdateTarget, newTag: string): Applied
  {
    var path := TargetPath(repoPath, target);
    match UpdatedBytes(files, codec, path, target.yamlPath, newTag, target.imageTagOnly)
    case Failure(e) => Applied(files, Some((target.file, e)))
    case Success(bytes) =>
      if path in readOnly then Applied(files, Some((target.file, WriteFailed(path))))
      else Applied(files[path := bytes], None)
  }

  /** The targets applied in spec order, stopping at the first failure. */
  function ApplyTargets(files: map<string, Bytes>, readOnly: set<string>, codec: Codec, repoPath: string,
                        targets: seq<UpdateTarget>, newTag: string): Applied
    decreases |targets|
  {
    if |targets| == 0 then Applied(files, None)
    else
      var first := ApplyTarget(files, readOnly, codec, repoPath, targets[0], newTag);
      if first.failure.Some? then first
      else ApplyTargets(first.files, readOnly, codec, repoPath, targets[1..], newTag)
  }

  /**
   * Applying `targets + more` applies `targets` and then, only if none of them
   * failed, `more` from the files they left: a failure aborts every later target.
   */
  lemma {:induction false} ApplyTargetsAppend(files: map<string, Bytes>, readOnly: set<string>, codec: Codec,
                                              repoPath: string, targets: seq<UpdateTarget>,
                                              more: seq<UpdateTarget>, newTag: string)
    ensures var first := ApplyTargets(files, readOnly, codec, repoPath, targets, newTag);
            ApplyTargets(files, readOnly, codec, repoPath, targets + more, newTag)
            == if first.failure.Some? then first else ApplyTargets(first.files, readOnly, codec, repoPath, more, newTag)
    decreases |targets|
  {
    if |targets| == 0 {
      assert targets + more == more;
    } else {
      assert (targets + more)[0] == targets[0];
      assert (targets + more)[1..] == targets[1..] + more;
      var step := ApplyTarget(files, readOnly, codec, repoPath, targets[0], newTag);
      if step.failure.None? {
        ApplyTargetsAppend(step.files, readOnly, codec, repoPath, targets[1..], more, newTag);
      }
    }
  }

  /** Only the files that some target names are created or changed. */
  lemma {:induction false} ApplyTargetsTouchesTargets(files: map<string, Bytes>, readOnly: set<string>, codec: Codec,
                                                      repoPath: string, targets: seq<UpdateTarget>, newTag: string,
                                                      path: string)
    requires forall i :: 0 <= i < |targets| ==> TargetPath(repoPath, targets[i]) != path
    ensures var after := ApplyTargets(files, readOnly, codec, repoPath, targets, newTag).files;
            (path in after <==> path in files) && (path in files ==> after[path] == files[path])
    decreases |targets|
  {
    if |targets| > 0 {
      var step := ApplyTarget(files, readOnly, codec, repoPath, targets[0], newTag);
      assert TargetPath(repoPath, targets[0]) != path;
      if step.failure.None? {
        ApplyTargetsTouchesTargets(step.files, readOnly, codec, repoPath, targets[1..], newTag, path);
      }
    }
  }

  /** The error `updateFiles` returns, each wrapping the cause as the Go messages do. */
  datatype UpdateFilesError =
    | CloneError(cause: GitError)                          // failed to clone repository
    | TargetError(file: string, fileCause: FileError)          // failed to update file %s
    | PushError(cause: GitError)                           // failed to commit and push changes

  /** The commit message: the configured one, or the default naming the new tag. */
  function CommitMessage(config: GitConfig, newTag: string): (message: string)
    ensures config.commitMessage != "" ==> message == config.commitMessage
    ensures config.commitMessage == "" ==> message == DefaultCommitMessage + newTag
  {
    if config.commitMessage == "" then DefaultCommitMessage + newTag else config.commitMessage
  }

  /**
   * `updateFiles`: clone; apply every target to the clone in spec order, stopping at
   * the first failure; commit and push with the commit message; remove the clone on
   * every exit after a successful clone. `store` holds the clone's files under their
   * full paths.
   */
  method UpdateFiles(spec: YukConfigSpec, newTag: string, token: string, cloneOutcomes: CloneOutcomes,
                     store: FileStore, codec: Codec, commitOutcomes: CommitOutcomes)
    returns (err: Option<UpdateFilesError>, steps: seq<GitStep>)
    modifies store`files
    ensures !(cloneOutcomes.tempDir.Some? && GetAuthenticatedRepoURL(spec.git, token).Success?
              && cloneOutcomes.cloneOk && cloneOutcomes.configureOk)
            ==> err.Some? && err.value.CloneError? && store.files == old(store.files)
                && forall k :: 0 <= k < |steps| ==> IsCloneStep(steps[k])
    // Each failed clone is reported with the cause and the commands `Clone` reports.
    ensures cloneOutcomes.tempDir.None? ==> err == Some(CloneError(TempDirFailed)) && steps == [MakeTempDir]
    ensures cloneOutcomes.tempDir.Some? && GetAuthenticatedRepoURL(spec.git, token).Failure?
            ==> err == Some(CloneError(AuthFailed(GetAuthenticatedRepoURL(spec.git, token).error)))
                && steps == [MakeTempDir, RemoveDir(cloneOutcomes.tempDir.value)]
    ensures cloneOutcomes.tempDir.Some? && GetAuthenticatedRepoURL(spec.git, token).Success? && !cloneOutcomes.cloneOk
            ==> err == Some(CloneError(CloneFailed))
                && steps == [MakeTempDir,
                             CloneRepo(GetAuthenticatedRepoURL(spec.git, token).value, EffectiveBranch(spec.git),
                                       cloneOutcomes.tempDir.value),
                             RemoveDir(cloneOutcomes.tempDir.value)]
    ensures cloneOutcomes.tempDir.Some? && GetAuthenticatedRepoURL(spec.git, token).Success?
            && cloneOutcomes.cloneOk && !cloneOutcomes.configureOk
            ==> err == Some(CloneError(ConfigureFailed))
                && steps == SuccessfulClone(spec.git, GetAuthenticatedRepoURL(spec.git, token).value,
                                            cloneOutcomes.tempDir.value)
                            + [RemoveDir(cloneOutcomes.tempDir.value)]
    ensures cloneOutcomes.tempDir.Some? && GetAuthenticatedRepoURL(spec.git, token).Success?
            && cloneOutcomes.cloneOk && cloneOutcomes.configureOk
            ==> var repoPath := cloneOutcomes.tempDir.value;
                var cloned := SuccessfulClone(spec.git, GetAuthenticatedRepoURL(spec.git, token).value, repoPath);
                var applied := ApplyTargets(old(store.files), store.readOnly, codec, repoPath, spec.updateTargets, newTag);
                store.files == applied.files
                && (applied.failure.Some? ==>
                      err == Some(TargetError(applied.failure.value.0, applied.failure.value.1))
                      && steps == cloned + [RemoveDir(repoPath)])
                && (applied.failure.None? ==>
                      steps == cloned
                               + CommitProtocol(repoPath, CommitMessage(spec.git, newTag), EffectiveBranch(spec.git))
                                   [..CommitStepsRun(commitOutcomes)]
                               + [RemoveDir(repoPath)]
                      && err == if CommitError(commitOutcomes).Some? then Some(PushError(CommitError(commitOutcomes).value))
                                else None)
  {
    var cloned, cloneSteps := Clone(spec.git, token, cloneOutcomes);
    steps := cloneSteps;
    if cloned.Failure? {
      return Some(CloneError(cloned.error)), steps;
    }
    var repoPath := cloned.value;

    var targets := spec.updateTargets;
    assert targets[0..] == targets;
    var i := 0;
    while i < |targets|
      invariant 0 <= i <= |targets|
      invariant ApplyTargets(old(store.files), store.readOnly, codec, repoPath, targets, newTag)
             == ApplyTargets(store.files, store.readOnly, codec, repoPath, targets[i..], newTag)
    {
      var target := targets[i];
      assert targets[i..][0] == target && targets[i..][1..] == targets[i + 1..];
      var fileErr := UpdateYAMLPath(store, codec, repoPath + "/" + target.file, target.yamlPath, newTag, target.imageTagOnly);
      if fileErr.Some? {
        steps := steps + [RemoveDir(repoPath)];
        return Some(TargetError(target.file, fileErr.value)), steps;
      }
      i := i + 1;
    }

    var commitMessage := spec.git.commitMessage;
    if commitMessage == "" {
      commitMessage := DefaultCommitMessage + newTag;
    }

    var pushErr, commitSteps := CommitAndPush(spec.git, repoPath, commitMessage, commitOutcomes);
    steps := steps + commitSteps + [RemoveDir(repoPath)];
    if pushErr.Some? {
      return Some(PushError(pushErr.value)), steps;
    }
    return None, steps;
  }

  // ---------------------------------------------------------------- Reconcile

  datatype GetError = NotFound | GetFailed(message: string)

  datatype ReconcileError =
    | FetchError(message: string)        // the Get error, returned as it is
    | StatusWriteError(message: string)  // the error of Status().Update

  /** The calls a pass makes to its collaborators, in order. */
  datatype Call =
    | ResolveTag(repositoryName: string, tagFilter: string)  // GetLatestTag
    | RunUpdateFiles(newTag: string)                         // updateFiles
    | WriteStatus(status: YukConfigStatus)                   // Status().Update

  /** The check interval of a spec. */
  function CheckInterval(spec: YukConfigSpec): int
  {
    if spec.checkInterval.Some? then spec.checkInterval.value else DefaultCheckInterval
  }

  /** The last check was less than an interval ago: the pass only schedules the next one. */
  predicate TooEarly(config: YukConfig, now: int)
  {
    config.status.lastChecked.Some? && now - config.status.lastChecked.value < CheckInterval(config.spec)
  }

  /** The repository check: the resolved tag, or the error message the pass records. */
  function RepositoryCheck(spec: YukConfigSpec, latest: Result<string, string>): Result<string, string>
  {
    if spec.repository.repoType != "ecr" then Failure(UnsupportedTypeMessage + spec.repository.repoType)
    else if spec.repository.ecr.None? then Failure(EcrRequiredMessage)
    else latest
  }

  /** The error a pass returns after writing status. */
  function WriteResult(statusWriteErr: Option<string>): Option<ReconcileError>
  {
    if statusWriteErr.Some? then Some(StatusWriteError(statusWriteErr.value)) else None
  }

  /** The status is written once, by the last call. */
  predicate WritesOnceAtEnd(calls: seq<Call>)
  {
    |calls| >= 1 && calls[|calls| - 1].WriteStatus?
    && forall k :: 0 <= k < |calls| - 1 ==> !calls[k].WriteStatus?
  }

  /** The status written carries the stamp of the pass: checked now, at the object's generation. */
  predicate Stamped(config: YukConfig, now: int, calls: seq<Call>)
  {
    WritesOnceAtEnd(calls)
    && calls[|calls| - 1].status.lastChecked == Some(now)
    && calls[|calls| - 1].status.observedGeneration == config.generation
  }

  /** The tag is resolved, before anything else, exactly for an ECR repository with its configuration. */
  predicate ResolvesEcrOnly(config: YukConfig, calls: seq<Call>)
  {
    var repo := config.spec.repository;
    (repo.repoType == "ecr" && repo.ecr.Some?
     ==> |calls| >= 2 && calls[0] == ResolveTag(repo.ecr.value.repositoryName, repo.ecr.value.tagFilter))
    && (!(repo.repoType == "ecr" && repo.ecr.Some?) ==> forall k :: 0 <= k < |calls| ==> !calls[k].ResolveTag?)
  }

  /** The tag resolution a pass makes: one call, for an ECR repository with its configuration. */
  function ResolveCalls(spec: YukConfigSpec): seq<Call>
  {
    var repo := spec.repository;
    if repo.repoType == "ecr" && repo.ecr.Some?
    then [ResolveTag(repo.ecr.value.repositoryName, repo.ecr.value.tagFilter)]
    else []
  }

  /** The repository switch of a pass: the tag, or the error message, and the calls made for it. */
  method CheckRepository(spec: YukConfigSpec, latest: Result<string, string>)
    returns (check: Result<string, string>, calls: seq<Call>)
    ensures check == RepositoryCheck(spec, latest)
    ensures calls == ResolveCalls(spec)
  {
    calls := [];
    if spec.repository.repoType == "ecr" {
      if spec.repository.ecr.None? {
        return Failure(EcrRequiredMessage), calls;
      }
      var ecr := spec.repository.ecr.value;
      calls := calls + [ResolveTag(ecr.repositoryName, ecr.tagFilter)];
      if latest.Failure? {
        return Failure(latest.error), calls;
      }
      return Success(latest.value), calls;
    }
    return Failure(UnsupportedTypeMessage + spec.repository.repoType), calls;
  }

  /**
   * Every call of a pass past the gate, in order: the tag resolution, made once and
   * only for an ECR repository with its configuration; the file update, made once and
   * only for a resolved tag that is new; and the status write, `written`.
   */
  function PassCalls(config: YukConfig, latest: Result<string, string>, written: YukConfigStatus): seq<Call>
  {
    var check := RepositoryCheck(config.spec, latest);
    ResolveCalls(config.spec)
    + (if check.Success? && config.status.currentTag != check.value then [RunUpdateFiles(check.value)] else [])
    + [WriteStatus(written)]
  }

  /**
   * A repository failure: Ready=False/RepositoryError with the error text set as
   * setCondition sets it (other conditions kept), no file
   * work, tags and last update as they were, the next pass an interval away, and the
   * error of the status write returned.
   */
  predicate RepositoryErrorOutcome(config: YukConfig, message: string, now: int, statusWriteErr: Option<string>,
                                   requeueAfter: int, err: Option<ReconcileError>, calls: seq<Call>)
  {
    WritesOnceAtEnd(calls)
    && var written := calls[|calls| - 1].status;
       written.conditions
         == WithCondition(config.status.conditions, ReadyCondition, ConditionFalse, "RepositoryError", message, now)
       && written.latestTag == config.status.latestTag
       && written.currentTag == config.status.currentTag
       && written.lastUpdate == config.status.lastUpdate
       && (forall k :: 0 <= k < |calls| ==> !calls[k].RunUpdateFiles?)
       && requeueAfter == CheckInterval(config.spec)
       && err == WriteResult(statusWriteErr)
  }

  /** The resolved tag is recorded; the files are updated, just before the write, only when it is new. */
  predicate TagRecorded(config: YukConfig, tag: string, calls: seq<Call>)
  {
    WritesOnceAtEnd(calls)
    && calls[|calls| - 1].status.latestTag == tag
    && (config.status.currentTag == tag ==> forall k :: 0 <= k < |calls| ==> !calls[k].RunUpdateFiles?)
    && (config.status.currentTag != tag ==> |calls| >= 3 && calls[|calls| - 2] == RunUpdateFiles(tag))
  }

  /**
   * The files failed to update: Ready=False/UpdateError with the error text set as
   * setCondition sets it (other conditions kept), the
   * current tag and last update as they were, the next pass an interval away.
   */
  predicate UpdateErrorOutcome(config: YukConfig, message: string, now: int, statusWriteErr: Option<string>,
                               requeueAfter: int, err: Option<ReconcileError>, calls: seq<Call>)
  {
    WritesOnceAtEnd(calls)
    && var written := calls[|calls| - 1].status;
       written.conditions
         == WithCondition(config.status.conditions, ReadyCondition, ConditionFalse, "UpdateError", message, now)
       && written.currentTag == config.status.currentTag
       && written.lastUpdate == config.status.lastUpdate
       && requeueAfter == CheckInterval(config.spec)
       && err == WriteResult(statusWriteErr)
  }

  /**
   * Synchronized: Ready=True/Synchronized set as setCondition sets it (other
   * conditions kept), the current tag is the resolved one, the
   * last update is now when the tag changed; the next pass is an interval away unless
   * the status write fails, whose error is then returned with no requeue.
   */
  predicate SynchronizedOutcome(config: YukConfig, tag: string, now: int, statusWriteErr: Option<string>,
                                requeueAfter: int, err: Option<ReconcileError>, calls: seq<Call>)
  {
    WritesOnceAtEnd(calls)
    && var written := calls[|calls| - 1].status;
       written.conditions
         == WithCondition(config.status.conditions, ReadyCondition, ConditionTrue, "Synchronized", SynchronizedMessage, now)
       && written.currentTag == tag
       && written.lastUpdate == (if config.status.currentTag == tag then config.status.lastUpdate else Some(now))
       && requeueAfter == (if statusWriteErr.Some? then 0 else CheckInterval(config.spec))
       && err == WriteResult(statusWriteErr)
  }

  /**
   * The end of every exit past the gate: `setCondition` on Ready, then the status
   * write, the first of the pass.
   */
  method WriteReady(status: YukConfigStatus, readyStatus: ConditionStatus, reason: string, message: string,
                    now: int, calls: seq<Call>) returns (written: YukConfigStatus, callsOut: seq<Call>)
    requires forall k :: 0 <= k < |calls| ==> !calls[k].WriteStatus?
    ensures written == status.(conditions := WithCondition(status.conditions, ReadyCondition, readyStatus, reason, message, now))
    ensures HasCondition(written.conditions, ReadyCondition, readyStatus, reason, message)
    ensures callsOut == calls + [WriteStatus(written)]
    ensures WritesOnceAtEnd(callsOut) && callsOut[|callsOut| - 1].status == written
  {
    var conditions := SetCondition(status.conditions, ReadyCondition, readyStatus, reason, message, now);
    SetConditionReadsBack(status.conditions, ReadyCondition, readyStatus, reason, message, now);
    written := status.(conditions := conditions);
    callsOut := calls + [WriteStatus(written)];
  }

  /**
   * The part of a pass after the interval gate: stamp the status, resolve the tag,
   * update the files when the tag is new, set the Ready condition and write the status.
   */
  method Synchronize(config: YukConfig, now: int, checkInterval: int, latest: Result<string, string>,
                     updateFilesErr: Option<string>, statusWriteErr: Option<string>)
    returns (requeueAfter: int, err: Option<ReconcileError>, calls: seq<Call>)
    requires checkInterval == CheckInterval(config.spec)
    ensures Stamped(config, now, calls)
    ensures |calls| >= 1 && calls == PassCalls(config, latest, calls[|calls| - 1].status)
    ensures ResolvesEcrOnly(config, calls)
    ensures RepositoryCheck(config.spec, latest).Failure?
            ==> RepositoryErrorOutcome(config, RepositoryCheck(config.spec, latest).error, now, statusWriteErr,
                                       requeueAfter, err, calls)
    ensures RepositoryCheck(config.spec, latest).Success?
            ==> TagRecorded(config, RepositoryCheck(config.spec, latest).value, calls)
    ensures RepositoryCheck(config.spec, latest).Success?
            && config.status.currentTag != RepositoryCheck(config.spec, latest).value && updateFilesErr.Some?
            ==> UpdateErrorOutcome(config, updateFilesErr.value, now, statusWriteErr, requeueAfter, err, calls)
    ensures RepositoryCheck(config.spec, latest).Success?
            && (config.status.currentTag == RepositoryCheck(config.spec, latest).value || updateFilesErr.None?)
            ==> SynchronizedOutcome(config, RepositoryCheck(config.spec, latest).value, now, statusWriteErr,
                                    requeueAfter, err, calls)
  {
    var status := config.status.(lastChecked := Some(now), observedGeneration := config.generation);

    var check;
    check, calls := CheckRepository(config.spec, latest);
    if check.Failure? {
      status, calls := WriteReady(status, ConditionFalse, "RepositoryError", check.error, now, calls);
      return checkInterval, WriteResult(statusWriteErr), calls;
    }

    var latestTag := check.value;
    status := status.(latestTag := latestTag);

    if status.currentTag != latestTag {
      calls := calls + [RunUpdateFiles(latestTag)];
      if updateFilesErr.Some? {
        status, calls := WriteReady(status, ConditionFalse, "UpdateError", updateFilesErr.value, now, calls);
        return checkInterval, WriteResult(statusWriteErr), calls;
      }
      status := status.(currentTag := latestTag, lastUpdate := Some(now));
    }

    status, calls := WriteReady(status, ConditionTrue, "Synchronized", SynchronizedMessage, now, calls);

    if statusWriteErr.Some? {
      return 0, WriteResult(statusWriteErr), calls;
    }
    return checkInterval, None, calls;
  }

  /**
   * One reconciliation pass. `fetched` is the outcome of `Get`; `latest` the outcome
   * of `GetLatestTag` (consulted only for an ECR repository with its configuration);
   * `updateFilesErr` the error text of `updateFiles`, if it fails; `statusWriteErr`
   * the error text of the status write, if it fails.
   */
  method Reconcile(fetched: Result<YukConfig, GetError>, now: int, latest: Result<string, string>,
                   updateFilesErr: Option<string>, statusWriteErr: Option<string>)
    returns (requeueAfter: int, err: Option<ReconcileError>, calls: seq<Call>)
    // Not found: nothing to do. Any other Get error is returned.
    ensures fetched.Failure? ==> (requeueAfter == 0 && calls == []
            && err == if fetched.error.NotFound? then None else Some(FetchError(fetched.error.message)))
    // Disabled: no requeue, no repository call, no status write.
    ensures fetched.Success? && fetched.value.spec.disabled ==> requeueAfter == 0 && err == None && calls == []
    // Interval gate: wait for the rest of the interval, touching nothing.
    ensures fetched.Success? && !fetched.value.spec.disabled && TooEarly(fetched.value, now)
            ==> requeueAfter == CheckInterval(fetched.value.spec) - (now - fetched.value.status.lastChecked.value)
                && err == None && calls == []
    // Past the gate: the promises of the rest of the pass.
    ensures fetched.Success? && !fetched.value.spec.disabled && !TooEarly(fetched.value, now)
            ==> Stamped(fetched.value, now, calls) && ResolvesEcrOnly(fetched.value, calls)
                && calls == PassCalls(fetched.value, latest, calls[|calls| - 1].status)
    ensures fetched.Success? && !fetched.value.spec.disabled && !TooEarly(fetched.value, now)
            && RepositoryCheck(fetched.value.spec, latest).Failure?
            ==> RepositoryErrorOutcome(fetched.value, RepositoryCheck(fetched.value.spec, latest).error, now,
                                       statusWriteErr, requeueAfter, err, calls)
    ensures fetched.Success? && !fetched.value.spec.disabled && !TooEarly(fetched.value, now)
            && RepositoryCheck(fetched.value.spec, latest).Success?
            ==> TagRecorded(fetched.value, RepositoryCheck(fetched.value.spec, latest).value, calls)
    ensures fetched.Success? && !fetched.value.spec.disabled && !TooEarly(fetched.value, now)
            && RepositoryCheck(fetched.value.spec, latest).Success?
            && fetched.value.status.currentTag != RepositoryCheck(fetched.value.spec, latest).value
            && updateFilesErr.Some?
            ==> UpdateErrorOutcome(fetched.value, updateFilesErr.value, now, statusWriteErr, requeueAfter, err, calls)
    ensures fetched.Success? && !fetched.value.spec.disabled && !TooEarly(fetched.value, now)
            && RepositoryCheck(fetched.value.spec, latest).Success?
            && (fetched.value.status.currentTag == RepositoryCheck(fetched.value.spec, latest).value
                || updateFilesErr.None?)
            ==> SynchronizedOutcome(fetched.value, RepositoryCheck(fetched.value.spec, latest).value, now,
                                    statusWriteErr, requeueAfter, err, calls)
  {
    calls := [];
    if fetched.Failure? {
      if fetched.error.NotFound? {
        return 0, None, calls;
      }
      return 0, Some(FetchError(fetched.error.message)), calls;
    }
    var config := fetched.value;

    if config.spec.disabled {
      return 0, None, calls;
    }

    var checkInterval := DefaultCheckInterval;
    if config.spec.checkInterval.Some? {
      checkInterval := config.spec.checkInterval.value;
    }

    if config.status.lastChecked.Some? {
      var timeSinceLastCheck := now - config.status.lastChecked.value;
      if timeSinceLastCheck < checkInterval {
        return checkInterval - timeSinceLastCheck, None, calls;
      }
    }

    requeueAfter, err, calls := Synchronize(config, now, checkInterval, latest, updateFilesErr, statusWriteErr);
  }
}
