/**
 * The git client of pkg/git/client.go: the authenticated clone URL, the branch
 * default, and the step protocols of `Clone` and `CommitAndPush`. Each external
 * command (`os.MkdirTemp`, `git clone`, `git add`, ...) is a step in a returned trace
 * whose success or failure is an input; the GitHub token is a parameter in place of
 * the `GITHUB_TOKEN` environment variable.
 */
module Git {
  import opened Wrappers
  import opened Strings
  import opened ApiTypes

  const GithubPrefix: string := "https://github.com/"
  const DefaultBranch: string := "main"
  const Scheme: string := "https://"

  /** The side-effecting commands the client runs, with the arguments the model tracks. */
  datatype GitStep =
    | MakeTempDir                                         // os.MkdirTemp("", "yuk-git-")
    | CloneRepo(url: string, branch: string, dir: string) // git clone --single-branch --branch
    | ConfigureUser(dir: string, name: string, email: string)
    | RemoveDir(dir: string)                              // os.RemoveAll
    | AddAll(dir: string)                                 // git add .
    | CheckStaged(dir: string)                            // git diff --cached --quiet
    | CommitStaged(dir: string, message: string)          // git commit -m
    | PushBranch(dir: string, branch: string)             // git push origin <branch>

  datatype AuthError = TokenNotFound   // GitHub token not found in environment

  datatype GitError =
    | TempDirFailed
    | AuthFailed(cause: AuthError)
    | CloneFailed
    | ConfigureFailed
    | AddFailed
    | CommitFailed
    | PushFailed

  /** Whether each command of `Clone` succeeds; `tempDir` is the directory MkdirTemp creates. */
  datatype CloneOutcomes = CloneOutcomes(tempDir: Option<string>, cloneOk: bool, configureOk: bool)

  /** Whether each command of `CommitAndPush` succeeds; `nothingStaged` is a clean `git diff --cached`. */
  datatype CommitOutcomes = CommitOutcomes(addOk: bool, nothingStaged: bool, commitOk: bool, pushOk: bool)

  /**
   * `getAuthenticatedRepoURL`: with a personal-access-token reference, the token is
   * required and is spliced into a GitHub https URL; any other URL is left as it is.
   */
  function GetAuthenticatedRepoURL(config: GitConfig, token: string): (r: Result<string, AuthError>)
    ensures config.auth.personalAccessTokenRef.None? ==> r == Success(config.repository)
    ensures config.auth.personalAccessTokenRef.Some? && token == "" ==> r == Failure(TokenNotFound)
    ensures config.auth.personalAccessTokenRef.Some? && token != "" && HasPrefix(config.repository, GithubPrefix)
            ==> r == Success(Scheme + token + "@github.com/" + config.repository[|GithubPrefix|..])
    ensures config.auth.personalAccessTokenRef.Some? && token != "" && !HasPrefix(config.repository, GithubPrefix)
            ==> r == Success(config.repository)
  {
    var repoURL := config.repository;
    if config.auth.personalAccessTokenRef.Some? then
      if token == "" then Failure(TokenNotFound)
      else if HasPrefix(repoURL, GithubPrefix) then
        ReplaceFirstAtPrefix(repoURL, GithubPrefix, Scheme + token + "@github.com/");
        Success(ReplaceFirst(repoURL, GithubPrefix, Scheme + token + "@github.com/"))
      else Success(repoURL)
    else Success(repoURL)
  }

  /**
   * The credentials are only inserted: the authenticated URL is the configured one
   * with `token@` placed after the `https://` scheme.
   */
  lemma AuthenticatedURLInsertsToken(config: GitConfig, token: string)
    requires GetAuthenticatedRepoURL(config, token).Success?
    requires config.auth.personalAccessTokenRef.Some? && HasPrefix(config.repository, GithubPrefix)
    ensures GetAuthenticatedRepoURL(config, token).value == Scheme + token + "@" + config.repository[|Scheme|..]
  {
    var repo := config.repository;
    var host := "github.com/";
    assert GithubPrefix == Scheme + host;
    assert repo[..|Scheme|] == Scheme by {
      assert repo[..|Scheme|] == repo[..|GithubPrefix|][..|Scheme|];
    }
    var rest := repo[|GithubPrefix|..];
    assert repo[|Scheme|..] == host + rest by {
      assert repo[|Scheme|..|GithubPrefix|] == host by {
        assert repo[|Scheme|..|GithubPrefix|] == repo[..|GithubPrefix|][|Scheme|..];
      }
      assert repo[|Scheme|..] == repo[|Scheme|..|GithubPrefix|] + repo[|GithubPrefix|..];
    }
    calc {
      GetAuthenticatedRepoURL(config, token).value;
      Scheme + token + "@github.com/" + rest;
      { assert "@github.com/" == "@" + host; }
      Scheme + token + ("@" + host) + rest;
      { AppendAssoc4(Scheme + token, "@", host, rest); }
      Scheme + token + "@" + (host + rest);
    }
  }

  lemma AppendAssoc4(a: string, b: string, c: string, d: string)
    ensures a + (b + c) + d == a + b + (c + d)
  {
  }

  /** The branch cloned and pushed: the configured one, or `main` when none is configured. */
  function EffectiveBranch(config: GitConfig): (branch: string)
    ensures branch != ""
    ensures config.branch != "" ==> branch == config.branch
    ensures config.branch == "" ==> branch == DefaultBranch
  {
    if config.branch == "" then DefaultBranch else config.branch
  }

  /** The commands `Clone` may run. */
  predicate IsCloneStep(step: GitStep)
  {
    step.MakeTempDir? || step.CloneRepo? || step.ConfigureUser? || step.RemoveDir?
  }

  /** The commands of a clone that succeeds into `dir` from `url`. */
  function SuccessfulClone(config: GitConfig, url: string, dir: string): seq<GitStep>
  {
    [MakeTempDir, CloneRepo(url, EffectiveBranch(config), dir), ConfigureUser(dir, config.name, config.email)]
  }

  /**
   * `Clone`: make a temporary directory, resolve the URL, clone the effective branch
   * into it, configure the commit identity. Every failure after the directory exists
   * removes it; success returns the directory.
   */
  method Clone(config: GitConfig, token: string, outcomes: CloneOutcomes)
    returns (r: Result<string, GitError>, steps: seq<GitStep>)
    ensures |steps| >= 1 && steps[0] == MakeTempDir
    ensures r.Success? <==> outcomes.tempDir.Some? && GetAuthenticatedRepoURL(config, token).Success?
                            && outcomes.cloneOk && outcomes.configureOk
    ensures r.Success? ==> (r.value == outcomes.tempDir.value
            && steps == SuccessfulClone(config, GetAuthenticatedRepoURL(config, token).value, r.value))
    ensures outcomes.tempDir.None? ==> r == Failure(TempDirFailed) && steps == [MakeTempDir]
    ensures outcomes.tempDir.Some? && r.Failure? ==> steps[|steps| - 1] == RemoveDir(outcomes.tempDir.value)
    ensures outcomes.tempDir.Some? && GetAuthenticatedRepoURL(config, token).Failure?
            ==> r == Failure(AuthFailed(GetAuthenticatedRepoURL(config, token).error))
                && steps == [MakeTempDir, RemoveDir(outcomes.tempDir.value)]
    ensures outcomes.tempDir.Some? && GetAuthenticatedRepoURL(config, token).Success? && !outcomes.cloneOk
            ==> r == Failure(CloneFailed)
                && steps == [MakeTempDir,
                             CloneRepo(GetAuthenticatedRepoURL(config, token).value, EffectiveBranch(config),
                                       outcomes.tempDir.value),
                             RemoveDir(outcomes.tempDir.value)]
    ensures outcomes.tempDir.Some? && GetAuthenticatedRepoURL(config, token).Success?
            && outcomes.cloneOk && !outcomes.configureOk
            ==> r == Failure(ConfigureFailed)
                && steps == SuccessfulClone(config, GetAuthenticatedRepoURL(config, token).value, outcomes.tempDir.value)
                            + [RemoveDir(outcomes.tempDir.value)]
    ensures forall i :: 0 <= i < |steps| && steps[i].CloneRepo? ==> steps[i].branch == EffectiveBranch(config)
    ensures forall i :: 0 <= i < |steps| ==> IsCloneStep(steps[i])
  {
    steps := [MakeTempDir];
    if outcomes.tempDir.None? {
      return Failure(TempDirFailed), steps;
    }
    var tmpDir := outcomes.tempDir.value;

    var repoURL := GetAuthenticatedRepoURL(config, token);
    if repoURL.Failure? {
      steps := steps + [RemoveDir(tmpDir)];
      return Failure(AuthFailed(repoURL.error)), steps;
    }

    var branch := config.branch;
    if branch == "" {
      branch := DefaultBranch;
    }

    steps := steps + [CloneRepo(repoURL.value, branch, tmpDir)];
    if !outcomes.cloneOk {
      steps := steps + [RemoveDir(tmpDir)];
      return Failure(CloneFailed), steps;
    }

    steps := steps + [ConfigureUser(tmpDir, config.name, config.email)];
    if !outcomes.configureOk {
      steps := steps + [RemoveDir(tmpDir)];
      return Failure(ConfigureFailed), steps;
    }
    return Success(tmpDir), steps;
  }

  /** The full `CommitAndPush` protocol, in the order the commands run. */
  function CommitProtocol(repoPath: string, message: string, branch: string): seq<GitStep>
  {
    [AddAll(repoPath), CheckStaged(repoPath), CommitStaged(repoPath, message), PushBranch(repoPath, branch)]
  }

  /** How many commands of the protocol run: up to and including the first that fails. */
  function CommitStepsRun(outcomes: CommitOutcomes): nat
  {
    if !outcomes.addOk then 1
    else if outcomes.nothingStaged then 2
    else if !outcomes.commitOk then 3
    else 4
  }

  /** The error of the first failing command, if any. */
  function CommitError(outcomes: CommitOutcomes): Option<GitError>
  {
    if !outcomes.addOk then Some(AddFailed)
    else if outcomes.nothingStaged then None
    else if !outcomes.commitOk then Some(CommitFailed)
    else if !outcomes.pushOk then Some(PushFailed)
    else None
  }

  /**
   * `CommitAndPush`: add, check for staged changes, commit, push the effective branch.
   * The commands run in protocol order and stop at the first failure; a clean index
   * ends the protocol successfully before the commit.
   */
  method CommitAndPush(config: GitConfig, repoPath: string, commitMessage: string, outcomes: CommitOutcomes)
    returns (err: Option<GitError>, steps: seq<GitStep>)
    ensures steps == CommitProtocol(repoPath, commitMessage, EffectiveBranch(config))[..CommitStepsRun(outcomes)]
    ensures err == CommitError(outcomes)
    ensures err.None? <==> outcomes.addOk && (outcomes.nothingStaged || (outcomes.commitOk && outcomes.pushOk))
    ensures outcomes.addOk && outcomes.nothingStaged ==> err == None && |steps| == 2
  {
    steps := [AddAll(repoPath)];
    if !outcomes.addOk {
      return Some(AddFailed), steps;
    }

    steps := steps + [CheckStaged(repoPath)];
    if outcomes.nothingStaged {
      return None, steps;
    }

    steps := steps + [CommitStaged(repoPath, commitMessage)];
    if !outcomes.commitOk {
      return Some(CommitFailed), steps;
    }

    var branch := config.branch;
    if branch == "" {
      branch := DefaultBranch;
    }

    steps := steps + [PushBranch(repoPath, branch)];
    if !outcomes.pushOk {
      return Some(PushFailed), steps;
    }
    return None, steps;
  }

  /**
   * In any run of the protocol a push is preceded by a commit, and a commit by the
   * staged-changes check and the add.
   */
  lemma PushOnlyAfterCommit(steps: seq<GitStep>, repoPath: string, message: string, branch: string, i: nat)
    requires steps <= CommitProtocol(repoPath, message, branch)
    requires i < |steps|
    ensures steps[i].PushBranch? ==> i == 3 && steps[2] == CommitStaged(repoPath, message)
    ensures steps[i].CommitStaged? ==> i == 2 && steps[..2] == [AddAll(repoPath), CheckStaged(repoPath)]
  {
    var p := CommitProtocol(repoPath, message, branch);
    assert steps == p[..|steps|];
    assert steps[i] == p[i];
  }
}
