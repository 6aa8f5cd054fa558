/**
 * The shapes of the YukConfig resource (apis/yuk/v1/yukconfig_types.go) that the
 * controller, the git client and the updater read. Times and durations are integers
 * counting nanoseconds.
 */
module ApiTypes {
  import opened Wrappers

  datatype SecretKeySelector = SecretKeySelector(name: string, key: string)

  datatype GitAuthConfig = GitAuthConfig(
    personalAccessTokenRef: Option<SecretKeySelector>,
    sshKeyRef: Option<SecretKeySelector>)

  datatype GitConfig = GitConfig(
    repository: string,
    branch: string,
    auth: GitAuthConfig,
    commitMessage: string,
    email: string,
    name: string)

  datatype UpdateTarget = UpdateTarget(file: string, yamlPath: string, imageTagOnly: bool)

  /** The ECR settings the tag resolver reads; the AWS credentials are not part of this model. */
  datatype EcrConfig = EcrConfig(region: string, repositoryName: string, tagFilter: string)

  datatype RepositoryConfig = RepositoryConfig(repoType: string, ecr: Option<EcrConfig>)

  datatype YukConfigSpec = YukConfigSpec(
    repository: RepositoryConfig,
    git: GitConfig,
    updateTargets: seq<UpdateTarget>,
    checkInterval: Option<int>,
    disabled: bool)

  datatype ConditionStatus = ConditionTrue | ConditionFalse | ConditionUnknown

  /** The fields of `metav1.Condition` that the controller sets. */
  datatype Condition = Condition(
    condType: string,
    status: ConditionStatus,
    lastTransitionTime: int,
    reason: string,
    message: string)

  datatype YukConfigStatus = YukConfigStatus(
    lastChecked: Option<int>,
    lastUpdate: Option<int>,
    currentTag: string,
    latestTag: string,
    conditions: seq<Condition>,
    observedGeneration: int)

  /** A YukConfig object as `Get` returns it: its generation, spec and status. */
  datatype YukConfig = YukConfig(generation: int, spec: YukConfigSpec, status: YukConfigStatus)
}
