/** The types of nodes and edges and which of them may meet (internal/graph/graph.go). */
module GraphKinds {
  datatype NodeKind =
    | Repository | WorkflowDefinition | ReusableWorkflowDefinition | WorkflowRun | RunAttempt | Job | Step
    | ActionRepository | ActionRef | ActionCommit | ImmutableActionPackage | ActionDefinition | Runner
    | RunnerGroup | Environment | TokenCapability | SecretMetadata | OIDCProvider | Artifact | Package
    | Release | Deployment | RepositoryResource | PullRequestChange | EvidenceObject | Finding

  datatype EdgeKind =
    | RunInRepository | AttemptOfRun | JobExecutedInAttempt | StepInJob | RunInstantiatedWorkflow
    | WorkflowDeclaredAction | WorkflowCalledWorkflow | ActionContainsAction | LocalActionResolvedTo
    | RefResolvedTo | PackageSourceCommit | JobPreparedAction | StepDownloadedAction | StepExecutedAction
    | ExecutedOnRunner | RunnerInGroup | HadTokenPermission | ReferencedSecret | PassedSecretTo
    | InheritedSecret | TargetedEnvironment | CrossedEnvironmentGate | EnvironmentSecretEligible
    | CouldMintOIDC | ProducedArtifact | PublishedPackage | CreatedRelease | CreatedDeployment
    | RepositoryWrite | PullRequestChange | ObservedAfter | FindingAbout | SupportedByEvidence | Contradicts

  function NodeText(k: NodeKind): string {
    match k
    case Repository => "Repository"
    case WorkflowDefinition => "WorkflowDefinition"
    case ReusableWorkflowDefinition => "ReusableWorkflowDefinition"
    case WorkflowRun => "WorkflowRun"
    case RunAttempt => "RunAttempt"
    case Job => "Job"
    case Step => "Step"
    case ActionRepository => "ActionRepository"
    case ActionRef => "ActionRef"
    case ActionCommit => "ActionCommit"
    case ImmutableActionPackage => "ImmutableActionPackage"
    case ActionDefinition => "ActionDefinition"
    case Runner => "Runner"
    case RunnerGroup => "RunnerGroup"
    case Environment => "Environment"
    case TokenCapability => "TokenCapability"
    case SecretMetadata => "SecretMetadata"
    case OIDCProvider => "OIDCProvider"
    case Artifact => "Artifact"
    case Package => "Package"
    case Release => "Release"
    case Deployment => "Deployment"
    case RepositoryResource => "RepositoryResource"
    case PullRequestChange => "PullRequestChange"
    case EvidenceObject => "EvidenceObject"
    case Finding => "Finding"
  }

  function EdgeText(k: EdgeKind): string {
    match k
    case RunInRepository => "RUN_IN_REPOSITORY"
    case AttemptOfRun => "ATTEMPT_OF_RUN"
    case JobExecutedInAttempt => "JOB_EXECUTED_IN_ATTEMPT"
    case StepInJob => "STEP_IN_JOB"
    case RunInstantiatedWorkflow => "RUN_INSTANTIATED_WORKFLOW"
    case WorkflowDeclaredAction => "WORKFLOW_DECLARED_ACTION"
    case WorkflowCalledWorkflow => "WORKFLOW_CALLED_WORKFLOW"
    case ActionContainsAction => "ACTION_CONTAINS_ACTION"
    case LocalActionResolvedTo => "LOCAL_ACTION_RESOLVED_TO"
    case RefResolvedTo => "REF_RESOLVED_TO"
    case PackageSourceCommit => "PACKAGE_SOURCE_COMMIT"
    case JobPreparedAction => "JOB_PREPARED_ACTION"
    case StepDownloadedAction => "STEP_DOWNLOADED_ACTION"
    case StepExecutedAction => "STEP_EXECUTED_ACTION"
    case ExecutedOnRunner => "EXECUTED_ON_RUNNER"
    case RunnerInGroup => "RUNNER_IN_GROUP"
    case HadTokenPermission => "HAD_TOKEN_PERMISSION"
    case ReferencedSecret => "REFERENCED_SECRET"
    case PassedSecretTo => "PASSED_SECRET_TO"
    case InheritedSecret => "INHERITED_SECRET"
    case TargetedEnvironment => "TARGETED_ENVIRONMENT"
    case CrossedEnvironmentGate => "CROSSED_ENVIRONMENT_GATE"
    case EnvironmentSecretEligible => "ENVIRONMENT_SECRET_ELIGIBLE"
    case CouldMintOIDC => "COULD_MINT_OIDC"
    case ProducedArtifact => "PRODUCED_ARTIFACT"
    case PublishedPackage => "PUBLISHED_PACKAGE"
    case CreatedRelease => "CREATED_RELEASE"
    case CreatedDeployment => "CREATED_DEPLOYMENT"
    case RepositoryWrite => "REPOSITORY_WRITE"
    case PullRequestChange => "PULL_REQUEST_CHANGE"
    case ObservedAfter => "OBSERVED_AFTER"
    case FindingAbout => "FINDING_ABOUT"
    case SupportedByEvidence => "SUPPORTED_BY_EVIDENCE"
    case Contradicts => "CONTRADICTS"
  }

  lemma NodeTextInjective(a: NodeKind, b: NodeKind)
    requires NodeText(a) == NodeText(b)
    ensures a == b
  {
  }

  /** No two texts of edge types agree in both their length and their tenth letter. */
  datatype Mark = Mark(length: nat, tenth: char)

  function MarkOf(k: EdgeKind): Mark {
    match k
    case RunInRepository => Mark(17, 'P') case AttemptOfRun => Mark(14, 'F') case JobExecutedInAttempt => Mark(23, 'T')
    case StepInJob => Mark(11, 'O') case RunInstantiatedWorkflow => Mark(25, 'N') case WorkflowDeclaredAction => Mark(24, 'D')
    case WorkflowCalledWorkflow => Mark(24, 'C') case ActionContainsAction => Mark(22, 'N') case LocalActionResolvedTo => Mark(24, 'I')
    case RefResolvedTo => Mark(15, 'V') case PackageSourceCommit => Mark(21, 'O') case JobPreparedAction => Mark(19, 'R')
    case StepDownloadedAction => Mark(22, 'L') case StepExecutedAction => Mark(20, 'U') case ExecutedOnRunner => Mark(18, 'O')
    case RunnerInGroup => Mark(15, '_') case HadTokenPermission => Mark(20, '_') case ReferencedSecret => Mark(17, 'D')
    case PassedSecretTo => Mark(16, 'C') case InheritedSecret => Mark(16, '_') case TargetedEnvironment => Mark(20, 'E')
    case CrossedEnvironmentGate => Mark(24, 'N') case EnvironmentSecretEligible => Mark(27, 'N') case CouldMintOIDC => Mark(15, 'T')
    case ProducedArtifact => Mark(17, 'A') case PublishedPackage => Mark(17, '_') case CreatedRelease => Mark(15, 'E')
    case CreatedDeployment => Mark(18, 'E') case RepositoryWrite => Mark(16, 'Y') case PullRequestChange => Mark(19, 'E')
    case ObservedAfter => Mark(14, 'A') case FindingAbout => Mark(13, 'B') case SupportedByEvidence => Mark(21, '_')
    case Contradicts => Mark(11, 'T')
  }

  predicate Marks(m: Mark, text: string) { |text| > 9 && m == Mark(|text|, text[9]) }

  lemma MarkOfShortText(k: EdgeKind)
    requires MarkOf(k).length < 17
    ensures Marks(MarkOf(k), EdgeText(k))
  {
  }

  lemma MarkOfMiddlingText(k: EdgeKind)
    requires 17 <= MarkOf(k).length < 20
    ensures Marks(MarkOf(k), EdgeText(k))
  {
  }

  lemma MarkOfLongText(k: EdgeKind)
    requires 20 <= MarkOf(k).length < 23
    ensures Marks(MarkOf(k), EdgeText(k))
  {
  }

  lemma MarkOfLongestText(k: EdgeKind)
    requires 23 <= MarkOf(k).length
    ensures Marks(MarkOf(k), EdgeText(k))
  {
  }

  lemma MarkOfText(k: EdgeKind)
    ensures Marks(MarkOf(k), EdgeText(k))
  {
    if MarkOf(k).length < 17 {
      MarkOfShortText(k);
    } else if MarkOf(k).length < 20 {
      MarkOfMiddlingText(k);
    } else if MarkOf(k).length < 23 {
      MarkOfLongText(k);
    } else {
      MarkOfLongestText(k);
    }
  }

  lemma ShortMarksDiffer(a: EdgeKind, b: EdgeKind)
    requires MarkOf(a) == MarkOf(b) && MarkOf(a).length < 18
    ensures a == b
  {
  }

  lemma LongMarksDiffer(a: EdgeKind, b: EdgeKind)
    requires MarkOf(a) == MarkOf(b) && 18 <= MarkOf(a).length
    ensures a == b
  {
  }

  lemma EdgeTextInjective(a: EdgeKind, b: EdgeKind)
    requires EdgeText(a) == EdgeText(b)
    ensures a == b
  {
    MarkOfText(a);
    MarkOfText(b);
    if MarkOf(a).length < 18 { ShortMarksDiffer(a, b); } else { LongMarksDiffer(a, b); }
  }

  /** `endpointRules`: the nodes an edge may leave. */
  predicate MaySource(e: EdgeKind, n: NodeKind) {
    match e
    case RunInRepository => n.Repository?
    case AttemptOfRun => n.RunAttempt?
    case JobExecutedInAttempt => n.RunAttempt?
    case StepInJob => n.Job?
    case RunInstantiatedWorkflow => n.WorkflowRun?
    case WorkflowDeclaredAction => n.WorkflowDefinition?
    case WorkflowCalledWorkflow => n.WorkflowDefinition? || n.RunAttempt?
    case ActionContainsAction => n.ActionDefinition?
    case LocalActionResolvedTo => n.WorkflowDefinition? || n.ActionDefinition?
    case RefResolvedTo => n.ActionRef?
    case PackageSourceCommit => n.ImmutableActionPackage?
    case JobPreparedAction => n.Job?
    case StepDownloadedAction => n.Step?
    case StepExecutedAction => n.Step?
    case ExecutedOnRunner => n.Job?
    case RunnerInGroup => n.Runner?
    case HadTokenPermission => n.Job?
    case ReferencedSecret => n.Job? || n.Step? || n.WorkflowDefinition?
    case PassedSecretTo => n.SecretMetadata?
    case InheritedSecret => n.Job? || n.WorkflowDefinition?
    case TargetedEnvironment => n.Job?
    case CrossedEnvironmentGate => n.Job?
    case EnvironmentSecretEligible => n.Environment?
    case CouldMintOIDC => n.Job?
    case ProducedArtifact => n.Job? || n.Step?
    case PublishedPackage => n.Job? || n.Step?
    case CreatedRelease => n.Job? || n.Step?
    case CreatedDeployment => n.Job? || n.Step?
    case RepositoryWrite => n.Job? || n.Step?
    case PullRequestChange => n.Job? || n.Step?
    case ObservedAfter => n.Job? || n.Step?
    case FindingAbout => n.Finding?
    case SupportedByEvidence => n.Finding?
    case Contradicts =>
      n.ActionCommit? || n.ImmutableActionPackage? || n.ReusableWorkflowDefinition? || n.ActionDefinition?
  }

  /** `endpointRules`: the nodes an edge may enter. */
  predicate MayTarget(e: EdgeKind, n: NodeKind) {
    match e
    case RunInRepository => n.WorkflowRun?
    case AttemptOfRun => n.WorkflowRun?
    case JobExecutedInAttempt => n.Job?
    case StepInJob => n.Step?
    case RunInstantiatedWorkflow => n.WorkflowDefinition?
    case WorkflowDeclaredAction => n.ActionRef? || n.ActionCommit? || n.ImmutableActionPackage? || n.ActionRepository?
    case WorkflowCalledWorkflow => n.ActionRef? || n.ReusableWorkflowDefinition?
    case ActionContainsAction =>
      n.ActionRef? || n.ActionCommit? || n.ImmutableActionPackage? || n.ActionRepository? || n.ActionDefinition?
    case LocalActionResolvedTo => n.ActionDefinition?
    case RefResolvedTo =>
      n.ActionCommit? || n.ImmutableActionPackage? || n.ReusableWorkflowDefinition? || n.ActionDefinition?
    case PackageSourceCommit => n.ActionCommit?
    case JobPreparedAction => n.ActionCommit? || n.ImmutableActionPackage? || n.ActionRepository?
    case StepDownloadedAction => n.ActionCommit? || n.ImmutableActionPackage? || n.ActionRepository?
    case StepExecutedAction => n.ActionCommit? || n.ImmutableActionPackage? || n.ActionRepository?
    case ExecutedOnRunner => n.Runner?
    case RunnerInGroup => n.RunnerGroup?
    case HadTokenPermission => n.TokenCapability?
    case ReferencedSecret => n.SecretMetadata?
    case PassedSecretTo => n.Job? || n.Step? || n.WorkflowDefinition?
    case InheritedSecret => n.SecretMetadata?
    case TargetedEnvironment => n.Environment?
    case CrossedEnvironmentGate => n.Environment?
    case EnvironmentSecretEligible => n.SecretMetadata?
    case CouldMintOIDC => n.OIDCProvider?
    case ProducedArtifact => n.Artifact?
    case PublishedPackage => n.Package?
    case CreatedRelease => n.Release?
    case CreatedDeployment => n.Deployment?
    case RepositoryWrite => n.RepositoryResource?
    case PullRequestChange => n.PullRequestChange?
    case ObservedAfter =>
      n.Artifact? || n.Package? || n.Release? || n.Deployment? || n.RepositoryResource? || n.PullRequestChange?
    case FindingAbout =>
      n.Repository? || n.WorkflowDefinition? || n.ReusableWorkflowDefinition? || n.WorkflowRun? || n.RunAttempt? ||
      n.Job? || n.Step? || n.ActionRepository? || n.ActionRef? || n.ActionCommit? || n.ImmutableActionPackage? ||
      n.ActionDefinition?
    case SupportedByEvidence => n.EvidenceObject?
    case Contradicts =>
      n.ActionCommit? || n.ImmutableActionPackage? || n.ReusableWorkflowDefinition? || n.ActionDefinition?
  }
}
