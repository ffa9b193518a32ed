/** Which facts make edges that the endpoint rules of the graph allow, told from the fields of the facts
    (internal/analyze/graph.go, internal/graph/graph.go). */
module GraphFits {
  import opened Orders
  import opened GraphKinds
  import opened Graph
  import opened GraphProjection

  // ----- Dependencies -----

  predicate FromAttempt(d: Dependency) { d.basis == RUNTIME_ATTEMPT_METADATA && d.attempt.Some? }

  predicate FromAction(d: Dependency) { !FromAttempt(d) && d.callerWorkflow.None? && d.callerAction.Some? }

  predicate FromWorkflow(d: Dependency) { !FromAttempt(d) && (d.callerWorkflow.Some? || (d.callerAction.None? && d.callerPath != "")) }

  predicate HasCaller(d: Dependency) { FromAttempt(d) || FromAction(d) || FromWorkflow(d) }

  /** The target is known by more than a ref or a repository. */
  predicate Identified(d: Dependency) { d.targetWorkflow.Some? || d.targetAction.Some? || d.package.Some? }

  /** The caller points at a ref: one is declared, and the runtime has not said what it stood for. */
  predicate ByRef(d: Dependency) { d.declaredRef != "" && !(d.basis == RUNTIME_ATTEMPT_METADATA && Identified(d)) }

  predicate ToWorkflow(d: Dependency) { !ByRef(d) && d.targetWorkflow.Some? }

  predicate ToLocalAction(d: Dependency) { !ByRef(d) && d.targetWorkflow.None? && d.targetAction.Some? && d.targetKind == LOCAL_ACTION }

  /** The stated relation suits the caller and what it points at. */
  predicate CallerFits(d: Dependency) {
    match d.relation
    case WorkflowDeclaredAction => FromWorkflow(d) && !ToWorkflow(d) && !ToLocalAction(d)
    case WorkflowCalledWorkflow => (FromWorkflow(d) || FromAttempt(d)) && (ByRef(d) || ToWorkflow(d))
    case ActionContainsAction => FromAction(d) && !ToWorkflow(d)
    case LocalActionResolvedTo => (FromWorkflow(d) || FromAction(d)) && ToLocalAction(d)
    case RefResolvedTo => true
    case NoRelation => true
  }

  /** A local action that points at itself makes no edge. */
  predicate CallsItself(d: Dependency) {
    && FromAction(d) && ToLocalAction(d) && d.callerAction == d.targetAction
    && d.callerRepository == d.targetRepository && d.callerPath == d.targetPath
  }

  /** The fact, without its contradictions, makes no edge that breaks the rules. */
  predicate PlainFits(fact: Fact) {
    fact.body.Depends? && HasCaller(fact.body.dependency) && fact.evidence != [] ==>
      CallerFits(fact.body.dependency) || CallsItself(fact.body.dependency)
  }

  /** What a contradicted fact is projected to is known by more than a ref or a repository, if it is projected at all. */
  predicate ExactlyKnown(fact: Fact, other: Fact) {
    match other.body
    case Depends(d) => HasCaller(d) ==> Identified(d)
    case Acts(o) => SameOccurrence(other.subject, fact.subject) ==> o.source.Some? || o.package.Some?
    case _ => true
  }

  predicate ContradictionFits(idx: Index, fact: Fact, id: string) {
    id in idx.factsById ==>
      var other := idx.factsById[id];
      PlainFits(other) && (fact.evidence + other.evidence != [] ==> ExactlyKnown(fact, other))
  }

  predicate ContradictsFit(idx: Index, fact: Fact) {
    fact.body.Depends? ==> forall id :: id in fact.body.dependency.contradicts ==> ContradictionFits(idx, fact, id)
  }

  /** The fact and what it contradicts make no edge that breaks the rules. */
  predicate DependencyFits(idx: Index, fact: Fact) {
    && PlainFits(fact)
    && (fact.body.Depends? && HasCaller(fact.body.dependency) && Identified(fact.body.dependency) ==> ContradictsFit(idx, fact))
  }

  function ContradictionsFit(idx: Index, fact: Fact): string -> bool { id => ContradictionFits(idx, fact, id) }

  // ----- Exposures -----

  /** Secrets are inherited by jobs and not by steps. */
  predicate DetailFits(step: string, detail: Option<Detail>) {
    detail.Some? && detail.value.Credential? && detail.value.kind.SecretInherited? && detail.value.cited != [] ==> step == ""
  }

  predicate ExposureFits(f: Finding, execution: Execution, fact: Fact) {
    fact.body.Exposes? && fact.body.exposure.execution == execution
    && (fact.body.exposure.step == "" || f.step == "" || fact.body.exposure.step == f.step) ==>
      DetailFits(fact.body.exposure.step, fact.body.exposure.detail)
  }

  function ExposuresFit(f: Finding, execution: Execution): Fact -> bool { fact => ExposureFits(f, execution, fact) }

  // ----- Findings -----

  predicate ConcernedFits(idx: Index, f: Finding, repository: int, fact: Fact) { Concerns(fact, f, repository) ==> DependencyFits(idx, fact) }

  function DependenciesFit(idx: Index, f: Finding, repository: int): Fact -> bool { fact => ConcernedFits(idx, f, repository, fact) }

  /** Every dependency that concerns the finding fits, and every exposure of its execution when it is confirmed. */
  predicate FindingFits(idx: Index, f: Finding, repository: int) {
    && (forall fact :: fact in idx.dependencies ==> ConcernedFits(idx, f, repository, fact))
    && (Exposed(f) ==> forall fact :: fact in idx.exposures ==> ExposureFits(f, ExecutionOf(f, repository), fact))
  }

  predicate Exposed(f: Finding) { f.state == "CONFIRMED_EXECUTED" && f.run > 0 && f.attempt > 0 && f.job > 0 }

  function ExecutionOf(f: Finding, repository: int): Execution { Execution(repository, f.run, f.attempt % 0x1_0000_0000, f.job) }
}
