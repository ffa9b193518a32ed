/** What the archive's validation says of the facts that reach the graph (internal/archive/facts.go): their subject is the
    one their body gives, and references are well formed. Checks of texts alone are left out. */
module GraphFacts {
  import opened Orders
  import opened Identity
  import opened GraphKinds
  import opened Graph
  import opened GraphProjection
  import opened GraphFits

  // ----- Identifiers -----

  predicate IsHex(s: string, n: nat) { |s| == n && forall c :: c in s ==> '0' <= c <= '9' || 'a' <= c <= 'f' }

  /** `validPrefixedHash` and `validateVersionedID` */
  predicate Versioned(prefix: string, s: string) { prefix <= s && IsHex(s[|prefix|..], 64) }

  predicate IsObject(o: ObjectId) { (o.algorithm == "sha1" && IsHex(o.value, 40)) || (o.algorithm == "sha256" && IsHex(o.value, 64)) }

  predicate NoObject(o: Option<ObjectId>) { o.Some? ==> IsObject(o.value) }

  predicate Positive(e: Execution) { e.repository > 0 && e.run > 0 && e.attempt > 0 && e.job > 0 }

  // ----- Subjects -----

  /** `executionSubject` */
  function SubjectOfExecution(e: Execution, step: string): Subject {
    Subject(e.repository, Some(e.run), Some(e.attempt), Some(e.job), step)
  }

  function SubjectOfDependency(d: Dependency): Subject {
    if d.execution.Some? then SubjectOfExecution(d.execution.value, d.step)
    else if d.attempt.Some? then Subject(d.attempt.value.repository, Some(d.attempt.value.run), Some(d.attempt.value.attempt), None, "")
    else Subject(d.callerId, None, None, None, "")
  }

  /** The subject that `normalizeFact` derives, whatever subject it was given. */
  predicate SubjectIsDerived(fact: Fact) {
    match fact.body
    case Acts(o) => fact.subject == SubjectOfExecution(o.execution, if o.step.Some? then o.step.value else "")
    case Depends(d) => fact.subject == SubjectOfDependency(d)
    case Exposes(x) => fact.subject == SubjectOfExecution(x.execution, x.step)
    case OtherBody => true
  }

  // ----- Payloads -----

  function Count(o: bool, p: bool, q: bool): int { (if o then 1 else 0) + (if p then 1 else 0) + (if q then 1 else 0) }

  function TargetIds(d: Dependency): int { Count(d.targetAction.Some?, d.targetWorkflow.Some?, d.package.Some?) }

  /** The caller: one definition at most, one for a historical basis and none for attempt metadata. */
  predicate CallerOk(d: Dependency) {
    && d.callerId > 0 && d.callerPath != "" && NoObject(d.callerWorkflow) && NoObject(d.callerAction)
    && !(d.callerWorkflow.Some? && d.callerAction.Some?)
    && (d.basis == HISTORICAL_AT_RUN ==> d.callerWorkflow.Some? || d.callerAction.Some?)
    && (d.basis == RUNTIME_ATTEMPT_METADATA ==> d.callerWorkflow.None? && d.callerAction.None?)
  }

  predicate TargetOk(d: Dependency) {
    && NoObject(d.targetAction) && NoObject(d.targetWorkflow) && TargetIds(d) <= 1
    && (d.targetAction.Some? || d.package.Some? ==> d.targetKind != REUSABLE_WORKFLOW)
    && (d.targetWorkflow.Some? ==> d.targetKind == REUSABLE_WORKFLOW)
    && (d.relation.RefResolvedTo? ==> TargetIds(d) == 1)
    && (d.targetKind == REUSABLE_WORKFLOW ==> d.targetPath != "")
    && (d.targetKind == LOCAL_ACTION ==> d.targetRepository == d.callerRepository)
  }

  /** Which execution or attempt the dependency may name. */
  predicate PlaceOk(d: Dependency) {
    && (d.attempt.Some? ==> d.attempt.value.repository == d.callerId && d.attempt.value.run > 0 && d.attempt.value.attempt > 0)
    && (d.execution.Some? ==> d.execution.value.repository == d.callerId && Positive(d.execution.value))
    && (d.execution.None? ==> d.step == "") && !(d.attempt.Some? && d.execution.Some?)
    && (d.basis == CURRENT_SNAPSHOT ==> d.execution.None? && d.attempt.None?)
  }

  /** Attempt metadata records calls of reusable workflows and nothing else. */
  predicate RuntimeOk(d: Dependency) {
    d.basis == RUNTIME_ATTEMPT_METADATA ==>
      && d.relation.WorkflowCalledWorkflow? && d.targetKind == REUSABLE_WORKFLOW && d.targetWorkflow.Some?
      && d.attempt.Some? && d.execution.None? && d.step == ""
  }

  predicate ContradictsOk(contradicts: seq<string>) {
    && (forall id :: id in contradicts ==> Versioned("fact1:", id))
    && forall i :: 0 < i < |contradicts| ==> StringLess(contradicts[i - 1], contradicts[i])
  }

  /** `validateDependencyFact` */
  predicate DependencyOk(d: Dependency) {
    && !d.relation.NoRelation? && d.targetKind in [ACTION, REUSABLE_WORKFLOW, LOCAL_ACTION]
    && d.basis in [HISTORICAL_AT_RUN, CURRENT_SNAPSHOT, RUNTIME_ATTEMPT_METADATA]
    && CallerOk(d) && TargetOk(d) && PlaceOk(d) && RuntimeOk(d) && ContradictsOk(d.contradicts)
  }

  /** `model.CredentialExposure.Validate` */
  predicate CredentialOk(c: Detail)
    requires c.Credential?
  {
    && (c.kind.SecretReferenced? || c.kind.SecretPassed? || c.kind.SecretMapped? || c.kind.SecretEligible? ==> c.secret.Some?)
    && (c.kind.TokenPermission? || c.kind.OidcMinting? ==> c.secret.None?)
    && (if c.kind.TokenPermission? then c.permission != "" && c.access in ["read", "write", "none"] else c.permission == "" && c.access == "")
    && c.cited != []
  }

  /** An exposure names one execution and one thing exposed, whose evidence is the fact's too. */
  predicate ExposureOk(x: Exposure, evidence: seq<string>) {
    && Positive(x.execution) && x.detail.Some?
    && (x.detail.value.Credential? ==> CredentialOk(x.detail.value) && forall e :: e in x.detail.value.cited ==> e in evidence)
    && (x.detail.value.Resource? ==> forall e :: e in x.detail.value.cited ==> e in evidence)
  }

  /** What validation leaves of a fact: an identifier, its own subject, evidence, and a body that holds together. */
  ghost predicate Archived(fact: Fact) {
    && Versioned("fact1:", fact.id) && SubjectIsDerived(fact)
    && fact.evidence != [] && Ascending(fact.evidence) && (forall e :: e in fact.evidence ==> Versioned("ev1:", e))
    && (fact.body.Depends? ==> DependencyOk(fact.body.dependency))
    && (fact.body.Exposes? ==> ExposureOk(fact.body.exposure, fact.evidence))
  }

  // ----- What validation leaves to the endpoint rules -----

  /** Attempt metadata always fits. */
  lemma RuntimeMetadataFits(fact: Fact)
    requires Archived(fact) && fact.body.Depends? && fact.body.dependency.basis == RUNTIME_ATTEMPT_METADATA
    ensures PlainFits(fact)
  {
  }

  /** Of the other dependencies that validation lets through, those fit whose caller is of the sort the relation names
      and whose target is a ref or of the sort it names. */
  lemma ArchivedFitsExactly(fact: Fact)
    requires Archived(fact) && fact.body.Depends? && fact.body.dependency.basis != RUNTIME_ATTEMPT_METADATA
    ensures var d := fact.body.dependency;
      var byRef, local := d.declaredRef != "", d.targetKind == LOCAL_ACTION && d.targetAction.Some?;
      CallerFits(d) <==>
        match d.relation
        case WorkflowDeclaredAction => d.callerAction.None? && (byRef || (d.targetWorkflow.None? && !local))
        case WorkflowCalledWorkflow => d.callerAction.None? && (byRef || d.targetWorkflow.Some?)
        case ActionContainsAction => d.callerAction.Some? && (byRef || d.targetWorkflow.None?)
        case LocalActionResolvedTo => !byRef && local
        case RefResolvedTo => true
        case NoRelation => false
  {
    var d := fact.body.dependency;
    assert DependencyOk(d) && CallerOk(d) && TargetOk(d);
  }
}
