/**
 The case lifecycle (services/api/app/domain/cases.py): a table of allowed
 status changes, read here as the runs it permits.
 */
module CaseLifecycle {
  import opened Common

  datatype CaseStatus =
    | DRAFT | SUBMITTED | FILE_SCANNING | DOCUMENT_PROCESSING | SPECIALIST_ANALYSIS | NEEDS_CLARIFICATION
    | DUPLICATE_REVIEW | RISK_REVIEW | EVIDENCE_BUILDING | VERIFICATION_FAILED | APPROVAL_PENDING | APPROVED
    | REJECTED | ERP_SYNC_PENDING | ERP_SYNC_FAILED | COMPLETED | FAILED | CANCELLED
    | INVOICE_MATCHING | EXCEPTION_CLASSIFIED | TOLERANCE_CHECK | AUTO_RESOLVED | BLOCKED_DUPLICATE | HOLD

  function AllowedTransitions(s: CaseStatus): set<CaseStatus> {
    match s
    case DRAFT => {SUBMITTED, CANCELLED}
    case SUBMITTED => {FILE_SCANNING, CANCELLED, FAILED}
    case FILE_SCANNING => {DOCUMENT_PROCESSING, FAILED, CANCELLED}
    case DOCUMENT_PROCESSING =>
      {SPECIALIST_ANALYSIS, INVOICE_MATCHING, NEEDS_CLARIFICATION, FAILED, CANCELLED}
    case SPECIALIST_ANALYSIS =>
      {NEEDS_CLARIFICATION, DUPLICATE_REVIEW, RISK_REVIEW, EVIDENCE_BUILDING, FAILED, CANCELLED}
    case NEEDS_CLARIFICATION => {DOCUMENT_PROCESSING, SPECIALIST_ANALYSIS, INVOICE_MATCHING, CANCELLED}
    case DUPLICATE_REVIEW =>
      {SPECIALIST_ANALYSIS, RISK_REVIEW, EVIDENCE_BUILDING, APPROVAL_PENDING, REJECTED, CANCELLED}
    case RISK_REVIEW => {DUPLICATE_REVIEW, EVIDENCE_BUILDING, APPROVAL_PENDING, REJECTED, CANCELLED}
    case EVIDENCE_BUILDING => {APPROVAL_PENDING, VERIFICATION_FAILED, FAILED}
    case VERIFICATION_FAILED => {NEEDS_CLARIFICATION, SPECIALIST_ANALYSIS, CANCELLED}
    case APPROVAL_PENDING => {APPROVED, REJECTED, NEEDS_CLARIFICATION, CANCELLED}
    case APPROVED => {ERP_SYNC_PENDING}
    case ERP_SYNC_PENDING => {COMPLETED, ERP_SYNC_FAILED, VERIFICATION_FAILED}
    case ERP_SYNC_FAILED => {ERP_SYNC_PENDING, CANCELLED}
    case REJECTED => {}
    case COMPLETED => {}
    case FAILED => {}
    case CANCELLED => {}
    case INVOICE_MATCHING =>
      {EXCEPTION_CLASSIFIED, APPROVAL_PENDING, BLOCKED_DUPLICATE, HOLD, NEEDS_CLARIFICATION,
       VERIFICATION_FAILED, FAILED}
    case EXCEPTION_CLASSIFIED => {TOLERANCE_CHECK, NEEDS_CLARIFICATION, FAILED}
    case TOLERANCE_CHECK => {AUTO_RESOLVED, EVIDENCE_BUILDING, NEEDS_CLARIFICATION}
    case AUTO_RESOLVED => {ERP_SYNC_PENDING}
    case BLOCKED_DUPLICATE =>
      {DUPLICATE_REVIEW, RISK_REVIEW, HOLD, APPROVAL_PENDING, REJECTED, NEEDS_CLARIFICATION, CANCELLED}
    case HOLD => {DUPLICATE_REVIEW, RISK_REVIEW, APPROVAL_PENDING, REJECTED, NEEDS_CLARIFICATION, CANCELLED}
  }

  datatype TransitionError = UnknownState | NotAllowed

  /** The check; `None` stands for a text that names no status. */
  function AssertTransition(current: Option<CaseStatus>, target: Option<CaseStatus>): Option<TransitionError> {
    if current.None? || target.None? then Some(UnknownState)
    else if target.value !in AllowedTransitions(current.value) then Some(NotAllowed)
    else None
  }

  predicate Allowed(s: CaseStatus, t: CaseStatus) {
    AssertTransition(Some(s), Some(t)).None?
  }

  /** Successive statuses of a case. */
  predicate IsRun(run: seq<CaseStatus>) {
    |run| > 0 && forall i {:trigger Steps(run, i)} :: 0 <= i < |run| - 1 ==> Steps(run, i)
  }

  predicate Steps(run: seq<CaseStatus>, i: nat)
    requires i + 1 < |run|
  {
    Allowed(run[i], run[i + 1])
  }

  /** The statuses that release a case to the ERP. */
  predicate Releases(s: CaseStatus) {
    s == APPROVED || s == AUTO_RESOLVED
  }

  /** Where a status can have come from: the table read backwards. */
  function Origins(t: CaseStatus): set<CaseStatus> {
    match t
    case DRAFT => {}
    case SUBMITTED => {DRAFT}
    case FILE_SCANNING => {SUBMITTED}
    case DOCUMENT_PROCESSING => {FILE_SCANNING, NEEDS_CLARIFICATION}
    case SPECIALIST_ANALYSIS => {DOCUMENT_PROCESSING, NEEDS_CLARIFICATION, DUPLICATE_REVIEW, VERIFICATION_FAILED}
    case INVOICE_MATCHING => {DOCUMENT_PROCESSING, NEEDS_CLARIFICATION}
    case NEEDS_CLARIFICATION =>
      {DOCUMENT_PROCESSING, SPECIALIST_ANALYSIS, VERIFICATION_FAILED, APPROVAL_PENDING, INVOICE_MATCHING,
       EXCEPTION_CLASSIFIED, TOLERANCE_CHECK, BLOCKED_DUPLICATE, HOLD}
    case DUPLICATE_REVIEW => {SPECIALIST_ANALYSIS, RISK_REVIEW, BLOCKED_DUPLICATE, HOLD}
    case RISK_REVIEW => {SPECIALIST_ANALYSIS, DUPLICATE_REVIEW, BLOCKED_DUPLICATE, HOLD}
    case EVIDENCE_BUILDING => {SPECIALIST_ANALYSIS, DUPLICATE_REVIEW, RISK_REVIEW, TOLERANCE_CHECK}
    case VERIFICATION_FAILED => {EVIDENCE_BUILDING, ERP_SYNC_PENDING, INVOICE_MATCHING}
    case APPROVAL_PENDING =>
      {DUPLICATE_REVIEW, RISK_REVIEW, EVIDENCE_BUILDING, INVOICE_MATCHING, BLOCKED_DUPLICATE, HOLD}
    case APPROVED => {APPROVAL_PENDING}
    case REJECTED => {DUPLICATE_REVIEW, RISK_REVIEW, APPROVAL_PENDING, BLOCKED_DUPLICATE, HOLD}
    case ERP_SYNC_PENDING => {APPROVED, AUTO_RESOLVED, ERP_SYNC_FAILED}
    case ERP_SYNC_FAILED => {ERP_SYNC_PENDING}
    case COMPLETED => {ERP_SYNC_PENDING}
    case FAILED =>
      {SUBMITTED, FILE_SCANNING, DOCUMENT_PROCESSING, SPECIALIST_ANALYSIS, EVIDENCE_BUILDING, INVOICE_MATCHING,
       EXCEPTION_CLASSIFIED}
    case CANCELLED =>
      {DRAFT, SUBMITTED, FILE_SCANNING, DOCUMENT_PROCESSING, SPECIALIST_ANALYSIS, NEEDS_CLARIFICATION,
       DUPLICATE_REVIEW, RISK_REVIEW, VERIFICATION_FAILED, APPROVAL_PENDING, ERP_SYNC_FAILED, BLOCKED_DUPLICATE, HOLD}
    case EXCEPTION_CLASSIFIED => {INVOICE_MATCHING}
    case TOLERANCE_CHECK => {EXCEPTION_CLASSIFIED}
    case AUTO_RESOLVED => {TOLERANCE_CHECK}
    case BLOCKED_DUPLICATE => {INVOICE_MATCHING}
    case HOLD => {INVOICE_MATCHING, BLOCKED_DUPLICATE}
  }

  /** A change of status is allowed exactly when both are known and the one is among the other's origins. */
  lemma AllowedIff(current: Option<CaseStatus>, target: Option<CaseStatus>)
    ensures AssertTransition(current, target) == None <==>
              current.Some? && target.Some? && current.value in Origins(target.value)
    ensures AssertTransition(current, target) == Some(UnknownState) <==> current == None || target == None
  {
    if current.Some? && target.Some? {
      OriginsAgree(current.value, target.value);
    }
  }

  lemma OriginsAgree(s: CaseStatus, t: CaseStatus)
    ensures t in AllowedTransitions(s) <==> s in Origins(t)
  {
    if t in AllowedTransitions(s) {
      TargetsHaveOrigin(s, t);
    }
    if s in Origins(t) {
      OriginsHaveTarget(s, t);
    }
    hide *;
  }

  /** The part of the lifecycle a status belongs to; the table is compared part by part. */
  datatype Part = Intake | Review | Closing | Matching

  function PartOf(s: CaseStatus): Part {
    match s
    case DRAFT | SUBMITTED | FILE_SCANNING | DOCUMENT_PROCESSING | SPECIALIST_ANALYSIS => Intake
    case NEEDS_CLARIFICATION | DUPLICATE_REVIEW | RISK_REVIEW | EVIDENCE_BUILDING | VERIFICATION_FAILED => Review
    case APPROVAL_PENDING | APPROVED | REJECTED | ERP_SYNC_PENDING | ERP_SYNC_FAILED | COMPLETED | FAILED
      | CANCELLED => Closing
    case INVOICE_MATCHING | EXCEPTION_CLASSIFIED | TOLERANCE_CHECK | AUTO_RESOLVED | BLOCKED_DUPLICATE | HOLD =>
      Matching
  }

  lemma TargetsHaveOrigin(s: CaseStatus, t: CaseStatus)
    requires t in AllowedTransitions(s)
    ensures s in Origins(t)
  {
    match PartOf(s) {
      case Intake => IntakeTargets(s, t);
      case Review => ReviewTargets(s, t);
      case Closing => ClosingTargets(s, t);
      case Matching => MatchingTargets(s, t);
    }
    hide *;
  }

  lemma IntakeTargets(s: CaseStatus, t: CaseStatus)
    requires t in AllowedTransitions(s) && PartOf(s) == Intake
    ensures s in Origins(t)
  {
  }

  lemma ReviewTargets(s: CaseStatus, t: CaseStatus)
    requires t in AllowedTransitions(s) && PartOf(s) == Review
    ensures s in Origins(t)
  {
  }

  lemma ClosingTargets(s: CaseStatus, t: CaseStatus)
    requires t in AllowedTransitions(s) && PartOf(s) == Closing
    ensures s in Origins(t)
  {
  }

  lemma MatchingTargets(s: CaseStatus, t: CaseStatus)
    requires t in AllowedTransitions(s) && PartOf(s) == Matching
    ensures s in Origins(t)
  {
  }

  lemma OriginsHaveTarget(s: CaseStatus, t: CaseStatus)
    requires s in Origins(t)
    ensures t in AllowedTransitions(s)
  {
    match PartOf(t) {
      case Intake => IntakeOrigins(s, t);
      case Review => ReviewOrigins(s, t);
      case Closing => ClosingOrigins(s, t);
      case Matching => MatchingOrigins(s, t);
    }
    hide *;
  }

  lemma IntakeOrigins(s: CaseStatus, t: CaseStatus)
    requires s in Origins(t) && PartOf(t) == Intake
    ensures t in AllowedTransitions(s)
  {
  }

  lemma ReviewOrigins(s: CaseStatus, t: CaseStatus)
    requires s in Origins(t) && PartOf(t) == Review
    ensures t in AllowedTransitions(s)
  {
  }

  lemma ClosingOrigins(s: CaseStatus, t: CaseStatus)
    requires s in Origins(t) && PartOf(t) == Closing
    ensures t in AllowedTransitions(s)
  {
  }

  lemma MatchingOrigins(s: CaseStatus, t: CaseStatus)
    requires s in Origins(t) && PartOf(t) == Matching
    ensures t in AllowedTransitions(s)
  {
  }

  /** Where a status can have come from, for the statuses on the way to completion. */
  lemma Predecessors(s: CaseStatus, t: CaseStatus)
    requires Allowed(s, t)
    ensures t != DRAFT
    ensures t == SUBMITTED ==> s == DRAFT
    ensures t == FILE_SCANNING ==> s == SUBMITTED
    ensures t == APPROVED ==> s == APPROVAL_PENDING
    ensures t == EXCEPTION_CLASSIFIED ==> s == INVOICE_MATCHING
    ensures t == TOLERANCE_CHECK ==> s == EXCEPTION_CLASSIFIED
    ensures t == AUTO_RESOLVED ==> s == TOLERANCE_CHECK
    ensures t == ERP_SYNC_PENDING ==> Releases(s) || s == ERP_SYNC_FAILED
    ensures t == ERP_SYNC_FAILED ==> s == ERP_SYNC_PENDING
    ensures t == COMPLETED ==> s == ERP_SYNC_PENDING
  {
    OriginsAgree(s, t);
    hide AllowedTransitions;
  }

  /** From `a` up to `b` there is nothing but attempts to sync, each but the last one failed. */
  predicate SyncAttempts(run: seq<CaseStatus>, a: nat, b: nat)
    requires a <= b <= |run|
  {
    forall i :: a <= i < b ==> run[i] == (if (i - a) % 2 == 0 then ERP_SYNC_PENDING else ERP_SYNC_FAILED)
  }

  lemma OneMoreAttempt(run: seq<CaseStatus>, a: nat, b: nat)
    requires a <= b && b + 2 <= |run| && SyncAttempts(run, a, b) && (b - a) % 2 == 1
    requires run[b] == ERP_SYNC_FAILED && run[b + 1] == ERP_SYNC_PENDING
    ensures SyncAttempts(run, a, b + 2)
  {
  }

  /** A pending sync follows a release, or a failed attempt after another pending sync. */
  lemma BeforePending(run: seq<CaseStatus>, n: nat)
    requires IsRun(run) && run[0] == DRAFT && n < |run| && run[n] == ERP_SYNC_PENDING
    ensures n >= 1
    ensures Releases(run[n - 1]) || (n >= 2 && run[n - 1] == ERP_SYNC_FAILED && run[n - 2] == ERP_SYNC_PENDING)
  {
    assert Steps(run, n - 1);
    Predecessors(run[n - 1], run[n]);
    if !Releases(run[n - 1]) {
      assert Steps(run, n - 2);
      Predecessors(run[n - 2], run[n - 1]);
    }
  }

  /** Back from a pending sync to the release before it. */
  lemma {:induction false} BackToRelease(run: seq<CaseStatus>, n: nat) returns (a: nat)
    requires IsRun(run) && run[0] == DRAFT && n < |run| && run[n] == ERP_SYNC_PENDING
    ensures a < n && Releases(run[a]) && SyncAttempts(run, a + 1, n + 1) && (n - a) % 2 == 1
    decreases n
  {
    hide IsRun, Releases;
    BeforePending(run, n);
    a := n - 1;
    if !Releases(run[n - 1]) {
      a := BackToRelease(run, n - 2);
      OneMoreAttempt(run, a + 1, n - 1);
    }
  }

  /** What leads to a release: an approval asked for, or an exception found within tolerance. */
  predicate ReleasedProperly(run: seq<CaseStatus>, a: nat)
    requires a < |run|
  {
    || (run[a] == APPROVED && a >= 1 && run[a - 1] == APPROVAL_PENDING)
    || (run[a] == AUTO_RESOLVED && a >= 3 && run[a - 3] == INVOICE_MATCHING
        && run[a - 2] == EXCEPTION_CLASSIFIED && run[a - 1] == TOLERANCE_CHECK)
  }

  lemma ReleaseHasCause(run: seq<CaseStatus>, a: nat)
    requires IsRun(run) && run[0] == DRAFT && a < |run| && Releases(run[a])
    ensures ReleasedProperly(run, a)
  {
    assert Steps(run, a - 1);
    Predecessors(run[a - 1], run[a]);
    if run[a] == AUTO_RESOLVED {
      assert Steps(run, a - 2);
      Predecessors(run[a - 2], run[a - 1]);
      assert Steps(run, a - 3);
      Predecessors(run[a - 3], run[a - 2]);
    }
  }

  /** The statuses a case can have before its files are scanned. */
  predicate BeforeScan(s: CaseStatus) {
    s in {DRAFT, SUBMITTED, CANCELLED, FAILED}
  }

  lemma {:induction false} ScannedBefore(run: seq<CaseStatus>, n: nat)
    requires IsRun(run) && run[0] == DRAFT && n < |run| && !BeforeScan(run[n])
    ensures n >= 2 && run[1] == SUBMITTED && run[2] == FILE_SCANNING
    decreases n
  {
    assert Steps(run, n - 1);
    if BeforeScan(run[n - 1]) {
      assert run[n - 1] == SUBMITTED && run[n] == FILE_SCANNING;
      assert Steps(run, n - 2);
      Predecessors(run[n - 2], run[n - 1]);
      if n > 2 {
        assert Steps(run, n - 3);
        Predecessors(run[n - 3], run[n - 2]);
      }
    } else {
      ScannedBefore(run, n - 1);
    }
  }

  /** Drafts, submissions and scans happen once, at the start. */
  lemma StartIsNotRepeated(run: seq<CaseStatus>, n: nat)
    requires IsRun(run) && run[0] == DRAFT && n < |run|
    ensures run[n] == DRAFT ==> n == 0
    ensures run[n] == SUBMITTED ==> n == 1
    ensures run[n] == FILE_SCANNING ==> n == 2
  {
    if n > 0 {
      assert Steps(run, n - 1);
      Predecessors(run[n - 1], run[n]);
      if n > 1 {
        assert Steps(run, n - 2);
        Predecessors(run[n - 2], run[n - 1]);
        if n > 2 {
          assert Steps(run, n - 3);
          Predecessors(run[n - 3], run[n - 2]);
        }
      }
    }
  }

  /**
   Every completed case was scanned, was released by an approval that was asked
   for or by an exception within tolerance, and after the last release went
   through nothing but attempts to sync with the ERP.
   */
  lemma CompletionIsEarned(run: seq<CaseStatus>) returns (a: nat)
    requires IsRun(run) && run[0] == DRAFT && run[|run| - 1] == COMPLETED
    ensures a < |run| - 2 && ReleasedProperly(run, a)
    ensures SyncAttempts(run, a + 1, |run| - 1) && run[|run| - 2] == ERP_SYNC_PENDING
    ensures forall i :: a < i < |run| ==> !Releases(run[i])
    ensures run[1] == SUBMITTED && run[2] == FILE_SCANNING && 2 < a
  {
    var n := |run| - 2;
    assert Steps(run, n);
    Predecessors(run[n], run[n + 1]);
    a := BackToRelease(run, n);
    ReleaseHasCause(run, a);
    ScannedBefore(run, a);
  }

  // --------------------------------------------------------------- no limbo

  predicate Terminal(s: CaseStatus) {
    AllowedTransitions(s) == {}
  }

  /** The next status on a way to completion, and how many steps that way still has. */
  function Onward(s: CaseStatus): (CaseStatus, nat) {
    match s
    case DRAFT => (SUBMITTED, 8)
    case SUBMITTED => (FILE_SCANNING, 7)
    case FILE_SCANNING => (DOCUMENT_PROCESSING, 6)
    case DOCUMENT_PROCESSING => (INVOICE_MATCHING, 5)
    case INVOICE_MATCHING => (APPROVAL_PENDING, 4)
    case APPROVAL_PENDING => (APPROVED, 3)
    case APPROVED => (ERP_SYNC_PENDING, 2)
    case AUTO_RESOLVED => (ERP_SYNC_PENDING, 2)
    case ERP_SYNC_PENDING => (COMPLETED, 1)
    case ERP_SYNC_FAILED => (ERP_SYNC_PENDING, 2)
    case SPECIALIST_ANALYSIS => (EVIDENCE_BUILDING, 5)
    case NEEDS_CLARIFICATION => (INVOICE_MATCHING, 5)
    case VERIFICATION_FAILED => (SPECIALIST_ANALYSIS, 6)
    case EXCEPTION_CLASSIFIED => (TOLERANCE_CHECK, 4)
    case TOLERANCE_CHECK => (AUTO_RESOLVED, 3)
    case DUPLICATE_REVIEW | RISK_REVIEW | EVIDENCE_BUILDING | BLOCKED_DUPLICATE | HOLD => (APPROVAL_PENDING, 4)
    case COMPLETED | REJECTED | FAILED | CANCELLED => (s, 0)
  }

  ghost predicate Reaches(s: CaseStatus, t: CaseStatus) {
    exists run :: IsRun(run) && run[0] == s && run[|run| - 1] == t
  }

  lemma {:induction false} WayToCompletion(s: CaseStatus) returns (run: seq<CaseStatus>)
    requires s !in {REJECTED, FAILED, CANCELLED}
    ensures IsRun(run) && run[0] == s && run[|run| - 1] == COMPLETED
    decreases Onward(s).1
  {
    run := [s];
    if s != COMPLETED {
      var rest := WayToCompletion(Onward(s).0);
      run := [s] + rest;
      forall i | 0 <= i < |run| - 1 ensures Steps(run, i) {
        if i > 0 {
          assert Steps(rest, i - 1);
        }
      }
    }
  }

  /**
   A case can still be completed exactly when it is not rejected, failed or
   cancelled; only those and completion are final.
   */
  lemma CompletableIff(s: CaseStatus)
    ensures Reaches(s, COMPLETED) <==> s !in {REJECTED, FAILED, CANCELLED}
    ensures Terminal(s) <==> s in {COMPLETED, REJECTED, FAILED, CANCELLED}
  {
    if s !in {REJECTED, FAILED, CANCELLED} {
      var run := WayToCompletion(s);
    } else {
      forall run | IsRun(run) && run[0] == s ensures run[|run| - 1] != COMPLETED {
        assert |run| > 1 ==> Steps(run, 0);
      }
    }
    TerminalStatuses(s);
  }

  lemma TerminalStatuses(s: CaseStatus)
    ensures Terminal(s) <==> s in {COMPLETED, REJECTED, FAILED, CANCELLED}
  {
    if s !in {COMPLETED, REJECTED, FAILED, CANCELLED} {
      assert Onward(s).0 in AllowedTransitions(s);
    }
  }
}
