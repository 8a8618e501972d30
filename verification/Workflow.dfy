/**
 The agent workflow graph (services/api/app/agents/workflow.py): two model
 calls, a deterministic check, human control reviews, a final human gate and
 the ERP gate.

 A run is a sequence of inputs: a model's answer, a person's reply or the ERP's
 confirmation. A gate that raises leaves the thread where it was. The results
 hold for every run from a fresh state: when the ERP gate can be entered at
 all, how long a run can be, and how it can end.
 */
module Workflow {
  import opened Common

  datatype HumanGateKind = CLARIFICATION | APPROVAL

  datatype Decision = APPROVED | REJECTED | MORE_INFO | ESCALATED | CLARIFIED

  datatype HumanResume = HumanResume(decision: Decision, evidenceHash: string, expectedVersion: nat)

  datatype ErpResume = SUCCEEDED | FAILED

  datatype LlmError = LlmError(code: string, retryable: bool, upgradeRequired: bool)

  /** The deterministic packet; `contentHash` is the canonical hash of its content. */
  datatype Packet = Packet(
    evidenceIds: seq<Option<string>>,
    reasonCodes: seq<string>,
    packetHash: Option<string>,
    contentHash: string)

  datatype ToolStatus = SUCCESS | BLOCKED

  datatype Verification = Verification(
    status: ToolStatus,
    hashMatches: bool,
    invalidCitations: set<string>,
    hardBlockers: seq<string>)

  datatype Outcome =
    | OutBlocked | OutCompleted | OutErpFailed | OutReanalyze
    | OutDecision(decision: Decision)

  datatype State = State(
    workflowKind: WorkflowKind,
    caseId: string,
    evidenceHash: string,
    caseVersion: nat,
    gateKind: HumanGateKind,
    requiredReviews: seq<string>,
    completedReviews: seq<string>,
    packet: Packet,
    citations: Option<seq<string>>,
    verification: Option<Verification>,
    critiqued: bool,
    blocker: Option<LlmError>,
    humanResponse: Option<HumanResume>,
    reviewResponse: Option<HumanResume>,
    erpConfirmation: Option<ErpResume>,
    outcome: Option<Outcome>)

  // ------------------------------------------------------------------- nodes

  /** What a model call yields: an error, or the evidence ids its answer cites. */
  datatype ModelAnswer = Failed(error: LlmError) | Cited(ids: seq<string>)

  function BlockedBy(state: State, error: LlmError): State {
    state.(outcome := Some(OutBlocked), blocker := Some(error))
  }

  function AllowedEvidence(packet: Packet): set<string> {
    set id | id in Present(packet.evidenceIds)
  }

  /** The evidence ids that are there and not empty. */
  function Present(ids: seq<Option<string>>): seq<string> {
    if ids == [] then []
    else if ids[0].Some? && ids[0].value != "" then [ids[0].value] + Present(ids[1..])
    else Present(ids[1..])
  }

  function Contradiction(state: State, answer: ModelAnswer): State {
    match answer
    case Failed(error) => BlockedBy(state, error)
    case Cited(ids) => state.(citations := Some(ids))
  }

  /** The reason codes that block by themselves, in alphabetical order. */
  const HARD_CODES: seq<string> := [
    "GRN_DATA_UNAVAILABLE",
    "INSUFFICIENT_POLICY_EVIDENCE",
    "POLICY_RETRIEVAL_UNAVAILABLE",
    "PO_DATA_UNAVAILABLE",
    "SANCTIONS_DATA_UNAVAILABLE"
  ]

  /** The sorted set of hard codes that the packet carries. */
  function HardBlockers(packet: Packet): seq<string> {
    Keep(HARD_CODES, set code | code in packet.reasonCodes)
  }

  function InvalidCitations(state: State): set<string> {
    var cited := if state.citations.Some? then state.citations.value else [];
    (set id | id in cited) - AllowedEvidence(state.packet)
  }

  /** The packet's declared hash, or else the hash of its content, against the run's. */
  predicate HashMatches(state: State) {
    (if state.packet.packetHash.Some? then state.packet.packetHash.value else state.packet.contentHash)
    == state.evidenceHash
  }

  /** Nothing stands against the packet and the first model's answer. */
  predicate Verifies(state: State) {
    HashMatches(state) && InvalidCitations(state) == {} && HardBlockers(state.packet) == []
  }

  /** Everything that stands against them, hard codes first. */
  function AllBlockers(state: State): seq<string> {
    HardBlockers(state.packet)
    + (if HashMatches(state) then [] else ["EVIDENCE_HASH_MISMATCH"])
    + (if InvalidCitations(state) == {} then [] else ["EVIDENCE_CITATION_INVALID"])
  }

  /** The state after the deterministic check. */
  function Verified(state: State): State {
    var status := if Verifies(state) then SUCCESS else BLOCKED;
    var checked := state.(verification :=
      Some(Verification(status, HashMatches(state), InvalidCitations(state), AllBlockers(state))));
    if status == BLOCKED
    then BlockedBy(checked, LlmError(AllBlockers(state)[0], false, false))
    else checked
  }

  /** A list object that several names may share. */
  class CodeList {
    var items: seq<string>

    constructor (items: seq<string>)
      ensures this.items == items
    {
      this.items := items;
    }

    method Append(code: string)
      modifies this
      ensures items == old(items) + [code]
    {
      items := items + [code];
    }
  }

  /**
   The check as the program runs it. The result data holds the very list that
   later findings are appended to, so it reports them too.
   */
  method DeterministicVerification(state: State) returns (after: State)
    ensures after == Verified(state)
  {
    var invalid := InvalidCitations(state);
    var hardBlockers := new CodeList(HardBlockers(state.packet));
    var status := if invalid != {} || hardBlockers.items != [] then BLOCKED else SUCCESS;
    var hashMatches := HashMatches(state);
    var reported := hardBlockers;
    if !hashMatches {
      status := BLOCKED;
      hardBlockers.Append("EVIDENCE_HASH_MISMATCH");
    }
    if invalid != {} {
      hardBlockers.Append("EVIDENCE_CITATION_INVALID");
    }
    assert hardBlockers.items == AllBlockers(state);
    after := state.(verification := Some(Verification(status, hashMatches, invalid, reported.items)));
    if status == BLOCKED {
      after := after.(outcome := Some(OutBlocked),
                      blocker := Some(LlmError(hardBlockers.items[0], false, false)));
    }
  }

  function Critique(state: State, answer: ModelAnswer): State {
    match answer
    case Failed(error) => BlockedBy(state, error)
    case Cited(ids) =>
      if (set id | id in ids) <= AllowedEvidence(state.packet)
      then state.(critiqued := true)
      else BlockedBy(state, LlmError("LLM_OUTPUT_INVALID", true, false))
  }

  datatype GateError =
    | EVIDENCE_CHANGED | STALE_HUMAN_RESPONSE | INVALID_CLARIFICATION_RESUME
    | REVIEW_GATE_WITHOUT_PENDING_REVIEW | INPUT_REFUSED

  function HumanGate(state: State, reply: HumanResume): Result<State, GateError> {
    if reply.evidenceHash != state.evidenceHash then Err(EVIDENCE_CHANGED)
    else if reply.expectedVersion < state.caseVersion then Err(STALE_HUMAN_RESPONSE)
    else if state.gateKind == CLARIFICATION && reply.decision != CLARIFIED then Err(INVALID_CLARIFICATION_RESUME)
    else Ok(state.(humanResponse := Some(reply), caseVersion := reply.expectedVersion))
  }

  function ReviewGate(state: State, reply: HumanResume): Result<State, GateError> {
    var n := |state.completedReviews|;
    if n >= |state.requiredReviews| then Err(REVIEW_GATE_WITHOUT_PENDING_REVIEW)
    else if reply.evidenceHash != state.evidenceHash then Err(EVIDENCE_CHANGED)
    else if reply.expectedVersion < state.caseVersion then Err(STALE_HUMAN_RESPONSE)
    else
      var completed := if reply.decision == APPROVED
                       then state.completedReviews + [state.requiredReviews[n]]
                       else state.completedReviews;
      Ok(state.(reviewResponse := Some(reply), completedReviews := completed, caseVersion := reply.expectedVersion))
  }

  function ErpGate(state: State, reply: ErpResume): State {
    state.(erpConfirmation := Some(reply), outcome := Some(if reply == SUCCEEDED then OutCompleted else OutErpFailed))
  }

  function Finish(state: State): State
    requires state.humanResponse.Some? || state.reviewResponse.Some?
  {
    var response := if state.humanResponse.Some? then state.humanResponse.value else state.reviewResponse.value;
    state.(outcome := Some(if response.decision == CLARIFIED then OutReanalyze else OutDecision(response.decision)))
  }

  // ------------------------------------------------------------------- graph

  datatype Node =
    | GeminiContradiction | DeterministicCheck | GeminiCritique
    | ControlReview | HumanGateNode | ErpConfirmation | FinishNode | End

  function AfterContradiction(state: State): Node {
    if state.blocker.Some? then End else DeterministicCheck
  }

  function AfterVerification(state: State): Node
    requires state.verification.Some?
  {
    if state.verification.value.status == BLOCKED then End else GeminiCritique
  }

  function AfterCritique(state: State): Node {
    if state.blocker.Some? then End
    else if state.gateKind == APPROVAL && state.requiredReviews != [] then ControlReview
    else HumanGateNode
  }

  function AfterReview(state: State): Node
    requires state.reviewResponse.Some?
  {
    if state.reviewResponse.value.decision != APPROVED then FinishNode
    else if |state.completedReviews| < |state.requiredReviews| then ControlReview
    else HumanGateNode
  }

  function AfterHuman(state: State): Node
    requires state.humanResponse.Some?
  {
    if state.gateKind == CLARIFICATION then FinishNode
    else if state.humanResponse.value.decision == APPROVED then ErpConfirmation
    else FinishNode
  }

  datatype Input = Proceed | Model(answer: ModelAnswer) | Human(reply: HumanResume) | Erp(status: ErpResume)

  /**
   A thread: the node that runs next, the shared state, the replies accepted so
   far, and the inputs that the nodes executed so far were given.
   */
  datatype Thread = Thread(node: Node, state: State, accepted: seq<HumanResume>, executed: seq<Input>) {
    function Next(node: Node, state: State, input: Input): Thread {
      Thread(node, state, if input.Human? then accepted + [input.reply] else accepted, executed + [input])
    }
  }

  /** The last node reads a response, so there has to be one. */
  predicate CanStep(t: Thread) {
    t.node == FinishNode ==> t.state.humanResponse.Some? || t.state.reviewResponse.Some?
  }

  /** One node execution, or the error it raises, in which case the thread stays as it is. */
  function Step(t: Thread, input: Input): Result<Thread, GateError>
    requires CanStep(t)
  {
    match (t.node, input)
    case (GeminiContradiction, Model(answer)) =>
      var s := Contradiction(t.state, answer);
      Ok(t.Next(AfterContradiction(s), s, input))
    case (DeterministicCheck, Proceed) =>
      var s := Verified(t.state);
      Ok(t.Next(AfterVerification(s), s, input))
    case (GeminiCritique, Model(answer)) =>
      var s := Critique(t.state, answer);
      Ok(t.Next(AfterCritique(s), s, input))
    case (ControlReview, Human(reply)) =>
      (match ReviewGate(t.state, reply)
       case Err(e) => Err(e)
       case Ok(s) => Ok(t.Next(AfterReview(s), s, input)))
    case (HumanGateNode, Human(reply)) =>
      (match HumanGate(t.state, reply)
       case Err(e) => Err(e)
       case Ok(s) => Ok(t.Next(AfterHuman(s), s, input)))
    case (ErpConfirmation, Erp(status)) =>
      Ok(t.Next(End, ErpGate(t.state, status), input))
    case (FinishNode, Proceed) =>
      Ok(t.Next(End, Finish(t.state), input))
    case _ => Err(INPUT_REFUSED)
  }

  // --------------------------------------------------------------- invariant

  /** As the workers start it: nothing answered, blocked or reviewed yet. */
  predicate Fresh(state: State) {
    && state.completedReviews == [] && state.citations.None? && state.verification.None? && !state.critiqued
    && state.blocker.None? && state.humanResponse.None? && state.reviewResponse.None?
    && state.erpConfirmation.None? && state.outcome.None?
  }

  function Start(state: State): Thread {
    Thread(GeminiContradiction, state, [], [])
  }

  /** What never changes during a run. */
  predicate SameRun(a: State, b: State) {
    && a.workflowKind == b.workflowKind && a.caseId == b.caseId && a.evidenceHash == b.evidenceHash
    && a.gateKind == b.gateKind && a.requiredReviews == b.requiredReviews && a.packet == b.packet
  }

  /** Every accepted reply carried this evidence hash, and versions only went up, from `first` to `last`. */
  predicate GoodReplies(replies: seq<HumanResume>, hash: string, first: nat, last: nat) {
    && (forall i :: 0 <= i < |replies| ==>
          replies[i].evidenceHash == hash && first <= replies[i].expectedVersion <= last)
    && (forall i, j :: 0 <= i < j < |replies| ==> replies[i].expectedVersion <= replies[j].expectedVersion)
  }

  /** The check has run, found nothing, and nothing has blocked since. */
  predicate Cleared(s: State) {
    s.blocker.None? && s.verification.Some? && s.verification.value.status == SUCCESS && Verifies(s)
  }

  /** The conditions under which the ERP may be written to. */
  predicate ErpCleared(s: State) {
    && Cleared(s) && s.critiqued
    && s.gateKind == APPROVAL
    && s.completedReviews == s.requiredReviews
    && s.humanResponse.Some? && s.humanResponse.value.decision == APPROVED
  }

  /** The reviews are over and the person at the gate has not answered yet. */
  predicate AwaitingHuman(s: State) {
    && Cleared(s) && s.critiqued && s.humanResponse.None? && s.outcome.None?
    && (s.gateKind == APPROVAL ==> s.completedReviews == s.requiredReviews)
  }

  predicate AwaitingReview(s: State) {
    && Cleared(s) && s.critiqued && s.humanResponse.None? && s.outcome.None?
    && s.gateKind == APPROVAL && |s.completedReviews| < |s.requiredReviews|
  }

  /** How a run can end, and what each ending goes with. */
  predicate GoodEnding(s: State) {
    match s.outcome
    case None => false
    case Some(OutBlocked) => s.blocker.Some? && s.erpConfirmation.None?
    case Some(OutCompleted) => ErpCleared(s) && s.erpConfirmation == Some(SUCCEEDED)
    case Some(OutErpFailed) => ErpCleared(s) && s.erpConfirmation == Some(FAILED)
    case Some(OutReanalyze) => s.erpConfirmation.None? && Cleared(s)
    case Some(OutDecision(d)) => s.erpConfirmation.None? && Cleared(s) && d != APPROVED && d != CLARIFIED
  }

  predicate AtNode(node: Node, s: State) {
    match node
    case GeminiContradiction => Fresh(s)
    case DeterministicCheck => s.blocker.None? && s.outcome.None? && !s.critiqued && s.verification.None?
                               && s.completedReviews == [] && s.humanResponse.None?
    case GeminiCritique => Cleared(s) && s.outcome.None? && s.completedReviews == [] && s.humanResponse.None?
    case ControlReview => AwaitingReview(s)
    case HumanGateNode => AwaitingHuman(s)
    case ErpConfirmation => ErpCleared(s) && s.outcome.None?
    case FinishNode =>
      && Cleared(s) && s.outcome.None?
      && (if s.humanResponse.Some?
          then s.gateKind == CLARIFICATION ==> s.humanResponse.value.decision == CLARIFIED
          else s.reviewResponse.Some? && s.reviewResponse.value.decision != APPROVED)
      && (s.humanResponse.Some? && s.gateKind == APPROVAL ==> s.humanResponse.value.decision != APPROVED)
    case End => GoodEnding(s)
  }

  /** The outcome that a decision leads to when nothing is written to the ERP. */
  function OutcomeOf(decision: Decision): Outcome {
    match decision
    case CLARIFIED => OutReanalyze
    case _ => OutDecision(decision)
  }

  /** The last accepted reply is the one the state goes by. */
  predicate LastReplyCounts(s0: State, t: Thread) {
    if t.accepted == [] then
      t.state.caseVersion == s0.caseVersion && t.state.humanResponse.None? && t.state.reviewResponse.None?
      && (t.state.outcome.None? || t.state.outcome == Some(OutBlocked))
    else
      var last := t.accepted[|t.accepted| - 1];
      && t.state.caseVersion == last.expectedVersion
      && (if t.state.humanResponse.Some? then t.state.humanResponse.value == last
          else t.state.reviewResponse == Some(last))
      && (t.state.outcome.Some? && t.state.erpConfirmation.None? ==>
            t.state.outcome == Some(OutcomeOf(last.decision)))
  }

  /** What holds at every moment of every run that started from `s0`. */
  predicate Inv(s0: State, t: Thread) {
    && SameRun(s0, t.state)
    && AtNode(t.node, t.state)
    && t.state.completedReviews <= t.state.requiredReviews
    && s0.caseVersion <= t.state.caseVersion
    && GoodReplies(t.accepted, s0.evidenceHash, s0.caseVersion, t.state.caseVersion)
    && (t.node != End ==> t.state.erpConfirmation.None?)
    && (t.node in {GeminiContradiction, DeterministicCheck, GeminiCritique} ==> t.accepted == [])
    && LastReplyCounts(s0, t)
  }

  lemma InvStarts(s0: State)
    requires Fresh(s0)
    ensures Inv(s0, Start(s0))
  {
  }

  /** How many more nodes can still be executed, at most. */
  function Budget(t: Thread): int {
    var reviews := |t.state.requiredReviews|;
    match t.node
    case GeminiContradiction => reviews + 5
    case DeterministicCheck => reviews + 4
    case GeminiCritique => reviews + 3
    case ControlReview => reviews - |t.state.completedReviews| + 2
    case HumanGateNode => 2
    case ErpConfirmation | FinishNode => 1
    case End => 0
  }

  lemma RepliesGrow(replies: seq<HumanResume>, hash: string, first: nat, last: nat, reply: HumanResume)
    requires GoodReplies(replies, hash, first, last) && first <= last
    requires reply.evidenceHash == hash && last <= reply.expectedVersion
    ensures GoodReplies(replies + [reply], hash, first, reply.expectedVersion)
  {
  }

  /** `u` comes after `t`: the invariant holds, budget is used up, and nothing is undone. */
  predicate Advances(s0: State, t: Thread, u: Thread) {
    && Inv(s0, u) && Budget(u) < Budget(t)
    && t.state.caseVersion <= u.state.caseVersion
    && t.state.completedReviews <= u.state.completedReviews
    && t.accepted <= u.accepted
  }

  /** Every successful node execution advances the run. */
  lemma StepKeepsInv(s0: State, t: Thread, input: Input)
    requires Inv(s0, t) && Step(t, input).Ok?
    ensures Advances(s0, t, Step(t, input).value)
  {
    hide AtNode, LastReplyCounts, GoodReplies, SameRun;
    if t.node == ControlReview {
      ReviewKeepsInv(s0, t, input.reply);
    } else if t.node == HumanGateNode {
      HumanKeepsInv(s0, t, input.reply);
    } else if t.node == DeterministicCheck {
      CheckKeepsInv(s0, t);
    } else if t.node == GeminiContradiction || t.node == GeminiCritique {
      ModelKeepsInv(s0, t, input.answer);
    } else if t.node == FinishNode {
      FinishKeepsInv(s0, t);
    } else if t.node == ErpConfirmation {
      ErpKeepsInv(s0, t, input.status);
    }
  }

  lemma ErpKeepsInv(s0: State, t: Thread, status: ErpResume)
    requires Inv(s0, t) && t.node == ErpConfirmation
    ensures Advances(s0, t, Step(t, Erp(status)).value)
  {
  }

  lemma ModelKeepsInv(s0: State, t: Thread, answer: ModelAnswer)
    requires Inv(s0, t) && (t.node == GeminiContradiction || t.node == GeminiCritique)
    ensures Advances(s0, t, Step(t, Model(answer)).value)
  {
  }

  lemma CheckKeepsInv(s0: State, t: Thread)
    requires Inv(s0, t) && t.node == DeterministicCheck
    ensures Advances(s0, t, Step(t, Proceed).value)
  {
    hide Verifies, AllBlockers, GoodReplies, InvalidCitations, HashMatches;
    CheckClears(t.state);
    SameVerdict(t.state);
  }

  /** Recording what was found changes nothing that the findings are about. */
  lemma SameVerdict(state: State)
    ensures Verifies(Verified(state)) == Verifies(state)
  {
  }

  lemma FinishKeepsInv(s0: State, t: Thread)
    requires Inv(s0, t) && t.node == FinishNode
    ensures Advances(s0, t, Step(t, Proceed).value)
  {
  }

  lemma HumanKeepsInv(s0: State, t: Thread, reply: HumanResume)
    requires Inv(s0, t) && t.node == HumanGateNode && Step(t, Human(reply)).Ok?
    ensures Advances(s0, t, Step(t, Human(reply)).value)
  {
    RepliesGrow(t.accepted, s0.evidenceHash, s0.caseVersion, t.state.caseVersion, reply);
  }

  lemma CheckClears(state: State)
    requires state.blocker.None?
    ensures Verifies(state) ==> Cleared(Verified(state))
    ensures !Verifies(state) ==> Verified(state).blocker.Some? && Verified(state).outcome == Some(OutBlocked)
  {
  }

  lemma ReviewKeepsInv(s0: State, t: Thread, reply: HumanResume)
    requires Inv(s0, t) && t.node == ControlReview && Step(t, Human(reply)).Ok?
    ensures Advances(s0, t, Step(t, Human(reply)).value)
  {
    RepliesGrow(t.accepted, s0.evidenceHash, s0.caseVersion, t.state.caseVersion, reply);
    var done, required := t.state.completedReviews, t.state.requiredReviews;
    assert done + [required[|done|]] == required[..|done| + 1];
  }

  // -------------------------------------------------------------------- runs

  /** The thread after some inputs; an input that is refused changes nothing. */
  function Run(s0: State, t: Thread, inputs: seq<Input>): Thread
    requires Inv(s0, t)
    decreases |inputs|
  {
    if inputs == [] then t
    else if Step(t, inputs[0]).Err? then Run(s0, t, inputs[1..])
    else
      StepKeepsInv(s0, t, inputs[0]);
      Run(s0, Step(t, inputs[0]).value, inputs[1..])
  }

  /** How many of the inputs were accepted, that is, how many nodes were executed. */
  function Executed(s0: State, t: Thread, inputs: seq<Input>): nat
    requires Inv(s0, t)
    decreases |inputs|
  {
    if inputs == [] then 0
    else if Step(t, inputs[0]).Err? then Executed(s0, t, inputs[1..])
    else
      StepKeepsInv(s0, t, inputs[0]);
      1 + Executed(s0, Step(t, inputs[0]).value, inputs[1..])
  }

  lemma {:induction false} RunKeepsInv(s0: State, t: Thread, inputs: seq<Input>)
    requires Inv(s0, t)
    ensures var u := Run(s0, t, inputs);
            && Inv(s0, u)
            && Executed(s0, t, inputs) + Budget(u) <= Budget(t)
            && t.state.caseVersion <= u.state.caseVersion
            && t.state.completedReviews <= u.state.completedReviews
    decreases |inputs|
  {
    if inputs != [] {
      if Step(t, inputs[0]).Err? {
        RunKeepsInv(s0, t, inputs[1..]);
      } else {
        StepKeepsInv(s0, t, inputs[0]);
        RunKeepsInv(s0, Step(t, inputs[0]).value, inputs[1..]);
      }
    }
  }

  /**
   In every run from a fresh state the ERP gate is entered only after the check
   found nothing and nothing blocked, every required control was reviewed, in
   order, the person at the final gate approved, and every reply on the way was
   given for this run's evidence.
   */
  lemma ErpGateIsGuarded(s0: State, inputs: seq<Input>)
    requires Fresh(s0)
    ensures Inv(s0, Start(s0))
    ensures var t := Run(s0, Start(s0), inputs);
            t.node == ErpConfirmation ==>
              && t.state.blocker.None?
              && t.state.verification.Some? && t.state.verification.value.status == SUCCESS
              && CarriesHash(s0) && NoHardCode(s0)
              && (t.state.citations.Some? ==> AllEvidence(s0, t.state.citations.value))
              && s0.gateKind == APPROVAL
              && t.state.completedReviews == s0.requiredReviews
              && t.state.humanResponse.Some? && t.state.humanResponse.value.decision == APPROVED
              && forall i :: 0 <= i < |t.accepted| ==> t.accepted[i].evidenceHash == s0.evidenceHash
  {
    InvStarts(s0);
    RunKeepsInv(s0, Start(s0), inputs);
    VerifiesIff(Run(s0, Start(s0), inputs).state);
  }

  /** A run executes at most five nodes more than there are required reviews, however many inputs it gets. */
  lemma RunIsBounded(s0: State, inputs: seq<Input>)
    requires Fresh(s0)
    ensures Inv(s0, Start(s0))
    ensures Executed(s0, Start(s0), inputs) <= |s0.requiredReviews| + 5
    ensures Run(s0, Start(s0), inputs).state.completedReviews <= s0.requiredReviews
    ensures s0.caseVersion <= Run(s0, Start(s0), inputs).state.caseVersion
  {
    InvStarts(s0);
    RunKeepsInv(s0, Start(s0), inputs);
    var t := Run(s0, Start(s0), inputs);
    assert |t.state.completedReviews| <= |t.state.requiredReviews|;
  }

  /** The review gate is never entered without a pending review. */
  lemma ReviewAlwaysPending(s0: State, inputs: seq<Input>, input: Input)
    requires Fresh(s0)
    ensures Inv(s0, Start(s0))
    ensures var t := Run(s0, Start(s0), inputs);
            CanStep(t) && Step(t, input) != Err(REVIEW_GATE_WITHOUT_PENDING_REVIEW)
  {
    InvStarts(s0);
    RunKeepsInv(s0, Start(s0), inputs);
  }

  /**
   A run that has ended was blocked before anyone replied, or written to the ERP
   with all its conditions met, or ends as the last accepted reply decided; it
   is never left as approved.
   */
  lemma EndingsAreSound(s0: State, inputs: seq<Input>)
    requires Fresh(s0)
    ensures Inv(s0, Start(s0))
    ensures var t := Run(s0, Start(s0), inputs);
            t.node == End ==>
              && GoodEnding(t.state)
              && t.state.outcome != Some(OutDecision(APPROVED))
              && (t.state.outcome == Some(OutCompleted) <==>
                    t.state.erpConfirmation == Some(SUCCEEDED))
              && (t.state.erpConfirmation.Some? ==> ErpCleared(t.state))
              && (t.state.outcome == Some(OutBlocked) <==> t.accepted == [])
              && (t.accepted != [] && t.state.erpConfirmation.None? ==>
                    t.state.outcome == Some(OutcomeOf(t.accepted[|t.accepted| - 1].decision)))
  {
    InvStarts(s0);
    RunKeepsInv(s0, Start(s0), inputs);
  }

  // What the deterministic check decides, said about the packet itself.

  /** The packet declares the run's evidence hash, or declares none and hashes to it. */
  predicate CarriesHash(s: State) {
    || s.packet.packetHash == Some(s.evidenceHash)
    || (s.packet.packetHash == None && s.packet.contentHash == s.evidenceHash)
  }

  /** No reason code of the packet blocks by itself. */
  predicate NoHardCode(s: State) {
    !exists code :: code in s.packet.reasonCodes && IsHardCode(code)
  }

  predicate IsHardCode(code: string) {
    || code == "SANCTIONS_DATA_UNAVAILABLE"
    || code == "INSUFFICIENT_POLICY_EVIDENCE"
    || code == "POLICY_RETRIEVAL_UNAVAILABLE"
    || code == "PO_DATA_UNAVAILABLE"
    || code == "GRN_DATA_UNAVAILABLE"
  }

  /** Each of these ids names evidence in the packet; an empty id names none. */
  predicate AllEvidence(s: State, ids: seq<string>) {
    forall id :: id in ids ==> id != "" && Some(id) in s.packet.evidenceIds
  }

  /** The check lets a run through exactly when these three hold. */
  lemma CheckPassesIff(state: State)
    requires state.blocker.None?
    ensures Verified(state).blocker.None? <==>
              && CarriesHash(state) && NoHardCode(state)
              && (state.citations.Some? ==> AllEvidence(state, state.citations.value))
    ensures Verified(state).blocker.None? <==> Verified(state).verification.value.status == SUCCESS
  {
    CheckClears(state);
    VerifiesIff(state);
  }

  lemma VerifiesIff(state: State)
    ensures Verifies(state) <==>
              && CarriesHash(state) && NoHardCode(state)
              && (state.citations.Some? ==> AllEvidence(state, state.citations.value))
  {
    HardBlockersIff(state.packet);
    CitationsIff(state);
    HardCodesListed();
    assert NoHardCode(state) <==> HardBlockers(state.packet) == [] by {
      if code :| code in HARD_CODES && code in state.packet.reasonCodes {
        assert IsHardCode(code);
      }
    }
  }

  lemma HardCodesListed()
    ensures forall code :: code in HARD_CODES <==> IsHardCode(code)
  {
    forall code ensures code in HARD_CODES <==> IsHardCode(code) {
      if IsHardCode(code) {
        assert code in {HARD_CODES[0], HARD_CODES[1], HARD_CODES[2], HARD_CODES[3], HARD_CODES[4]};
      }
    }
  }

  /** What the check reports: whether the hash matches, which citations name no evidence, and the blockers. */
  lemma FindingsAreExact(state: State)
    ensures var found := Verified(state).verification.value;
            && (found.hashMatches <==> CarriesHash(state))
            && (forall id :: id in found.invalidCitations <==>
                  state.citations.Some? && id in state.citations.value && !AllEvidence(state, [id]))
            && (forall code :: code in found.hardBlockers <==>
                  || (IsHardCode(code) && code in state.packet.reasonCodes)
                  || (code == "EVIDENCE_HASH_MISMATCH" && !found.hashMatches)
                  || (code == "EVIDENCE_CITATION_INVALID" && found.invalidCitations != {}))
            && (found.status == BLOCKED ==>
                  && found.hardBlockers != []
                  && Verified(state).outcome == Some(OutBlocked)
                  && Verified(state).blocker == Some(LlmError(found.hardBlockers[0], false, false)))
            && (found.status == SUCCESS ==>
                  Verified(state).blocker == state.blocker && Verified(state).outcome == state.outcome)
  {
    hide Verifies, HashMatches, CarriesHash;
    HardCodesListed();
    HashMatchesIff(state);
    VerifiesIff(state);
    forall id ensures AllEvidence(state, [id]) <==> id in Present(state.packet.evidenceIds) {
      EvidenceOne(state, id);
    }
  }

  lemma HashMatchesIff(state: State)
    ensures HashMatches(state) <==> CarriesHash(state)
  {
  }

  lemma EvidenceOne(state: State, id: string)
    ensures AllEvidence(state, [id]) <==> id in Present(state.packet.evidenceIds)
  {
    PresentIff(state.packet.evidenceIds);
    assert id in [id];
  }

  lemma CitationsIff(state: State)
    ensures InvalidCitations(state) == {} <==>
              (state.citations.Some? ==> forall id :: id in state.citations.value ==>
                id != "" && Some(id) in state.packet.evidenceIds)
  {
    PresentIff(state.packet.evidenceIds);
    var cited := if state.citations.Some? then state.citations.value else [];
    var invalid := InvalidCitations(state);
    assert forall id :: id in invalid <==> id in cited && id !in Present(state.packet.evidenceIds);
    if forall id :: id in cited ==> id in Present(state.packet.evidenceIds) {
      assert invalid == {};
    }
  }

  /** The second model's answer is let through exactly when every id it cites is evidence in the packet. */
  lemma CritiquePassesIff(state: State, answer: ModelAnswer)
    requires state.blocker.None?
    ensures Critique(state, answer).blocker.None? <==>
              answer.Cited? && AllEvidence(state, answer.ids)
    ensures Critique(state, answer).blocker.Some? ==>
              && Critique(state, answer).outcome == Some(OutBlocked)
              && Critique(state, answer).blocker.value
                 == (if answer.Failed? then answer.error else LlmError("LLM_OUTPUT_INVALID", true, false))
  {
    if answer.Cited? {
      CitesEvidenceIff(answer.ids, state.packet);
    }
  }

  lemma CitesEvidenceIff(ids: seq<string>, packet: Packet)
    ensures (set id | id in ids) <= AllowedEvidence(packet)
            <==> forall id :: id in ids ==> id != "" && Some(id) in packet.evidenceIds
  {
    PresentIff(packet.evidenceIds);
    var cited, allowed := (set id | id in ids), AllowedEvidence(packet);
    if cited <= allowed {
      forall id | id in ids ensures id in Present(packet.evidenceIds) {
        assert id in cited;
      }
    }
    if forall id :: id in ids ==> id != "" && Some(id) in packet.evidenceIds {
      forall id | id in cited ensures id in allowed {
      }
    }
  }

  /**
   A run that the check blocks is blocked for a reason that holds: a hard code
   first, the first in the alphabet, then the hash, then a citation.
   */
  lemma BlockedForAReason(state: State)
    requires state.blocker.None? && Verified(state).blocker.Some?
    ensures var code := Verified(state).blocker.value.code;
            if !NoHardCode(state) then
              && IsHardCode(code) && code in state.packet.reasonCodes
              && (forall other :: IsHardCode(other) && other in state.packet.reasonCodes ==>
                    other == code || TextBefore(code, other))
            else if !CarriesHash(state) then code == "EVIDENCE_HASH_MISMATCH"
            else code == "EVIDENCE_CITATION_INVALID"
    ensures !Verified(state).blocker.value.retryable && !Verified(state).blocker.value.upgradeRequired
  {
    VerifiesIff(state);
    HardCodesListed();
    HashMatchesIff(state);
    hide CarriesHash, HashMatches, AllEvidence, TextBefore, IsHardCode;
    var wanted := set code | code in state.packet.reasonCodes;
    if HardBlockers(state.packet) != [] {
      assert HardBlockers(state.packet)[0] in HardBlockers(state.packet);
      FirstKept(HARD_CODES, wanted);
      HardCodesAlphabetical();
    } else {
      HardBlockersIff(state.packet);
    }
  }

  /** One text comes before another in the alphabet. */
  predicate TextBefore(a: string, b: string) {
    b != "" && (a == "" || a[0] < b[0] || (a[0] == b[0] && TextBefore(a[1..], b[1..])))
  }

  lemma HardCodesAlphabetical()
    ensures forall i, j :: 0 <= i < j < |HARD_CODES| ==> TextBefore(HARD_CODES[i], HARD_CODES[j])
  {
    forall i, j | 0 <= i < j < |HARD_CODES| ensures TextBefore(HARD_CODES[i], HARD_CODES[j]) {
      var a, b := HARD_CODES[i], HARD_CODES[j];
      if i == 2 && j == 3 {
        assert a[0] == b[0] && a[1] == b[1] && a[2] < b[2];
        TextBeforeAt(a, b, 2);
      } else {
        assert a[0] < b[0];
        TextBeforeAt(a, b, 0);
      }
    }
  }

  lemma {:induction false} TextBeforeAt(a: string, b: string, k: nat)
    requires k < |a| && k < |b| && a[k] < b[k] && forall i :: 0 <= i < k ==> a[i] == b[i]
    ensures TextBefore(a, b)
  {
    if k > 0 {
      TextBeforeAt(a[1..], b[1..], k - 1);
    }
  }

  /** The first kept element comes before all others that are wanted. */
  lemma {:induction false} FirstKept(s: seq<string>, wanted: set<string>)
    requires Keep(s, wanted) != []
    ensures exists i :: 0 <= i < |s| && s[i] == Keep(s, wanted)[0] && forall j :: 0 <= j < i ==> s[j] !in wanted
  {
    if s[0] !in wanted {
      FirstKept(s[1..], wanted);
      var i :| 0 <= i < |s| - 1 && s[1..][i] == Keep(s, wanted)[0] && forall j :: 0 <= j < i ==> s[1..][j] !in wanted;
      forall j | 0 <= j < i + 1 ensures s[j] !in wanted {
        if j > 0 {
          assert s[j] == s[1..][j - 1];
        }
      }
      assert s[i + 1] == s[1..][i];
    }
  }

  lemma HardBlockersIff(packet: Packet)
    ensures HardBlockers(packet) == [] <==> forall code :: code in HARD_CODES ==> code !in packet.reasonCodes
  {
    if HardBlockers(packet) != [] {
      assert HardBlockers(packet)[0] in HardBlockers(packet);
    }
  }

  lemma {:induction false} PresentIff(ids: seq<Option<string>>)
    ensures forall id :: id in Present(ids) <==> id != "" && Some(id) in ids
  {
    if ids != [] {
      PresentIff(ids[1..]);
      forall id ensures id in Present(ids) <==> id != "" && Some(id) in ids {
        assert Some(id) in ids <==> Some(id) == ids[0] || Some(id) in ids[1..];
      }
    }
  }

  // ------------------------------------------------------- the bound is tight

  /** `n` approvals, given for this evidence at this version. */
  function Approvals(n: int, hash: string, version: nat): seq<Input> {
    if n <= 0 then [] else [Human(HumanResume(APPROVED, hash, version))] + Approvals(n - 1, hash, version)
  }

  function PendingReviews(t: Thread): int {
    |t.state.requiredReviews| - |t.state.completedReviews|
  }

  /** An approval of the pending review is accepted and leads to the next one, or to the final gate. */
  lemma ApproveOne(s0: State, t: Thread)
    requires Inv(s0, t) && t.node == ControlReview
    ensures PendingReviews(t) > 0
    ensures var step := Step(t, Human(HumanResume(APPROVED, t.state.evidenceHash, t.state.caseVersion)));
            && step.Ok? && Inv(s0, step.value)
            && step.value.node == (if PendingReviews(t) == 1 then HumanGateNode else ControlReview)
            && PendingReviews(step.value) == PendingReviews(t) - 1
            && step.value.state.evidenceHash == t.state.evidenceHash
            && step.value.state.caseVersion == t.state.caseVersion
  {
    hide GoodEnding, GoodReplies, Verifies;
    StepKeepsInv(s0, t, Human(HumanResume(APPROVED, t.state.evidenceHash, t.state.caseVersion)));
  }

  /** Approving every pending review leads to the final gate. */
  lemma {:induction false} ApprovalsFinishReviews(s0: State, t: Thread, rest: seq<Input>) returns (u: Thread)
    requires Inv(s0, t) && t.node == ControlReview
    ensures Inv(s0, u) && u.node == HumanGateNode && u.state.caseVersion == t.state.caseVersion
    ensures var inputs := Approvals(PendingReviews(t), t.state.evidenceHash, t.state.caseVersion) + rest;
            && Executed(s0, t, inputs) == PendingReviews(t) + Executed(s0, u, rest)
            && Run(s0, t, inputs) == Run(s0, u, rest)
    decreases PendingReviews(t)
  {
    hide Inv, Step, AtNode, PendingReviews;
    var n := PendingReviews(t);
    var hash, version := t.state.evidenceHash, t.state.caseVersion;
    var reply := Human(HumanResume(APPROVED, hash, version));
    var inputs := Approvals(n, hash, version) + rest;
    ApproveOne(s0, t);
    var next := Step(t, reply).value;
    assert inputs[0] == reply && inputs[1..] == Approvals(n - 1, hash, version) + rest;
    if n == 1 {
      assert Approvals(0, hash, version) + rest == rest;
      u := next;
    } else {
      u := ApprovalsFinishReviews(s0, next, rest);
    }
  }

  /** The inputs of a run in which everyone approves and the ERP answers with `status`. */
  function CleanInputs(s0: State, status: ErpResume): seq<Input> {
    [Model(Cited([])), Proceed, Model(Cited([]))]
    + (Approvals(|s0.requiredReviews|, s0.evidenceHash, s0.caseVersion)
       + [Human(HumanResume(APPROVED, s0.evidenceHash, s0.caseVersion)), Erp(status)])
  }

  lemma ApprovedAndWritten(s0: State, u: Thread, status: ErpResume)
    requires Inv(s0, u) && u.node == HumanGateNode && u.state.gateKind == APPROVAL
    ensures var last := [Human(HumanResume(APPROVED, u.state.evidenceHash, u.state.caseVersion)), Erp(status)];
            && Executed(s0, u, last) == 2
            && Run(s0, u, last).node == End && Run(s0, u, last).state.erpConfirmation == Some(status)
            && Run(s0, u, last).state.outcome
               == (match status case SUCCEEDED => Some(OutCompleted) case FAILED => Some(OutErpFailed))
  {
    var reply := Human(HumanResume(APPROVED, u.state.evidenceHash, u.state.caseVersion));
    var last := [reply, Erp(status)];
    StepKeepsInv(s0, u, reply);
    var v := Step(u, reply).value;
    StepKeepsInv(s0, v, Erp(status));
    assert last[1..] == [Erp(status)] && last[1..][1..] == [];
    var w := Step(v, Erp(status)).value;
    assert Executed(s0, w, []) == 0 && Run(s0, w, []) == w;
    assert Executed(s0, v, [Erp(status)]) == 1 && Run(s0, v, [Erp(status)]) == w;
  }

  lemma CleanStart(s0: State, rest: seq<Input>) returns (t: Thread)
    requires Fresh(s0) && s0.gateKind == APPROVAL && Verifies(s0)
    ensures Inv(s0, Start(s0)) && Inv(s0, t)
    ensures t.node == (if s0.requiredReviews == [] then HumanGateNode else ControlReview)
    ensures t.state.completedReviews == [] && t.state.caseVersion == s0.caseVersion
    ensures var inputs := [Model(Cited([])), Proceed, Model(Cited([]))] + rest;
            && Executed(s0, Start(s0), inputs) == 3 + Executed(s0, t, rest)
            && Run(s0, Start(s0), inputs) == Run(s0, t, rest)
  {
    hide GoodEnding, GoodReplies, ErpCleared;
    InvStarts(s0);
    var answer := Model(Cited([]));
    var inputs := [answer, Proceed, answer] + rest;
    var a := Start(s0);
    StepKeepsInv(s0, a, answer);
    var b := Step(a, answer).value;
    assert (set id: string | id in []) == {};
    assert InvalidCitations(b.state) == {};
    StepKeepsInv(s0, b, Proceed);
    var c := Step(b, Proceed).value;
    StepKeepsInv(s0, c, answer);
    t := Step(c, answer).value;
    assert inputs[1..] == [Proceed, answer] + rest;
    assert inputs[1..][1..] == [answer] + rest;
    assert inputs[1..][1..][1..] == rest;
    assert Executed(s0, b, inputs[1..]) == 1 + Executed(s0, c, inputs[1..][1..]);
    assert Run(s0, b, inputs[1..]) == Run(s0, c, inputs[1..][1..]);
  }

  /**
   From every fresh state with a clean packet and the approval gate there is a
   run that reaches the ERP, whichever way that answers, and it uses the whole
   bound.
   */
  lemma BoundIsAttained(s0: State, status: ErpResume)
    requires Fresh(s0) && s0.gateKind == APPROVAL && CarriesHash(s0) && NoHardCode(s0)
    ensures Inv(s0, Start(s0))
    ensures Executed(s0, Start(s0), CleanInputs(s0, status)) == |s0.requiredReviews| + 5
    ensures var t := Run(s0, Start(s0), CleanInputs(s0, status));
            && t.node == End && t.state.erpConfirmation == Some(status)
            && t.state.outcome == (match status case SUCCEEDED => Some(OutCompleted) case FAILED => Some(OutErpFailed))
  {
    VerifiesIff(s0);
    hide Verifies, CarriesHash, NoHardCode, Step, GoodEnding, GoodReplies, LastReplyCounts;
    var last := [Human(HumanResume(APPROVED, s0.evidenceHash, s0.caseVersion)), Erp(status)];
    var rest := Approvals(|s0.requiredReviews|, s0.evidenceHash, s0.caseVersion) + last;
    var t := CleanStart(s0, rest);
    if s0.requiredReviews == [] {
      assert rest == last;
      ApprovedAndWritten(s0, t, status);
    } else {
      var u := ApprovalsFinishReviews(s0, t, last);
      ApprovedAndWritten(s0, u, status);
    }
  }

  /**
   Whether a run can complete is settled when it starts: some answers and
   replies lead to a completed ERP write exactly when the gate is an approval
   and the packet carries no hard reason code and the hash of this run.
   */
  lemma CompletableIff(s0: State)
    requires Fresh(s0)
    ensures Inv(s0, Start(s0))
    ensures (exists inputs :: Run(s0, Start(s0), inputs).state.outcome == Some(OutCompleted))
            <==> s0.gateKind == APPROVAL && CarriesHash(s0) && NoHardCode(s0)
  {
    InvStarts(s0);
    if exists inputs :: Run(s0, Start(s0), inputs).state.outcome == Some(OutCompleted) {
      var inputs :| Run(s0, Start(s0), inputs).state.outcome == Some(OutCompleted);
      RunKeepsInv(s0, Start(s0), inputs);
      CompletedIsVerified(s0, Run(s0, Start(s0), inputs));
    }
    if s0.gateKind == APPROVAL && CarriesHash(s0) && NoHardCode(s0) {
      BoundIsAttained(s0, SUCCEEDED);
    }
  }

  lemma CompletedIsVerified(s0: State, t: Thread)
    requires Inv(s0, t) && t.state.outcome == Some(OutCompleted)
    ensures s0.gateKind == APPROVAL && CarriesHash(s0) && NoHardCode(s0)
  {
    VerifiesIff(t.state);
  }

  // ------------------------------------------------------- the running graph

  /** The review gate as the program runs it: it appends to its own copy of the list. */
  method ReviewGateNode(state: State, reply: HumanResume) returns (r: Result<State, GateError>)
    ensures r == ReviewGate(state, reply)
  {
    var completed := new CodeList(state.completedReviews);
    if |completed.items| >= |state.requiredReviews| {
      return Err(REVIEW_GATE_WITHOUT_PENDING_REVIEW);
    }
    var reviewType := state.requiredReviews[|completed.items|];
    if reply.evidenceHash != state.evidenceHash {
      return Err(EVIDENCE_CHANGED);
    }
    if reply.expectedVersion < state.caseVersion {
      return Err(STALE_HUMAN_RESPONSE);
    }
    if reply.decision == APPROVED {
      completed.Append(reviewType);
    }
    return Ok(state.(reviewResponse := Some(reply), completedReviews := completed.items,
                     caseVersion := reply.expectedVersion));
  }

  /** A checkpointed thread of the compiled graph. */
  class GraphThread {
    var node: Node
    var state: State
    ghost var accepted: seq<HumanResume>
    ghost var executed: seq<Input>
    ghost const initial: State

    ghost predicate Valid()
      reads this
    {
      Fresh(initial) && Inv(initial, View())
    }

    ghost function View(): Thread
      reads this
    {
      Thread(node, state, accepted, executed)
    }

    constructor (state: State)
      requires Fresh(state)
      ensures Valid() && initial == state && View() == Start(state)
    {
      this.node := GeminiContradiction;
      this.state := state;
      this.accepted := [];
      this.executed := [];
      this.initial := state;
      new;
      InvStarts(state);
    }

    /** Execute the next node on an input; a refused input changes nothing. */
    method Resume(input: Input) returns (error: Option<GateError>)
      requires Valid()
      modifies this
      ensures Valid()
      ensures error == (match old(Step(View(), input)) case Ok(_) => None case Err(e) => Some(e))
      ensures View() == (match old(Step(View(), input)) case Ok(t) => t case Err(_) => old(View()))
    {
      hide GoodEnding, GoodReplies, Verifies, ErpCleared, AwaitingHuman, AwaitingReview;
      error := None;
      ghost var before := View();
      if Step(before, input).Ok? {
        StepKeepsInv(initial, before, input);
      }
      match (node, input) {
      case (GeminiContradiction, Model(answer)) =>
        state := Contradiction(state, answer);
        node := AfterContradiction(state);
      case (DeterministicCheck, Proceed) =>
        state := DeterministicVerification(state);
        node := AfterVerification(state);
      case (GeminiCritique, Model(answer)) =>
        state := Critique(state, answer);
        node := AfterCritique(state);
      case (ControlReview, Human(reply)) =>
        var r := ReviewGateNode(state, reply);
        if r.Err? {
          return Some(r.error);
        }
        state := r.value;
        node := AfterReview(state);
        accepted := accepted + [reply];
      case (HumanGateNode, Human(reply)) =>
        var r := HumanGate(state, reply);
        if r.Err? {
          return Some(r.error);
        }
        state := r.value;
        node := AfterHuman(state);
        accepted := accepted + [reply];
      case (ErpConfirmation, Erp(status)) =>
        state := ErpGate(state, status);
        node := End;
      case (FinishNode, Proceed) =>
        state := Finish(state);
        node := End;
      case _ =>
        return Some(INPUT_REFUSED);
      }
      executed := executed + [input];
    }
  }
}
