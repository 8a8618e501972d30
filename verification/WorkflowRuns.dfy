/**
 What the inputs of a workflow run amount to.

 Every run from a fresh state is retold from its executed inputs alone: which
 came when, where each left the thread, and what the state then holds. Nothing
 here refers to the nodes and routers of the graph, so this is a second account
 of the same protocol, and the main theorem is that the two agree.
 */
module WorkflowRuns {
  import opened Common
  import opened Workflow

  /** How many control reviews a run asks for. */
  function ReviewsAsked(s0: State): nat {
    if s0.gateKind == APPROVAL then |s0.requiredReviews| else 0
  }

  predicate StoppedBy(t: Thread, error: LlmError) {
    t.node == End && t.state.outcome == Some(OutBlocked) && t.state.blocker == Some(error)
    && t.state.erpConfirmation == None
  }

  /** The packet and the citations of the first answer give no reason to block. */
  predicate Clean(s0: State, cited: seq<string>) {
    CarriesHash(s0) && NoHardCode(s0) && AllEvidence(s0, cited)
  }

  /** The thread as its executed inputs say it must be. */
  predicate Explained(s0: State, t: Thread) {
    var x, n := t.executed, |t.executed|;
    && SameRun(s0, t.state)
    && (n == 0 ==> t == Thread(GeminiContradiction, s0, [], []))
    && (n > 0 ==> x[0].Model?)
    && (n > 0 && x[0].answer.Failed? ==> n == 1 && t.accepted == [] && StoppedBy(t, x[0].answer.error))
    && (n > 0 && x[0].answer.Cited? ==>
          t.state.citations == Some(x[0].answer.ids) && CitedExplained(s0, t, x[0].answer.ids))
  }

  /** After a first answer that cites `ids`. */
  predicate CitedExplained(s0: State, t: Thread, ids: seq<string>)
    requires |t.executed| > 0
  {
    var x, n := t.executed, |t.executed|;
    && (n <= 3 ==> t.accepted == [])
    && (n == 1 ==> t.node == DeterministicCheck && StillOpen(t))
    && (n > 1 ==> x[1] == Proceed)
    && (n > 1 && !Clean(s0, ids) ==>
          && n == 2 && t.node == End && t.state.outcome == Some(OutBlocked) && t.state.blocker.Some?
          && t.state.erpConfirmation == None)
    && (n > 1 && Clean(s0, ids) ==> CheckedExplained(s0, t))
  }

  /** After a check that found nothing. */
  predicate CheckedExplained(s0: State, t: Thread)
    requires |t.executed| > 1
  {
    var x, n := t.executed, |t.executed|;
    && (n == 2 ==> t.node == GeminiCritique && StillOpen(t))
    && (n > 2 ==> x[2].Model?)
    && (n > 2 && x[2].answer.Failed? ==> n == 3 && StoppedBy(t, x[2].answer.error))
    && (n > 2 && x[2].answer.Cited? && !AllEvidence(s0, x[2].answer.ids) ==>
          n == 3 && StoppedBy(t, LlmError("LLM_OUTPUT_INVALID", true, false)))
    && (n > 2 && x[2].answer.Cited? && AllEvidence(s0, x[2].answer.ids) ==> RepliesExplained(s0, t))
  }

  predicate StillOpen(t: Thread) {
    t.state.outcome == None && t.state.blocker == None && t.state.erpConfirmation == None
  }

  /** The inputs since the second answer are the accepted replies, in order, and at most one more. */
  predicate RepliesExplained(s0: State, t: Thread)
    requires |t.executed| > 2
  {
    var n, k := |t.executed|, |t.accepted|;
    && k <= ReviewsAsked(s0) + 1
    && (n == 3 + k || (n == 4 + k && k > 0))
    && (forall i :: 0 <= i < k ==> t.executed[3 + i] == Human(t.accepted[i]))
    && (forall i {:trigger InTurn(s0, t.accepted, i)} :: 0 <= i < k ==> InTurn(s0, t.accepted, i))
    && Recorded(s0, t)
    && (if n == 3 + k then t.node == Waiting(s0, t.accepted) && StillOpen(t)
        else t.node == End && Ended(s0, t, t.executed[3 + k]))
  }

  /** Reply `i` was given for the run's evidence, not before the version known, and after approvals only. */
  predicate InTurn(s0: State, replies: seq<HumanResume>, i: nat)
    requires i < |replies|
  {
    && replies[i].evidenceHash == s0.evidenceHash
    && replies[i].expectedVersion >= (if i == 0 then s0.caseVersion else replies[i - 1].expectedVersion)
    && (i > 0 ==> replies[i - 1].decision == APPROVED)
    && (s0.gateKind == CLARIFICATION ==> replies[i].decision == CLARIFIED)
  }

  /** The version, the reviews and the responses that the replies have left in the state. */
  predicate Recorded(s0: State, t: Thread) {
    var replies, k, asked := t.accepted, |t.accepted|, ReviewsAsked(s0);
    && t.state.caseVersion == (if k == 0 then s0.caseVersion else replies[k - 1].expectedVersion)
    && t.state.completedReviews == s0.requiredReviews[..Approved(replies, asked)]
    && t.state.humanResponse == (if k > asked then Some(replies[k - 1]) else None)
    && t.state.reviewResponse
       == (if k == 0 || asked == 0 then None else Some(replies[if k > asked then asked - 1 else k - 1]))
  }

  /** How many of the asked reviews are approved: all replied to, but perhaps the last. */
  function Approved(replies: seq<HumanResume>, asked: nat): (n: nat)
    ensures n <= asked
  {
    var k := |replies|;
    if k > asked then asked
    else if k == 0 || replies[k - 1].decision == APPROVED then k
    else k - 1
  }

  /** Where the thread waits after these replies. */
  function Waiting(s0: State, replies: seq<HumanResume>): Node {
    var k, asked := |replies|, ReviewsAsked(s0);
    if k > 0 && replies[k - 1].decision != APPROVED then FinishNode
    else if k < asked then ControlReview
    else if k == asked then HumanGateNode
    else ErpConfirmation
  }

  /** What the last input leads to: the ERP's answer after approvals only, or else the last reply's decision. */
  predicate Ended(s0: State, t: Thread, last: Input)
    requires |t.accepted| > 0
  {
    var decision := t.accepted[|t.accepted| - 1].decision;
    && t.state.blocker == None
    && if decision == APPROVED then
         && |t.accepted| == ReviewsAsked(s0) + 1
         && last.Erp? && t.state.erpConfirmation == Some(last.status)
         && (last.status == SUCCEEDED ==> t.state.outcome == Some(OutCompleted))
         && (last.status == FAILED ==> t.state.outcome == Some(OutErpFailed))
       else
         && last == Proceed && t.state.erpConfirmation == None
         && (decision == CLARIFIED ==> t.state.outcome == Some(OutReanalyze))
         && (decision != CLARIFIED ==> t.state.outcome == Some(OutDecision(decision)))
  }

  // ------------------------------------------------------------ the agreement

  /** How far a thread is, from the node it waits at. */
  lemma WhereItIs(s0: State, t: Thread)
    requires Explained(s0, t)
    ensures t.node == GeminiContradiction ==> |t.executed| == 0
    ensures t.node == DeterministicCheck ==> |t.executed| == 1
    ensures t.node == GeminiCritique ==> |t.executed| == 2
    ensures t.node in {ControlReview, HumanGateNode, ErpConfirmation, FinishNode} ==>
              Replying(s0, t) && |t.executed| == 3 + |t.accepted|
  {
    hide InTurn, Recorded, Ended, Clean, AllEvidence, SameRun;
  }

  /** Both answers were let through, and people are asked. */
  predicate Replying(s0: State, t: Thread) {
    && SameRun(s0, t.state)
    && |t.executed| > 2 && t.executed[0].Model? && t.executed[0].answer.Cited?
    && t.state.citations == Some(t.executed[0].answer.ids) && Clean(s0, t.executed[0].answer.ids)
    && t.executed[1] == Proceed
    && t.executed[2].Model? && t.executed[2].answer.Cited? && AllEvidence(s0, t.executed[2].answer.ids)
    && RepliesExplained(s0, t)
  }

  lemma ReplyingExplained(s0: State, t: Thread)
    requires Replying(s0, t) && (|t.executed| > 3 || t.accepted == [])
    ensures Explained(s0, t)
  {
    hide RepliesExplained, Clean, AllEvidence, SameRun;
  }

  lemma FirstAnswerExplained(s0: State, t: Thread, answer: ModelAnswer)
    requires Fresh(s0) && Explained(s0, t) && t.node == GeminiContradiction
    ensures Explained(s0, Step(t, Model(answer)).value)
  {
    WhereItIs(s0, t);
  }

  lemma CheckExplained(s0: State, t: Thread)
    requires Fresh(s0) && Explained(s0, t) && t.node == DeterministicCheck
    ensures Explained(s0, Step(t, Proceed).value)
  {
    hide RepliesExplained, Verifies, AllBlockers, CarriesHash, NoHardCode, AllEvidence;
    WhereItIs(s0, t);
    VerifiesIff(t.state);
    SameReasons(s0, t.state, t.executed[0].answer.ids);
    CheckPassesIff(t.state);
    var u := Step(t, Proceed).value;
    assert u.executed[0] == t.executed[0] && u.executed[1] == Proceed;
  }

  lemma SameReasons(s0: State, s: State, ids: seq<string>)
    requires SameRun(s0, s)
    ensures CarriesHash(s) == CarriesHash(s0) && NoHardCode(s) == NoHardCode(s0)
    ensures AllEvidence(s, ids) == AllEvidence(s0, ids)
  {
  }

  lemma CritiqueExplained(s0: State, t: Thread, answer: ModelAnswer)
    requires Fresh(s0) && Inv(s0, t) && Explained(s0, t) && t.node == GeminiCritique
    ensures Explained(s0, Step(t, Model(answer)).value)
  {
    hide Verifies, CarriesHash, NoHardCode, AllEvidence;
    WhereItIs(s0, t);
    CritiquePassesIff(t.state, answer);
    if answer.Cited? {
      SameReasons(s0, t.state, answer.ids);
    }
    var u := Step(t, Model(answer)).value;
    assert u.executed[0] == t.executed[0] && u.executed[1] == t.executed[1] && u.executed[2] == Model(answer);
    assert SameRun(s0, u.state);
    assert Clean(s0, u.executed[0].answer.ids);
    if answer.Cited? && AllEvidence(s0, answer.ids) {
      assert u.state.completedReviews == s0.requiredReviews[..0];
      assert Recorded(s0, u);
      assert Waiting(s0, []) == u.node;
      assert RepliesExplained(s0, u);
    }
    assert CheckedExplained(s0, u);
  }

  /** One more accepted reply. */
  lemma ReplyRecorded(s0: State, t: Thread, u: Thread, reply: HumanResume)
    requires Replying(s0, t) && |t.executed| == 3 + |t.accepted| && |t.accepted| <= ReviewsAsked(s0)
    requires u.accepted == t.accepted + [reply] && u.executed == t.executed + [Human(reply)]
    requires SameRun(s0, u.state) && u.state.citations == t.state.citations && StillOpen(u)
    requires InTurn(s0, u.accepted, |t.accepted|) && Recorded(s0, u) && u.node == Waiting(s0, u.accepted)
    ensures Replying(s0, u)
  {
    hide Recorded, Waiting, StillOpen, SameRun, Clean, AllEvidence;
    forall i | 0 <= i < |u.accepted| ensures InTurn(s0, u.accepted, i) {
      if i < |t.accepted| {
        assert InTurn(s0, t.accepted, i);
      }
    }
    assert RepliesExplained(s0, u);
  }

  lemma ReviewExplained(s0: State, t: Thread, reply: HumanResume)
    requires Inv(s0, t) && Explained(s0, t) && t.node == ControlReview && Step(t, Human(reply)).Ok?
    ensures Explained(s0, Step(t, Human(reply)).value)
  {
    hide Clean, AllEvidence, Verifies;
    WhereItIs(s0, t);
    var u := Step(t, Human(reply)).value;
    var n := |t.state.completedReviews|;
    assert s0.requiredReviews[..n] + [s0.requiredReviews[n]] == s0.requiredReviews[..n + 1];
    ReplyRecorded(s0, t, u, reply);
    ReplyingExplained(s0, u);
  }

  lemma HumanExplained(s0: State, t: Thread, reply: HumanResume)
    requires Inv(s0, t) && Explained(s0, t) && t.node == HumanGateNode && Step(t, Human(reply)).Ok?
    ensures Explained(s0, Step(t, Human(reply)).value)
  {
    hide Clean, AllEvidence, Verifies;
    WhereItIs(s0, t);
    var u := Step(t, Human(reply)).value;
    ReplyRecorded(s0, t, u, reply);
    ReplyingExplained(s0, u);
  }

  lemma EndExplained(s0: State, t: Thread, input: Input)
    requires Inv(s0, t) && Explained(s0, t) && t.node in {ErpConfirmation, FinishNode} && Step(t, input).Ok?
    ensures Explained(s0, Step(t, input).value)
  {
    hide Clean, AllEvidence, Verifies, GoodReplies, GoodEnding, LastReplyCounts, InTurn;
    WhereItIs(s0, t);
    var u := Step(t, input).value;
    assert u.accepted == t.accepted && forall i :: 0 <= i < |t.executed| ==> u.executed[i] == t.executed[i];
    assert RepliesExplained(s0, u);
    ReplyingExplained(s0, u);
  }

  /** Every step keeps the account true. */
  lemma StepExplained(s0: State, t: Thread, input: Input)
    requires Fresh(s0) && Inv(s0, t) && Explained(s0, t) && Step(t, input).Ok?
    ensures Explained(s0, Step(t, input).value)
  {
    hide Explained, Inv;
    match t.node
    case GeminiContradiction => FirstAnswerExplained(s0, t, input.answer);
    case DeterministicCheck => CheckExplained(s0, t);
    case GeminiCritique => CritiqueExplained(s0, t, input.answer);
    case ControlReview => ReviewExplained(s0, t, input.reply);
    case HumanGateNode => HumanExplained(s0, t, input.reply);
    case ErpConfirmation | FinishNode => EndExplained(s0, t, input);
    case End =>
  }

  lemma {:induction false} RunKeepsExplained(s0: State, t: Thread, inputs: seq<Input>)
    requires Fresh(s0) && Inv(s0, t) && Explained(s0, t)
    ensures Explained(s0, Run(s0, t, inputs))
    decreases |inputs|
  {
    hide Explained, Step;
    if inputs != [] {
      if Step(t, inputs[0]).Err? {
        RunKeepsExplained(s0, t, inputs[1..]);
      } else {
        StepKeepsInv(s0, t, inputs[0]);
        StepExplained(s0, t, inputs[0]);
        RunKeepsExplained(s0, Step(t, inputs[0]).value, inputs[1..]);
      }
    }
  }

  /** Every run from a fresh state is what its executed inputs say. */
  lemma RunIsExplained(s0: State, inputs: seq<Input>)
    requires Fresh(s0)
    ensures Inv(s0, Start(s0)) && Explained(s0, Run(s0, Start(s0), inputs))
  {
    InvStarts(s0);
    RunKeepsExplained(s0, Start(s0), inputs);
  }

  /**
   A finished run is completed exactly when its last executed input was the
   ERP's success, failed exactly when that was the ERP's failure, and the
   confirmation it holds is what the ERP answered.
   */
  lemma EndingIsLastInput(s0: State, inputs: seq<Input>)
    requires Fresh(s0)
    ensures Inv(s0, Start(s0))
    ensures var t := Run(s0, Start(s0), inputs);
            t.node == End ==>
              && |t.executed| > 0
              && var last := t.executed[|t.executed| - 1];
                 && (t.state.outcome == Some(OutCompleted) <==> last == Erp(SUCCEEDED))
                 && (t.state.outcome == Some(OutErpFailed) <==> last == Erp(FAILED))
                 && t.state.erpConfirmation == (if last.Erp? then Some(last.status) else None)
  {
    hide Explained, Ended, Step, Inv;
    RunIsExplained(s0, inputs);
    var t := Run(s0, Start(s0), inputs);
    if t.node == End {
      EndIsExplained(s0, t);
    }
  }

  lemma EndIsExplained(s0: State, t: Thread)
    requires Explained(s0, t) && t.node == End
    ensures |t.executed| > 0
    ensures var last := t.executed[|t.executed| - 1];
            && (t.state.outcome == Some(OutCompleted) <==> last == Erp(SUCCEEDED))
            && (t.state.outcome == Some(OutErpFailed) <==> last == Erp(FAILED))
            && t.state.erpConfirmation == (if last.Erp? then Some(last.status) else None)
  {
    hide Clean, AllEvidence, SameRun, InTurn, Recorded;
  }

  // -------------------------------------------------------- what is refused

  /**
   What a run accepts next, and with which error it refuses the rest: each node
   takes one kind of input, and a reply must be for the run's evidence, not
   older than the version known, and a clarification when that was asked for.
   */
  lemma RefusedIff(s0: State, inputs: seq<Input>, input: Input)
    requires Fresh(s0)
    ensures Inv(s0, Start(s0))
    ensures var t := Run(s0, Start(s0), inputs);
            && CanStep(t)
            && var step := Step(t, input);
               match t.node
               case GeminiContradiction | GeminiCritique => step.Ok? == input.Model?
               case DeterministicCheck | FinishNode => step.Ok? == (input == Proceed)
               case ErpConfirmation => step.Ok? == input.Erp?
               case End => step.Err?
               case ControlReview | HumanGateNode =>
                 if !input.Human? then step == Err(INPUT_REFUSED)
                 else if input.reply.evidenceHash != s0.evidenceHash then step == Err(EVIDENCE_CHANGED)
                 else if input.reply.expectedVersion < t.state.caseVersion then step == Err(STALE_HUMAN_RESPONSE)
                 else if s0.gateKind == CLARIFICATION && input.reply.decision != CLARIFIED
                 then step == Err(INVALID_CLARIFICATION_RESUME)
                 else step.Ok?
  {
    InvStarts(s0);
    RunKeepsInv(s0, Start(s0), inputs);
  }

  /** The executed inputs are those of the run that were not refused: some of them, in their order. */
  ghost predicate PartOf(some: seq<Input>, all: seq<Input>)
    decreases |all|
  {
    some == [] || (all != [] && (PartOf(some, all[1..]) || (some[0] == all[0] && PartOf(some[1..], all[1..]))))
  }

  lemma {:induction false} ExecutedArePart(s0: State, t: Thread, inputs: seq<Input>) returns (some: seq<Input>)
    requires Inv(s0, t)
    ensures Run(s0, t, inputs).executed == t.executed + some && PartOf(some, inputs)
    ensures |some| == Executed(s0, t, inputs)
    decreases |inputs|
  {
    hide GoodEnding, GoodReplies, LastReplyCounts;
    some := [];
    if inputs != [] {
      if Step(t, inputs[0]).Err? {
        some := ExecutedArePart(s0, t, inputs[1..]);
      } else {
        StepKeepsInv(s0, t, inputs[0]);
        var u := Step(t, inputs[0]).value;
        var more := ExecutedArePart(s0, u, inputs[1..]);
        some := [inputs[0]] + more;
        assert u.executed == t.executed + [inputs[0]];
        assert t.executed + some == u.executed + more && some[1..] == more;
      }
    }
  }
}
