/**
 The model gateway's circuit breaker (services/api/app/llm_gateway.py): after
 enough failures calls are refused until a reset time has passed.

 Every access to the breaker happens under a lock, so what concurrent callers
 do to it is some sequence of checks, successes and failures. The results hold
 for every such sequence, whoever the callers are and however they interleave.
 */
module Circuit {
  import opened Common

  /** The settings: how many failures open the circuit, and for how long. */
  datatype Settings = Settings(threshold: nat, resetSeconds: real, maxAttempts: nat)

  datatype Breaker = Breaker(failures: nat, openedAt: Option<real>)

  const CLOSED := Breaker(0, None)

  /** May a call start at this time? */
  predicate Admits(b: Breaker, now: real, settings: Settings) {
    b.openedAt.None? || now - b.openedAt.value >= settings.resetSeconds
  }

  function AfterCheck(b: Breaker, now: real, settings: Settings): Breaker {
    if b.openedAt.Some? && Admits(b, now, settings) then CLOSED else b
  }

  function AfterFailure(b: Breaker, now: real, settings: Settings): Breaker {
    var n := b.failures + 1;
    Breaker(n, if n >= settings.threshold then Some(now) else b.openedAt)
  }

  /** The module-level breaker and the three functions that touch it under the lock. */
  class CircuitState {
    var failures: nat
    var openedAt: Option<real>

    function View(): Breaker
      reads this
    {
      Breaker(failures, openedAt)
    }

    constructor ()
      ensures View() == CLOSED
    {
      failures, openedAt := 0, None;
    }

    method AssertAvailable(now: real, settings: Settings) returns (available: bool)
      modifies this
      ensures available == Admits(old(View()), now, settings)
      ensures View() == AfterCheck(old(View()), now, settings)
    {
      if openedAt.None? {
        return true;
      }
      if now - openedAt.value >= settings.resetSeconds {
        failures := 0;
        openedAt := None;
        return true;
      }
      return false;
    }

    method RecordSuccess()
      modifies this
      ensures View() == CLOSED
    {
      failures := 0;
      openedAt := None;
    }

    method RecordFailure(now: real, settings: Settings)
      modifies this
      ensures View() == AfterFailure(old(View()), now, settings)
    {
      failures := failures + 1;
      if failures >= settings.threshold {
        openedAt := Some(now);
      }
    }
  }

  // --------------------------------------------------------------- histories

  /** What happened, in the order in which the lock was taken. */
  datatype Entry = Allowed(now: real) | Denied(now: real) | Succeeded | Failed(now: real)

  function After(b: Breaker, e: Entry, settings: Settings): Breaker {
    match e
    case Allowed(now) => AfterCheck(b, now, settings)
    case Denied(now) => AfterCheck(b, now, settings)
    case Succeeded => CLOSED
    case Failed(now) => AfterFailure(b, now, settings)
  }

  /** The breaker after some entries. */
  function ReplayFrom(b: Breaker, entries: seq<Entry>, settings: Settings): Breaker {
    if entries == [] then b
    else After(ReplayFrom(b, entries[..|entries| - 1], settings), entries[|entries| - 1], settings)
  }

  /** The breaker after a history, which starts with a closed circuit. */
  function Replay(history: seq<Entry>, settings: Settings): Breaker {
    ReplayFrom(CLOSED, history, settings)
  }

  /** Every check was answered as the breaker then answered it. */
  predicate Faithful(history: seq<Entry>, settings: Settings) {
    forall i {:trigger AnsweredRightly(history, i, settings)} :: 0 <= i < |history| ==>
      AnsweredRightly(history, i, settings)
  }

  predicate AnsweredRightly(history: seq<Entry>, i: nat, settings: Settings)
    requires i < |history|
  {
    var b := Replay(history[..i], settings);
    match history[i]
    case Allowed(now) => Admits(b, now, settings)
    case Denied(now) => !Admits(b, now, settings)
    case _ => true
  }

  /** The clock never runs backwards. */
  predicate ClockRuns(history: seq<Entry>) {
    forall i, j :: 0 <= i < j < |history| && !history[i].Succeeded? && !history[j].Succeeded? ==>
      history[i].now <= history[j].now
  }

  // ---------------------------------------------- what the breaker stands for

  /**
   The failures since the count last started again: at a success, or at a call
   that was allowed although the count had reached the threshold.
   */
  function FailuresSinceReset(history: seq<Entry>, settings: Settings): nat {
    if history == [] then 0
    else
      var n := FailuresSinceReset(history[..|history| - 1], settings);
      match history[|history| - 1]
      case Succeeded => 0
      case Failed(_) => n + 1
      case Denied(_) => n
      case Allowed(_) => if n >= settings.threshold then 0 else n
  }

  /** The time of the latest failure of all. */
  function LatestFailure(history: seq<Entry>): Option<real> {
    if history == [] then None
    else if history[|history| - 1].Failed? then Some(history[|history| - 1].now)
    else LatestFailure(history[..|history| - 1])
  }

  predicate TimeToReset(history: seq<Entry>, now: real, settings: Settings) {
    LatestFailure(history).Some? && now - LatestFailure(history).value >= settings.resetSeconds
  }

  lemma FaithfulPrefix(history: seq<Entry>, n: nat, settings: Settings)
    requires Faithful(history, settings) && n <= |history|
    ensures Faithful(history[..n], settings)
  {
    forall i | 0 <= i < n ensures AnsweredRightly(history[..n], i, settings) {
      assert AnsweredRightly(history, i, settings);
      assert history[..n][..i] == history[..i];
    }
  }

  /**
   After any history the stored count is the number of failures since the last
   reset; the circuit is open exactly when that reaches the threshold, and the
   stored time is then that of the latest failure.
   */
  lemma {:induction false} BreakerMeaning(history: seq<Entry>, settings: Settings)
    requires settings.threshold >= 1 && Faithful(history, settings)
    ensures var b := Replay(history, settings);
            && b.failures == FailuresSinceReset(history, settings)
            && (b.failures > 0 ==> LatestFailure(history).Some?)
            && b.openedAt == (if b.failures >= settings.threshold then LatestFailure(history) else None)
  {
    if history != [] {
      var n := |history| - 1;
      FaithfulPrefix(history, n, settings);
      BreakerMeaning(history[..n], settings);
      assert AnsweredRightly(history, n, settings);
    }
  }

  /** A call is refused exactly when the failures since the last reset have opened the circuit and it is too early. */
  lemma RefusedIff(history: seq<Entry>, now: real, settings: Settings)
    requires settings.threshold >= 1 && Faithful(history, settings)
    ensures !Admits(Replay(history, settings), now, settings)
            <==> FailuresSinceReset(history, settings) >= settings.threshold && !TimeToReset(history, now, settings)
  {
    BreakerMeaning(history, settings);
  }

  // ------------------------------------------------------------------ safety

  /** What can end an open period: a success, or a call allowed after waiting since every earlier failure. */
  predicate EndsOpening(history: seq<Entry>, k: nat, settings: Settings)
    requires k < |history|
  {
    history[k].Succeeded?
    || (history[k].Allowed? && forall m :: 0 <= m < k && history[m].Failed? ==>
          history[k].now - history[m].now >= settings.resetSeconds)
  }

  predicate Open(history: seq<Entry>, settings: Settings) {
    FailuresSinceReset(history, settings) >= settings.threshold
  }

  lemma LatestIsLast(history: seq<Entry>, m: nat)
    requires ClockRuns(history) && m < |history| && history[m].Failed?
    ensures LatestFailure(history).Some? && history[m].now <= LatestFailure(history).value
    decreases |history|
  {
    var n := |history| - 1;
    if m < n && !history[n].Failed? {
      assert ClockRuns(history[..n]) by {
        forall i, j | 0 <= i < j < n && !history[..n][i].Succeeded? && !history[..n][j].Succeeded?
          ensures history[..n][i].now <= history[..n][j].now
        {
          assert history[i].now <= history[j].now;
        }
      }
      LatestIsLast(history[..n], m);
    }
  }

  /** A call allowed while the circuit is open comes a full reset time after every failure before it. */
  lemma AllowedWhileOpenWaited(history: seq<Entry>, k: nat, settings: Settings)
    requires settings.threshold >= 1 && Faithful(history, settings) && ClockRuns(history)
    requires k < |history| && Open(history[..k], settings) && history[k].Allowed?
    ensures EndsOpening(history, k, settings)
  {
    var before := history[..k];
    FaithfulPrefix(history, k, settings);
    BreakerMeaning(before, settings);
    assert AnsweredRightly(history, k, settings);
    forall m | 0 <= m < k && history[m].Failed? ensures history[k].now - history[m].now >= settings.resetSeconds {
      assert ClockRuns(before) by {
        forall i, j | 0 <= i < j < k && !before[i].Succeeded? && !before[j].Succeeded?
          ensures before[i].now <= before[j].now
        {
          assert history[i].now <= history[j].now;
        }
      }
      assert before[m] == history[m];
      LatestIsLast(before, m);
    }
  }

  /**
   Once the circuit has opened, no call is allowed until either some call
   succeeds or the reset time has passed since every failure up to then.
   */
  lemma {:induction false} NoCallWhileOpen(history: seq<Entry>, i: nat, j: nat, settings: Settings) returns (k: nat)
    requires settings.threshold >= 1 && Faithful(history, settings) && ClockRuns(history)
    requires i <= j < |history| && Open(history[..i], settings) && history[j].Allowed?
    ensures i <= k <= j && EndsOpening(history, k, settings)
    ensures forall m :: i <= m < k ==> history[m].Denied? || history[m].Failed?
    decreases j - i
  {
    k := i;
    if history[i].Allowed? {
      AllowedWhileOpenWaited(history, i, settings);
    } else if !history[i].Succeeded? {
      assert history[..i + 1][..i] == history[..i];
      k := NoCallWhileOpen(history, i + 1, j, settings);
    }
  }

  // -------------------------------------------------------------- retry loop

  /** How one attempt at the provider goes. */
  datatype Attempt = Answered | InvalidOutput | ProviderFault(retryable: bool)

  datatype CallResult = Completed | Raised | Unavailable

  /** An attempt after which the call ends. */
  predicate Ends(attempt: Attempt) {
    attempt.Answered? || (attempt.ProviderFault? && !attempt.retryable)
  }

  /** The attempts a call makes, out of those that would happen: up to the first that ends it. */
  function Made(attempts: seq<Attempt>): (n: nat)
    ensures n <= |attempts|
    ensures forall i :: 0 <= i < n - 1 ==> !Ends(attempts[i])
  {
    if attempts == [] then 0
    else if Ends(attempts[0]) then 1
    else 1 + Made(attempts[1..])
  }

  /** What a call's attempts add to the history. */
  function CallEntries(attempts: seq<Attempt>, times: seq<real>): seq<Entry>
    requires |times| == |attempts|
  {
    seq(|attempts|, i requires 0 <= i < |attempts| => if attempts[i].Answered? then Succeeded else Failed(times[i]))
  }

  /** What a call adds to the history: a refusal, or its admission and the attempts it makes. */
  function Contribution(b: Breaker, started: real, attempts: seq<Attempt>, times: seq<real>, settings: Settings)
    : seq<Entry>
    requires |times| == |attempts|
  {
    if !Admits(b, started, settings) then [Denied(started)]
    else [Allowed(started)] + CallEntries(attempts[..Made(attempts)], times[..Made(attempts)])
  }

  lemma {:induction false} MadeStops(attempts: seq<Attempt>, i: nat)
    requires i < |attempts|
    requires forall k :: 0 <= k < i ==> !Ends(attempts[k])
    ensures Made(attempts) > i
    ensures Ends(attempts[i]) || i == |attempts| - 1 ==> Made(attempts) == i + 1
  {
    if i > 0 {
      MadeStops(attempts[1..], i - 1);
    }
  }

  lemma {:induction false} ReplayAppend(b: Breaker, x: seq<Entry>, y: seq<Entry>, settings: Settings)
    ensures ReplayFrom(b, x + y, settings) == ReplayFrom(ReplayFrom(b, x, settings), y, settings)
    decreases |y|
  {
    if y == [] {
      assert x + y == x;
    } else {
      var front := y[..|y| - 1];
      ReplayAppend(b, x, front, settings);
      assert (x + y)[..|x + y| - 1] == x + front;
    }
  }

  /** The attempts that are retried, the one that is not, and that there is one. */
  lemma {:induction false} MadeMeaning(attempts: seq<Attempt>)
    ensures var made := Made(attempts);
            && (attempts != [] ==> made > 0)
            && (forall i :: 0 <= i < made - 1 ==>
                  attempts[i] == InvalidOutput || attempts[i] == ProviderFault(true))
            && (made > 0 ==>
                  attempts[made - 1] == Answered || attempts[made - 1] == ProviderFault(false) || made == |attempts|)
  {
    if attempts != [] && !Ends(attempts[0]) {
      MadeMeaning(attempts[1..]);
      var made := Made(attempts);
      forall i | 0 <= i < made - 1 ensures attempts[i] == InvalidOutput || attempts[i] == ProviderFault(true) {
        if i > 0 {
          assert attempts[i] == attempts[1..][i - 1];
        }
      }
      if made > 1 {
        assert attempts[made - 1] == attempts[1..][made - 2];
      }
    }
  }

  /**
   One call: a check, then up to `maxAttempts` attempts, each recorded.
   `attempts` and `times` say how each attempt would go and when it would end.
   An invalid output and a retryable fault are tried again; an answer closes the
   circuit, and failures count up from where the check left the count.
   */
  method StructuredReasoning(circuit: CircuitState, started: real, attempts: seq<Attempt>, times: seq<real>,
                             settings: Settings)
    returns (result: CallResult, made: nat)
    requires |attempts| == |times| == settings.maxAttempts
    modifies circuit
    ensures result == Unavailable <==>
              old(circuit.openedAt).Some? && started - old(circuit.openedAt).value < settings.resetSeconds
    ensures result == Unavailable ==>
              made == 0 && circuit.failures == old(circuit.failures) && circuit.openedAt == old(circuit.openedAt)
    ensures made <= settings.maxAttempts && (result != Unavailable && settings.maxAttempts > 0 ==> made > 0)
    ensures forall i :: 0 <= i < made - 1 ==> attempts[i] == InvalidOutput || attempts[i] == ProviderFault(true)
    ensures made > 0 ==>
              || attempts[made - 1] == Answered || attempts[made - 1] == ProviderFault(false)
              || made == settings.maxAttempts
    ensures result == Completed <==> made > 0 && attempts[made - 1] == Answered
    ensures result == Completed ==> circuit.failures == 0 && circuit.openedAt == None
    ensures result == Raised ==>
              && circuit.failures == (if old(circuit.openedAt).Some? then 0 else old(circuit.failures)) + made
              && circuit.openedAt
                 == (if made > 0 && circuit.failures >= settings.threshold then Some(times[made - 1]) else None)
    ensures circuit.View() == ReplayFrom(old(circuit.View()),
                                         Contribution(old(circuit.View()), started, attempts, times, settings),
                                         settings)
  {
    hide ReplayFrom, CallEntries, Made;
    ghost var before := circuit.View();
    var available := circuit.AssertAvailable(started, settings);
    ghost var checked := circuit.View();
    if !available {
      OneEntry(before, Denied(started), settings);
      return Unavailable, 0;
    }
    OneEntry(before, Allowed(started), settings);
    NoEntries(checked, settings);
    ghost var base := circuit.failures;
    var i := 0;
    while i < settings.maxAttempts
      invariant 0 <= i <= settings.maxAttempts
      invariant forall k :: 0 <= k < i ==> !Ends(attempts[k])
      invariant circuit.View() == ReplayFrom(checked, CallEntries(attempts[..i], times[..i]), settings)
      invariant i > 0 ==> i < settings.maxAttempts
      invariant circuit.failures == base + i
      invariant circuit.openedAt
                == (if i > 0 && circuit.failures >= settings.threshold then Some(times[i - 1]) else None)
    {
      MadeStops(attempts, i);
      NextAttempt(checked, attempts, times, i, settings);
      ReplayAppend(before, [Allowed(started)], CallEntries(attempts[..i + 1], times[..i + 1]), settings);
      if attempts[i].Answered? {
        circuit.RecordSuccess();
        return Completed, i + 1;
      }
      circuit.RecordFailure(times[i], settings);
      if (attempts[i].ProviderFault? && !attempts[i].retryable) || i + 1 >= settings.maxAttempts {
        return Raised, i + 1;
      }
      i := i + 1;
    }
    assert attempts == [];
    ReplayAppend(before, [Allowed(started)], CallEntries([], []), settings);
    NoneMade();
    return Raised, 0;
  }

  lemma NextAttempt(b: Breaker, attempts: seq<Attempt>, times: seq<real>, i: nat, settings: Settings)
    requires |attempts| == |times| && i < |attempts|
    ensures var soFar := ReplayFrom(b, CallEntries(attempts[..i], times[..i]), settings);
            ReplayFrom(b, CallEntries(attempts[..i + 1], times[..i + 1]), settings)
            == After(soFar, if attempts[i].Answered? then Succeeded else Failed(times[i]), settings)
  {
    var entries := CallEntries(attempts[..i + 1], times[..i + 1]);
    assert entries[..i] == CallEntries(attempts[..i], times[..i]);
  }

  lemma NoEntries(b: Breaker, settings: Settings)
    ensures ReplayFrom(b, CallEntries([], []), settings) == b
  {
  }

  lemma NoneMade()
    ensures Made([]) == 0
  {
  }

  lemma OneEntry(b: Breaker, e: Entry, settings: Settings)
    ensures ReplayFrom(b, [e], settings) == After(b, e, settings)
  {
    assert [e][..0] == [];
  }

  /** A call that runs on its own carries on any faithful history with a faithful one. */
  lemma CallExtendsHistory(history: seq<Entry>, started: real, attempts: seq<Attempt>, times: seq<real>,
                           settings: Settings)
    requires |times| == |attempts| && Faithful(history, settings)
    ensures var added := Contribution(Replay(history, settings), started, attempts, times, settings);
            && Faithful(history + added, settings)
            && Replay(history + added, settings) == ReplayFrom(Replay(history, settings), added, settings)
  {
    var added := Contribution(Replay(history, settings), started, attempts, times, settings);
    var all, n := history + added, |history|;
    ReplayAppend(CLOSED, history, added, settings);
    forall i | 0 <= i < |all| ensures AnsweredRightly(all, i, settings) {
      if i < n {
        assert all[..i] == history[..i];
        assert AnsweredRightly(history, i, settings);
      } else {
        assert all[..n] == history && all[i] == added[i - n];
      }
    }
  }

  // ------------------------------------------------------- interleaved calls

  /** An entry and the call it belongs to. */
  datatype Step = Step(call: nat, entry: Entry)

  function Entries(steps: seq<Step>): seq<Entry> {
    seq(|steps|, i requires 0 <= i < |steps| => steps[i].entry)
  }

  /** The entries of one call, in order. */
  function ByCall(steps: seq<Step>, call: nat): seq<Entry> {
    if steps == [] then []
    else ByCall(steps[..|steps| - 1], call)
         + (if steps[|steps| - 1].call == call then [steps[|steps| - 1].entry] else [])
  }

  /** What a call may have added so far. */
  predicate CallSoFar(entries: seq<Entry>, settings: Settings) {
    entries != [] ==>
      if entries[0].Denied? then |entries| == 1
      else
        && entries[0].Allowed?
        && |entries| <= 1 + settings.maxAttempts
        && forall i :: 0 < i < |entries| ==> entries[i].Failed? || (entries[i].Succeeded? && i == |entries| - 1)
  }

  ghost predicate Interleaved(steps: seq<Step>, settings: Settings) {
    forall call :: CallSoFar(ByCall(steps, call), settings)
  }

  /** Every call, stopped anywhere, has added what a call may add. */
  lemma ContributionIsCall(b: Breaker, started: real, attempts: seq<Attempt>, times: seq<real>, settings: Settings,
                           n: nat)
    requires |attempts| == |times| == settings.maxAttempts
    requires n <= |Contribution(b, started, attempts, times, settings)|
    ensures CallSoFar(Contribution(b, started, attempts, times, settings)[..n], settings)
  {
  }

  lemma {:induction false} ByCallPrefix(steps: seq<Step>, k: nat, call: nat)
    requires k <= |steps|
    ensures ByCall(steps[..k], call) <= ByCall(steps, call)
  {
    if k < |steps| {
      var n := |steps| - 1;
      ByCallPrefix(steps[..n], k, call);
      assert steps[..n][..k] == steps[..k];
    } else {
      assert steps[..k] == steps;
    }
  }

  lemma CallPrefix(entries: seq<Entry>, start: seq<Entry>, settings: Settings)
    requires CallSoFar(entries, settings) && start <= entries
    ensures CallSoFar(start, settings)
  {
  }

  /** A call that was admitted before step `i` and may still make attempts. */
  predicate InFlight(steps: seq<Step>, i: nat, call: nat, settings: Settings)
    requires i <= |steps|
  {
    var entries := ByCall(steps[..i], call);
    && entries != [] && entries[0].Allowed? && !entries[|entries| - 1].Succeeded?
    && |entries| <= settings.maxAttempts
  }

  /** No step from `i` up to `j` ends the open period. */
  ghost predicate StaysOpen(steps: seq<Step>, i: nat, j: nat, settings: Settings)
    requires i <= j <= |steps|
  {
    && Open(Entries(steps)[..i], settings)
    && forall k {:trigger EndsOpening(Entries(steps), k, settings)} :: i <= k < j ==>
         !EndsOpening(Entries(steps), k, settings)
  }

  /** While the circuit stays open, every step is a refusal or a failure. */
  lemma OnlyRefusalsAndFailures(steps: seq<Step>, i: nat, j: nat, k: nat, settings: Settings)
    requires settings.threshold >= 1 && Faithful(Entries(steps), settings) && ClockRuns(Entries(steps))
    requires i <= k < j <= |steps| && StaysOpen(steps, i, j, settings)
    ensures steps[k].entry.Denied? || steps[k].entry.Failed?
  {
    hide Faithful, ClockRuns, Open;
    var history := Entries(steps);
    assert history[k] == steps[k].entry && !EndsOpening(history, k, settings);
    if history[k].Allowed? {
      var m := NoCallWhileOpen(history, i, k, settings);
      assert false;
    }
  }

  /** What a call added between two steps. */
  lemma {:induction false} ByCallBetween(steps: seq<Step>, i: nat, k: nat, call: nat)
    requires i <= k <= |steps|
    ensures ByCall(steps[..i], call) <= ByCall(steps[..k], call)
    ensures (forall m :: i <= m < k ==> !steps[m].entry.Allowed?) ==>
              forall m :: |ByCall(steps[..i], call)| <= m < |ByCall(steps[..k], call)| ==>
                !ByCall(steps[..k], call)[m].Allowed?
  {
    if i < k {
      ByCallBetween(steps, i, k - 1, call);
      assert steps[..k][..k - 1] == steps[..k - 1];
    }
  }

  /** A failure while the circuit stays open belongs to a call that was in flight when it opened. */
  lemma FailureWasInFlight(steps: seq<Step>, i: nat, j: nat, k: nat, settings: Settings)
    requires settings.threshold >= 1 && Faithful(Entries(steps), settings) && ClockRuns(Entries(steps))
    requires Interleaved(steps, settings)
    requires i <= k < j <= |steps| && StaysOpen(steps, i, j, settings) && steps[k].entry.Failed?
    ensures InFlight(steps, i, steps[k].call, settings)
  {
    var call := steps[k].call;
    forall m | i <= m < k ensures !steps[m].entry.Allowed? {
      OnlyRefusalsAndFailures(steps, i, j, m, settings);
    }
    ByCallBetween(steps, i, k, call);
    var now := ByCall(steps[..k + 1], call);
    assert steps[..k + 1][..k] == steps[..k];
    ByCallPrefix(steps, k + 1, call);
    assert CallSoFar(ByCall(steps, call), settings);
    CallPrefix(ByCall(steps, call), now, settings);
    assert now == ByCall(steps[..k], call) + [steps[k].entry];
    var was := ByCall(steps[..i], call);
    assert was != [] && was[|was| - 1] == now[|was| - 1];
  }

  /** How many failures of these calls there are from step `i` up to `j`. */
  function Failures(steps: seq<Step>, i: nat, j: nat, calls: set<nat>): nat
    requires i <= j <= |steps|
  {
    if i == j then 0
    else
      Failures(steps, i, j - 1, calls)
      + (if steps[j - 1].entry.Failed? && steps[j - 1].call in calls then 1 else 0)
  }

  lemma {:induction false} FailuresOfOne(steps: seq<Step>, i: nat, j: nat, call: nat)
    requires i <= j <= |steps|
    ensures |ByCall(steps[..i], call)| + Failures(steps, i, j, {call}) <= |ByCall(steps[..j], call)|
  {
    if i < j {
      FailuresOfOne(steps, i, j - 1, call);
      assert steps[..j][..j - 1] == steps[..j - 1];
    }
  }

  lemma {:induction false} FailuresSplit(steps: seq<Step>, i: nat, j: nat, calls: set<nat>, call: nat)
    requires i <= j <= |steps| && call in calls
    ensures Failures(steps, i, j, calls) == Failures(steps, i, j, calls - {call}) + Failures(steps, i, j, {call})
  {
    if i < j {
      FailuresSplit(steps, i, j - 1, calls, call);
    }
  }

  lemma {:induction false} FailuresOfCalls(steps: seq<Step>, i: nat, j: nat, calls: set<nat>, settings: Settings)
    requires i <= j <= |steps| && Interleaved(steps, settings)
    requires forall call :: call in calls ==> InFlight(steps, i, call, settings)
    ensures Failures(steps, i, j, calls) <= |calls| * settings.maxAttempts
    decreases |calls|
  {
    if calls == {} {
      NoCallsNoFailures(steps, i, j);
    } else {
      var call :| call in calls;
      FailuresSplit(steps, i, j, calls, call);
      FailuresOfCalls(steps, i, j, calls - {call}, settings);
      FailuresOfOne(steps, i, j, call);
      ByCallPrefix(steps, j, call);
      assert InFlight(steps, i, call, settings) && CallSoFar(ByCall(steps, call), settings);
      CallPrefix(ByCall(steps, call), ByCall(steps[..j], call), settings);
      ByCallBetween(steps, i, j, call);
      OneMore(|calls|, settings.maxAttempts);
    }
  }

  lemma OneMore(n: nat, x: nat)
    requires n > 0
    ensures n * x == (n - 1) * x + x
  {
  }

  lemma {:induction false} NoCallsNoFailures(steps: seq<Step>, i: nat, j: nat)
    requires i <= j <= |steps|
    ensures Failures(steps, i, j, {}) == 0
  {
    if i < j {
      NoCallsNoFailures(steps, i, j - 1);
    }
  }

  /** The calls that were in flight when the circuit opened. */
  function CallsInFlight(steps: seq<Step>, i: nat, settings: Settings): set<nat>
    requires i <= |steps|
  {
    set m | 0 <= m < i && InFlight(steps, i, steps[m].call, settings) :: steps[m].call
  }

  lemma {:induction false} InFlightIsCall(steps: seq<Step>, i: nat, call: nat)
    requires i <= |steps| && ByCall(steps[..i], call) != []
    ensures exists m :: 0 <= m < i && steps[m].call == call
  {
    if steps[i - 1].call != call {
      assert steps[..i][..i - 1] == steps[..i - 1];
      InFlightIsCall(steps, i - 1, call);
    }
  }

  lemma {:induction false} AllFailures(steps: seq<Step>, i: nat, j: nat, k: nat, calls: set<nat>)
    requires i <= k <= j <= |steps|
    requires forall m :: i <= m < j && steps[m].entry.Failed? ==> steps[m].call in calls
    ensures Failures(steps, i, k, calls) == FailuresBetween(steps, i, k)
  {
    if i < k {
      AllFailures(steps, i, j, k - 1, calls);
    }
  }

  /** How many failures of whatever call there are from step `i` up to `j`. */
  function FailuresBetween(steps: seq<Step>, i: nat, j: nat): nat
    requires i <= j <= |steps|
  {
    if i == j then 0
    else FailuresBetween(steps, i, j - 1) + (if steps[j - 1].entry.Failed? then 1 else 0)
  }

  /**
   However calls interleave: while the circuit stays open, no call starts, and
   the provider sees at most `maxAttempts` failing attempts for each call that
   was in flight when the circuit opened.
   */
  lemma OpenCircuitSheds(steps: seq<Step>, i: nat, j: nat, settings: Settings)
    requires settings.threshold >= 1 && Faithful(Entries(steps), settings) && ClockRuns(Entries(steps))
    requires Interleaved(steps, settings)
    requires i <= j <= |steps| && StaysOpen(steps, i, j, settings)
    ensures forall k :: i <= k < j ==> steps[k].entry.Denied? || steps[k].entry.Failed?
    ensures FailuresBetween(steps, i, j) <= |CallsInFlight(steps, i, settings)| * settings.maxAttempts
  {
    hide Faithful, ClockRuns, Interleaved, StaysOpen, InFlight;
    var calls := CallsInFlight(steps, i, settings);
    forall k | i <= k < j
      ensures steps[k].entry.Denied? || steps[k].entry.Failed?
      ensures steps[k].entry.Failed? ==> steps[k].call in calls
    {
      OnlyRefusalsAndFailures(steps, i, j, k, settings);
      if steps[k].entry.Failed? {
        FailureWasInFlight(steps, i, j, k, settings);
        InFlightCalls(steps, i, steps[k].call, settings);
      }
    }
    FailuresOfCalls(steps, i, j, calls, settings);
    AllFailures(steps, i, j, j, calls);
  }

  lemma InFlightCalls(steps: seq<Step>, i: nat, call: nat, settings: Settings)
    requires i <= |steps| && InFlight(steps, i, call, settings)
    ensures call in CallsInFlight(steps, i, settings)
  {
    InFlightIsCall(steps, i, call);
  }
}
