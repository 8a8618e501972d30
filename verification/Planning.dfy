/**
 The checks on an investigation plan and its parallel schedule
 (services/api/app/agents/planning.py).

 A plan selects capabilities; each capability names others it depends on. The
 scheduler layers the selection into groups that may run in parallel. The
 results below say that the layering is the best one there is, that the loop
 fails exactly when the selection depends on itself in a circle, and that no
 accepted plan for the shipped catalogue ever reaches that failure.
 */
module Planning {
  import opened Common

  /** The observable facts that prerequisites name. */
  datatype Fact =
    | DocumentsReady | LegalNameAvailable | BankAccountAvailable | RegisteredCountryAvailable
    | PoReferenceAvailable | VendorIdentityAvailable | InvoiceNumberAvailable

  /** Capability ids; a planner may also answer with an id nobody knows. */
  datatype CapabilityId =
    | DocumentIntelligence | DuplicateDetection | SanctionsScreening | PolicyRetrieval
    | BankConsistency | DocumentCompleteness | SupplierControls | InjectionScan | RiskScreening
    | PoRetrieval | GrnRetrieval | VendorResolution | DuplicateInvoice | ThreeWayMatch
    | Other(name: string)

  datatype CapabilitySpec = CapabilitySpec(
    id: CapabilityId,
    kind: WorkflowKind,
    prerequisites: seq<Fact>,
    dependencies: seq<CapabilityId>,
    mandatory: bool)

  datatype PlanError = LLM_OUTPUT_INVALID

  type Specs = map<CapabilityId, CapabilitySpec>

  // ---------------------------------------------------------------- layering

  /** Every selected capability has a specification. */
  ghost predicate Known(selected: set<CapabilityId>, specs: Specs) {
    forall c :: c in selected ==> c in specs
  }

  /** The selected capabilities that `c` waits for. */
  function Below(c: CapabilityId, selected: set<CapabilityId>, specs: Specs): set<CapabilityId>
    requires c in specs
  {
    set d | d in specs[c].dependencies && d in selected
  }

  /** What can be finished within `k` rounds. */
  ghost function Done(selected: set<CapabilityId>, specs: Specs, k: nat): (done: set<CapabilityId>)
    requires Known(selected, specs)
    ensures done <= selected
  {
    if k == 0 then {} else Ready(selected, specs, Done(selected, specs, k - 1))
  }

  /** What waits for nothing outside `done`. */
  ghost function Ready(selected: set<CapabilityId>, specs: Specs, done: set<CapabilityId>): set<CapabilityId>
    requires Known(selected, specs)
  {
    set c | c in selected && Below(c, selected, specs) <= done
  }

  /** The capabilities that need round `k`, counting from 0, and no later one. */
  ghost function Layer(selected: set<CapabilityId>, specs: Specs, k: nat): set<CapabilityId>
    requires Known(selected, specs)
  {
    Done(selected, specs, k + 1) - Done(selected, specs, k)
  }

  /** `groups` lists the first layers in order, each in the planner's own order and none empty. */
  ghost predicate StartsLayering(selected: seq<CapabilityId>, specs: Specs, groups: seq<seq<CapabilityId>>)
    requires Known(Elements(selected), specs)
  {
    forall k :: 0 <= k < |groups| ==> IsGroup(selected, specs, groups[k], k)
  }

  ghost predicate IsGroup(selected: seq<CapabilityId>, specs: Specs, group: seq<CapabilityId>, k: nat)
    requires Known(Elements(selected), specs)
  {
    |group| > 0 && group == Keep(selected, Layer(Elements(selected), specs, k))
  }

  /** `groups` lists all the layers in order. */
  ghost predicate IsLayering(selected: seq<CapabilityId>, specs: Specs, groups: seq<seq<CapabilityId>>)
    requires Known(Elements(selected), specs)
  {
    && StartsLayering(selected, specs, groups)
    && Done(Elements(selected), specs, |groups|) == Elements(selected)
  }

  ghost predicate DependsOnNext(p: seq<CapabilityId>, i: nat, specs: Specs)
    requires i + 1 < |p|
  {
    p[i] in specs && p[i + 1] in specs[p[i]].dependencies
  }

  /** A chain of selected capabilities, each depending on the next. */
  ghost predicate Chain(p: seq<CapabilityId>, selected: set<CapabilityId>, specs: Specs)
    requires Known(selected, specs)
  {
    && |p| > 0
    && (forall c :: c in p ==> c in selected)
    && (forall i {:trigger DependsOnNext(p, i, specs)} :: 0 <= i < |p| - 1 ==> DependsOnNext(p, i, specs))
  }

  /** Some selected capability depends, through selected ones, on itself. */
  ghost predicate HasCycle(selected: set<CapabilityId>, specs: Specs)
    requires Known(selected, specs)
  {
    exists p :: Chain(p, selected, specs) && |p| > 1 && p[0] == p[|p| - 1]
  }

  lemma {:induction false} DoneGrows(selected: set<CapabilityId>, specs: Specs, j: nat, k: nat)
    requires Known(selected, specs) && j <= k
    ensures Done(selected, specs, j) <= Done(selected, specs, k)
  {
    if 0 < j {
      DoneGrows(selected, specs, j - 1, k - 1);
    }
  }

  /** Whatever is finished within `k` rounds starts no chain longer than `k`. */
  lemma {:induction false} ChainBound(p: seq<CapabilityId>, selected: set<CapabilityId>, specs: Specs, k: nat)
    requires Known(selected, specs) && Chain(p, selected, specs)
    requires p[0] in Done(selected, specs, k)
    ensures |p| <= k
  {
    if |p| > 1 {
      assert DependsOnNext(p, 0, specs) && p[1] in Below(p[0], selected, specs);
      SubChain(p, selected, specs, 1, |p|);
      assert p[1..|p|] == p[1..];
      ChainBound(p[1..], selected, specs, k - 1);
    }
  }

  /** What is not finished waits for something not finished a round earlier. */
  lemma Blocker(c: CapabilityId, selected: set<CapabilityId>, specs: Specs, k: nat) returns (d: CapabilityId)
    requires Known(selected, specs) && c in selected
    requires k > 0 && c !in Done(selected, specs, k)
    ensures d in Below(c, selected, specs) && d !in Done(selected, specs, k - 1)
  {
    d :| d in Below(c, selected, specs) && d !in Done(selected, specs, k - 1);
  }

  lemma ExtendChain(c: CapabilityId, q: seq<CapabilityId>, selected: set<CapabilityId>, specs: Specs)
    requires Known(selected, specs) && c in selected && Chain(q, selected, specs)
    requires q[0] in specs[c].dependencies
    ensures Chain([c] + q, selected, specs)
  {
    var p := [c] + q;
    forall i | 0 <= i < |p| - 1 ensures DependsOnNext(p, i, specs) {
      if i > 0 {
        assert DependsOnNext(q, i - 1, specs);
      }
    }
  }

  /** Whatever is not finished within `k` rounds starts a chain of `k + 1`. */
  lemma {:induction false} LongChain(c: CapabilityId, selected: set<CapabilityId>, specs: Specs, k: nat)
    returns (p: seq<CapabilityId>)
    requires Known(selected, specs) && c in selected
    requires c !in Done(selected, specs, k)
    ensures Chain(p, selected, specs) && p[0] == c && |p| == k + 1
    decreases k
  {
    if k == 0 {
      p := [c];
    } else {
      var d := Blocker(c, selected, specs, k);
      var q := LongChain(d, selected, specs, k - 1);
      ExtendChain(c, q, selected, specs);
      p := [c] + q;
    }
  }

  /**
   The group a capability is put in is the length of the longest chain of
   selected dependencies below it: one chain is that long and none is longer.
   */
  lemma GroupIndexIsLongestChain(selected: seq<CapabilityId>, specs: Specs, groups: seq<seq<CapabilityId>>,
                                 k: nat, c: CapabilityId)
    requires Known(Elements(selected), specs) && IsLayering(selected, specs, groups)
    requires k < |groups| && c in groups[k]
    ensures exists p :: Chain(p, Elements(selected), specs) && p[0] == c && |p| == k + 1
    ensures forall p :: Chain(p, Elements(selected), specs) && p[0] == c ==> |p| <= k + 1
  {
    var p := LongChain(c, Elements(selected), specs, k);
    forall q | Chain(q, Elements(selected), specs) && q[0] == c ensures |q| <= k + 1 {
      ChainBound(q, Elements(selected), specs, k + 1);
    }
  }

  /** Groups that filter for disjoint sets hold what the union of those sets would. */
  lemma {:induction false} GroupsCollect(selected: seq<CapabilityId>, groups: seq<seq<CapabilityId>>,
                                         done: seq<set<CapabilityId>>)
    requires |done| == |groups| + 1 && done[0] == {}
    requires forall k :: 0 <= k < |groups| ==> done[k] <= done[k + 1]
    requires forall k :: 0 <= k < |groups| ==> groups[k] == Keep(selected, done[k + 1] - done[k])
    ensures multiset(Flatten(groups)) == multiset(Keep(selected, done[|groups|]))
  {
    var n := |groups|;
    if n == 0 {
      KeepNone(selected, {});
    } else {
      var front := groups[..n - 1];
      GroupsCollect(selected, front, done[..n]);
      assert groups == front + [groups[n - 1]];
      FlattenAppend(front, [groups[n - 1]]);
      FlattenSingle(groups[n - 1]);
      KeepDisjointUnion(selected, done[n - 1], done[n] - done[n - 1]);
      assert done[n - 1] + (done[n] - done[n - 1]) == done[n];
    }
  }

  /** The groups hold every selected capability as often as it was selected, and nothing else. */
  lemma GroupsPartitionSelection(selected: seq<CapabilityId>, specs: Specs, groups: seq<seq<CapabilityId>>)
    requires Known(Elements(selected), specs) && IsLayering(selected, specs, groups)
    ensures multiset(Flatten(groups)) == multiset(selected)
  {
    var all := Elements(selected);
    var done := seq(|groups| + 1, k requires 0 <= k => Done(all, specs, k));
    forall k | 0 <= k < |groups| ensures done[k] <= done[k + 1] {
      DoneGrows(all, specs, k, k + 1);
    }
    GroupsCollect(selected, groups, done);
    KeepAll(selected, all);
  }

  /** A capability's group says in which rounds it is finished. */
  lemma InGroup(selected: seq<CapabilityId>, specs: Specs, groups: seq<seq<CapabilityId>>, k: nat, c: CapabilityId)
    requires Known(Elements(selected), specs) && IsLayering(selected, specs, groups) && k < |groups|
    ensures c in groups[k] <==> c in selected && c in Layer(Elements(selected), specs, k)
  {
    assert groups[k] == Keep(selected, Layer(Elements(selected), specs, k));
  }

  /** No capability is in two groups. */
  lemma GroupsDisjoint(selected: seq<CapabilityId>, specs: Specs, groups: seq<seq<CapabilityId>>,
                       j: nat, k: nat, c: CapabilityId)
    requires Known(Elements(selected), specs) && IsLayering(selected, specs, groups)
    requires j < k < |groups| && c in groups[j]
    ensures c !in groups[k]
  {
    InGroup(selected, specs, groups, j, c);
    InGroup(selected, specs, groups, k, c);
    LayersDisjoint(Elements(selected), specs, j, k);
  }

  lemma LayersDisjoint(selected: set<CapabilityId>, specs: Specs, j: nat, k: nat)
    requires Known(selected, specs) && j < k
    ensures Layer(selected, specs, j) !! Layer(selected, specs, k)
  {
    DoneGrows(selected, specs, j + 1, k);
  }

  /** The order in which the planner lists its selection does not move anything between groups. */
  lemma {:induction false} OrderIrrelevant(s: seq<CapabilityId>, t: seq<CapabilityId>, specs: Specs,
                                           gs: seq<seq<CapabilityId>>, gt: seq<seq<CapabilityId>>)
    requires Elements(s) == Elements(t) && Known(Elements(s), specs)
    requires IsLayering(s, specs, gs) && IsLayering(t, specs, gt)
    ensures |gs| == |gt|
    ensures forall k :: 0 <= k < |gs| ==> Elements(gs[k]) == Elements(gt[k])
  {
    if |gs| < |gt| {
      LayeringEnds(t, specs, gt, |gs|);
    } else if |gt| < |gs| {
      LayeringEnds(s, specs, gs, |gt|);
    }
    forall k | 0 <= k < |gs| ensures Elements(gs[k]) == Elements(gt[k]) {
      assert forall c :: c in gs[k] <==> c in Layer(Elements(s), specs, k);
      assert forall c :: c in gt[k] <==> c in Layer(Elements(s), specs, k);
    }
  }

  /** A layering does not end before the selection is finished, nor go on after. */
  lemma LayeringEnds(s: seq<CapabilityId>, specs: Specs, groups: seq<seq<CapabilityId>>, k: nat)
    requires Known(Elements(s), specs) && IsLayering(s, specs, groups) && k < |groups|
    ensures Done(Elements(s), specs, k) != Elements(s)
  {
    assert groups[k] != [];
    assert groups[k][0] in groups[k];
  }

  /** A schedule puts every selected capability strictly after what it waits for. */
  ghost predicate Respects(schedule: map<CapabilityId, nat>, selected: set<CapabilityId>, specs: Specs)
    requires Known(selected, specs)
  {
    && selected <= schedule.Keys
    && (forall c, d :: c in selected && d in Below(c, selected, specs) ==> schedule[d] < schedule[c])
  }

  lemma {:induction false} ScheduleBounds(schedule: map<CapabilityId, nat>, selected: set<CapabilityId>,
                                          specs: Specs, c: CapabilityId)
    requires Known(selected, specs) && Respects(schedule, selected, specs) && c in selected
    ensures c in Done(selected, specs, schedule[c] + 1)
    decreases schedule[c]
  {
    forall d | d in Below(c, selected, specs) ensures d in Done(selected, specs, schedule[c]) {
      ScheduleBounds(schedule, selected, specs, d);
      DoneGrows(selected, specs, schedule[d] + 1, schedule[c]);
    }
  }

  lemma NotDoneEarlier(schedule: map<CapabilityId, nat>, selected: set<CapabilityId>, specs: Specs,
                       c: CapabilityId, k: nat)
    requires Known(selected, specs) && Respects(schedule, selected, specs) && c in selected
    requires c !in Done(selected, specs, k)
    ensures k <= schedule[c]
  {
    ScheduleBounds(schedule, selected, specs, c);
    if schedule[c] < k {
      DoneGrows(selected, specs, schedule[c] + 1, k);
    }
  }

  /** No schedule that respects the dependencies starts a capability earlier than its group. */
  lemma NoScheduleIsEarlier(selected: seq<CapabilityId>, specs: Specs, groups: seq<seq<CapabilityId>>,
                            schedule: map<CapabilityId, nat>, k: nat, c: CapabilityId)
    requires Known(Elements(selected), specs) && IsLayering(selected, specs, groups)
    requires Respects(schedule, Elements(selected), specs)
    requires k < |groups| && c in groups[k]
    ensures c in schedule && k <= schedule[c]
  {
    var all := Elements(selected);
    InGroup(selected, specs, groups, k, c);
    assert c in all && c !in Done(all, specs, k);
    NotDoneEarlier(schedule, all, specs, c, k);
  }

  /** No schedule that respects the dependencies gets by with fewer groups. */
  lemma NoScheduleIsShorter(selected: seq<CapabilityId>, specs: Specs, groups: seq<seq<CapabilityId>>,
                            schedule: map<CapabilityId, nat>, width: nat)
    requires Known(Elements(selected), specs) && IsLayering(selected, specs, groups)
    requires Respects(schedule, Elements(selected), specs)
    requires forall c :: c in selected ==> schedule[c] < width
    ensures |groups| <= width
  {
    if |groups| > 0 {
      var last := |groups| - 1;
      var c := groups[last][0];
      assert c in groups[last];
      NoScheduleIsEarlier(selected, specs, groups, schedule, last, c);
    }
  }

  /** The layering is itself such a schedule, so the bound above is attained. */
  lemma LayeringRespects(selected: seq<CapabilityId>, specs: Specs, groups: seq<seq<CapabilityId>>,
                         j: nat, c: CapabilityId, d: CapabilityId)
    requires Known(Elements(selected), specs) && IsLayering(selected, specs, groups)
    requires j < |groups| && c in groups[j] && d in Below(c, Elements(selected), specs)
    ensures exists i :: 0 <= i < j && d in groups[i]
  {
    var all := Elements(selected);
    var i := j;
    while i > 0 && d in Done(all, specs, i - 1)
      invariant 0 <= i <= j && d in Done(all, specs, i)
    {
      i := i - 1;
    }
    assert d in Layer(all, specs, i - 1);
    assert d in groups[i - 1];
  }

  /** Nothing on a cycle is ever finished. */
  lemma {:induction false} CycleNeverDone(p: seq<CapabilityId>, selected: set<CapabilityId>, specs: Specs, k: nat)
    requires Known(selected, specs) && Chain(p, selected, specs) && |p| > 1 && p[0] == p[|p| - 1]
    ensures p[0] !in Done(selected, specs, k)
    ensures forall c :: c in p ==> c !in Done(selected, specs, k)
  {
    assert p[0] in p;
    if k > 0 {
      CycleNeverDone(p, selected, specs, k - 1);
      forall c | c in p ensures c !in Done(selected, specs, k) {
        var i :| 0 <= i < |p| && p[i] == c;
        var at := if i == |p| - 1 then 0 else i;
        assert DependsOnNext(p, at, specs) && p[at + 1] in Below(c, selected, specs);
      }
    }
  }

  /** Part of a chain is a chain. */
  lemma SubChain(p: seq<CapabilityId>, selected: set<CapabilityId>, specs: Specs, i: nat, j: nat)
    requires Known(selected, specs) && Chain(p, selected, specs) && i < j <= |p|
    ensures Chain(p[i..j], selected, specs)
  {
    var q := p[i..j];
    forall m | 0 <= m < |q| - 1 ensures DependsOnNext(q, m, specs) {
      assert DependsOnNext(p, i + m, specs);
    }
  }

  /** If a round finishes nothing new, what is left hangs on a cycle. */
  lemma StuckMeansCycle(selected: set<CapabilityId>, specs: Specs, k: nat)
    requires Known(selected, specs)
    requires Done(selected, specs, k) != selected
    requires Done(selected, specs, k + 1) == Done(selected, specs, k)
    ensures HasCycle(selected, specs)
  {
    var c :| c in selected && c !in Done(selected, specs, k);
    var far := k + |selected|;
    StuckStays(selected, specs, k, far);
    var p := LongChain(c, selected, specs, far);
    ClosedChain(p, selected, specs);
  }

  /** A chain longer than the selection runs into itself. */
  lemma ClosedChain(p: seq<CapabilityId>, selected: set<CapabilityId>, specs: Specs)
    requires Known(selected, specs) && Chain(p, selected, specs) && |p| > |selected|
    ensures HasCycle(selected, specs)
  {
    var i, j := Pigeonhole(p, selected);
    SubChain(p, selected, specs, i, j + 1);
    var q := p[i..j + 1];
    assert Chain(q, selected, specs) && |q| > 1 && q[0] == q[|q| - 1];
  }

  lemma {:induction false} StuckStays(selected: set<CapabilityId>, specs: Specs, k: nat, m: nat)
    requires Known(selected, specs) && k <= m
    requires Done(selected, specs, k + 1) == Done(selected, specs, k)
    ensures Done(selected, specs, m) == Done(selected, specs, k)
  {
    hide Ready, Known;
    if k < m {
      StuckStays(selected, specs, k, m - 1);
      assert Done(selected, specs, m) == Ready(selected, specs, Done(selected, specs, m - 1));
    }
  }

  predicate AllKnown(remaining: seq<CapabilityId>, specs: Specs) {
    forall c :: c in remaining ==> c in specs
  }

  /** The capabilities in `remaining` that wait for nothing that is selected and not complete. */
  function Unblocked(selected: seq<CapabilityId>, specs: Specs, remaining: seq<CapabilityId>,
                     complete: set<CapabilityId>): set<CapabilityId>
    requires AllKnown(remaining, specs)
  {
    set c | c in remaining && forall d :: d in specs[c].dependencies ==> d in complete || d !in selected
  }

  /** One round of the loop schedules one layer. */
  lemma RoundIsLayer(selected: seq<CapabilityId>, specs: Specs, n: nat, remaining: seq<CapabilityId>)
    requires Known(Elements(selected), specs) && AllKnown(remaining, specs)
    requires remaining == Keep(selected, Elements(selected) - Done(Elements(selected), specs, n))
    ensures Unblocked(selected, specs, remaining, Done(Elements(selected), specs, n))
            == Layer(Elements(selected), specs, n)
  {
    var all := Elements(selected);
    var complete := Done(all, specs, n);
    var unblocked := Unblocked(selected, specs, remaining, complete);
    forall c ensures c in unblocked <==> c in Layer(all, specs, n) {
      if c in all - complete {
        assert Below(c, all, specs) <= complete
          <==> forall d :: d in specs[c].dependencies ==> d in complete || d !in selected;
      }
    }
  }

  /** Filtering what is left is filtering the selection. */
  lemma KeepRest(selected: seq<CapabilityId>, left: set<CapabilityId>, wanted: set<CapabilityId>)
    requires wanted <= left
    ensures Keep(Keep(selected, left), wanted) == Keep(selected, wanted)
  {
    KeepKeep(selected, left, wanted);
    assert left * wanted == wanted;
  }

  /** What one round of the loop computes, in terms of the layers. */
  lemma Round(selected: seq<CapabilityId>, specs: Specs, n: nat, remaining: seq<CapabilityId>,
              ready: seq<CapabilityId>, after: set<CapabilityId>)
    requires Known(Elements(selected), specs) && AllKnown(remaining, specs)
    requires remaining == Keep(selected, Elements(selected) - Done(Elements(selected), specs, n))
    requires ready == Keep(remaining, Unblocked(selected, specs, remaining, Done(Elements(selected), specs, n)))
    requires after == Done(Elements(selected), specs, n) + Elements(ready)
    ensures ready == Keep(selected, Layer(Elements(selected), specs, n))
    ensures after == Done(Elements(selected), specs, n + 1)
    ensures Keep(remaining, Elements(remaining) - after) == Keep(selected, Elements(selected) - after)
  {
    var all := Elements(selected);
    var left := all - Done(all, specs, n);
    RoundIsLayer(selected, specs, n, remaining);
    DoneGrows(all, specs, n, n + 1);
    KeepRest(selected, left, Layer(all, specs, n));
    assert Elements(ready) == Layer(all, specs, n);
    assert Elements(remaining) == left;
    KeepRest(selected, left, left - after);
    assert left - after == all - after;
  }

  lemma KeepEmpty(s: seq<CapabilityId>, wanted: set<CapabilityId>)
    requires |Keep(s, wanted)| == 0 && wanted <= Elements(s)
    ensures wanted == {}
  {
    assert forall c :: c in wanted ==> c in Keep(s, wanted);
  }

  lemma KeepNonempty(s: seq<CapabilityId>, wanted: set<CapabilityId>)
    requires |Keep(s, wanted)| > 0
    ensures wanted != {}
  {
    assert Keep(s, wanted)[0] in Keep(s, wanted);
  }

  lemma LayerEmpty(selected: set<CapabilityId>, specs: Specs, n: nat)
    requires Known(selected, specs)
    requires selected - Done(selected, specs, n) != {} && Layer(selected, specs, n) == {}
    ensures HasCycle(selected, specs)
  {
    var now, next := Done(selected, specs, n), Done(selected, specs, n + 1);
    DoneGrows(selected, specs, n, n + 1);
    forall c | c in next ensures c in now {
      assert c !in next - now;
    }
    StuckMeansCycle(selected, specs, n);
  }

  /** A round that schedules nothing has met a cycle. */
  lemma EmptyRound(selected: seq<CapabilityId>, specs: Specs, n: nat,
                   remaining: seq<CapabilityId>, ready: seq<CapabilityId>)
    requires Known(Elements(selected), specs) && |remaining| > 0 && |ready| == 0
    requires remaining == Keep(selected, Elements(selected) - Done(Elements(selected), specs, n))
    requires ready == Keep(selected, Layer(Elements(selected), specs, n))
    ensures HasCycle(Elements(selected), specs)
  {
    var all := Elements(selected);
    KeepEmpty(selected, Layer(all, specs, n));
    KeepNonempty(selected, all - Done(all, specs, n));
    LayerEmpty(all, specs, n);
  }

  /** A round that schedules something leaves less to do. */
  lemma RoundShrinks(remaining: seq<CapabilityId>, ready: seq<CapabilityId>, complete: set<CapabilityId>)
    requires |ready| > 0 && forall c :: c in ready ==> c in remaining && c in complete
    ensures |Keep(remaining, Elements(remaining) - complete)| < |remaining|
  {
    KeepShrinks(remaining, Elements(remaining) - complete, ready[0]);
  }

  /** What the loop keeps: the first layers are scheduled and complete, the rest remains. */
  ghost predicate Scheduled(selected: seq<CapabilityId>, specs: Specs, remaining: seq<CapabilityId>,
                            complete: set<CapabilityId>, groups: seq<seq<CapabilityId>>)
    requires Known(Elements(selected), specs)
  {
    && complete == Done(Elements(selected), specs, |groups|)
    && remaining == Keep(selected, Elements(selected) - complete)
    && StartsLayering(selected, specs, groups)
  }

  lemma LoopStarts(selected: seq<CapabilityId>, specs: Specs)
    requires Known(Elements(selected), specs)
    ensures Scheduled(selected, specs, selected, {}, []) && AllKnown(selected, specs)
  {
    KeepAll(selected, Elements(selected) - {});
  }

  lemma LoopStuck(selected: seq<CapabilityId>, specs: Specs, remaining: seq<CapabilityId>,
                  complete: set<CapabilityId>, groups: seq<seq<CapabilityId>>)
    requires Known(Elements(selected), specs) && Scheduled(selected, specs, remaining, complete, groups)
    requires AllKnown(remaining, specs) && |remaining| > 0
    requires |Keep(remaining, Unblocked(selected, specs, remaining, complete))| == 0
    ensures HasCycle(Elements(selected), specs)
  {
    var ready := Keep(remaining, Unblocked(selected, specs, remaining, complete));
    Round(selected, specs, |groups|, remaining, ready, complete + Elements(ready));
    EmptyRound(selected, specs, |groups|, remaining, ready);
  }

  lemma LoopContinues(selected: seq<CapabilityId>, specs: Specs, remaining: seq<CapabilityId>,
                      complete: set<CapabilityId>, groups: seq<seq<CapabilityId>>)
    requires Known(Elements(selected), specs) && Scheduled(selected, specs, remaining, complete, groups)
    requires AllKnown(remaining, specs)
    requires |Keep(remaining, Unblocked(selected, specs, remaining, complete))| > 0
    ensures var ready := Keep(remaining, Unblocked(selected, specs, remaining, complete));
            var after := complete + Elements(ready);
            var left := Keep(remaining, Elements(remaining) - after);
            Scheduled(selected, specs, left, after, groups + [ready]) && AllKnown(left, specs) && |left| < |remaining|
  {
    hide Done, Layer, Unblocked, Known, StartsLayering;
    var ready := Keep(remaining, Unblocked(selected, specs, remaining, complete));
    var after := complete + Elements(ready);
    Round(selected, specs, |groups|, remaining, ready, after);
    RoundShrinks(remaining, ready, after);
    ExtendLayering(selected, specs, groups, ready);
  }

  lemma LoopEnds(selected: seq<CapabilityId>, specs: Specs, remaining: seq<CapabilityId>,
                 complete: set<CapabilityId>, groups: seq<seq<CapabilityId>>)
    requires Known(Elements(selected), specs) && Scheduled(selected, specs, remaining, complete, groups)
    requires |remaining| == 0
    ensures IsLayering(selected, specs, groups) && !HasCycle(Elements(selected), specs)
  {
    Finished(selected, specs, groups);
  }

  /**
   The scheduling loop. It succeeds exactly when the selection has no cycle,
   and then returns the layering.
   */
  method ExecutionGroups(selected: seq<CapabilityId>, specs: Specs)
    returns (r: Result<seq<seq<CapabilityId>>, PlanError>)
    requires Known(Elements(selected), specs)
    ensures r.Ok? ==> IsLayering(selected, specs, r.value)
    ensures r.Err? <==> HasCycle(Elements(selected), specs)
  {
    hide *;
    var remaining := selected;
    var complete: set<CapabilityId> := {};
    var groups: seq<seq<CapabilityId>> := [];
    LoopStarts(selected, specs);
    while |remaining| > 0
      invariant Scheduled(selected, specs, remaining, complete, groups) && AllKnown(remaining, specs)
      decreases |remaining|
    {
      var ready := Keep(remaining, Unblocked(selected, specs, remaining, complete));
      if |ready| == 0 {
        LoopStuck(selected, specs, remaining, complete, groups);
        return Err(LLM_OUTPUT_INVALID);
      }
      LoopContinues(selected, specs, remaining, complete, groups);
      groups := groups + [ready];
      complete := complete + Elements(ready);
      remaining := Keep(remaining, Elements(remaining) - complete);
    }
    LoopEnds(selected, specs, remaining, complete, groups);
    return Ok(groups);
  }

  lemma ExtendLayering(selected: seq<CapabilityId>, specs: Specs, groups: seq<seq<CapabilityId>>,
                       ready: seq<CapabilityId>)
    requires Known(Elements(selected), specs) && StartsLayering(selected, specs, groups)
    requires IsGroup(selected, specs, ready, |groups|)
    ensures StartsLayering(selected, specs, groups + [ready])
  {
  }

  /** When nothing remains, the groups are the layering and nothing was on a cycle. */
  lemma Finished(selected: seq<CapabilityId>, specs: Specs, groups: seq<seq<CapabilityId>>)
    requires Known(Elements(selected), specs) && StartsLayering(selected, specs, groups)
    requires |Keep(selected, Elements(selected) - Done(Elements(selected), specs, |groups|))| == 0
    ensures IsLayering(selected, specs, groups)
    ensures !HasCycle(Elements(selected), specs)
  {
    AllDone(selected, Done(Elements(selected), specs, |groups|));
    NoCycleLeft(Elements(selected), specs, |groups|);
  }

  lemma AllDone(selected: seq<CapabilityId>, complete: set<CapabilityId>)
    requires complete <= Elements(selected) && |Keep(selected, Elements(selected) - complete)| == 0
    ensures complete == Elements(selected)
  {
    assert forall c :: c in Elements(selected) - complete ==> c in Keep(selected, Elements(selected) - complete);
  }

  lemma NoCycleLeft(selected: set<CapabilityId>, specs: Specs, k: nat)
    requires Known(selected, specs) && Done(selected, specs, k) == selected
    ensures !HasCycle(selected, specs)
  {
    forall p | Chain(p, selected, specs) && |p| > 1 ensures p[0] != p[|p| - 1] {
      if p[0] == p[|p| - 1] {
        CycleNeverDone(p, selected, specs, k);
        assert false;
      }
    }
  }

  lemma {:induction false} KeepShrinks<T(!new)>(s: seq<T>, wanted: set<T>, dropped: T)
    requires dropped in s && dropped !in wanted
    ensures |Keep(s, wanted)| < |s|
  {
    if s[0] in wanted {
      KeepShrinks(s[1..], wanted, dropped);
    } else {
      KeepNoLonger(s[1..], wanted);
    }
  }

  lemma {:induction false} KeepNoLonger<T(!new)>(s: seq<T>, wanted: set<T>)
    ensures |Keep(s, wanted)| <= |s|
  {
    if s != [] {
      KeepNoLonger(s[1..], wanted);
    }
  }

  // ------------------------------------------------- catalogue and validation

  const SUPPLIER_CAPABILITIES: seq<CapabilitySpec> := [
    CapabilitySpec(DocumentIntelligence, Supplier, [DocumentsReady], [], true),
    CapabilitySpec(DuplicateDetection, Supplier, [LegalNameAvailable], [DocumentIntelligence], true),
    CapabilitySpec(SanctionsScreening, Supplier, [LegalNameAvailable], [DocumentIntelligence], true),
    CapabilitySpec(PolicyRetrieval, Supplier, [], [], true),
    CapabilitySpec(BankConsistency, Supplier, [BankAccountAvailable, RegisteredCountryAvailable],
                   [DocumentIntelligence], false),
    CapabilitySpec(DocumentCompleteness, Supplier, [DocumentsReady], [DocumentIntelligence], true),
    CapabilitySpec(SupplierControls, Supplier, [DocumentsReady], [DocumentIntelligence], true),
    CapabilitySpec(InjectionScan, Supplier, [DocumentsReady], [], true),
    CapabilitySpec(RiskScreening, Supplier, [LegalNameAvailable], [DocumentIntelligence], true)
  ]

  const INVOICE_CAPABILITIES: seq<CapabilitySpec> := [
    CapabilitySpec(DocumentIntelligence, Invoice, [DocumentsReady], [], true),
    CapabilitySpec(PoRetrieval, Invoice, [PoReferenceAvailable], [], true),
    CapabilitySpec(GrnRetrieval, Invoice, [PoReferenceAvailable], [PoRetrieval], true),
    CapabilitySpec(VendorResolution, Invoice, [VendorIdentityAvailable], [DocumentIntelligence], true),
    CapabilitySpec(DuplicateInvoice, Invoice, [InvoiceNumberAvailable, VendorIdentityAvailable],
                   [VendorResolution], true),
    CapabilitySpec(PolicyRetrieval, Invoice, [], [], true),
    CapabilitySpec(ThreeWayMatch, Invoice, [PoReferenceAvailable],
                   [DocumentIntelligence, PoRetrieval, GrnRetrieval], true),
    CapabilitySpec(BankConsistency, Invoice, [BankAccountAvailable, VendorIdentityAvailable],
                   [DocumentIntelligence, VendorResolution], false)
  ]

  const CAPABILITIES: seq<CapabilitySpec> := SUPPLIER_CAPABILITIES + INVOICE_CAPABILITIES

  type Facts = map<Fact, bool>

  predicate Holds(facts: Facts, fact: Fact) {
    fact in facts && facts[fact]
  }

  predicate IsEligible(spec: CapabilitySpec, kind: WorkflowKind, facts: Facts) {
    spec.kind == kind && forall p :: p in spec.prerequisites ==> Holds(facts, p)
  }

  /** The catalogue entries of one workflow whose prerequisites all hold, in catalogue order. */
  function EligibleCapabilities(kind: WorkflowKind, facts: Facts): seq<CapabilitySpec> {
    Keep(CAPABILITIES, set s | s in CAPABILITIES && IsEligible(s, kind, facts))
  }

  /** The dictionary of specifications by id; a later entry replaces an earlier one. */
  function ById(specs: seq<CapabilitySpec>): Specs {
    if specs == [] then map[]
    else ById(specs[..|specs| - 1])[specs[|specs| - 1].id := specs[|specs| - 1]]
  }

  lemma {:induction false} ByIdEntries(specs: seq<CapabilitySpec>)
    ensures forall c :: c in ById(specs) ==> ById(specs)[c] in specs && ById(specs)[c].id == c
    ensures forall s :: s in specs ==> s.id in ById(specs)
  {
    if specs != [] {
      ByIdEntries(specs[..|specs| - 1]);
    }
  }

  /** Where an id stands in its workflow's list. */
  function Position(kind: WorkflowKind, c: CapabilityId): nat {
    match c
    case DocumentIntelligence => 0
    case DuplicateDetection | PoRetrieval => 1
    case SanctionsScreening | GrnRetrieval => 2
    case PolicyRetrieval => if kind == Supplier then 3 else 5
    case VendorResolution => 3
    case BankConsistency => if kind == Supplier then 4 else 7
    case DuplicateInvoice => 4
    case DocumentCompleteness => 5
    case SupplierControls | ThreeWayMatch => 6
    case InjectionScan => 7
    case RiskScreening => 8
    case Other(_) => 9
  }

  function Catalogue(kind: WorkflowKind): seq<CapabilitySpec> {
    if kind == Supplier then SUPPLIER_CAPABILITIES else INVOICE_CAPABILITIES
  }

  lemma SupplierPositions(i: nat)
    requires i < |SUPPLIER_CAPABILITIES|
    ensures SUPPLIER_CAPABILITIES[i].kind == Supplier && Position(Supplier, SUPPLIER_CAPABILITIES[i].id) == i
  {
  }

  lemma InvoicePositions(i: nat)
    requires i < |INVOICE_CAPABILITIES|
    ensures INVOICE_CAPABILITIES[i].kind == Invoice && Position(Invoice, INVOICE_CAPABILITIES[i].id) == i
  {
  }

  /** Within one workflow, an id determines its entry. */
  lemma IdDeterminesEntry(s: CapabilitySpec)
    requires s in CAPABILITIES
    ensures Position(s.kind, s.id) < |Catalogue(s.kind)| && s == Catalogue(s.kind)[Position(s.kind, s.id)]
  {
    var i :| 0 <= i < |CAPABILITIES| && CAPABILITIES[i] == s;
    var n := |SUPPLIER_CAPABILITIES|;
    if i < n {
      SupplierPositions(i);
    } else {
      InvoicePositions(i - n);
    }
  }

  /** The dictionary holds exactly the eligible entries. */
  lemma SpecsAreEligible(kind: WorkflowKind, facts: Facts)
    ensures forall s :: s in CAPABILITIES && IsEligible(s, kind, facts) ==>
              s.id in ById(EligibleCapabilities(kind, facts)) && ById(EligibleCapabilities(kind, facts))[s.id] == s
    ensures forall c :: c in ById(EligibleCapabilities(kind, facts)) ==>
              var s := ById(EligibleCapabilities(kind, facts))[c];
              s in CAPABILITIES && IsEligible(s, kind, facts) && s.id == c
  {
    var eligible := EligibleCapabilities(kind, facts);
    var specs := ById(eligible);
    ByIdEntries(eligible);
    forall s | s in CAPABILITIES && IsEligible(s, kind, facts) ensures s.id in specs && specs[s.id] == s {
      assert s in eligible;
      IdDeterminesEntry(s);
      IdDeterminesEntry(specs[s.id]);
    }
  }

  /** A fact counts when it is recorded as true. */
  predicate IsTrue(facts: Facts, fact: Fact) {
    (fact, true) in facts.Items
  }

  /** What the dictionary holds, said about the catalogue and the recorded facts. */
  lemma EligibleIff(kind: WorkflowKind, facts: Facts, c: CapabilityId)
    ensures c in ById(EligibleCapabilities(kind, facts))
            <==> exists s :: s in CAPABILITIES && s.kind == kind && s.id == c
                   && forall p :: p in s.prerequisites ==> (p, true) in facts.Items
  {
    hide CAPABILITIES;
    SpecsAreEligible(kind, facts);
  }

  /** The capabilities that these facts make eligible, listed. */
  function EligibleIds(kind: WorkflowKind, facts: Facts): set<CapabilityId> {
    match kind
    case Supplier =>
      {PolicyRetrieval}
      + (if IsTrue(facts, DocumentsReady)
         then {DocumentIntelligence, DocumentCompleteness, SupplierControls, InjectionScan} else {})
      + (if IsTrue(facts, LegalNameAvailable) then {DuplicateDetection, SanctionsScreening, RiskScreening} else {})
      + (if IsTrue(facts, BankAccountAvailable) && IsTrue(facts, RegisteredCountryAvailable)
         then {BankConsistency} else {})
    case Invoice =>
      {PolicyRetrieval}
      + (if IsTrue(facts, DocumentsReady) then {DocumentIntelligence} else {})
      + (if IsTrue(facts, PoReferenceAvailable) then {PoRetrieval, GrnRetrieval, ThreeWayMatch} else {})
      + (if IsTrue(facts, VendorIdentityAvailable) then {VendorResolution} else {})
      + (if IsTrue(facts, VendorIdentityAvailable) && IsTrue(facts, InvoiceNumberAvailable)
         then {DuplicateInvoice} else {})
      + (if IsTrue(facts, VendorIdentityAvailable) && IsTrue(facts, BankAccountAvailable)
         then {BankConsistency} else {})
  }

  lemma EligibleIdsAre(kind: WorkflowKind, facts: Facts)
    ensures ById(EligibleCapabilities(kind, facts)).Keys == EligibleIds(kind, facts)
  {
    var specs := ById(EligibleCapabilities(kind, facts));
    forall c ensures c in specs <==> c in EligibleIds(kind, facts) {
      SpecsAreEligible(kind, facts);
      hide EligibleCapabilities, ById, CAPABILITIES, EligibleIds;
      if c in specs {
        EntryIsListed(specs[c], facts);
      }
      if c in EligibleIds(kind, facts) {
        var s := ListedHasEntry(kind, facts, c);
      }
    }
  }

  lemma EntryIsListed(s: CapabilitySpec, facts: Facts)
    requires s in CAPABILITIES && IsEligible(s, s.kind, facts)
    ensures s.id in EligibleIds(s.kind, facts)
  {
    assert forall p :: p in s.prerequisites ==> IsTrue(facts, p);
    IdDeterminesEntry(s);
    hide IsEligible, IsTrue, Holds, CAPABILITIES, SUPPLIER_CAPABILITIES, INVOICE_CAPABILITIES;
    assert |s.prerequisites| > 0 ==> IsTrue(facts, s.prerequisites[0]);
    assert |s.prerequisites| > 1 ==> IsTrue(facts, s.prerequisites[1]);
    if s.kind == Supplier {
      SupplierTable(0);
      SupplierTable(Position(s.kind, s.id));
    } else {
      InvoiceTable(0);
      InvoiceTable(Position(s.kind, s.id));
    }
  }

  lemma ListedHasEntry(kind: WorkflowKind, facts: Facts, c: CapabilityId) returns (s: CapabilitySpec)
    requires c in EligibleIds(kind, facts)
    ensures s in CAPABILITIES && s.id == c && IsEligible(s, kind, facts)
  {
    var i := Position(kind, c);
    if kind == Supplier {
      SupplierEntry(facts, c);
      s := SUPPLIER_CAPABILITIES[i];
    } else {
      InvoiceEntry(facts, c);
      s := INVOICE_CAPABILITIES[i];
    }
  }

  /** One or two prerequisites recorded as true are enough. */
  lemma TrueIsEnough(s: CapabilitySpec, facts: Facts)
    requires |s.prerequisites| <= 2
    requires |s.prerequisites| > 0 ==> IsTrue(facts, s.prerequisites[0])
    requires |s.prerequisites| > 1 ==> IsTrue(facts, s.prerequisites[1])
    ensures IsEligible(s, s.kind, facts)
  {
  }

  lemma SupplierEntry(facts: Facts, c: CapabilityId)
    requires c in EligibleIds(Supplier, facts)
    ensures Position(Supplier, c) < |SUPPLIER_CAPABILITIES|
    ensures var s := SUPPLIER_CAPABILITIES[Position(Supplier, c)];
            s in SUPPLIER_CAPABILITIES && s.id == c && IsEligible(s, Supplier, facts)
  {
    hide SUPPLIER_CAPABILITIES, IsEligible, IsTrue;
    var i := Position(Supplier, c);
    SupplierTable(i);
    TrueIsEnough(SUPPLIER_CAPABILITIES[i], facts);
  }

  /** The supplier's list, line by line. */
  lemma SupplierTable(i: nat)
    requires i < 9
    ensures |SUPPLIER_CAPABILITIES| == 9
    ensures var s := SUPPLIER_CAPABILITIES[i];
            && s.kind == Supplier
            && s.id == [DocumentIntelligence, DuplicateDetection, SanctionsScreening, PolicyRetrieval, BankConsistency,
                        DocumentCompleteness, SupplierControls, InjectionScan, RiskScreening][i]
            && (s.id in {DocumentIntelligence, DocumentCompleteness, SupplierControls, InjectionScan} ==>
                  s.prerequisites == [DocumentsReady])
            && (s.id in {DuplicateDetection, SanctionsScreening, RiskScreening} ==>
                  s.prerequisites == [LegalNameAvailable])
            && (s.id == BankConsistency ==> s.prerequisites == [BankAccountAvailable, RegisteredCountryAvailable])
            && (s.id == PolicyRetrieval ==> s.prerequisites == [])
            && (s.mandatory <==> s.id != BankConsistency)
            && s.dependencies
               == (if s.id in {DocumentIntelligence, PolicyRetrieval, InjectionScan} then []
                   else [DocumentIntelligence])
  {
  }

  lemma InvoiceEntry(facts: Facts, c: CapabilityId)
    requires c in EligibleIds(Invoice, facts)
    ensures Position(Invoice, c) < |INVOICE_CAPABILITIES|
    ensures var s := INVOICE_CAPABILITIES[Position(Invoice, c)];
            s in INVOICE_CAPABILITIES && s.id == c && IsEligible(s, Invoice, facts)
  {
    hide INVOICE_CAPABILITIES, IsEligible, IsTrue;
    var i := Position(Invoice, c);
    InvoiceTable(i);
    TrueIsEnough(INVOICE_CAPABILITIES[i], facts);
  }

  /** The invoice's list, line by line. */
  lemma InvoiceTable(i: nat)
    requires i < 8
    ensures |INVOICE_CAPABILITIES| == 8
    ensures var s := INVOICE_CAPABILITIES[i];
            && s.kind == Invoice
            && s.id == [DocumentIntelligence, PoRetrieval, GrnRetrieval, VendorResolution, DuplicateInvoice,
                        PolicyRetrieval, ThreeWayMatch, BankConsistency][i]
            && (s.id == DocumentIntelligence ==> s.prerequisites == [DocumentsReady])
            && (s.id in {PoRetrieval, GrnRetrieval, ThreeWayMatch} ==> s.prerequisites == [PoReferenceAvailable])
            && (s.id == VendorResolution ==> s.prerequisites == [VendorIdentityAvailable])
            && (s.id == DuplicateInvoice ==> s.prerequisites == [InvoiceNumberAvailable, VendorIdentityAvailable])
            && (s.id == PolicyRetrieval ==> s.prerequisites == [])
            && (s.id == BankConsistency ==> s.prerequisites == [BankAccountAvailable, VendorIdentityAvailable])
            && (s.mandatory <==> s.id != BankConsistency)
            && (s.id in {DocumentIntelligence, PoRetrieval, PolicyRetrieval} ==> s.dependencies == [])
            && (s.id == GrnRetrieval ==> s.dependencies == [PoRetrieval])
            && (s.id == VendorResolution ==> s.dependencies == [DocumentIntelligence])
            && (s.id == DuplicateInvoice ==> s.dependencies == [VendorResolution])
            && (s.id == ThreeWayMatch ==> s.dependencies == [DocumentIntelligence, PoRetrieval, GrnRetrieval])
            && (s.id == BankConsistency ==> s.dependencies == [DocumentIntelligence, VendorResolution])
  {
  }

  /** Entries recorded as false might as well be missing. */
  lemma FalseFactsDoNotCount(kind: WorkflowKind, facts: Facts, selected: seq<CapabilityId>)
    ensures var known := map p | p in facts && facts[p] :: true;
            && EligibleCapabilities(kind, known) == EligibleCapabilities(kind, facts)
            && (Acceptable(kind, known, selected) <==> Acceptable(kind, facts, selected))
            && GroupsNeeded(kind, known, BankConsistency in selected)
               == GroupsNeeded(kind, facts, BankConsistency in selected)
  {
    var known := map p | p in facts && facts[p] :: true;
    assert forall p :: Holds(known, p) == Holds(facts, p);
    hide CAPABILITIES, Holds;
    SameEligible(kind, known, facts);
    hide EligibleCapabilities;
  }

  lemma SameEligible(kind: WorkflowKind, facts: Facts, known: Facts)
    requires forall p :: Holds(facts, p) == Holds(known, p)
    ensures EligibleCapabilities(kind, facts) == EligibleCapabilities(kind, known)
  {
    hide CAPABILITIES, Holds;
    assert forall s :: IsEligible(s, kind, known) == IsEligible(s, kind, facts);
    hide IsEligible;
    assert (set s | s in CAPABILITIES && IsEligible(s, kind, known))
        == (set s | s in CAPABILITIES && IsEligible(s, kind, facts));
  }

  /** Only the bank check is optional, and nothing depends on it. */
  lemma OnlyBankCheckIsOptional(s: CapabilitySpec)
    requires s in CAPABILITIES
    ensures s.mandatory <==> s.id != BankConsistency
    ensures BankConsistency !in s.dependencies
  {
    if s in SUPPLIER_CAPABILITIES {
    } else {
      assert s in INVOICE_CAPABILITIES;
    }
  }

  /** The group of each catalogue entry: it waits for the documents only when there are any. */
  function Rank(kind: WorkflowKind, facts: Facts, c: CapabilityId): nat {
    var read := if Holds(facts, DocumentsReady) then 1 else 0;
    match c
    case DocumentIntelligence | PolicyRetrieval | InjectionScan | PoRetrieval => 0
    case GrnRetrieval => 1
    case ThreeWayMatch => 2
    case DuplicateInvoice => read + 1
    case BankConsistency => if kind == Supplier then read else read + 1
    case _ => read
  }

  /** The number of groups of a plan, from the facts and from whether the bank check is selected. */
  function GroupsNeeded(kind: WorkflowKind, facts: Facts, bankCheck: bool): nat {
    var read := if Holds(facts, DocumentsReady) then 1 else 0;
    if kind == Supplier then read + 1
    else if Holds(facts, PoReferenceAvailable) then 3
    else if !Holds(facts, VendorIdentityAvailable) then 1
    else if Holds(facts, InvoiceNumberAvailable) || bankCheck then read + 2
    else read + 1
  }

  /** Whatever depends on a capability that is eligible too ranks above it. */
  lemma RankAboveDependencies(s: CapabilitySpec, t: CapabilitySpec, kind: WorkflowKind, facts: Facts)
    requires s in CAPABILITIES && t in CAPABILITIES && t.id in s.dependencies
    requires IsEligible(s, kind, facts) && IsEligible(t, kind, facts)
    ensures Rank(kind, facts, t.id) < Rank(kind, facts, s.id)
  {
    if t.id == DocumentIntelligence {
      DocumentsAreRead(t, facts);
    }
    if kind == Supplier {
      SupplierRanks(s, t.id, facts);
    } else {
      InvoiceRanks(s, t.id, facts);
    }
  }

  lemma DocumentsAreRead(t: CapabilitySpec, facts: Facts)
    requires t in CAPABILITIES && t.id == DocumentIntelligence && IsEligible(t, t.kind, facts)
    ensures Holds(facts, DocumentsReady)
  {
    IdDeterminesEntry(t);
    assert t.prerequisites[0] == DocumentsReady;
  }

  lemma SupplierRanks(s: CapabilitySpec, d: CapabilityId, facts: Facts)
    requires s in SUPPLIER_CAPABILITIES && d in s.dependencies
    requires d == DocumentIntelligence ==> Holds(facts, DocumentsReady)
    ensures Rank(Supplier, facts, d) < Rank(Supplier, facts, s.id)
  {
    hide Holds;
  }

  lemma InvoiceRanks(s: CapabilitySpec, d: CapabilityId, facts: Facts)
    requires s in INVOICE_CAPABILITIES && d in s.dependencies
    requires d == DocumentIntelligence ==> Holds(facts, DocumentsReady)
    ensures Rank(Invoice, facts, d) < Rank(Invoice, facts, s.id)
  {
    hide Holds;
  }

  /** Every eligible entry ranks below the number of groups. */
  lemma RankBelowNeeded(s: CapabilitySpec, kind: WorkflowKind, facts: Facts, bankCheck: bool)
    requires s in CAPABILITIES && IsEligible(s, kind, facts) && (s.id == BankConsistency ==> bankCheck)
    ensures Rank(kind, facts, s.id) < GroupsNeeded(kind, facts, bankCheck) <= if kind == Supplier then 2 else 3
  {
    hide CAPABILITIES, Holds;
    if kind == Invoice {
      InvoicePrerequisites(s);
    } else {
      SupplierIds(s);
    }
  }

  lemma InvoicePrerequisites(s: CapabilitySpec)
    requires s in CAPABILITIES && s.kind == Invoice
    ensures s.id in {PoRetrieval, GrnRetrieval, ThreeWayMatch} ==> PoReferenceAvailable in s.prerequisites
    ensures s.id in {VendorResolution, DuplicateInvoice, BankConsistency} ==>
              VendorIdentityAvailable in s.prerequisites
    ensures s.id == DuplicateInvoice ==> InvoiceNumberAvailable in s.prerequisites
    ensures s.id in {PoRetrieval, GrnRetrieval, ThreeWayMatch, VendorResolution, DuplicateInvoice, BankConsistency,
                     DocumentIntelligence, PolicyRetrieval}
  {
    assert s in INVOICE_CAPABILITIES;
  }

  lemma SupplierIds(s: CapabilitySpec)
    requires s in CAPABILITIES && s.kind == Supplier
    ensures s.id !in {GrnRetrieval, ThreeWayMatch, DuplicateInvoice}
  {
    assert s in SUPPLIER_CAPABILITIES;
  }

  /** What the planner is told: only known ids, and every mandatory one. */
  predicate Acceptable(kind: WorkflowKind, facts: Facts, selected: seq<CapabilityId>) {
    var specs := ById(EligibleCapabilities(kind, facts));
    && (forall c :: c in selected ==> c in specs)
    && (forall c :: c in specs && specs[c].mandatory ==> c in selected)
  }

  /** The dependencies of `c` that are eligible at all. */
  function RequiredDependencies(c: CapabilityId, specs: Specs): set<CapabilityId>
    requires c in specs
  {
    set d | d in specs[c].dependencies && d in specs
  }

  /** An acceptable plan selects all that is eligible, except that the bank check may be left out. */
  lemma AcceptableIff(kind: WorkflowKind, facts: Facts, selected: seq<CapabilityId>)
    ensures Acceptable(kind, facts, selected) <==>
              EligibleIds(kind, facts) - {BankConsistency} <= Elements(selected) <= EligibleIds(kind, facts)
  {
    EligibleIdsAre(kind, facts);
    MandatoryAre(kind, facts);
    hide EligibleCapabilities, ById, EligibleIds, CAPABILITIES;
    var specs := ById(EligibleCapabilities(kind, facts));
    if Acceptable(kind, facts, selected) {
      forall c | c in specs.Keys && c != BankConsistency ensures c in Elements(selected) {
      }
    }
    if specs.Keys - {BankConsistency} <= Elements(selected) <= specs.Keys {
      forall c | c in selected ensures c in specs {
        assert c in Elements(selected);
      }
      forall c | c in specs && specs[c].mandatory ensures c in selected {
        assert c in specs.Keys - {BankConsistency};
      }
    }
  }

  lemma MandatoryAre(kind: WorkflowKind, facts: Facts)
    ensures var specs := ById(EligibleCapabilities(kind, facts));
            forall c :: c in specs ==> (specs[c].mandatory <==> c != BankConsistency)
  {
    hide EligibleCapabilities, ById, CAPABILITIES;
    var specs := ById(EligibleCapabilities(kind, facts));
    SpecsAreEligible(kind, facts);
    forall c | c in specs ensures specs[c].mandatory <==> c != BankConsistency {
      OnlyBankCheckIsOptional(specs[c]);
    }
  }

  /** The closure check refuses nothing that the membership and mandatory checks let through. */
  lemma ClosureIsImplied(kind: WorkflowKind, facts: Facts, selected: seq<CapabilityId>, c: CapabilityId)
    requires Acceptable(kind, facts, selected) && c in selected
    ensures RequiredDependencies(c, ById(EligibleCapabilities(kind, facts))) <= Elements(selected)
  {
    var specs := ById(EligibleCapabilities(kind, facts));
    SpecsAreEligible(kind, facts);
    forall d | d in RequiredDependencies(c, specs) ensures d in selected {
      OnlyBankCheckIsOptional(specs[c]);
      OnlyBankCheckIsOptional(specs[d]);
    }
  }

  /** The ranks are a schedule for any acceptable selection. */
  lemma RanksAreSchedule(kind: WorkflowKind, facts: Facts, selected: seq<CapabilityId>)
    returns (schedule: map<CapabilityId, nat>)
    requires Acceptable(kind, facts, selected)
    ensures Respects(schedule, Elements(selected), ById(EligibleCapabilities(kind, facts)))
    ensures forall c :: c in selected ==>
              && c in schedule && schedule[c] == Rank(kind, facts, c)
              && schedule[c] < GroupsNeeded(kind, facts, BankConsistency in selected)
                             <= if kind == Supplier then 2 else 3
  {
    hide Rank, GroupsNeeded, IsEligible, EligibleCapabilities, ById;
    var specs := ById(EligibleCapabilities(kind, facts));
    SpecsAreEligible(kind, facts);
    schedule := map c | c in selected :: Rank(kind, facts, c);
    forall c, d | c in selected && d in Below(c, Elements(selected), specs) ensures schedule[d] < schedule[c] {
      RankAboveDependencies(specs[c], specs[d], kind, facts);
    }
    forall c | c in selected
      ensures schedule[c] < GroupsNeeded(kind, facts, BankConsistency in selected) <= if kind == Supplier then 2 else 3
    {
      RankBelowNeeded(specs[c], kind, facts, BankConsistency in selected);
    }
  }

  /** A selection with a schedule has no cycle. */
  lemma ScheduledMeansAcyclic(schedule: map<CapabilityId, nat>, selected: set<CapabilityId>, specs: Specs)
    requires Known(selected, specs) && Respects(schedule, selected, specs)
    ensures !HasCycle(selected, specs)
  {
    forall p | Chain(p, selected, specs) && |p| > 1 ensures p[0] != p[|p| - 1] {
      ChainDescends(schedule, selected, specs, p);
    }
  }

  lemma {:induction false} ChainDescends(schedule: map<CapabilityId, nat>, selected: set<CapabilityId>, specs: Specs,
                                         p: seq<CapabilityId>)
    requires Known(selected, specs) && Respects(schedule, selected, specs)
    requires Chain(p, selected, specs) && |p| > 1
    ensures schedule[p[|p| - 1]] < schedule[p[0]]
  {
    assert DependsOnNext(p, 0, specs) && p[1] in Below(p[0], selected, specs);
    if |p| > 2 {
      SubChain(p, selected, specs, 1, |p|);
      assert p[1..|p|] == p[1..];
      ChainDescends(schedule, selected, specs, p[1..]);
    }
  }

  /**
   Plan validation. A plan is accepted exactly when it selects only eligible
   capabilities and every mandatory one; an accepted plan runs in as many groups
   as the facts ask for, at most two for a supplier and three for an invoice.
   */
  method ValidatePlan(kind: WorkflowKind, facts: Facts, selected: seq<CapabilityId>)
    returns (r: Result<(seq<seq<CapabilityId>>, set<CapabilityId>), PlanError>)
    ensures r.Ok? <==>
              EligibleIds(kind, facts) - {BankConsistency} <= Elements(selected) <= EligibleIds(kind, facts)
    ensures r.Ok? ==>
              && r.value.1 == EligibleIds(kind, facts)
              && Elements(selected) <= r.value.1
              && Known(Elements(selected), ById(EligibleCapabilities(kind, facts)))
              && IsLayering(selected, ById(EligibleCapabilities(kind, facts)), r.value.0)
              && |r.value.0| == GroupsNeeded(kind, facts, BankConsistency in selected)
              && |r.value.0| <= (if kind == Supplier then 2 else 3)
  {
    var specs := ById(EligibleCapabilities(kind, facts));
    EligibleIdsAre(kind, facts);
    AcceptableIff(kind, facts, selected);
    hide EligibleIds;
    if exists c :: c in selected && c !in specs {
      return Err(LLM_OUTPUT_INVALID);
    }
    var mandatory := set c | c in specs && specs[c].mandatory;
    if !(mandatory <= Elements(selected)) {
      return Err(LLM_OUTPUT_INVALID);
    }
    assert forall c :: c in specs && specs[c].mandatory ==> c in mandatory;
    for i := 0 to |selected| {
      ClosureIsImplied(kind, facts, selected, selected[i]);
      if !(RequiredDependencies(selected[i], specs) <= Elements(selected)) {
        return Err(LLM_OUTPUT_INVALID);
      }
    }
    ghost var schedule := RanksAreSchedule(kind, facts, selected);
    ScheduledMeansAcyclic(schedule, Elements(selected), specs);
    var groups := ExecutionGroups(selected, specs);
    if groups.Err? {
      return Err(LLM_OUTPUT_INVALID);
    }
    GroupCount(kind, facts, selected, groups.value);
    return Ok((groups.value, specs.Keys));
  }

  /** A chain takes at least as many groups as it has links. */
  lemma ChainNeedsGroups(selected: seq<CapabilityId>, specs: Specs, groups: seq<seq<CapabilityId>>,
                         p: seq<CapabilityId>)
    requires Known(Elements(selected), specs) && IsLayering(selected, specs, groups)
    requires Chain(p, Elements(selected), specs)
    ensures |p| <= |groups|
  {
    hide Done, StartsLayering;
    assert p[0] in p;
    ChainBound(p, Elements(selected), specs, |groups|);
  }

  /** A selected capability that depends on another selected one makes two groups necessary. */
  lemma TwoLinks(kind: WorkflowKind, facts: Facts, selected: seq<CapabilityId>, groups: seq<seq<CapabilityId>>,
                 a: CapabilityId, b: CapabilityId)
    requires Acceptable(kind, facts, selected)
    requires Known(Elements(selected), ById(EligibleCapabilities(kind, facts)))
    requires IsLayering(selected, ById(EligibleCapabilities(kind, facts)), groups)
    requires a in selected && b in selected && DependsOn(kind, facts, a, b)
    ensures |groups| >= 2
  {
    hide IsLayering, EligibleCapabilities, ById;
    var specs := ById(EligibleCapabilities(kind, facts));
    assert DependsOnNext([a, b], 0, specs);
    ChainNeedsGroups(selected, specs, groups, [a, b]);
  }

  lemma ThreeLinks(kind: WorkflowKind, facts: Facts, selected: seq<CapabilityId>, groups: seq<seq<CapabilityId>>,
                   a: CapabilityId, b: CapabilityId, c: CapabilityId)
    requires Acceptable(kind, facts, selected)
    requires Known(Elements(selected), ById(EligibleCapabilities(kind, facts)))
    requires IsLayering(selected, ById(EligibleCapabilities(kind, facts)), groups)
    requires a in selected && b in selected && c in selected
    requires DependsOn(kind, facts, a, b) && DependsOn(kind, facts, b, c)
    ensures |groups| >= 3
  {
    hide IsLayering, EligibleCapabilities, ById;
    var specs := ById(EligibleCapabilities(kind, facts));
    assert DependsOnNext([a, b, c], 0, specs) && DependsOnNext([a, b, c], 1, specs);
    ChainNeedsGroups(selected, specs, groups, [a, b, c]);
  }

  /** The specification of `a` names `b`. */
  predicate DependsOn(kind: WorkflowKind, facts: Facts, a: CapabilityId, b: CapabilityId) {
    var specs := ById(EligibleCapabilities(kind, facts));
    a in specs && b in specs[a].dependencies
  }

  /** An eligible entry that is mandatory is selected, and its specification names its dependencies. */
  lemma EntryIsSelected(kind: WorkflowKind, facts: Facts, selected: seq<CapabilityId>, s: CapabilitySpec)
    requires Acceptable(kind, facts, selected)
    requires s in Catalogue(kind) && IsEligible(s, kind, facts) && (s.mandatory || s.id in selected)
    ensures s.id in selected
    ensures forall d :: d in s.dependencies ==> DependsOn(kind, facts, s.id, d)
  {
    hide EligibleCapabilities, ById, IsEligible, SUPPLIER_CAPABILITIES, INVOICE_CAPABILITIES;
    assert s in CAPABILITIES;
    SpecsAreEligible(kind, facts);
  }

  lemma SupplierNeedsAll(facts: Facts, selected: seq<CapabilityId>, groups: seq<seq<CapabilityId>>)
    requires Acceptable(Supplier, facts, selected)
    requires Known(Elements(selected), ById(EligibleCapabilities(Supplier, facts)))
    requires IsLayering(selected, ById(EligibleCapabilities(Supplier, facts)), groups)
    ensures |groups| >= GroupsNeeded(Supplier, facts, BankConsistency in selected)
  {
    hide Acceptable, IsLayering, EligibleCapabilities, ById, Holds, DependsOn;
    var list := SUPPLIER_CAPABILITIES;
    if Holds(facts, DocumentsReady) {
      EntryIsSelected(Supplier, facts, selected, list[0]);
      EntryIsSelected(Supplier, facts, selected, list[5]);
      TwoLinks(Supplier, facts, selected, groups, DocumentCompleteness, DocumentIntelligence);
    } else {
      EntryIsSelected(Supplier, facts, selected, list[3]);
      OneGroup(Supplier, facts, selected, groups);
    }
  }

  lemma OneGroup(kind: WorkflowKind, facts: Facts, selected: seq<CapabilityId>, groups: seq<seq<CapabilityId>>)
    requires Known(Elements(selected), ById(EligibleCapabilities(kind, facts)))
    requires IsLayering(selected, ById(EligibleCapabilities(kind, facts)), groups)
    requires selected != []
    ensures |groups| >= 1
  {
    assert selected[0] in Elements(selected);
  }

  lemma InvoiceNeedsAll(facts: Facts, selected: seq<CapabilityId>, groups: seq<seq<CapabilityId>>)
    requires Acceptable(Invoice, facts, selected)
    requires Known(Elements(selected), ById(EligibleCapabilities(Invoice, facts)))
    requires IsLayering(selected, ById(EligibleCapabilities(Invoice, facts)), groups)
    ensures |groups| >= GroupsNeeded(Invoice, facts, BankConsistency in selected)
  {
    hide Acceptable, IsLayering, EligibleCapabilities, ById, Holds, DependsOn;
    var list := INVOICE_CAPABILITIES;
    EntryIsSelected(Invoice, facts, selected, list[5]);
    OneGroup(Invoice, facts, selected, groups);
    if Holds(facts, PoReferenceAvailable) {
      EntryIsSelected(Invoice, facts, selected, list[1]);
      EntryIsSelected(Invoice, facts, selected, list[2]);
      EntryIsSelected(Invoice, facts, selected, list[6]);
      ThreeLinks(Invoice, facts, selected, groups, ThreeWayMatch, GrnRetrieval, PoRetrieval);
    } else if Holds(facts, VendorIdentityAvailable) {
      VendorNeedsAll(facts, selected, groups);
    }
  }

  /** The longest chain through the resolved vendor. */
  lemma VendorNeedsAll(facts: Facts, selected: seq<CapabilityId>, groups: seq<seq<CapabilityId>>)
    requires Acceptable(Invoice, facts, selected) && Holds(facts, VendorIdentityAvailable)
    requires Known(Elements(selected), ById(EligibleCapabilities(Invoice, facts)))
    requires IsLayering(selected, ById(EligibleCapabilities(Invoice, facts)), groups)
    requires |groups| >= 1 && !Holds(facts, PoReferenceAvailable)
    ensures |groups| >= GroupsNeeded(Invoice, facts, BankConsistency in selected)
  {
    var list := INVOICE_CAPABILITIES;
    EntryIsSelected(Invoice, facts, selected, list[3]);
    var last: CapabilityId;
    if Holds(facts, InvoiceNumberAvailable) {
      last := DuplicateInvoice;
      EntryIsSelected(Invoice, facts, selected, list[4]);
    } else if BankConsistency in selected {
      last := BankConsistency;
      BankIsEntry(facts, selected);
    }
    hide Acceptable, IsLayering, EligibleCapabilities, ById, DependsOn;
    var long := Holds(facts, InvoiceNumberAvailable) || BankConsistency in selected;
    if Holds(facts, DocumentsReady) {
      EntryIsSelected(Invoice, facts, selected, list[0]);
      if long {
        ThreeLinks(Invoice, facts, selected, groups, last, VendorResolution, DocumentIntelligence);
      } else {
        TwoLinks(Invoice, facts, selected, groups, VendorResolution, DocumentIntelligence);
      }
    } else if long {
      TwoLinks(Invoice, facts, selected, groups, last, VendorResolution);
    }
  }

  lemma BankIsEntry(facts: Facts, selected: seq<CapabilityId>)
    requires Acceptable(Invoice, facts, selected) && BankConsistency in selected
    ensures DependsOn(Invoice, facts, BankConsistency, VendorResolution)
  {
    hide EligibleCapabilities, ById, IsEligible, Holds;
    SpecsAreEligible(Invoice, facts);
    BankDependencies(ById(EligibleCapabilities(Invoice, facts))[BankConsistency], facts);
  }

  lemma BankDependencies(s: CapabilitySpec, facts: Facts)
    requires s in CAPABILITIES && s.id == BankConsistency && IsEligible(s, Invoice, facts)
    ensures VendorResolution in s.dependencies
  {
    IdDeterminesEntry(s);
    assert s.dependencies[1] == VendorResolution;
  }

  /** An accepted plan has exactly the number of groups that the facts and the bank check ask for. */
  lemma GroupCount(kind: WorkflowKind, facts: Facts, selected: seq<CapabilityId>, groups: seq<seq<CapabilityId>>)
    requires Acceptable(kind, facts, selected)
    requires Known(Elements(selected), ById(EligibleCapabilities(kind, facts)))
    requires IsLayering(selected, ById(EligibleCapabilities(kind, facts)), groups)
    ensures |groups| == GroupsNeeded(kind, facts, BankConsistency in selected) <= if kind == Supplier then 2 else 3
    ensures kind == Supplier ==> |groups| == if (DocumentsReady, true) in facts.Items then 2 else 1
    ensures kind == Invoice && (PoReferenceAvailable, true) in facts.Items ==> |groups| == 3
    ensures kind == Invoice && (PoReferenceAvailable, true) !in facts.Items ==>
              && ((VendorIdentityAvailable, true) !in facts.Items ==> |groups| == 1)
              && ((VendorIdentityAvailable, true) in facts.Items ==>
                    |groups| == 1 + (if (DocumentsReady, true) in facts.Items then 1 else 0)
                                + (if (InvoiceNumberAvailable, true) in facts.Items || BankConsistency in selected
                                   then 1 else 0))
  {
    assert forall p :: Holds(facts, p) <==> (p, true) in facts.Items;
    hide Acceptable, IsLayering, EligibleCapabilities, ById, Holds, Rank;
    var specs := ById(EligibleCapabilities(kind, facts));
    var needed := GroupsNeeded(kind, facts, BankConsistency in selected);
    var schedule := RanksAreSchedule(kind, facts, selected);
    NoScheduleIsShorter(selected, specs, groups, schedule, needed);
    if kind == Supplier {
      SupplierNeedsAll(facts, selected, groups);
    } else {
      InvoiceNeedsAll(facts, selected, groups);
    }
  }

  /** What a capability above the first group waits for, one group earlier. */
  function WaitsFor(kind: WorkflowKind, c: CapabilityId): CapabilityId {
    match c
    case GrnRetrieval => PoRetrieval
    case ThreeWayMatch => GrnRetrieval
    case DuplicateInvoice => VendorResolution
    case BankConsistency => if kind == Supplier then DocumentIntelligence else VendorResolution
    case _ => DocumentIntelligence
  }

  lemma WaitsBelow(kind: WorkflowKind, facts: Facts, c: CapabilityId)
    requires c in EligibleIds(kind, facts) && Rank(kind, facts, c) > 0
    ensures var d := WaitsFor(kind, c);
            && d in EligibleIds(kind, facts) && d != BankConsistency && DependsOn(kind, facts, c, d)
            && Rank(kind, facts, d) == Rank(kind, facts, c) - 1
  {
    FactsAgree(facts);
    hide DependsOn, IsTrue, Holds;
    if kind == Supplier {
      SupplierNames(facts, c);
    } else {
      InvoiceNames(facts, c);
    }
    SpecNames(kind, facts, c, WaitsFor(kind, c));
  }

  lemma SupplierNames(facts: Facts, c: CapabilityId)
    requires c in EligibleIds(Supplier, facts) && Rank(Supplier, facts, c) > 0
    ensures Position(Supplier, c) < |SUPPLIER_CAPABILITIES|
    ensures WaitsFor(Supplier, c) in SUPPLIER_CAPABILITIES[Position(Supplier, c)].dependencies
  {
    hide SUPPLIER_CAPABILITIES, IsTrue, Holds;
    SupplierTable(Position(Supplier, c));
  }

  lemma InvoiceNames(facts: Facts, c: CapabilityId)
    requires c in EligibleIds(Invoice, facts) && Rank(Invoice, facts, c) > 0
    ensures Position(Invoice, c) < |INVOICE_CAPABILITIES|
    ensures WaitsFor(Invoice, c) in INVOICE_CAPABILITIES[Position(Invoice, c)].dependencies
  {
    hide INVOICE_CAPABILITIES, IsTrue, Holds;
    InvoiceTable(Position(Invoice, c));
  }

  lemma FactsAgree(facts: Facts)
    ensures forall p :: IsTrue(facts, p) <==> Holds(facts, p)
  {
  }

  lemma SpecNames(kind: WorkflowKind, facts: Facts, c: CapabilityId, d: CapabilityId)
    requires c in EligibleIds(kind, facts)
    requires Position(kind, c) < |Catalogue(kind)| ==> d in Catalogue(kind)[Position(kind, c)].dependencies
    ensures DependsOn(kind, facts, c, d)
  {
    hide EligibleIds, CAPABILITIES, SUPPLIER_CAPABILITIES, INVOICE_CAPABILITIES;
    EligibleIdsAre(kind, facts);
    SpecsAreEligible(kind, facts);
    var specs := ById(EligibleCapabilities(kind, facts));
    hide EligibleCapabilities, ById;
    IdDeterminesEntry(specs[c]);
  }

  /**
   Which group each capability runs in, for every accepted plan: what reads
   nothing comes first, what needs the documents second when there are any, and
   so on; the planner's choices do not matter.
   */
  lemma {:induction false} GroupOfEach(kind: WorkflowKind, facts: Facts, selected: seq<CapabilityId>,
                                       groups: seq<seq<CapabilityId>>, k: nat, c: CapabilityId)
    requires Acceptable(kind, facts, selected)
    requires Known(Elements(selected), ById(EligibleCapabilities(kind, facts)))
    requires IsLayering(selected, ById(EligibleCapabilities(kind, facts)), groups)
    requires k < |groups| && c in groups[k]
    ensures k == Rank(kind, facts, c)
    decreases k
  {
    hide Rank, EligibleCapabilities, ById, EligibleIds, IsLayering;
    var specs := ById(EligibleCapabilities(kind, facts));
    var schedule := RanksAreSchedule(kind, facts, selected);
    NoScheduleIsEarlier(selected, specs, groups, schedule, k, c);
    InGroup(selected, specs, groups, k, c);
    EligibleIdsAre(kind, facts);
    AcceptableIff(kind, facts, selected);
    if Rank(kind, facts, c) > 0 {
      WaitsBelow(kind, facts, c);
      var d := WaitsFor(kind, c);
      assert d in EligibleIds(kind, facts) - {BankConsistency};
      assert d in Below(c, Elements(selected), specs);
      LayeringRespects(selected, specs, groups, k, c, d);
      var i :| 0 <= i < k && d in groups[i];
      GroupOfEach(kind, facts, selected, groups, i, d);
    }
  }
}
