/** The Banker's algorithm object of project3.cpp: matrices updated in place
    by setters, by the need computation and by request application, a safety
    check that iterates to a fixed point, and the request evaluation of the
    program's driver. */
module Bankers {
  import opened Resources

  class BankersAlgorithm {
    const numProcesses: nat
    const numResources: nat
    var allocation: Matrix
    var max: Matrix
    var need: Matrix
    var available: seq<int>

    /** Every matrix has numProcesses rows of numResources entries. */
    ghost predicate Valid()
      reads this
    {
      IsMatrix(allocation, numProcesses, numResources) &&
      IsMatrix(max, numProcesses, numResources) &&
      IsMatrix(need, numProcesses, numResources) &&
      |available| == numResources
    }

    /** The object's fields as a value. */
    function State(): (s: ResourceState)
      reads this
      ensures Valid() ==> s.WellFormed() && s.P() == numProcesses && s.R() == numResources
    {
      ResourceState(allocation, max, need, available)
    }

    constructor (processes: nat, resources: nat)
      ensures Valid() && numProcesses == processes && numResources == resources
      ensures State() == Initial(processes, resources)
    {
      numProcesses := processes;
      numResources := resources;
      allocation := Zeros(processes, resources);
      max := Zeros(processes, resources);
      need := Zeros(processes, resources);
      available := seq(resources, _ => 0);
    }

    /** Replaces the available vector; a vector of the wrong length is ignored. */
    method SetAvailable(av: seq<int>)
      requires Valid()
      modifies this
      ensures Valid()
      ensures State() == if |av| == numResources then old(State()).(available := av) else old(State())
    {
      if |av| != numResources { return; }
      available := av;
    }

    /** Replaces row `pid` of max; an unknown process or a row of the wrong
        length is ignored. */
    method SetMaxRow(pid: int, row: seq<int>)
      requires Valid()
      modifies this
      ensures Valid()
      ensures State() == if 0 <= pid < numProcesses && |row| == numResources
        then old(State()).(max := old(max)[pid := row]) else old(State())
    {
      if pid < 0 || pid >= numProcesses { return; }
      if |row| != numResources { return; }
      max := max[pid := row];
    }

    /** Replaces row `pid` of allocation; an unknown process or a row of the
        wrong length is ignored. */
    method SetAllocationRow(pid: int, row: seq<int>)
      requires Valid()
      modifies this
      ensures Valid()
      ensures State() == if 0 <= pid < numProcesses && |row| == numResources
        then old(State()).(allocation := old(allocation)[pid := row]) else old(State())
    {
      if pid < 0 || pid >= numProcesses { return; }
      if |row| != numResources { return; }
      allocation := allocation[pid := row];
    }

    /** Sets need to max minus allocation, clamped at zero; nothing else changes. */
    method ComputeNeed()
      requires Valid()
      modifies this
      ensures Valid()
      ensures State() == old(State()).(need := NeedOf(old(State())))
    {
      ghost var target := NeedOf(State());
      for i := 0 to numProcesses
        invariant Valid()
        invariant allocation == old(allocation) && max == old(max) && available == old(available)
        invariant forall k :: 0 <= k < i ==> need[k] == target[k]
      {
        for j := 0 to numResources
          invariant Valid()
          invariant allocation == old(allocation) && max == old(max) && available == old(available)
          invariant forall k :: 0 <= k < i ==> need[k] == target[k]
          invariant forall l :: 0 <= l < j ==> need[i][l] == target[i][l]
        {
          need := need[i := need[i][j := max[i][j] - allocation[i][j]]];
          if need[i][j] < 0 {
            need := need[i := need[i][j := 0]];  // a negative difference becomes zero
          }
        }
        assert need[i] == target[i];
      }
      assert need == target;
    }

    /** The safety check. Starting from work = available and nothing finished,
        passes over the processes in index order finish every process whose
        need fits within work and add its allocation to work, until a pass
        makes no progress; the state is reported safe when every process
        finished. A reported safe state has a safe sequence; with non-negative
        allocations the converse holds too. No field changes, and there are at
        most numProcesses + 1 passes. */
    method IsSafe() returns (safe: bool, ghost passes: nat)
      requires Valid()
      ensures safe ==> Safe(State())
      ensures NonNegative(allocation) ==> (safe <==> Safe(State()))
      ensures passes <= numProcesses + 1
    {
      ghost var s := State();
      var work := available;
      var finish := seq(numProcesses, _ => false);
      ghost var order: seq<nat> := [];
      passes := 0;
      UnfinishedNone(numProcesses, numProcesses);
      WorkNone(s);
      assert Scanned(s, finish, work, order);
      while true
        invariant Scanned(s, finish, work, order)
        invariant passes <= |order|
        decreases numProcesses - |order|
      {
        passes := passes + 1;
        var progressed := false;
        ghost var before := |order|;
        for i := 0 to numProcesses
          invariant Scanned(s, finish, work, order)
          invariant before <= |order| && (progressed <==> before < |order|)
          invariant !progressed ==> forall k :: 0 <= k < i && !finish[k] ==> !Fits(s.need[k], work)
        {
          if finish[i] { continue; }
          var ok := FitsWithin(need[i], work);
          if ok {
            // finish process i and return its allocation to work
            var grown := AddRow(work, allocation[i]);
            FinishProcess(s, finish, work, order, i, grown);
            work := grown;
            finish := finish[i := true];
            order := order + [i];
            progressed := true;
          }
        }
        if !progressed { break; }
      }
      for i := 0 to numProcesses
        invariant forall k :: 0 <= k < i ==> finish[k]
      {
        if !finish[i] {
          if NonNegative(allocation) {
            FixpointDecidesSafety(s, finish);
          }
          return false, passes;
        }
      }
      assert SafeSequence(s, order);
      return true, passes;
    }

    /** Whether `req` may be considered: `pid` names a process and, for every
        resource, the request is within that process's need and what is
        available. */
    method CanRequest(pid: int, req: seq<int>) returns (ok: bool)
      requires Valid() && |req| == numResources
      ensures ok == CanGrant(State(), pid, req)
    {
      if pid < 0 || pid >= numProcesses { return false; }
      for j := 0 to numResources
        invariant forall l :: 0 <= l < j ==> req[l] <= need[pid][l] && req[l] <= available[l]
      {
        if req[j] > need[pid][j] { return false; }
        if req[j] > available[j] { return false; }
      }
      return true;
    }

    /** Grants `req` to `pid` in place: allocation row up, available down,
        need row down clamped at zero. An unknown process is ignored. */
    method ApplyRequest(pid: int, req: seq<int>)
      requires Valid() && |req| == numResources
      modifies this
      ensures Valid()
      ensures State() == Grant(old(State()), pid, req)
    {
      if pid < 0 || pid >= numProcesses { return; }
      ghost var target := Grant(State(), pid, req);
      for j := 0 to numResources
        invariant Valid() && max == old(max)
        invariant forall i :: 0 <= i < numProcesses && i != pid ==>
          allocation[i] == old(allocation[i]) && need[i] == old(need[i])
        invariant forall l :: 0 <= l < j ==>
          allocation[pid][l] == target.allocation[pid][l] &&
          need[pid][l] == target.need[pid][l] &&
          available[l] == target.available[l]
        invariant forall l :: j <= l < numResources ==>
          allocation[pid][l] == old(allocation[pid][l]) &&
          need[pid][l] == old(need[pid][l]) &&
          available[l] == old(available[l])
      {
        allocation := allocation[pid := allocation[pid][j := allocation[pid][j] + req[j]]];
        available := available[j := available[j] - req[j]];
        need := need[pid := need[pid][j := need[pid][j] - req[j]]];
        if need[pid][j] < 0 {
          need := need[pid := need[pid][j := 0]];
        }
      }
      assert allocation[pid] == target.allocation[pid] && need[pid] == target.need[pid];
      assert allocation == target.allocation;
      assert need == target.need;
      assert available == target.available;
    }
  }

  /** The test of the safety loop's inner scan: every entry of `row` is at
      most the matching entry of `work`; the scan stops at the first that is not. */
  method FitsWithin(row: seq<int>, work: seq<int>) returns (ok: bool)
    requires |row| == |work|
    ensures ok == Fits(row, work)
  {
    ok := true;
    for j := 0 to |row|
      invariant forall l :: 0 <= l < j ==> row[l] <= work[l]
    {
      if row[j] > work[j] { ok := false; break; }
    }
  }

  /** Adds `row` into `work`, entry by entry, as the safety loop does when a
      process finishes. */
  method AddRow(work: seq<int>, row: seq<int>) returns (w: seq<int>)
    requires |row| == |work|
    ensures |w| == |work| && forall j :: 0 <= j < |w| ==> w[j] == work[j] + row[j]
  {
    w := work;
    for j := 0 to |w|
      invariant |w| == |work|
      invariant forall l :: 0 <= l < j ==> w[l] == work[l] + row[l]
      invariant forall l :: j <= l < |w| ==> w[l] == work[l]
    {
      w := w[j := w[j] + row[j]];
    }
  }

  /** What the safety loop knows between steps: `work` is what the processes
      marked in `finish` leave available, those processes are exactly the ones
      in `order`, in which each could finish in turn, and the unfinished ones
      are the rest. */
  ghost predicate Scanned(s: ResourceState, finish: seq<bool>, work: seq<int>, order: seq<nat>)
    requires s.WellFormed()
  {
    |finish| == s.P() && work == Work(s, finish) &&
    finish == Marks(s.P(), order) && Reaches(s, order) &&
    |order| + Unfinished(finish, s.P()) == s.P()
  }

  /** The step that finishes process `i` in the safety loop: with its need
      within `work`, marking it finished, adding its allocation to `work` and
      appending it to the order keeps what the loop knows. */
  lemma FinishProcess(s: ResourceState, finish: seq<bool>, work: seq<int>, order: seq<nat>, i: nat, grown: seq<int>)
    requires s.WellFormed() && Scanned(s, finish, work, order)
    requires i < s.P() && !finish[i] && Fits(s.need[i], work)
    requires |grown| == |work| && forall j :: 0 <= j < |grown| ==> grown[j] == work[j] + s.allocation[i][j]
    ensures Scanned(s, finish[i := true], grown, order + [i]) && |order + [i]| == |order| + 1
  {
    WorkSelect(s, finish, i);
    UnfinishedMark(finish, s.P(), i);
    var next := order + [i];
    forall k | 0 <= k < |next|
      ensures next[k] < s.P() && next[k] !in next[..k] &&
        Fits(s.need[next[k]], Work(s, Marks(s.P(), next[..k])))
    {
      if k < |order| {
        assert next[..k] == order[..k];
      } else {
        assert next[..k] == order;
      }
    }
    assert finish[i := true] == Marks(s.P(), next);
    assert grown == Work(s, finish[i := true]);
  }

  /** The request evaluation of the driver, after parsing: an unsafe current
      state is reported; otherwise an invalid request is denied; otherwise
      the request is applied and the safety of the new state is reported. A
      state is changed only when the request is granted. With non-negative
      allocations and request, the outcome is the one Decide specifies. */
  method EvaluateRequest(bankers: BankersAlgorithm, pid: int, request: seq<int>) returns (o: Outcome)
    requires bankers.Valid() && |request| == bankers.numResources
    modifies bankers
    ensures bankers.Valid()
    ensures bankers.State() ==
      if o == GrantedSafe || o == GrantedUnsafe then Grant(old(bankers.State()), pid, request)
      else old(bankers.State())
    ensures o != CurrentUnsafe ==> Safe(old(bankers.State()))
    ensures (o == GrantedSafe || o == GrantedUnsafe) ==> CanGrant(old(bankers.State()), pid, request)
    ensures o == GrantedSafe ==> Safe(bankers.State())
    ensures NonNegative(old(bankers.allocation)) && NonNegativeRow(request) ==>
      o == Decide(old(bankers.State()), pid, request)
  {
    var safeBefore, _ := bankers.IsSafe();
    if !safeBefore {
      return CurrentUnsafe;
    }
    var valid := bankers.CanRequest(pid, request);
    if !valid {
      return Denied;
    }
    bankers.ApplyRequest(pid, request);
    var safeAfter, _ := bankers.IsSafe();
    o := if safeAfter then GrantedSafe else GrantedUnsafe;
  }
}
