/** Concrete evaluations of the classic five-process, three-resource state. */
module Scenarios {
  import opened Resources
  import opened Bankers

  /** Available 3 3 2; the Max and Allocation rows of the textbook example;
      need derived from them. */
  function Classic(): (s: ResourceState)
    ensures s.WellFormed() && s.P() == 5 && s.R() == 3
  {
    var allocation := [[0, 1, 0], [2, 0, 0], [3, 0, 2], [2, 1, 1], [0, 0, 2]];
    var max := [[7, 5, 3], [3, 2, 2], [9, 0, 2], [2, 2, 2], [4, 3, 3]];
    var need := [[7, 4, 3], [1, 2, 2], [6, 0, 0], [0, 1, 1], [4, 3, 1]];
    ResourceState(allocation, max, need, [3, 3, 2])
  }

  /** The need rows of Classic are the ones derived from max and allocation. */
  lemma ClassicNeedIsDerived()
    ensures Classic().need == NeedOf(Classic())
  {
    var s := Classic();
    var n := NeedOf(s);
    forall i, j | 0 <= i < 5 && 0 <= j < 3 ensures n[i][j] == s.need[i][j] {
      assert n[i][j] == Clamp(s.max[i][j] - s.allocation[i][j]);
    }
    assert forall i | 0 <= i < 5 :: n[i] == s.need[i];
  }

  /** Work once the processes in `finish` have returned their allocation,
      spelled out for five processes. */
  lemma WorkOfFive(s: ResourceState, finish: seq<bool>)
    requires s.WellFormed() && s.P() == 5 && |finish| == 5
    ensures forall j :: 0 <= j < s.R() ==>
      Work(s, finish)[j] == s.available[j]
        + (if finish[0] then s.allocation[0][j] else 0)
        + (if finish[1] then s.allocation[1][j] else 0)
        + (if finish[2] then s.allocation[2][j] else 0)
        + (if finish[3] then s.allocation[3][j] else 0)
        + (if finish[4] then s.allocation[4][j] else 0)
  {
    forall j | 0 <= j < s.R()
      ensures Work(s, finish)[j] == s.available[j]
      + (if finish[0] then s.allocation[0][j] else 0)
      + (if finish[1] then s.allocation[1][j] else 0)
      + (if finish[2] then s.allocation[2][j] else 0)
      + (if finish[3] then s.allocation[3][j] else 0)
      + (if finish[4] then s.allocation[4][j] else 0)
    {
      var m := s.allocation;
      assert MaskedSum(m, finish, j, 1) == (if finish[0] then m[0][j] else 0);
      assert MaskedSum(m, finish, j, 2) == MaskedSum(m, finish, j, 1) + (if finish[1] then m[1][j] else 0);
      assert MaskedSum(m, finish, j, 3) == MaskedSum(m, finish, j, 2) + (if finish[2] then m[2][j] else 0);
      assert MaskedSum(m, finish, j, 4) == MaskedSum(m, finish, j, 3) + (if finish[3] then m[3][j] else 0);
    }
  }

  /** P1, P3, P4, P0, P2 is a safe sequence of `s` when each process fits
      within the work its predecessors leave. */
  lemma OrderIsSafe(s: ResourceState)
    requires s.WellFormed() && s.P() == 5 && s.R() == 3
    requires Fits(s.need[1], Work(s, [false, false, false, false, false]))
    requires Fits(s.need[3], Work(s, [false, true, false, false, false]))
    requires Fits(s.need[4], Work(s, [false, true, false, true, false]))
    requires Fits(s.need[0], Work(s, [false, true, false, true, true]))
    requires Fits(s.need[2], Work(s, [true, true, false, true, true]))
    ensures SafeSequence(s, [1, 3, 4, 0, 2])
  {
    var order: seq<nat> := [1, 3, 4, 0, 2];
    assert order[..1] == [1] && order[..2] == [1, 3] && order[..3] == [1, 3, 4] && order[..4] == [1, 3, 4, 0];
    assert Marks(5, order[..0]) == [false, false, false, false, false];
    assert Marks(5, [1]) == [false, true, false, false, false];
    assert Marks(5, [1, 3]) == [false, true, false, true, false];
    assert Marks(5, [1, 3, 4]) == [false, true, false, true, true];
    assert Marks(5, [1, 3, 4, 0]) == [true, true, false, true, true];
    assert order[3] == 0 && order[0] == 1 && order[4] == 2 && order[1] == 3 && order[2] == 4;
  }

  /** The classic state is safe. */
  lemma ClassicIsSafe()
    ensures Safe(Classic())
  {
    var s := Classic();
    WorkOfFive(s, [false, false, false, false, false]);
    WorkOfFive(s, [false, true, false, false, false]);
    WorkOfFive(s, [false, true, false, true, false]);
    WorkOfFive(s, [false, true, false, true, true]);
    WorkOfFive(s, [true, true, false, true, true]);
    OrderIsSafe(s);
  }

  /** The classic state after granting P1 1 0 2. */
  function AfterP1(): (s: ResourceState)
    ensures s.WellFormed() && s.P() == 5 && s.R() == 3
  {
    ResourceState(
      [[0, 1, 0], [3, 0, 2], [3, 0, 2], [2, 1, 1], [0, 0, 2]],
      [[7, 5, 3], [3, 2, 2], [9, 0, 2], [2, 2, 2], [4, 3, 3]],
      [[7, 4, 3], [0, 2, 0], [6, 0, 0], [0, 1, 1], [4, 3, 1]],
      [2, 3, 0])
  }

  /** The classic state after granting P4 3 3 0. */
  function AfterP4(): (s: ResourceState)
    ensures s.WellFormed() && s.P() == 5 && s.R() == 3
  {
    ResourceState(
      [[0, 1, 0], [2, 0, 0], [3, 0, 2], [2, 1, 1], [3, 3, 2]],
      [[7, 5, 3], [3, 2, 2], [9, 0, 2], [2, 2, 2], [4, 3, 3]],
      [[7, 4, 3], [1, 2, 2], [6, 0, 0], [0, 1, 1], [1, 0, 1]],
      [0, 0, 2])
  }

  lemma GrantP1Result()
    ensures CanGrant(Classic(), 1, [1, 0, 2]) && Grant(Classic(), 1, [1, 0, 2]) == AfterP1()
  {
    var g := Grant(Classic(), 1, [1, 0, 2]);
    assert g.allocation[1] == [3, 0, 2] && g.need[1] == [0, 2, 0] && g.available == [2, 3, 0];
    assert g.allocation == AfterP1().allocation;
    assert g.need == AfterP1().need;
  }

  lemma GrantP4Result()
    ensures CanGrant(Classic(), 4, [3, 3, 0]) && Grant(Classic(), 4, [3, 3, 0]) == AfterP4()
  {
    var g := Grant(Classic(), 4, [3, 3, 0]);
    assert g.allocation[4] == [3, 3, 2] && g.need[4] == [1, 0, 1] && g.available == [0, 0, 2];
    assert g.allocation == AfterP4().allocation;
    assert g.need == AfterP4().need;
  }

  /** The state after granting P1 1 0 2 is safe by the same order. */
  lemma AfterP1IsSafe()
    ensures Safe(AfterP1())
  {
    var s := AfterP1();
    WorkOfFive(s, [false, false, false, false, false]);
    WorkOfFive(s, [false, true, false, false, false]);
    WorkOfFive(s, [false, true, false, true, false]);
    WorkOfFive(s, [false, true, false, true, true]);
    WorkOfFive(s, [true, true, false, true, true]);
    OrderIsSafe(s);
  }

  /** After granting P4 3 3 0 only 0 0 2 is available, within which no
      process's need fits: nothing can finish, so the state is unsafe. */
  lemma AfterP4IsUnsafe()
    ensures !Safe(AfterP4())
  {
    var s := AfterP4();
    var none := seq(5, _ => false);
    WorkNone(s);
    assert Closed(s, none) by {
      assert !Fits(s.need[0], Work(s, none)) by { assert s.need[0][0] > Work(s, none)[0]; }
      assert !Fits(s.need[1], Work(s, none)) by { assert s.need[1][0] > Work(s, none)[0]; }
      assert !Fits(s.need[2], Work(s, none)) by { assert s.need[2][0] > Work(s, none)[0]; }
      assert !Fits(s.need[3], Work(s, none)) by { assert s.need[3][1] > Work(s, none)[1]; }
      assert !Fits(s.need[4], Work(s, none)) by { assert s.need[4][0] > Work(s, none)[0]; }
    }
    FixpointDecidesSafety(s, none);
    assert !none[0];
  }

  /** Request P1 1 0 2 is within need and available; granting it leaves
      available 2 3 0 and the state safe. */
  lemma ClassicGrantP1()
    ensures Decide(Classic(), 1, [1, 0, 2]) == GrantedSafe
    ensures Grant(Classic(), 1, [1, 0, 2]).available == [2, 3, 0]
  {
    ClassicIsSafe();
    GrantP1Result();
    AfterP1IsSafe();
  }

  /** Request P1 2 0 0 exceeds P1's need of 1 for the first resource. */
  lemma ClassicDenyP1()
    ensures Decide(Classic(), 1, [2, 0, 0]) == Denied
  {
    ClassicIsSafe();
    assert [2, 0, 0][0] > Classic().need[1][0];
  }

  /** Request P4 3 3 0 is within need and available, but the state it leads
      to is unsafe. */
  lemma ClassicGrantP4Unsafe()
    ensures Decide(Classic(), 4, [3, 3, 0]) == GrantedUnsafe
  {
    ClassicIsSafe();
    GrantP4Result();
    AfterP4IsUnsafe();
  }

  /** With nothing available and every process needing something, the current
      state is reported unsafe. */
  lemma NothingAvailableIsUnsafe()
    ensures Decide(Classic().(available := [0, 0, 0]), 0, [0, 0, 0]) == CurrentUnsafe
  {
    var s := Classic().(available := [0, 0, 0]);
    var none := seq(5, _ => false);
    WorkNone(s);
    assert Closed(s, none) by {
      assert !Fits(s.need[0], Work(s, none)) by { assert s.need[0][0] > Work(s, none)[0]; }
      assert !Fits(s.need[1], Work(s, none)) by { assert s.need[1][0] > Work(s, none)[0]; }
      assert !Fits(s.need[2], Work(s, none)) by { assert s.need[2][0] > Work(s, none)[0]; }
      assert !Fits(s.need[3], Work(s, none)) by { assert s.need[3][1] > Work(s, none)[1]; }
      assert !Fits(s.need[4], Work(s, none)) by { assert s.need[4][0] > Work(s, none)[0]; }
    }
    FixpointDecidesSafety(s, none);
    assert !none[0];
  }

  /** Computing need on any state with the textbook max, allocation and
      available gives the textbook state. */
  lemma ComputedNeedIsClassic(t: ResourceState)
    requires t.WellFormed()
    requires t.allocation == Classic().allocation && t.max == Classic().max
    requires t.available == Classic().available
    ensures t.(need := NeedOf(t)) == Classic()
  {
    var n, c := NeedOf(t), NeedOf(Classic());
    forall i | 0 <= i < 5 ensures n[i] == c[i] {
      assert forall j | 0 <= j < 3 :: n[i][j] == c[i][j];
    }
    ClassicNeedIsDerived();
  }

  /** The driver's construction on the textbook input: the object is built
      with the constructor and the setters, then need is computed. */
  method BuildClassic() returns (b: BankersAlgorithm)
    ensures fresh(b) && b.Valid() && b.numResources == 3 && b.State() == Classic()
  {
    b := new BankersAlgorithm(5, 3);
    b.SetAvailable([3, 3, 2]);
    b.SetMaxRow(0, [7, 5, 3]);
    b.SetMaxRow(1, [3, 2, 2]);
    b.SetMaxRow(2, [9, 0, 2]);
    b.SetMaxRow(3, [2, 2, 2]);
    b.SetMaxRow(4, [4, 3, 3]);
    assert b.max == Classic().max;
    b.SetAllocationRow(0, [0, 1, 0]);
    b.SetAllocationRow(1, [2, 0, 0]);
    b.SetAllocationRow(2, [3, 0, 2]);
    b.SetAllocationRow(3, [2, 1, 1]);
    b.SetAllocationRow(4, [0, 0, 2]);
    assert b.allocation == Classic().allocation && b.max == Classic().max;
    assert b.available == Classic().available;
    ghost var built := b.State();
    b.ComputeNeed();
    ComputedNeedIsClassic(built);
  }

  /** The driver's path on the textbook input: request P1 1 0 2 is evaluated
      on the object built from it, which grants the request and finds the new
      state safe. */
  method ClassicRequestP1() returns (o: Outcome)
    ensures o == GrantedSafe
  {
    var b := BuildClassic();
    ClassicGrantP1();
    o := EvaluateRequest(b, 1, [1, 0, 2]);
  }
}
