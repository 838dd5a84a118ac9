/** The Banker's algorithm state as a value: the allocation, maximum-demand
    and need matrices and the available vector, the notion of a safe state
    that the safety check decides, and the request transition. */
module Resources {

  type Matrix = seq<seq<int>>

  /** `m` has `p` rows of `r` entries each. */
  predicate IsMatrix(m: Matrix, p: nat, r: nat) {
    |m| == p && forall i :: 0 <= i < p ==> |m[i]| == r
  }

  predicate NonNegative(m: Matrix) {
    forall i, j :: 0 <= i < |m| && 0 <= j < |m[i]| ==> m[i][j] >= 0
  }

  predicate NonNegativeRow(v: seq<int>) {
    forall j :: 0 <= j < |v| ==> v[j] >= 0
  }

  /** `p` rows of `r` zeros. */
  function Zeros(p: nat, r: nat): (m: Matrix)
    ensures IsMatrix(m, p, r) && NonNegative(m)
    ensures forall i, j :: 0 <= i < p && 0 <= j < r ==> m[i][j] == 0
  {
    seq(p, _ => seq(r, _ => 0))
  }

  /** A negative difference is replaced by zero. */
  function Clamp(x: int): (r: int)
    ensures r >= 0 && r >= x && (r == 0 || r == x)
  {
    if x < 0 then 0 else x
  }

  /** Sum of column `j` over the rows `i < n` that `mask` selects. */
  function MaskedSum(m: Matrix, mask: seq<bool>, j: nat, n: nat): int
    requires n <= |m| && n <= |mask|
    requires forall i :: 0 <= i < n ==> j < |m[i]|
  {
    if n == 0 then 0
    else MaskedSum(m, mask, j, n - 1) + (if mask[n - 1] then m[n - 1][j] else 0)
  }

  /** Sum of column `j` over every row. */
  function ColumnTotal(m: Matrix, j: nat): int
    requires forall i :: 0 <= i < |m| ==> j < |m[i]|
  {
    MaskedSum(m, seq(|m|, _ => true), j, |m|)
  }

  /** Selecting one more row adds that row's entry (if it lies below `n`). */
  lemma {:induction false} MaskedSumSelect(m: Matrix, mask: seq<bool>, j: nat, n: nat, i: nat)
    requires n <= |m| && n <= |mask| && i < |mask| && !mask[i]
    requires forall k :: 0 <= k < n ==> j < |m[k]|
    ensures MaskedSum(m, mask[i := true], j, n)
         == MaskedSum(m, mask, j, n) + (if i < n then m[i][j] else 0)
  {
    if n > 0 {
      MaskedSumSelect(m, mask, j, n - 1, i);
    }
  }

  /** Replacing one row changes the sum by the difference in that row. */
  lemma {:induction false} MaskedSumReplace(m: Matrix, mask: seq<bool>, j: nat, n: nat, p: nat, row: seq<int>)
    requires n <= |m| && n <= |mask| && p < |m| && j < |row|
    requires forall k :: 0 <= k < n ==> j < |m[k]|
    ensures MaskedSum(m[p := row], mask, j, n)
         == MaskedSum(m, mask, j, n) + (if p < n && mask[p] then row[j] - m[p][j] else 0)
  {
    if n > 0 {
      MaskedSumReplace(m, mask, j, n - 1, p, row);
    }
  }

  /** With a non-negative column, selecting more rows never lowers the sum. */
  lemma {:induction false} MaskedSumMonotone(m: Matrix, a: seq<bool>, b: seq<bool>, j: nat, n: nat)
    requires n <= |m| && n <= |a| && n <= |b|
    requires forall k :: 0 <= k < n ==> j < |m[k]| && m[k][j] >= 0
    requires forall k :: 0 <= k < n && a[k] ==> b[k]
    ensures MaskedSum(m, a, j, n) <= MaskedSum(m, b, j, n)
  {
    if n > 0 {
      MaskedSumMonotone(m, a, b, j, n - 1);
    }
  }

  /** Selecting no row sums to zero. */
  lemma {:induction false} MaskedSumNone(m: Matrix, mask: seq<bool>, j: nat, n: nat)
    requires n <= |m| && n <= |mask| && forall k :: 0 <= k < n ==> !mask[k]
    requires forall k :: 0 <= k < n ==> j < |m[k]|
    ensures MaskedSum(m, mask, j, n) == 0
  {
    if n > 0 {
      MaskedSumNone(m, mask, j, n - 1);
    }
  }

  /** Number of `false` entries among the first `n` of `f`. */
  function Unfinished(f: seq<bool>, n: nat): nat
    requires n <= |f|
  {
    if n == 0 then 0 else Unfinished(f, n - 1) + (if f[n - 1] then 0 else 1)
  }

  lemma {:induction false} UnfinishedNone(p: nat, n: nat)
    requires n <= p
    ensures Unfinished(seq(p, _ => false), n) == n
  {
    if n > 0 {
      UnfinishedNone(p, n - 1);
    }
  }

  /** Marking an unfinished entry finished lowers the count by one. */
  lemma {:induction false} UnfinishedMark(f: seq<bool>, n: nat, i: nat)
    requires n <= |f| && i < |f| && !f[i]
    ensures Unfinished(f[i := true], n) == Unfinished(f, n) - (if i < n then 1 else 0)
  {
    if n > 0 {
      UnfinishedMark(f, n - 1, i);
    }
  }

  datatype ResourceState = ResourceState(
    allocation: Matrix,   // instances of resource j held by process i
    max: Matrix,          // maximum demand of process i for resource j
    need: Matrix,         // remaining demand of process i for resource j
    available: seq<int>)  // free instances of resource j
  {
    /** Number of processes. */
    function P(): nat { |allocation| }

    /** Number of resource types. */
    function R(): nat { |available| }

    predicate WellFormed() {
      IsMatrix(allocation, P(), R()) && IsMatrix(max, P(), R()) && IsMatrix(need, P(), R())
    }
  }

  /** The freshly constructed state: every matrix and vector zero. */
  function Initial(p: nat, r: nat): (s: ResourceState)
    ensures s.WellFormed() && s.P() == p && s.R() == r
  {
    ResourceState(Zeros(p, r), Zeros(p, r), Zeros(p, r), seq(r, _ => 0))
  }

  /** The need matrix derived from max and allocation, clamped at zero:
      the least non-negative amount that lets the allocation reach max. */
  function NeedOf(s: ResourceState): (n: Matrix)
    requires s.WellFormed()
    ensures IsMatrix(n, s.P(), s.R()) && NonNegative(n)
    ensures forall i, j :: 0 <= i < s.P() && 0 <= j < s.R() ==>
      s.allocation[i][j] + n[i][j] >= s.max[i][j] &&
      (n[i][j] == 0 || s.allocation[i][j] + n[i][j] == s.max[i][j])
  {
    seq(s.P(), i requires 0 <= i < s.P() =>
      seq(s.R(), j requires 0 <= j < s.R() => Clamp(s.max[i][j] - s.allocation[i][j])))
  }

  /** `row` fits within `work`, component by component. */
  predicate Fits(row: seq<int>, work: seq<int>) {
    |row| <= |work| && forall j :: 0 <= j < |row| ==> row[j] <= work[j]
  }

  /** What is available once every process that `finish` selects has
      returned its allocation. */
  function Work(s: ResourceState, finish: seq<bool>): (w: seq<int>)
    requires s.WellFormed() && |finish| == s.P()
    ensures |w| == s.R()
  {
    seq(s.R(), j requires 0 <= j < s.R() => s.available[j] + MaskedSum(s.allocation, finish, j, s.P()))
  }

  /** The processes named in `order`, as a membership vector of length `p`. */
  function Marks(p: nat, order: seq<nat>): (f: seq<bool>)
    ensures |f| == p && forall i :: 0 <= i < p ==> (f[i] <==> i in order)
  {
    seq(p, i => i in order)
  }

  /** Each process in `order` is distinct and can run to completion with what
      is available after its predecessors in `order` returned their allocation. */
  ghost predicate Reaches(s: ResourceState, order: seq<nat>)
    requires s.WellFormed()
  {
    forall k :: 0 <= k < |order| ==>
      order[k] < s.P() && order[k] !in order[..k] &&
      Fits(s.need[order[k]], Work(s, Marks(s.P(), order[..k])))
  }

  /** A safe sequence: an order in which every process can finish. */
  ghost predicate SafeSequence(s: ResourceState, order: seq<nat>)
    requires s.WellFormed()
  {
    Reaches(s, order) && forall i :: 0 <= i < s.P() ==> i in order
  }

  /** The state is safe when some safe sequence exists. */
  ghost predicate Safe(s: ResourceState)
    requires s.WellFormed()
  {
    exists order :: SafeSequence(s, order)
  }

  /** No unfinished process fits within the work left by the finished ones:
      the safety loop's fixed point. */
  predicate Closed(s: ResourceState, finish: seq<bool>)
    requires s.WellFormed() && |finish| == s.P()
  {
    forall i :: 0 <= i < s.P() && !finish[i] ==> !Fits(s.need[i], Work(s, finish))
  }

  /** With nothing finished, the work vector is the available vector. */
  lemma WorkNone(s: ResourceState)
    requires s.WellFormed()
    ensures Work(s, seq(s.P(), _ => false)) == s.available
  {
    forall j | 0 <= j < s.R() ensures Work(s, seq(s.P(), _ => false))[j] == s.available[j] {
      MaskedSumNone(s.allocation, seq(s.P(), _ => false), j, s.P());
    }
  }

  /** Finishing process `i` adds its allocation row to the work vector. */
  lemma WorkSelect(s: ResourceState, finish: seq<bool>, i: nat)
    requires s.WellFormed() && |finish| == s.P() && i < s.P() && !finish[i]
    ensures forall j :: 0 <= j < s.R() ==>
      Work(s, finish[i := true])[j] == Work(s, finish)[j] + s.allocation[i][j]
  {
    forall j | 0 <= j < s.R()
      ensures Work(s, finish[i := true])[j] == Work(s, finish)[j] + s.allocation[i][j]
    {
      MaskedSumSelect(s.allocation, finish, j, s.P(), i);
    }
  }

  /** With non-negative allocations, more finished processes never leave less work. */
  lemma WorkMonotone(s: ResourceState, a: seq<bool>, b: seq<bool>)
    requires s.WellFormed() && NonNegative(s.allocation)
    requires |a| == s.P() && |b| == s.P()
    requires forall i :: 0 <= i < s.P() && a[i] ==> b[i]
    ensures forall j :: 0 <= j < s.R() ==> Work(s, a)[j] <= Work(s, b)[j]
  {
    forall j | 0 <= j < s.R() ensures Work(s, a)[j] <= Work(s, b)[j] {
      MaskedSumMonotone(s.allocation, a, b, j, s.P());
    }
  }

  /** A fixed point of the safety loop contains every process of any safe
      sequence: walking the sequence, each process fits within the fixed
      point's work, so closure forces it to be finished already. */
  lemma FixpointContainsSafeSequence(s: ResourceState, finish: seq<bool>, order: seq<nat>)
    requires s.WellFormed() && NonNegative(s.allocation)
    requires |finish| == s.P() && Closed(s, finish)
    requires Reaches(s, order)
    ensures forall k :: 0 <= k < |order| ==> finish[order[k]]
  {
    for k := 0 to |order|
      invariant forall l :: 0 <= l < k ==> finish[order[l]]
    {
      var before := Marks(s.P(), order[..k]);
      forall i | 0 <= i < s.P() && before[i] ensures finish[i] {
        var l :| 0 <= l < k && order[..k][l] == i;
      }
      WorkMonotone(s, before, finish);
      assert Fits(s.need[order[k]], Work(s, finish));
    }
  }

  /** The safety loop's fixed point decides safety: the state is safe exactly
      when the fixed point has finished every process. */
  lemma FixpointDecidesSafety(s: ResourceState, finish: seq<bool>)
    requires s.WellFormed() && NonNegative(s.allocation)
    requires |finish| == s.P() && Closed(s, finish)
    ensures Safe(s) ==> forall i :: 0 <= i < s.P() ==> finish[i]
  {
    if Safe(s) {
      var order :| SafeSequence(s, order);
      FixpointContainsSafeSequence(s, finish, order);
      forall i | 0 <= i < s.P() ensures finish[i] {
        assert i in order;
        var k :| 0 <= k < |order| && order[k] == i;
      }
    }
  }

  /** A request is grantable when the process exists and the request is within
      both that process's need and what is available. */
  predicate CanGrant(s: ResourceState, pid: int, req: seq<int>)
    requires s.WellFormed() && |req| == s.R()
  {
    0 <= pid < s.P() &&
    forall j :: 0 <= j < s.R() ==> req[j] <= s.need[pid][j] && req[j] <= s.available[j]
  }

  /** Granting `req` to `pid`: the process holds `req` more and needs `req`
      less (clamped at zero), the pool holds `req` less. Out-of-range `pid`
      leaves the state as it is. */
  function Grant(s: ResourceState, pid: int, req: seq<int>): (r: ResourceState)
    requires s.WellFormed() && |req| == s.R()
    ensures r.WellFormed() && r.P() == s.P() && r.R() == s.R()
    ensures r.max == s.max
    ensures forall i :: 0 <= i < s.P() && i != pid ==>
      r.allocation[i] == s.allocation[i] && r.need[i] == s.need[i]
  {
    if !(0 <= pid < s.P()) then s
    else
      ResourceState(
        s.allocation[pid := seq(s.R(), j requires 0 <= j < s.R() => s.allocation[pid][j] + req[j])],
        s.max,
        s.need[pid := seq(s.R(), j requires 0 <= j < s.R() => Clamp(s.need[pid][j] - req[j]))],
        seq(s.R(), j requires 0 <= j < s.R() => s.available[j] - req[j]))
  }

  /** Granting moves instances between the pool and one process: for each
      resource, allocated plus available is the same before and after. */
  lemma GrantConserves(s: ResourceState, pid: int, req: seq<int>)
    requires s.WellFormed() && |req| == s.R()
    ensures forall j :: 0 <= j < s.R() ==>
      ColumnTotal(Grant(s, pid, req).allocation, j) + Grant(s, pid, req).available[j]
      == ColumnTotal(s.allocation, j) + s.available[j]
  {
    var r := Grant(s, pid, req);
    if 0 <= pid < s.P() {
      forall j | 0 <= j < s.R()
        ensures ColumnTotal(r.allocation, j) + r.available[j] == ColumnTotal(s.allocation, j) + s.available[j]
      {
        MaskedSumReplace(s.allocation, seq(s.P(), _ => true), j, s.P(), pid, r.allocation[pid]);
      }
    }
  }

  /** A grantable, non-negative request keeps the pool non-negative, never
      triggers the need clamp, and keeps allocation plus need of the process. */
  lemma GrantWithinBounds(s: ResourceState, pid: int, req: seq<int>)
    requires s.WellFormed() && |req| == s.R()
    requires NonNegative(s.allocation) && NonNegative(s.need) && NonNegativeRow(req)
    requires CanGrant(s, pid, req)
    ensures NonNegativeRow(Grant(s, pid, req).available)
    ensures NonNegative(Grant(s, pid, req).allocation) && NonNegative(Grant(s, pid, req).need)
    ensures forall j :: 0 <= j < s.R() ==>
      Grant(s, pid, req).need[pid][j] == s.need[pid][j] - req[j] &&
      Grant(s, pid, req).allocation[pid][j] + Grant(s, pid, req).need[pid][j]
        == s.allocation[pid][j] + s.need[pid][j]
  {
  }

  /** When need was derived from max and allocation, granting a grantable,
      non-negative request keeps it so: need does not have to be recomputed. */
  lemma GrantKeepsNeedCurrent(s: ResourceState, pid: int, req: seq<int>)
    requires s.WellFormed() && |req| == s.R()
    requires s.need == NeedOf(s) && NonNegativeRow(req) && CanGrant(s, pid, req)
    ensures Grant(s, pid, req).need == NeedOf(Grant(s, pid, req))
  {
    var r := Grant(s, pid, req);
    forall i | 0 <= i < s.P() ensures r.need[i] == NeedOf(r)[i] {
      if i == pid {
        forall j | 0 <= j < s.R() ensures r.need[i][j] == NeedOf(r)[i][j] {
          assert s.need[i][j] == Clamp(s.max[i][j] - s.allocation[i][j]);
        }
      } else {
        assert s.need[i] == NeedOf(s)[i];
      }
    }
  }

  /** What the request evaluation reports. */
  datatype Outcome =
    | CurrentUnsafe   // the state before the request is unsafe
    | Denied          // the request exceeds need or available
    | GrantedSafe     // granting leaves the state safe
    | GrantedUnsafe   // granting leaves the state unsafe

  /** The evaluation of one request: an unsafe state is reported as such; a
      request that is not grantable is denied; otherwise the request is granted
      and the verdict is the safety of the state that results. */
  ghost function Decide(s: ResourceState, pid: int, req: seq<int>): Outcome
    requires s.WellFormed() && |req| == s.R()
  {
    if !Safe(s) then CurrentUnsafe
    else if !CanGrant(s, pid, req) then Denied
    else if Safe(Grant(s, pid, req)) then GrantedSafe
    else GrantedUnsafe
  }

  /** A request that the evaluation grants, from a state with non-negative
      allocation and need derived from max and allocation, leads to a state
      with the same properties and a non-negative pool, and keeps each
      resource's total of allocated plus available. */
  lemma GrantedRequestKeepsInvariants(s: ResourceState, pid: int, req: seq<int>)
    requires s.WellFormed() && |req| == s.R()
    requires NonNegative(s.allocation) && s.need == NeedOf(s) && NonNegativeRow(req)
    requires Decide(s, pid, req) == GrantedSafe || Decide(s, pid, req) == GrantedUnsafe
    ensures NonNegative(Grant(s, pid, req).allocation) && NonNegativeRow(Grant(s, pid, req).available)
    ensures Grant(s, pid, req).need == NeedOf(Grant(s, pid, req))
    ensures forall j :: 0 <= j < s.R() ==>
      ColumnTotal(Grant(s, pid, req).allocation, j) + Grant(s, pid, req).available[j]
      == ColumnTotal(s.allocation, j) + s.available[j]
  {
    GrantWithinBounds(s, pid, req);
    GrantKeepsNeedCurrent(s, pid, req);
    GrantConserves(s, pid, req);
  }
}
