# Banker's algorithm: a verified model

This project models the `BankersAlgorithm` class of `project3.cpp` and the
request evaluation of its driver. The class implements the Banker's
deadlock-avoidance algorithm. Its state is four fields: a P×R allocation
matrix, a P×R maximum-demand matrix (`max`), a P×R need matrix and an
`available` vector of length R, where P is the number of processes and R the
number of resource types. Its operations are:

- a constructor that zero-fills the four fields;
- setters for `available` and for one row of `max` or `allocation`, which
  ignore a bad process index or a row of the wrong length;
- `computeNeed`, which sets need to max minus allocation, clamped at zero;
- `isSafe`, the safety check, which iterates to a fixed point;
- `canRequest`, a read-only test that a request is within need and
  available;
- `applyRequest`, which grants a request in place.

The driver reports an unsafe current state. Otherwise it denies a request
that is not within bounds. Otherwise it applies the request and reports
whether the new state is safe.

The model has three modules:

- `Resources` (resources.dfy) is the state as a value, `ResourceState`. It
  defines what a *safe* state is, independently of the algorithm: some order
  of all processes (a safe sequence) lets each one finish with what is
  available once its predecessors have returned their allocation. It also
  defines the request transition `Grant`, the test `CanGrant` and the
  decision `Decide`, with lemmas about them.
- `Bankers` (bankers.dfy) is the class `BankersAlgorithm`. Its fields are
  `seq<seq<int>>` and `seq<int>`, because C++ vectors have value semantics
  and the setters replace whole rows. Its methods follow the C++ loops. Each
  method is proved against the `Resources` functions through
  `State()`, the fields read as a value.
- `Scenarios` (scenarios.dfy) evaluates the textbook five-process,
  three-resource state.

The central result is about `IsSafe`. Its greedy fixed-point loop reports
"safe" only when a safe sequence exists. With non-negative allocations, it
reports "safe" exactly when one exists, so the scan order does not affect
the verdict. The proof records the order in which the loop finishes
processes as a ghost sequence. The loop's final `finish` vector is closed:
no unfinished process fits within the work it leaves.
`FixpointContainsSafeSequence` shows that a closed set contains every
process of any safe sequence.

The loop terminates because every pass that makes progress finishes at
least one more process. `IsSafe` reports the number of passes as a ghost
result, and it is at most P + 1.

`IsSafe` and `CanRequest` have no `modifies` clause, so they change no
field. Repeated calls therefore see the same state and give the same result.

## Model

| member | source | states |
|---|---|---|
| `Bankers.BankersAlgorithm.constructor` | project3.cpp:29-36 | the dimensions are the given P and R; allocation, max and need are P rows of R zeros; available is R zeros |
| `Bankers.BankersAlgorithm.SetAvailable` | project3.cpp:39-42 | a vector of length R replaces available; any other length leaves the whole state unchanged; nothing else changes |
| `Bankers.BankersAlgorithm.SetMaxRow` | project3.cpp:44-48 | with pid in [0,P) and a row of length R, exactly row pid of max is replaced; otherwise the state is unchanged; allocation, need and available never change |
| `Bankers.BankersAlgorithm.SetAllocationRow` | project3.cpp:50-54 | with pid in [0,P) and a row of length R, exactly row pid of allocation is replaced; otherwise the state is unchanged; max, need and available never change |
| `Resources.Clamp` | project3.cpp:61 | the guard's result is non-negative, at least its argument, and either zero or the argument |
| `Resources.NeedOf` | project3.cpp:57-64 | every derived need entry is non-negative; allocation plus need reaches max; and the entry is zero unless allocation plus need equals max exactly |
| `Bankers.BankersAlgorithm.ComputeNeed` | project3.cpp:57-64 | need becomes the derived need of the current max and allocation; max, allocation and available are unchanged |
| `Bankers.FitsWithin` | project3.cpp:75-78 | the inner scan answers true exactly when every need entry is at most the matching work entry |
| `Bankers.AddRow` | project3.cpp:81 | each work entry grows by the matching allocation entry |
| `Resources.WorkSelect` | project3.cpp:81-82 | marking an unfinished process finished adds its allocation row to the work vector |
| `Bankers.FinishProcess` | project3.cpp:79-84 | finishing a process whose need fits keeps the loop's invariant: work is what the finished processes leave, the finished processes form a prefix of a safe order, and one fewer process is unfinished |
| `Resources.FixpointContainsSafeSequence` | project3.cpp:71-87 | with non-negative allocations, a finish vector at the loop's fixed point contains every process of any safe sequence |
| `Resources.FixpointDecidesSafety` | project3.cpp:86-90 | with non-negative allocations, a safe state's fixed point has every process finished, so an unfinished process at the fixed point means the state is unsafe |
| `Bankers.BankersAlgorithm.IsSafe` | project3.cpp:67-91 | a true result means a safe sequence exists; with non-negative allocations, true exactly when one exists; at most P + 1 passes; no field changes |
| `Bankers.BankersAlgorithm.CanRequest` | project3.cpp:94-102 | false for pid outside [0,P); otherwise true exactly when every request entry is at most both the process's need and available; no field changes |
| `Resources.Grant` | project3.cpp:105-113 | the request transition keeps the shape and max, and leaves every other process's allocation and need rows as they were |
| `Bankers.BankersAlgorithm.ApplyRequest` | project3.cpp:105-113 | for pid in [0,P): allocation row pid grows by the request, available shrinks by it, need row pid shrinks by it clamped at zero, and all else is unchanged; for other pid the state is unchanged |
| `Resources.GrantConserves` | project3.cpp:107-110 | for every resource, the sum of all allocations plus available is the same after the request as before |
| `Resources.GrantWithinBounds` | project3.cpp:94-113 | a non-negative request that passes the bounds check leaves available non-negative, never triggers the need clamp, and keeps allocation plus need of the process unchanged |
| `Resources.GrantKeepsNeedCurrent` | project3.cpp:105-113 | if need was derived from max and allocation, granting a non-negative request that passes the bounds check keeps it derived, so need need not be recomputed |
| `Resources.GrantedRequestKeepsInvariants` | project3.cpp:243-262 | a request the evaluation grants, from a state with non-negative allocation and derived need, leads to a state with non-negative allocation and available, derived need, and the same per-resource totals |
| `Bankers.EvaluateRequest` | project3.cpp:243-271 | the state changes only when the request is granted, and then by the request transition; any outcome but "unsafe" means the prior state was safe; a grant means the request passed the bounds check; "granted, safe" means the new state is safe; with non-negative allocations and request, the outcome is the one `Decide` gives |
| `Scenarios.ClassicNeedIsDerived` | project3.cpp:57-64 | the textbook need rows are the ones derived from its max and allocation |
| `Scenarios.ClassicIsSafe` | project3.cpp:67-91 | the textbook state is safe, by the order P1, P3, P4, P0, P2 |
| `Scenarios.ClassicGrantP1` | project3.cpp:243-263 | request P1 1 0 2 is granted, leaves available 2 3 0 and a safe state |
| `Scenarios.BuildClassic` | project3.cpp:189-233 | building the object with the constructor, the setters (available 3 3 2, the textbook max and allocation rows) and the need computation yields exactly the textbook state |
| `Scenarios.ClassicRequestP1` | project3.cpp:243-271 | evaluating request P1 1 0 2 on the object built from the textbook input grants it and reports the new state safe |
| `Scenarios.ClassicDenyP1` | project3.cpp:249-252 | request P1 2 0 0 exceeds P1's need and is denied |
| `Scenarios.ClassicGrantP4Unsafe` | project3.cpp:254-266 | request P4 3 3 0 passes the bounds check, but the state it leads to is unsafe |
| `Scenarios.NothingAvailableIsUnsafe` | project3.cpp:269-271 | with available 0 0 0 and every process needing something, the current state is reported unsafe |

Request P4 3 3 0 passes the bounds check: P4's need is 4 3 1 and available
is 3 3 2. Granting it leaves 0 0 2 available, within which no process's need
fits, so the state is unsafe (`Scenarios.ClassicGrantP4Unsafe`).

## Left out

- Input parsing in `main` (project3.cpp:166-230) is not modelled. It covers keyword matching, `cin >>` reads, end-of-stream handling and the `stoi` parse of the process name. The process index and the request reach `EvaluateRequest` as parameters. A process name that does not parse gives index -1, which the model handles like any other out-of-range index.
- Output is not modelled: `printState`, `printNeedWithHeader` (project3.cpp:116-163) and the messages `main` prints. `EvaluateRequest` returns an `Outcome` in place of the message, and the "New Need" matrix it would print is the need field of the post-grant state.
- The branch of `main` with no request line prints nothing and is not modelled separately.
- Machine `int` overflow is not modelled. Integers are unbounded, so `work[j] += allocation[i][j]` and the request arithmetic never wrap.
- A request shorter than R, which the C++ code indexes out of bounds, is excluded: `|req| == R` is a precondition of `CanRequest` and `ApplyRequest`.
- Negative dimensions are excluded: the constructor takes `nat` sizes. In C++, resizing a vector to a negative size throws.
- Bankers.BankersAlgorithm.IsSafe: the result is tied to the existence of a safe sequence in both directions only when every allocation entry is non-negative. With negative entries, only "true means safe" is proved, because adding a negative allocation can shrink the work vector.
- Bankers.EvaluateRequest: the outcome equals `Decide` only when allocations and the request are non-negative, for the reason above. The code never checks that a request is non-negative.
