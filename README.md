# Assertion defender and challenge chooser of arb-util, in Dafny

This project models `machine/defender.go`. That file holds the defender's half, and the challenger's half, of an interactive fraud-proof dispute about the execution of a deterministic virtual machine.

- **`AssertionDefender`** holds four things: a claim (`Assertion`) about some number of machine steps, the `Precondition` the claim ran under, the inbox it saw, and the machine state from before it ran.
- **`NBisect(slices)`** splits an `n`-step claim into `min(n, slices)` contiguous pieces. The first `n % slices` pieces get one extra step. Each piece is re-executed from the state the previous piece left behind. Its precondition is the previous piece's postcondition.
- **`ChooseAssertionToChallenge`** replays a list of claimed stubs against the real machine. It returns the first one whose replay disagrees, with the machine state from before that segment. If every segment agrees, it returns the error "all segments in false Assertion are valid".

The virtual machine and the protocol types are defined outside this file. They are therefore type parameters (`M` machine, `A` assertion, `S` stub, `P` precondition, `B` balance, `T` time bounds, `V` inbox value). The operations the file calls on them are function values in the record `Defender.Env`:

- `ExecuteAssertion` becomes `env.execute`. It is deterministic and returns the state the machine is left in, together with the defender it reports.
- `Assertion.Stub` becomes `env.stub`.
- `AssertionStub.Equals` becomes `env.stubEquals`.
- `AssertionStub.GeneratePostcondition` becomes `env.generatePostcondition`.
- The `NumSteps` field of an `Assertion` becomes `env.numSteps`.
- The `NumSteps` field of an `AssertionStub` becomes `env.stubNumSteps`.
- The `BeforeBalance` field of a `Precondition` becomes `env.beforeBalance`.
- The `TimeBounds` field of a `Precondition` becomes `env.timeBounds`.
- `Clone` is the identity on machine values.

Go's integer widths are written out in `GoInts`:
- `uint32` and `int32` are subset types of `int`, and so is `uint16`.
- The conversion `int32(stepCount)` wraps.
- `uint16(i)` keeps only the low 16 bits.

Modules:
- `GoInts` (`goints.dfy`): integer widths and conversions.
- `Defender` (`defender.dfy`): the struct, its constructor and accessors, and the collaborator record.
- `Slicing` (`slicing.dfy`): the arithmetic of the split.
- `Bisect` (`bisect.dfy`): the bisection loop and its specification fold.
- `Challenge` (`challenge.dfy`): the chooser, its replay fold, and the link between the two halves.

The two loops are methods whose `ensures` tie their results to ghost folds:
- `Bisect.BisectFold` is the state after the first `i` pieces of a bisection.
- `Challenge.ReplayState` is the state after the first `k` replayed segments.

The properties are then lemmas about those folds and about `Slicing.SliceSizes`.

Two edge cases are handled as follows:
- An execution error is discarded (`defender, _` and `ad, _`). The model follows the code and does not abort on it. Aborting would be the safer design, but it is not what the code does.
- With zero steps or zero slices, Go divides by zero and panics. The model does not model that panic: `NBisect` excludes these inputs with a `requires` that both are at least one. No "empty list" or "single zero-step child" policy is invented.

## Model

| member | source | states |
|---|---|---|
| `GoInts.Int32` | machine/defender.go:76 | `int32(stepCount)`: the result is the int32 congruent to the uint32 modulo 2^32. It equals the input below 2^31 and is negative from 2^31 upward. |
| `GoInts.Int32Unique` | machine/defender.go:96 | Any int32 congruent to x modulo 2^32 is `Int32(x)`, so the contract of the conversion determines it. |
| `GoInts.Uint16` | machine/defender.go:103 | `uint16(i)`: the result is congruent to i modulo 2^16 and equals i when i < 65536. |
| `GoInts.Uint16Unique` | machine/defender.go:103 | Any uint16 congruent to i modulo 2^16 is `Uint16(i)`. |
| `Defender.NewAssertionDefender` | machine/defender.go:34-36 | Every accessor of the new defender returns what was passed in; the machine clone equals the given state. |
| `Defender.NumSteps` | machine/defender.go:38-40 | The accessor: the step count of the defended assertion. It has no contract of its own; `NBisect`'s `requires` and `ensures` are stated in its terms. |
| `Defender.AssertionDefender.GetAssertion` | machine/defender.go:42-44 | The accessor for the claim. It has no contract of its own; `NewAssertionDefender` and `DefenderRoundTrip` state what it returns. |
| `Defender.AssertionDefender.GetPrecondition` | machine/defender.go:46-48 | The accessor for the precondition. It has no contract of its own; `NewAssertionDefender` and `DefenderRoundTrip` state what it returns. |
| `Defender.AssertionDefender.GetInbox` | machine/defender.go:50-52 | The accessor for the inbox. It has no contract of its own; `NewAssertionDefender` and `DefenderRoundTrip` state what it returns. |
| `Defender.AssertionDefender.GetMachineState` | machine/defender.go:54-56 | The accessor for the machine snapshot. It has no contract of its own; `NewAssertionDefender` and `DefenderRoundTrip` state what it returns. |
| `Defender.DefenderRoundTrip` | machine/defender.go:38-56 | Rebuilding a defender from its four accessors gives back the same defender. |
| `Slicing.ClampSlices` | machine/defender.go:60-62 | The child count is at most both the step count and the requested slice count, and it is one of the two. |
| `Slicing.SliceFits` | machine/defender.go:71-74 | When there is a remainder, `sliceSize + 1` is still at most the step count, so the `stepCount++` cannot overflow uint32. |
| `Slicing.SliceSizes` | machine/defender.go:63-74 | The step count of each piece, in order: `nsteps / slices`, plus one for each of the first `nsteps % slices` pieces. Its contract states that there are `slices` counts and that they add up to exactly `nsteps`. `NBisect`'s `ensures` is stated in its terms. The rest of its meaning is proved in `SliceSizesShape` and `SliceSizesCharacterised`. |
| `Slicing.QuotientSplit` | machine/defender.go:63-74 | Every step count (the quotient, or the quotient plus one under a remainder) is at most `nsteps`, so it fits in uint32, and the counts add up to exactly `nsteps`. |
| `Slicing.SliceSizesShape` | machine/defender.go:71-74 | Sizes are non-increasing and any two differ by at most one. A child is larger than the quotient exactly when its index is below `nsteps % slices`. Once clamped, every child has at least one step. |
| `Slicing.BalancedIsSliceSizes` | machine/defender.go:63-74 | Any non-increasing split of n into `slices` parts that sums to n and has spread at most one is the split NBisect computes. |
| `Slicing.SliceSizesCharacterised` | machine/defender.go:63-74 | Both directions: a sequence is balanced for (n, slices) if and only if it equals `SliceSizes(n, slices)`. |
| `Slicing.SliceSizesExamples` | machine/defender.go:58-74 | 10 steps in 3 slices give [4, 3, 3]; 3 steps asked for in 10 slices are clamped and give [1, 1, 1]. |
| `Bisect.Advance` | machine/defender.go:69-83 | One loop iteration appends exactly one defender and keeps the earlier ones unchanged. |
| `Bisect.BisectFold` | machine/defender.go:68-84 | After handling k pieces, the loop holds exactly k defenders. |
| `Bisect.BisectFoldPrefix` | machine/defender.go:81 | Handling more pieces only appends: the first k children are those of the first k pieces. |
| `Bisect.BisectChild` | machine/defender.go:65-83 | Child i is what the machine reports when run for piece i's step count (as int32). It runs from the state and under the precondition reached after pieces 0..i-1, with the defender's inbox. The next piece then starts from that run's final state and from `GeneratePostcondition` of child i's stub. |
| `Bisect.BisectStart` | machine/defender.go:65-67 | The chain begins at the defender's own snapshot and precondition, with no children. |
| `Bisect.NBisect` | machine/defender.go:58-86 | It returns exactly `min(nsteps, slices)` defenders, and they are the fold of the split `SliceSizes` run from the receiver's `initState`, `precondition` and `beforeInbox`. It requires at least one step and one slice; below that Go divides by zero. |
| `Challenge.Replay` | machine/defender.go:94-100 | The run the chooser makes for one claimed segment: the claim's step count as int32, with that segment's balance and time bounds and the shared inbox. It has no contract of its own; the chooser's `ensures` is stated through it. |
| `Challenge.ReplayState` | machine/defender.go:105 | The `machine = newState` chain: the machine after the first k claimed segments have been replayed, starting from the input machine. It has no contract of its own; the chooser's `ensures` and loop invariant are stated in its terms. |
| `Challenge.SegmentMatches` | machine/defender.go:101-102 | The `Stub().Equals(assertions[i])` test: the stub of what the machine reports, replayed from the state after segments 0..k-1, equals claim k. It has no contract of its own; the chooser's `ensures` and loop invariant are stated through it. |
| `Challenge.ChooseAssertionToChallenge` | machine/defender.go:92-108 | The error is returned exactly when every replayed segment agrees, including the empty list. Otherwise the result is the first disagreeing index k, as `uint16(k)`. All earlier segments agree, and the returned machine is the input advanced through segments 0..k-1. |
| `Challenge.HonestReplayStates` | machine/defender.go:93-105 | Replaying the stubs and precondition chain of a bisection from the same snapshot goes through the same machine states the bisection went through. This assumes each child reports the step count it was run for. |
| `Challenge.HonestSegmentMatches` | machine/defender.go:95-102 | Under that assumption, and with reflexive stub equality, any single segment of a bisection agrees with its claim when replayed. |
| `Challenge.HonestBisectionMatches` | machine/defender.go:68-105 | Under the same two assumptions, every segment of a bisection agrees. By the chooser's contract, the chooser then answers with the error and never with a spurious index. |

## Left out

- `SolidityOneStepProof` (machine/defender.go:88-90): it only hands the snapshot to `MarshalForProof`, which writes to an `io.Writer`. That serialisation code is not part of this model.
- The machine's implementation (`Clone`, `ExecuteAssertion`, `MarshalForProof`) is not part of this model. Execution is an arbitrary deterministic function, and nothing is claimed about the contents of the defender it returns.
- Aliasing: the machine is a value, and `Clone` is the identity. That `NBisect` leaves the receiver's `initState`, `precondition` and `beforeInbox` unchanged therefore holds by value semantics. It is not proved about a heap.
- The errors returned by `ExecuteAssertion` are discarded, as in the code. No abort policy is modelled.
- `ChooseAssertionToChallenge` requires at least as many preconditions as assertions. Go panics only if the scan reaches index `|preconditions|`. The `requires` also excludes inputs where an earlier mismatch makes Go return `(uint16(i), machine, nil)` normally; those inputs are not modelled.
- The divide-by-zero panic of `NBisect` with zero steps or zero slices is excluded by its `requires` and is not modelled.
- That the children of a bisection compose back into the parent's Assertion is not stated. Whether they do depends on the machine and on `GeneratePostcondition`, neither of which is part of this model.
- Nil pointers (`*protocol.Assertion` and similar) are not modelled.
- The Go error triple `(0, nil, error)` is modelled as the single value `AllSegmentsValid`.
