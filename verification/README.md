# Ketqat circuit engine: a verified model

A Dafny model of the quantum-circuit engine of the Ketqat SDK, with proofs of what the engine otherwise checks
numerically and only at small sizes. Amplitudes, angles and error rates are exact real numbers; a tolerance such as
`1e-9` reads as equality. Trigonometry and roots are function parameters about which only their textbook laws are
assumed (`ZxDiagram.QuarterTurns`, `GateLaws.TrigLaws`, `GateUnitarity.UnitCircle`, `RealPowers.IsSquareRoot`,
`Thresholds.IsRoot`).

The parts, each a group of modules:

- **Graph-like ZX diagrams** (`ZxDiagram`, `ZxRewrite`, `ZxSoundness`, `ZxPivotSoundness`, `ZxRuns`,
  `ZxApplicability`, `ZxGraphs`, `Counting`, `ZxMatrix`, `ZxExtract`). A diagram denotes a matrix: a sum over all 0/1
  values of its spiders. Local complementation and pivoting multiply that matrix by an explicit nonzero number; when
  they apply is said exactly; every run of them ends and keeps the boundary; a diagram reduced to its boundary is turned
  into a circuit with the same matrix.
- **Execution** (`Semantics`, `OperatorLaws`, `GateUnitarity`, `GateMeanings`, `Statevector`, `Trajectories`,
  `Collapses`). A basis state is the set of qubits that are 1, a state a function from basis states to amplitudes.
  Measurement follows one record of outcomes without renormalising, so a run is one branch and its squared norm the
  probability of the record. The strided loops over two arrays are proved to compute the operator of each gate, every
  gate is unitary and tied to the Pauli gates and the phase gate, and a run that draws its outcomes and renormalises is
  proved to be one of the branches, each branch with some weight being drawn by some run.
- **Routing** (`CouplingGraph`, `RoutingSpec`, `Conditionals`, `RoutingSemantics`, `Router`, `RoutingVerification`,
  `RoutedTrajectories`, `RoutingVerdict`). Breadth-first paths, the pair of layout maps, what the routed circuit
  computes, what it draws, the un-permutation that compares it with the source, and what the verdict of that comparison
  means.
- **Peephole optimisation** (`GateLaws`, `PeepholeRules`, `Refinement`, `Phases`, `PeepholeSoundness`,
  `PeepholeSteps`, `Peephole`, `NormalForms`, `PeepholeLimits`, `PeepholeExactness`). The rules as relations on an
  operation list, the sweep that edits the list, what every rule keeps in every context, up to one global sign, what is
  not left when no rule applies, and on which circuits a rule is wrong, up to any nonzero numbers.
- **Noise scaling and mitigation** (`Reordering`, `Folding`, `Extrapolation`, `Layering`, `Decoupling`, `IdleTime`).
  Unitary folding, extrapolation to zero noise, and pulses in idle windows.
- **Resource estimates** (`RealPowers`, `SurfaceCode`, `Distillation`, `Estimator`, `Machines`, `Thresholds`,
  `RuntimeThreshold`). The code distance, distillation levels, the estimator, the machine it describes, and the
  thresholds that claim to invert it.
- **Circuit text** (`QasmText`, `QasmReader`, `QasmWriter`, `QasmLexing`, `QasmOperations`, `QasmRoundTrip`,
  `QasmForms`, `QasmSpacing`, `QasmDirectives`, `QasmNames`, `QasmInvariants`, `QasmGates`). OpenQASM 3 from characters to circuit and back: comments,
  statements, the reader with each of its patterns, gate definitions and their inlining, the emitter, and the proof
  that reading undoes writing.
- **Parameters and gate definitions** (`Expressions`, `ExpressionTrees`, `Parameters`, `Numerals`, `Substitution`, `Juxtaposition`,
  `TextSubstitution`, `ParameterSubstitution`, `ParameterExactness`, `CallParameters`, `MacroExpansion`,
  `MacroCapture`). The parameter grammar over tokens and its parser over characters, replacement of words in the text
  of a gate body, what that does to values, names and operands, and gate inlining with its spans.
- **Diffs** (`CircuitDiff`, `OperationKeys`). The longest-common-subsequence diff, its verification, and the keys it
  tells operations apart by.

Outside the reader and emitter, registers are resolved to flat positions (`Circuits`): `q[2]` is a number, and a
classical register is the list of its bit positions.

## What turned out not to hold as written

- `src/engine/transpile.ts:257-274` puts the SWAPs of a conditional body under its condition while the layout moves
  either way, and drops the tested bit. `RoutingSemantics.ConditionalCarriedExactlyWhen` says for which conditionals
  that is right: no SWAP under a condition that can fail, and a register of one bit, or a value the register cannot
  hold, or a body that does nothing. `ConditionalSwapsBreakRouting` and `DroppedBitBreaksRouting` are concrete cases
  of the others. Routing is proved correct for all circuits of the former; erasing the routing gives the source back
  exactly for those whose conditionals need no SWAP and test a whole register.
- `src/engine/transpile.ts:121-134` checks a supplied layout for its length and for working qubits only.
  `RoutingSemantics.LayoutCarriesExactlyWhen` shows that it must not name a physical qubit twice.
- The spider-fusion rule (`src/engine/zx.ts:216-265`) adds the parameters of any gate about the axis, also of `z`,
  `s`, `t`, `x` or `sx` gates carrying one, which the engine ignores. `PeepholeExactness.RuleIsRightExactlyWhen` says
  on which circuits that is right, and `StrayAnglesBreakFusion` is a circuit on which it is not.
- The bisection's floor (`src/intelligence/thresholds.ts:151`) is meant to be so low that nothing fits when it does
  not. `Thresholds.SomeRateFits` gives what decides it and `FloorIsNotLowEnough` a case where the floor misleads.
- The runtime threshold charges factory rounds that the estimator does not always spend;
  `RuntimeThreshold.RuntimeThresholdIsExactWhen` gives the exact condition, `IdleFactoryIsCharged` a family of
  workloads that fail it, and `SmallMachineIsIdle` a small one of them. The throughput threshold
  (`src/intelligence/thresholds.ts:337-374`) names what the factory must deliver to finish in time;
  `ThroughputSufficesExactlyWhen` shows that it is enough if and only if the logical cycles meet the target on their
  own.
- The comment at `src/engine/routing-verification.ts:170-171` says unused physical qubits map to themselves; the code
  appends them in ascending order to whatever positions follow, which the proof shows is enough.
- The verdict `equivalent` of `src/engine/routing-verification.ts:97-200` is about the states reached from zero:
  `RoutingVerdict.VerifyRouting` says exactly what it means, and `VerdictIsBlind` is a circuit that gets it as a
  routing of one it does not compute.
- The comment on a diagram's edges (`src/engine/zx-graph.ts:44`) promises sorted pairs; pivoting pushes unsorted ones.
  Nothing depends on it: edges are compared by their unordered ends.
- Folding moves every operation that is not a gate behind the gates (`src/engine/mitigation.ts:91-113`).
  `Folding.FoldKeepsMeaning` needs each of them to be able to move behind each later gate; for a measurement and a
  gate `Folding.MeasureThenGate` shows that this is exactly what is needed, and `FoldMovesMeasurements` a circuit that
  becomes a different one.
- A circuit read from a text that uses `$0` before it declares a register is not what its own emission reads as: the
  hardware register moves behind the declared ones. `QasmRoundTrip.ParseUndoesEmit` gives the exact condition.
- `src/circuit/qasm3.ts:684-693` clears a condition after one operation and `876-885` overwrites an enclosing one:
  `QasmRoundTrip.GuardReaches` and `NestedIfEndsGuard` say what an `if` then guards.
- A line comment in front of a carriage return is not a comment (`src/circuit/qasm3.ts:198`): the dot stops there and
  the pattern has to reach the end of the line. `QasmText.LineCommentGoes` says exactly which comments go.
- Gates named `constructor` or `__proto__` are rejected as unsupported, because the table of unsupported keywords
  (`src/circuit/qasm3.ts:48-72`, looked up at line 838) is an object with a prototype:
  `QasmNames.ConstructorIsRefused`. Which names survive is said exactly by `QasmNames.GateLineIsReadExactlyWhen`.
- Substitution works on text, one formal after the other (`src/circuit/qasm3.ts:320-351`).
  `TextSubstitution.SimultaneousExactlyWhen` says for which calls that is replacing all formals at once.
  `MacroCapture.ExchangedFormalsAreRefused` is a call with two good bits that is refused because each register is
  named like the other's formal, `ParameterIsCaptured` a parameter rewritten by a qubit formal, and
  `Substitution.ActualsAreCaptured` one whose value changes.
- The name of a body statement is rewritten too: a circle of definitions is refused as long as no statement is named
  like a formal of its gate (`MacroExpansion.CyclesAreRefused`), and `MacroCapture.FormalCircleIsAccepted` is a circle
  that is accepted.
- A call to a defined gate behind an inline `if` is not inlined (`src/circuit/qasm3.ts:876-885`):
  `QasmGates.CallUnderConditionStays`.
- In a body that puts a formal next to another name, substituting can turn a rejected text into a call, or the
  reverse, but never change a value: `Substitution.SpacingMatters`, `Juxtaposition.DisagreementIsRejection`. A numeral
  such as `1.e5` is torn apart by a formal named `e5`: `ParameterSubstitution.NumeralIsTornApart`. When replacing the
  formals gives a parameter the value of the bound formals is said exactly by
  `ParameterExactness.PassesBindExactlyWhen`.
- The key of an operation is meant to be its identity (`src/circuit/diff.ts:58-65`), but parameters are joined by commas:
  `OperationKeys.KeysCollideExactlyWhen` says which operations a diff takes for one, and `CommasHide` is a pair that
  differs in the number of parameters.

## Model

| member | source | states |
|---|---|---|
| ZxDiagram.QuarterTurnsHasModel | src/engine/zx-graph.ts:141-150 | the law assumed of (cos, sin) has a model, so no theorem that assumes it is empty |
| ZxDiagram.Turn | src/engine/zx-graph.ts:60-69 | turning by any number of quarter turns, either way, multiplies the phase factor by that power of i |
| ZxRewrite.NeighboursExact | src/engine/zx-graph.ts:75-82 | the neighbour list is ascending, without repeats, and holds exactly the other ends of the edges at a spider |
| ZxRewrite.ToggleAdjacency | src/engine/zx-graph.ts:264-270 | toggling flips adjacency of exactly one unordered pair |
| ZxRewrite.ComplementEffect | src/engine/zx-graph.ts:257-273 | complementing a neighbourhood changes the number of active edges, modulo 2, by the number of active pairs in it, and keeps the graph simple |
| ZxRewrite.BetweenEffect | src/engine/zx-graph.ts:384-405 | toggling between two disjoint groups changes the active edges, modulo 2, by the product of the active counts |
| ZxRewrite.CountSquare | src/engine/zx-graph.ts:281-288 | k squared is k plus twice the pairs: the parity law local complementation rests on |
| ZxSoundness.ComplementAmplitude | src/engine/zx-graph.ts:289-335 | for every simple diagram and every boundary pattern, the sum before local complementation is (1+i) or (1-i) times the sum after |
| ZxPivotSoundness.PivotTerm | src/engine/zx-graph.ts:344-440 | for each assignment of the other spiders, the four terms of the two removed ones add up to 2(-1)^(ab) times the new term |
| ZxPivotSoundness.PivotAmplitude | src/engine/zx-graph.ts:344-440 | for every simple diagram and boundary pattern, the sum before a pivot is 2(-1)^(ab) times the sum after |
| ZxRuns.ComplementedAdjacency | src/engine/zx-graph.ts:317-328 | after local complementation two spiders are adjacent exactly when they were, flipped if both neighboured the removed one |
| ZxRuns.PivotedAdjacency | src/engine/zx-graph.ts:378-433 | after a pivot adjacency flips exactly between members of two different ones of the three neighbour groups |
| ZxRuns.ComplementKeeps | src/engine/zx-graph.ts:289-335 | the result is simple, keeps inputs and outputs and their spiders, and loses exactly the one interior spider |
| ZxRuns.PivotKeeps | src/engine/zx-graph.ts:344-440 | the result is simple, keeps inputs and outputs and their spiders, and loses exactly the two interior spiders |
| ZxRuns.RunKeeps | src/engine/zx-graph.ts:289-440 | every run of rewrites keeps the graph simple, the boundary and the linear map up to a nonzero number, and is no longer than the spider count |
| ZxApplicability.ComplementAppliesExactlyWhen | src/engine/zx-graph.ts:297-315 | on a simple diagram local complementation applies if and only if a spider has that identifier, lies on no boundary, and has a phase of a half more than a whole number of pi; otherwise nothing changes |
| ZxApplicability.PivotAppliesExactlyWhen | src/engine/zx-graph.ts:352-376 | pivoting applies if and only if the two spiders are adjacent, on no boundary, and of whole phases |
| ZxApplicability.ReducedExactlyWhen | src/engine/zx-graph.ts:289-440 | no rewrite applies if and only if no interior spider has phase +-pi/2 and no two adjacent interior ones have phases 0 or pi |
| ZxApplicability.RunsReduce | src/engine/zx-graph.ts:289-440 | every simple diagram has a run to one of that form with the same linear map up to a nonzero number |
| ZxGraphs.ZxGraph.ComplementAmong | src/engine/zx-graph.ts:257-273 | the in-place nested loop with its identifier set does exactly the pairwise toggling |
| ZxGraphs.ZxGraph.ToggleBetween | src/engine/zx-graph.ts:390-405 | the same for the pairs between two groups |
| ZxGraphs.LocalComplementation | src/engine/zx-graph.ts:289-335 | the imperative rewrite on a copied graph is the specified one, and a refusal returns the input object itself |
| ZxGraphs.Pivot | src/engine/zx-graph.ts:344-440 | the same for pivoting |
| Counting.RangeIsSum | src/engine/zx-graph.ts:125-128 | counting through 2^n integers visits every 0/1 assignment of the spiders exactly once |
| ZxMatrix.GraphToMatrix | src/engine/zx-graph.ts:100-165 | the nested loops fill the matrix with the sum over assignments, entry by entry; more than 14 spiders are refused |
| ZxExtract.ExtractCircuit | src/engine/zx-graph.ts:535-604 | the two pushing loops produce the specified gate list or refusal |
| ZxExtract.ExtractsExactlyBoundaryOnly | src/engine/zx-graph.ts:535-604 | a simple diagram is extracted exactly when all its spiders are on a boundary shared by inputs and outputs |
| ZxExtract.ExtractionExact | src/engine/zx-graph.ts:535-638 | the extracted circuit has the diagram's matrix, entry by entry, up to one edge factor per edge |
| ZxExtract.SimplifyThenExtract | src/engine/zx-graph.ts:289-604 | a circuit extracted after any run of rewrites has the matrix of the original diagram up to a nonzero number |
| ZxExtract.ExtractedToMatrix | src/engine/zx-graph.ts:607-638 | the dense unitary built in place has, at every entry, the phase its basis state collects, and zero off the diagonal |
| OperatorLaws.DisjointCommute | src/engine/statevector.ts:155-225 | operators on disjoint qubits, controlled or exchanging, commute on every state |
| OperatorLaws.UnitaryPreservesNorm | src/engine/statevector.ts:155-204 | a unitary matrix, with any controls, keeps the total squared amplitude over n qubits |
| GateUnitarity.GateMatrixUnitary | src/engine/statevector.ts:63-151 | every matrix the engine builds, whatever the angles, is unitary and its adjoint undoes it |
| GateUnitarity.GatesKeepNorm | src/engine/statevector.ts:349-404 | a simulation of gates keeps the total squared amplitude of any starting state |
| GateUnitarity.MeasurementSplitsNorm | src/engine/statevector.ts:228-238 | the two branches of a measurement share the squared norm of the state between them |
| GateMeanings.AcceptedExactlyWhen | src/engine/statevector.ts:355-404 | a gate is accepted if and only if its name is known, it has the operands and angles of its name, and every parameter has a value |
| GateMeanings.ControlledActs | src/engine/statevector.ts:376-396 | for each pair of a controlled gate and the gate it controls: accepted together, and on every state the one acts as the other on the target where the control is 1 and as nothing where it is 0 |
| GateMeanings.PairActs | src/engine/statevector.ts:365-375 | Toffoli and Fredkin gates act as a controlled X and as a swap where their first qubit is 1 |
| GateMeanings.SwapActs | src/engine/statevector.ts:361-364 | a swap moves every amplitude to the basis state with the two bits exchanged |
| GateMeanings.PauliActs | src/engine/statevector.ts:72-77 | X flips, Z negates where the bit is 1, Y is i times X after Z, on every state |
| GateMeanings.HadamardActs | src/engine/statevector.ts:78-79 | H leaves the sum and the difference of the two amplitudes over the square root of two |
| GateMeanings.FixedPhases | src/engine/statevector.ts:69-87 | identity, Z, S, T and their inverses are the phase gate at its angle |
| GateMeanings.TurnIsPhase | src/engine/statevector.ts:100-108 | a rotation about Z is the phase gate up to half its angle everywhere |
| GateMeanings.TurnAboutY | src/engine/statevector.ts:92-99 | a rotation about Y is one about X between the two quarter phases |
| GateMeanings.ConjugateActs | src/engine/statevector.ts:80-95 | the gates about X are those about Z between two Hadamard gates |
| GateMeanings.GeneralActs | src/engine/statevector.ts:113-142 | the general gate is a phase, a rotation about Y and a phase, in this order of its angles |
| GateMeanings.OtherNames | src/engine/statevector.ts:104-117 | u3, u2 and u1 are the general gate, that gate at a quarter turn, and the phase gate |
| Statevector.StatevectorState.ApplyControlled | src/engine/statevector.ts:178-204 | the strided in-place loop leaves the arrays holding the controlled 2x2 operator of the old state, every index pair once |
| Statevector.StatevectorState.ApplySingleQubit | src/engine/statevector.ts:155-176 | the same without controls |
| Statevector.StatevectorState.ApplySwap | src/engine/statevector.ts:207-225 | the in-place exchange is the index permutation swapping two bits |
| Statevector.StatevectorState.ApplyControlledSwap | src/engine/statevector.ts:446-465 | the same where a control is 1 |
| Statevector.StatevectorState.ApplyGate | src/engine/statevector.ts:361-404 | dispatch by name and operands applies exactly the operator of the gate, or refuses it |
| Statevector.StatevectorState.ProbabilityOfOne | src/engine/statevector.ts:228-238 | the loop over masked indices returns the squared norm of the branch in which the qubit is 1 |
| Statevector.StatevectorState.Collapse | src/engine/statevector.ts:242-264 | clearing and rescaling in place leaves the branch brought to norm 1, and is refused exactly when the branch has no weight |
| Trajectories.ExecuteOnce | src/engine/statevector.ts:335-444 | one run on the arrays, outcomes drawn from the random numbers, ends in the specified state and classical bits, or is refused exactly when the specification is |
| Trajectories.SimulateStatevector | src/engine/statevector.ts:490-530 | without shots: refused exactly for no qubits, too many, a measurement anywhere, or a refused operation; else the arrays hold the state the run ends in |
| Trajectories.NothingDrawn | src/engine/statevector.ts:513-518 | without measurements and resets that state is the one the circuit denotes |
| Trajectories.ProbabilityIsConditional | src/engine/statevector.ts:405-412 | the probability the engine draws with is the weight of the branch that follows relative to the branch so far |
| Trajectories.TrajectoryIsBranch | src/engine/statevector.ts:335-444 | whatever is drawn, a run is one branch brought to norm 1, with the same classical bits, and no drawn outcome is ever refused |
| Trajectories.RunIsBranch | src/engine/statevector.ts:335-444 | from the zero state, the run ends in a branch divided by the root of its own probability |
| Trajectories.EveryBranchIsDrawn | src/engine/statevector.ts:405-423 | every branch with some weight is what the engine runs for some random numbers in [0, 1) |
| Collapses.ResetClears | src/engine/statevector.ts:413-423 | after a reset no amplitude is left where the qubit is 1, and elsewhere stands what the drawn bit held |
| Collapses.MeasuredAgain | src/engine/statevector.ts:405-412 | measured again at once a qubit gives the same bit, whatever number is drawn |
| Collapses.MeasuredAfterReset | src/engine/statevector.ts:405-423 | measured after a reset a qubit gives 0, whatever numbers are drawn |
| CouplingGraph.CouplingAdjacency | src/hardware/profile.ts:104-128 | the map of neighbour lists holds exactly the operational qubits and the couplings between them, in both directions |
| CouplingGraph.ShortestPath | src/hardware/profile.ts:137-165 | the queue-driven search returns a simple path along edges that no walk beats in length, and nothing exactly when no walk connects the two |
| RoutingSpec.RoutingIsLegal | src/engine/transpile.ts:165-223 | every emitted two-qubit operation lies on a coupling edge |
| RoutingSpec.RoutingCost | src/engine/transpile.ts:165-193 | over a whole circuit the SWAPs number the sum of distance minus one of each two-qubit gate, and nothing else is added |
| RoutingSpec.RoutingErasable | src/engine/transpile.ts:165-274 | replaying the output while undoing the marked SWAPs yields the original list and the final layout, exactly when every conditional was direct |
| RoutingSemantics.RoutingPreserves | src/engine/transpile.ts:138-274 | along every record of outcomes source and routed circuit are both refused or end in the same branch, the routed one carried through the layout, whenever every conditional is one that loses nothing |
| RoutingSemantics.ConditionalCarriedExactlyWhen | src/engine/transpile.ts:257-274 | a conditional is routed rightly from every branch and for every outcome if and only if no SWAP stands under a condition that can fail, and the dropped bit or the body does not matter |
| RoutingSemantics.LayoutCarriesExactlyWhen | src/engine/transpile.ts:121-139 | flips of single qubits are carried through a layout, all of them, if and only if it names no physical qubit twice |
| Conditionals.DroppedBitIsHarmlessWhen | src/engine/transpile.ts:257-274 | testing the whole register instead of one bit is the same test for all classical bits if and only if the register has one bit or cannot hold the value |
| RoutingSemantics.ConditionalSwapsBreakRouting | src/engine/transpile.ts:257-274 | a conditional body that needs a SWAP: the routed circuit reports a layout under which it is in another state |
| RoutingSemantics.DroppedBitBreaksRouting | src/engine/transpile.ts:267-273 | a routed conditional, testing the second of two bits, that does not do what its source does |
| Router.LayoutTracker.SwapLogical | src/engine/transpile.ts:154-163 | the two maps stay mutually inverse and the layout changes by exactly the transposition |
| Router.LayoutTracker.EmitRouting | src/engine/transpile.ts:165-193 | appends the SWAPs along a shortest path and moves the layout along it, or changes nothing when the pair is disconnected |
| Router.LayoutTracker.RouteOne | src/engine/transpile.ts:195-252 | one operation is routed as specified, with both counters; a gate on more than two qubits is refused and nothing else is |
| Router.ChooseLayout | src/engine/transpile.ts:103-136 | the supplied layout, repeated entries included, or the first operational qubits, with each of the four errors exactly when it applies |
| Router.TranspileForHardware | src/engine/transpile.ts:103-330 | success reports what routing emits along shortest paths, with initial and final layout, SWAP count and two-qubit count; it fails exactly when some operation is too wide or acts on two qubits that start in different components, and the first such operation decides which error |
| RoutingSpec.WalkStaysConnected | src/engine/transpile.ts:154-193 | SWAPs along a walk leave every logical qubit in the component it started in |
| Router.TranspiledIsCorrect | src/engine/transpile.ts:103-330 | every result is legal on the device and, when its conditionals lose nothing, computes the source from the zero state up to the final layout |
| RoutingVerification.CompleteLayout | src/engine/routing-verification.ts:170-176 | the padded layout is the final layout followed by the unused physical qubits in ascending order |
| RoutingVerification.UnpermuteAmplitudes | src/engine/routing-verification.ts:52-75 | the loop leaves at every index the last amplitude whose bits, read through the layout, give that index; refused exactly when the number of amplitudes does not fit |
| RoutingVerification.PermutationMovesEach | src/engine/routing-verification.ts:52-75 | through a permutation every amplitude arrives and none is overwritten |
| RoutingVerification.LastOneStays | src/engine/routing-verification.ts:52-75 | through any layout an index keeps the last amplitude sent there |
| RoutingVerification.UnreachedIsZero | src/engine/routing-verification.ts:52-75 | and zero when none is sent there |
| RoutingVerification.StrippingRoutes | src/engine/routing-verification.ts:81-88 | dropping the unconditional measurements and resets commutes with routing |
| RoutingVerification.UnpermutedEqualsSource | src/engine/routing-verification.ts:52-75 | un-permuting the arrays of a carried state gives the padded source amplitudes, index by index |
| RoutingVerification.RoutingVerifies | src/engine/routing-verification.ts:97-200 | for circuits of any width whose conditionals lose nothing, once measurements and resets are stripped from both, the un-permuted amplitudes are the padded source amplitudes, and no gate is off the coupling graph |
| RoutingVerdict.VerifyRouting | src/engine/routing-verification.ts:97-200 | inconclusive exactly when a circuit is too wide or refused; `equivalent` exactly when no gate is off a coupling edge and, from the zero state, every amplitude is within the tolerance of the one the final layout carries there |
| RoutedTrajectories.CarriedWeight | src/engine/statevector.ts:228-238 | a state carried through a layout has the squared norm of the logical one, on however many qubits the device has |
| RoutedTrajectories.RoutedRunsAlike | src/engine/statevector.ts:349-444 | run with the same random numbers, from any branch, a routed circuit whose conditionals lose nothing is refused exactly when its source is, and otherwise draws the same outcomes and ends in the source's state carried through the final layout |
| RoutingVerdict.TranspiledRunsAlike | src/engine/transpile.ts:103-330 | so a run of a transpiled circuit, measurements and resets included, returns the classical bits of its source |
| RoutingVerdict.TranspiledIsEquivalent | src/engine/routing-verification.ts:90-96 | a transpiled circuit whose conditionals lose nothing, resets under a condition included, gets the verdict `equivalent` whenever both simulations run |
| RoutingVerdict.VerdictIsBlind | src/engine/routing-verification.ts:131-200 | a phase flip on one qubit gets the verdict `equivalent` as a routing of nothing, which it is not, up to any factor |
| GateLaws.NormalizedAngle | src/engine/zx.ts:393-400 | the wrapped angle lies in (-pi, pi] and differs from the angle by whole turns |
| GateLaws.HalfTurns | src/engine/zx.ts:393-400 | n half turns multiply cos and sin by (-1)^n |
| GateLaws.Fusion | src/engine/zx.ts:325-347 | two rotations of one family compose to the rotation by the summed angle |
| GateLaws.WrapRotation | src/engine/zx.ts:393-400 | wrapping the angle of a rotation multiplies its matrix by a sign at most |
| PeepholeSoundness.SelfInverseTwice | src/engine/zx.ts:57 | every gate listed as self-inverse, controlled gates, swap and identity included, undoes itself on every state, whatever parameters it carries |
| GateLaws.HadamardConjugation | src/engine/zx.ts:59-74 | H A H is the gate the colour-change table names, for every row of the table |
| PeepholeSoundness.SlidesOnZ | src/engine/zx.ts:89-101 | whatever the Z table lets a rotation slide past commutes with it as an operator |
| PeepholeSoundness.SlidesOnX | src/engine/zx.ts:104-115 | the same for the X table |
| PeepholeRules.RuleRemovesGates | src/engine/zx.ts:191-350 | every rule removes one or two gates and leaves the other operations and their order alone |
| Refinement.RefinesInContext | src/engine/zx.ts:191-350 | a sound replacement is sound between any two surrounding circuits, measurements and conditionals included |
| Refinement.Slide | src/engine/zx.ts:216-265 | a gate that commutes with each operation of a block may stand on either side of it |
| PeepholeSteps.RuleKeepsMeaning | src/engine/zx.ts:191-350 | one application of any rule keeps what the whole circuit computes, for every outcome record and starting state, up to one global sign, provided fusion does not take parameters of fixed gates for angles |
| PeepholeExactness.RuleIsRightExactlyWhen | src/engine/zx.ts:191-350 | on every circuit of gates the engine runs and for every enabled rule: the rewriting computes the same, up to a sign or up to any nonzero number for each branch, if and only if the rule does not fuse fixed gates carrying parameters, unless those are Z or X gates whose parameters cancel |
| PeepholeExactness.StrayAnglesBreakFusion | src/engine/zx.ts:238-268 | a circuit of three gates, two of them `s` gates carrying parameters, on which the rule fires and the result is a different circuit, under any phase and any nonzero numbers |
| Peephole.NextInteracting | src/engine/zx.ts:353-365 | the scan finds the next operation on the qubits with nothing but gates before it, or shows there is none |
| Peephole.NextFusible | src/engine/zx.ts:242-270 | the scan finds the rotation spider fusion would take, or shows the rule does not apply |
| Peephole.RewritePass.Sweep | src/engine/zx.ts:191-350 | applies the first enabled rule in the order of the source and edits the list accordingly, or reports that no rule applies anywhere |
| Peephole.OptimizeWithZx | src/engine/zx.ts:409-449 | if no fixed gate carries a parameter, the result computes the source up to a global sign; always it keeps the other operations, takes at most one sweep per removed gate, and ends in a circuit no rule matches unless the cap was reached, which a cap above the gate count never is |
| NormalForms.NoPairLeft | src/engine/zx.ts:57-58 | no gate of the list that undoes itself stands twice with nothing on its qubits in between |
| NormalForms.NoConjugateLeft | src/engine/zx.ts:68-75 | no gate of the colour-change table stands between two Hadamard gates |
| NormalForms.NoNeighboursLeft | src/engine/zx.ts:325-350 | no two rotations of one kind with known angles stand next to each other on their qubits |
| NormalForms.NoRotationsApart | src/engine/zx.ts:216-265 | nor with only gates in between that such a rotation slides past: something blocks, or another rotation of the kind comes first |
| NormalForms.NoWholeTurnLeft | src/engine/zx.ts:204-213 | no rotation by a whole number of turns is left |
| Folding.InverseUndoes | src/engine/mitigation.ts:118-139 | whatever gate is inverted, the inverse is accepted and undoes it on every state |
| Folding.InvertibleExactlyWhen | src/engine/mitigation.ts:118-139 | exactly the renamed gates, the rotations, and the listed gates without parameters have an inverse |
| Folding.InverseTwice | src/engine/mitigation.ts:122-139 | the inverse of the inverse is the gate again when all its parameters have values |
| Folding.FoldCircuit | src/engine/mitigation.ts:82-116 | the copies are strung together as specified; refused exactly for an even or non-positive scale or a gate without inverse |
| Folding.FoldableExactlyWhen | src/engine/mitigation.ts:82-116 | the scale is odd and positive, and unless it is 1 every gate has an inverse |
| Folding.FoldScales | src/engine/mitigation.ts:71-116 | the gate count is multiplied by exactly the scale |
| Folding.FoldKeepsMeaning | src/engine/mitigation.ts:71-116 | the folded circuit computes exactly what the circuit computes if each operation that is not a gate may move behind each gate after it, and always at scale 1 |
| Folding.MeasureThenGate | src/engine/mitigation.ts:91-113 | for a measurement and then a gate: folding keeps the meaning, exactly or up to any nonzero number for each branch, if and only if the gate does not touch the qubit, has it as a control, or is diagonal on it |
| Reordering.OneMovesBehind | src/engine/mitigation.ts:91-113 | a barrier, a measurement the gate does not disturb, a reset or conditional gate on other qubits: either order computes the same |
| Folding.FoldMovesMeasurements | src/engine/mitigation.ts:91-113 | a measurement followed by a gate: the folded circuit is not the circuit, under any phase and any nonzero numbers |
| Extrapolation.RichardsonExtrapolateToZero | src/engine/mitigation.ts:330-345 | the double loop computes the Lagrange combination of the values |
| Extrapolation.RichardsonIsExact | src/engine/mitigation.ts:323-345 | on samples of any polynomial of degree below the number of distinct scales the result is its value at zero |
| Extrapolation.PolynomialsAreExact | src/engine/mitigation.ts:323-345 | the Lagrange weights at zero reproduce every polynomial of low enough degree |
| Extrapolation.LinearIsExact | src/engine/mitigation.ts:308-321 | on samples of any straight line the fit returns the intercept |
| Extrapolation.DenominatorIsZero | src/engine/mitigation.ts:316-317 | the denominator of the fit is never negative and vanishes exactly when all scales agree |
| Extrapolation.BumpIsWeight | src/engine/mitigation.ts:225-239 | for both extrapolators, moving one value by one moves the result by a weight that depends on the scales alone |
| Extrapolation.WeightsTotalOne | src/engine/mitigation.ts:225-239 | the weights of either extrapolator sum to one |
| Extrapolation.BumpedWeights | src/engine/mitigation.ts:230-239 | the loop of bumped extrapolations returns those weights |
| Layering.CircuitDepth | src/engine/transpile.ts:70-101 | the depth is the top layer of the as-soon-as-possible layering of the operations and of the bodies of conditionals |
| Layering.TopRisesByOne | src/engine/decoupling.ts:99-113 | read in order, the operations enter layers one at a time |
| Decoupling.ApplyDynamicalDecoupling | src/engine/decoupling.ts:83-170 | the passes over maps insert the sequence in exactly the idle windows, and the reported counts are those of windows and pulses |
| Decoupling.EveryWindowOnce | src/engine/decoupling.ts:145-165 | every window of every layer is filled exactly once |
| Decoupling.ErasingRestores | src/engine/decoupling.ts:149-165 | taking the pulses out gives the input list back |
| Decoupling.PulsesPrecedeCollapse | src/engine/decoupling.ts:117-141 | no pulse stands behind an unconditional measurement or reset of its qubit |
| Decoupling.DecouplingKeepsMeaning | src/engine/decoupling.ts:5-10 | the decoupled circuit computes the circuit up to global phase, conditionals and measurements included |
| IdleTime.LayersAreTheSchedule | src/engine/decoupling.ts:92-112 | the layers are the one schedule in which every operation comes a step after the latest earlier one it shares a qubit with |
| IdleTime.IdleQubitsArePulsed | src/engine/decoupling.ts:114-172 | in front of the first operation of a layer exactly the qubits that wait there, used before, unmeasured and not used now, get the whole sequence; nothing is inserted anywhere else |
| SurfaceCode.RequiredCodeDistance | src/engine/fault-tolerant.ts:233-247 | the counting loop computes the specified search |
| SurfaceCode.LeastDistance | src/engine/fault-tolerant.ts:226-247 | the answer is the least odd distance from 3 to 201 that meets the budget, and there is none exactly when none does |
| SurfaceCode.DistanceMonotone | src/engine/fault-tolerant.ts:218-247 | a lower error rate never needs a larger distance |
| Distillation.RequiredLevels | src/engine/distillation.ts:74-116 | the loop computes the specified levels for any input error; a target that is no probability is rejected |
| Distillation.RoundsAreProbabilities | src/engine/distillation.ts:74-116 | every intermediate error lies between 0 and the input, so no round is asked for anything but a probability |
| Distillation.RoundImproves | src/engine/distillation.ts:79-81 | a round lowers the error if and only if the input is below the fixed point |
| Distillation.LevelsAreLeast | src/engine/distillation.ts:64-116 | the target is reported reached exactly when some number of rounds within the cap reaches it, and the fewest are used; at or above the fixed point none would |
| Distillation.LevelsMonotone | src/engine/distillation.ts:74-116 | better raw states reach the target whenever worse ones do, in no more levels |
| Distillation.CubicSuppression | src/engine/distillation.ts:39-52 | a level turns an error p into 35 p cubed |
| Distillation.StatesMultiply | src/engine/distillation.ts:74-112 | every level takes 15 states of the level below for one |
| Estimator.FeasibleMeetsBudget | src/intelligence/estimate.ts:206-397 | a machine reported feasible stays within the error budget |
| Estimator.CeilSqrtIsLeast | src/intelligence/estimate.ts:157-162 | the routing-space term is the least integer whose square reaches its argument |
| Machines.ErrorRecurrence | src/engine/fault-tolerant.ts:217-232 | the logical error is A p / p_th at distance 1, and two more units of distance multiply it by p / p_th |
| Machines.LeastDistanceWithinBudget | src/intelligence/estimate.ts:253-303 | refused as above threshold exactly when the device is; otherwise the least odd distance up to 201 at which the whole run stays within the budget, or a refusal when there is none |
| Machines.RegisterOnly | src/intelligence/estimate.ts:156-330 | without a factory the machine is r patches of the code distance, r being the qubits themselves or the least number above 2n whose excess over 2n + 1 has a square of at least 8n |
| Machines.RegisterAndFactories | src/intelligence/estimate.ts:304-346 | with factories the excess over the register is 15 patches a level in every factory, at the factory's distance, and the machine is sized exactly when some number of levels up to 6 reaches the target |
| Machines.UncountedIsUnsized | src/intelligence/estimate.ts:313-330 | with magic states nobody has counted neither size nor runtime is given |
| Machines.RegisterRuntime | src/intelligence/estimate.ts:348-372 | without a factory a run takes one code cycle for each unit of distance in each logical cycle |
| Machines.FactoryLimitedRuntime | src/intelligence/estimate.ts:348-372 | with factories it takes as long as its cycles or as the factories need for all magic states, and the longer is named the limiter |
| Thresholds.FitsAtLowerRates | src/intelligence/thresholds.ts:142-149 | a machine that fits a capacity at some error rate fits at every lower one |
| Thresholds.MaxErrorRateWithinCapacity | src/intelligence/thresholds.ts:136-162 | every rate up to the answer fits; unless it is the ceiling, some rate within one part in 10^12 above does not; none is returned exactly when the floor does not fit |
| Thresholds.SomeRateFits | src/intelligence/thresholds.ts:151-154 | some positive rate fits if and only if a perfect device does |
| Thresholds.FloorIsNotLowEnough | src/intelligence/thresholds.ts:151-154 | a workload and scenario where the floor does not fit although lower rates do |
| Thresholds.ClosedFormInvertsSearch | src/intelligence/thresholds.ts:111-126 | below threshold a rate is at most the closed-form maximum if and only if the distance search succeeds |
| Thresholds.SaturatedExactlyWhen | src/intelligence/thresholds.ts:111-128 | the closed form names the threshold as its limit if and only if every rate below the threshold finds a distance |
| Thresholds.FitsExactlyWhen | src/intelligence/thresholds.ts:138-150 | the machine tried at a rate has raw magic states as bad as the device, and at least ten times the target |
| RuntimeThreshold.RuntimeIsRounds | src/intelligence/estimate.ts:347-364 | the estimator's runtime is the rounds of the binding limiter times the cycle length, and is known exactly when the factory keeps its promise |
| RuntimeThreshold.RuntimeThresholdIsExactWhen | src/intelligence/thresholds.ts:286-335 | the solved cycle time separates the cycle times meeting the target from the others if and only if the thresholds charge the rounds the estimator spends |
| RuntimeThreshold.IdleFactoryIsCharged | src/intelligence/thresholds.ts:295-335 | every workload with a qubit, on hardware without a factory, whose distillations would outlast its logical cycles at any distance is charged for them: the threshold is not exact |
| RuntimeThreshold.SmallMachineIsIdle | src/intelligence/thresholds.ts:295-335 | one qubit and a thousand T gates on a device ten times below threshold is such a workload |
| RuntimeThreshold.ThroughputMeetsTarget | src/intelligence/thresholds.ts:337-374 | a machine with a factory meets the runtime target if and only if its throughput reaches the threshold and its logical cycles meet the target too |
| RuntimeThreshold.ThroughputSufficesExactlyWhen | src/intelligence/thresholds.ts:337-374 | reaching the throughput threshold is enough, for any factories, if and only if the logical cycles alone stay within the target |
| CircuitDiff.CommonSubsequence | src/circuit/diff.ts:103-146 | the table and the walk yield a common subsequence at least as long as any other; tables above four million cells are refused |
| CircuitDiff.LcsIsLongest | src/circuit/diff.ts:103-146 | no common subsequence is longer than the table's first entry |
| CircuitDiff.DiffCircuits | src/circuit/diff.ts:155-213 | the entries name every position of both circuits exactly once and in order, accurately, with as many unchanged as the longest common subsequence, and between two matches what is removed before what is added |
| CircuitDiff.AccountedIsSound | src/circuit/diff.ts:267-299 | such a diff is always found sound, spells the left circuit operation for operation, and its counts follow from the matches |
| CircuitDiff.DiffIsMinimal | src/circuit/diff.ts:20-22 | no diff that verification accepts makes fewer edits |
| CircuitDiff.DeltaIsAttributable | src/circuit/diff.ts:213-225 | whenever the key determines the name, entries added minus entries removed is, for each name, the difference in the circuits' counts |
| OperationKeys.KeysCollideExactlyWhen | src/circuit/diff.ts:66-100 | operations whose registers are names and whose gates have no parenthesis in theirs have the same key if and only if they differ at most in how their parameters are cut at commas, conditions included |
| OperationKeys.CommasHide | src/circuit/diff.ts:81-85 | a gate with the parameter `a,b` has the key of one with the parameters `a` and `b` |
| OperationKeys.NamesCanCollide | src/circuit/diff.ts:84-85 | with a parenthesis in its name a gate has the key of a differently named one |
| OperationKeys.GateDeltasAreAttributable | src/circuit/diff.ts:213-225 | with the engine's own keys every sound diff of well-named operations attributes the difference of the counts of each name |
| QasmText.StripBlockComments | src/circuit/qasm3.ts:150-171 | jumping from delimiter to delimiter gives what a scan of every character gives |
| QasmText.StrippingIsComplete | src/circuit/qasm3.ts:125-171 | no opening delimiter is left, and stripping again changes nothing |
| QasmText.LineCommentGoes | src/circuit/qasm3.ts:198 | a line comment is removed if and only if there is no line end in it |
| QasmText.SplitStatements | src/circuit/qasm3.ts:173-220 | the scan that carries a flag yields the statements and lines of the scan that looks at its buffer every time |
| QasmText.DocumentSplits | src/circuit/qasm3.ts:173-220 | a document of one-statement lines splits into exactly those statements, each with its own line number |
| QasmReader.SplitTopLevel | src/circuit/qasm3.ts:257-275 | the loop cuts at the commas outside all brackets and drops blank parts |
| QasmLexing.SplitJoin | src/circuit/qasm3.ts:257-275 | splitting a joined list gives back its entries, nested brackets and commas included |
| QasmLexing.CallReads | src/circuit/qasm3.ts:486-515 | a written call splits into its name, its balanced parameter text and its operands |
| QasmGates.ParseQasm3 | src/circuit/qasm3.ts:669-921 | the loop with its skipped bodies computes the specified reading, gate definitions collected and calls inlined, and stops at the first refused statement |
| QasmGates.WithoutDefinitions | src/circuit/qasm3.ts:669-921 | a text without gate definitions is read statement by statement, with no spans |
| QasmGates.ParseAllUndoesEmit | src/circuit/qasm3.ts:1036-1103 | the round trip, for the reader with gate definitions |
| QasmGates.AcceptedIsRight | src/circuit/qasm3.ts:107-121 | of every accepted text: register names are unique, every bit lies in its register, and the spans are in order, disjoint or nested, inside the circuit, and one for one those of the calls the text makes: each begins in the state the reader has reached at its call, under the definitions read so far, and covers what expanding that call there appends |
| QasmGates.CallUnderConditionStays | src/circuit/qasm3.ts:876-885 | behind an inline `if` a call to a defined gate becomes a guarded gate of that name, with no span |
| QasmWriter.EmitQasm3 | src/circuit/qasm3.ts:1081-1103 | the pushed lines are header, declarations without hardware qubits, and one line an operation |
| QasmOperations.BitResolves | src/circuit/qasm3.ts:376-430 | a written bit or hardware qubit resolves to itself, widening the hardware register as far as needed |
| QasmOperations.SimpleReads | src/circuit/qasm3.ts:517-595 | every gate, measurement, reset and barrier is read back as itself, parameters included |
| QasmRoundTrip.ConditionReads | src/circuit/qasm3.ts:626-667 | a written condition is read back, one bit or whole register, with what it guards |
| QasmRoundTrip.WrittenReads | src/circuit/qasm3.ts:669-921 | a written circuit is read back operation by operation and register by register; only the hardware register's place and width are recomputed |
| QasmRoundTrip.ParseUndoesEmit | src/circuit/qasm3.ts:1036-1103 | reading a written circuit gives it back with an empty loss report if and only if its hardware register is last and as wide as the highest index used |
| QasmNames.GateLineIsReadExactlyWhen | src/circuit/qasm3.ts:699-898 | the line of a gate with proper parameters and operands is read as that gate if and only if its name begins no other statement and the line is no declaration |
| QasmNames.ReservedNamesAreLost | src/circuit/qasm3.ts:732-845 | with a name that begins another statement the line is refused, or dropped without a word when the name is `include` or `openqasm` |
| QasmNames.ConstructorIsRefused | src/circuit/qasm3.ts:48-72 | a gate named `constructor` is refused as unsupported |
| QasmRoundTrip.GuardReaches | src/circuit/qasm3.ts:684-693 | of a broadcast under an inline `if` only the first copy is guarded, inside a block all are |
| QasmRoundTrip.NestedIfEndsGuard | src/circuit/qasm3.ts:876-885 | after an inner `if` the rest of an outer block runs unguarded |
| QasmForms.ArrowReadsAsAssignment | src/circuit/qasm3.ts:528-541 | `measure q -> c` reads as the assignment form, with one loss entry |
| QasmForms.LegacyDeclares | src/circuit/qasm3.ts:448-468 | `qreg` and `creg` declare what the modern forms declare, marked as legacy |
| QasmForms.TruthIsOne | src/circuit/qasm3.ts:645-654 | `if (c[i])` reads as `if (c[i] == 1)` |
| QasmForms.LiteralReads | src/circuit/qasm3.ts:626-643 | `if (c[i] == true)` and `if (c[i] == false)`, keyword and literal in any case, compare the bit with 1 and with 0 |
| QasmForms.LiteralsAreNumbers | src/circuit/qasm3.ts:626-654 | the literal and the number read alike, and `== true` reads like the bare bit |
| QasmForms.BroadcastReads | src/circuit/qasm3.ts:575-592 | a gate over a register reads as one gate for each bit, in order |
| QasmSpacing.CommentIsBlanked | src/circuit/qasm3.ts:125-171 | a block comment becomes spaces of the same length with its line ends kept, and what follows is stripped on its own |
| QasmSpacing.SplitsAtDelimiter | src/circuit/qasm3.ts:173-220 | up to the next delimiter a line is one statement unless it is blank; a brace ends it and stands as a statement of its own |
| QasmSpacing.BitSpaced | src/circuit/qasm3.ts:376-430 | an operand resolves the same with any white space around its name and its index |
| QasmSpacing.BitConditionSpaced | src/circuit/qasm3.ts:626-643 | so does a condition on one bit |
| QasmSpacing.WholeConditionSpaced | src/circuit/qasm3.ts:656-664 | and one on a whole register |
| QasmSpacing.DeclarationSpaced | src/circuit/qasm3.ts:432-447 | and a declaration |
| QasmSpacing.MeasureSpaced | src/circuit/qasm3.ts:517-527 | and a measurement |
| QasmSpacing.ResetAnyCase | src/circuit/qasm3.ts:545-554 | the word `reset` may be in any case |
| QasmDirectives.VersionExactly | src/circuit/qasm3.ts:789-819 | a version beginning with 3 is noted, with 2 noted with a loss, any other refused |
| QasmDirectives.IncludeExactly | src/circuit/qasm3.ts:821-836 | the two standard libraries change nothing and any other is refused |
| QasmDirectives.OutsideIsRefused | src/circuit/qasm3.ts:48-72 | a statement that begins with one of the keywords outside the subset, in any case, is refused |
| QasmDirectives.OneIsDeclared | src/circuit/qasm3.ts:432-447 | a declaration without a size declares one |
| QasmDirectives.EmptyBlock | src/circuit/qasm3.ts:709-723 | an opening and a closing brace end a condition outside all blocks and change nothing else |
| QasmDirectives.DefinitionReads | src/circuit/qasm3.ts:727-787 | a gate with its formals and braces, inner ones matched, is taken in whole and nothing else changes |
| QasmDirectives.FirstCallIsNoted | src/circuit/qasm3.ts:976-990 | the first call of a definition is noted in the loss report, and no later one |
| QasmInvariants.StatementKeepsSound | src/circuit/qasm3.ts:699-898 | every statement keeps register names unique and every bit, condition and pending condition inside its register |
| QasmInvariants.ParsedIsSound | src/circuit/qasm3.ts:669-921 | so does every accepted text |
| Parameters.ExpressionParser.ParseExpression | src/engine/parameters.ts:65-80 | the looping descent over characters reads exactly what the grammar reads in the tokens ahead and leaves the cursor behind it |
| Parameters.ExpressionParser.ParseAtom | src/engine/parameters.ts:126-180 | the same for atoms: numerals, names, calls and parentheses, with each rejection |
| Parameters.EvaluateParameter | src/engine/parameters.ts:43-58 | the value of a whole text, with left-over text rejected |
| Numerals.NumeralReads | src/engine/parameters.ts:141-147 | digits, a point, places and an exponent, in every admitted form, are read as one numeral up to what does not carry it on |
| Numerals.NumeralShape | src/engine/parameters.ts:141-147 | and nothing else is read as one |
| Expressions.ParenthesisedAtom | src/circuit/qasm3.ts:323-326 | a parenthesised text stands for its own value whatever follows it |
| ExpressionTrees.PrintingReads | src/engine/parameters.ts:65-180 | an expression tree printed with the parentheses its precedence and associativity need is read back with its value in real arithmetic, or rejected exactly when it has none |
| ExpressionTrees.AcceptedExactlyWhen | src/engine/parameters.ts:65-180 | a text is accepted with a value if and only if it is the printing of a tree with that value |
| Substitution.SubstitutionCommutes | src/circuit/qasm3.ts:327-347 | in a body that does not put the formal next to another name, substituting and then evaluating is evaluating with the formal bound to the actual's value, or to none when the actual is rejected |
| Substitution.SequentialIsSimultaneous | src/circuit/qasm3.ts:333-339 | substituting several formals one after the other is binding them all, when no actual mentions a later formal |
| Substitution.SequentialIsNested | src/circuit/qasm3.ts:333-339 | whatever the actuals mention, one pass after the other is binding each formal under the later ones |
| Substitution.SimultaneousExactlyWhen | src/circuit/qasm3.ts:333-339 | it is binding all at once, on every well-spaced body, if and only if each actual has the same value with the later formals bound as without |
| Substitution.ActualsAreCaptured | src/circuit/qasm3.ts:333-339 | an actual that mentions a later formal gives another value |
| Substitution.SpacingMatters | src/circuit/qasm3.ts:333-339 | a rejected text that substitution turns into a function call |
| Juxtaposition.AcceptedTextFits | src/engine/parameters.ts:65-180 | in a text that has a value, any two neighbouring tokens are a pair the grammar allows side by side |
| Juxtaposition.DisagreementIsRejection | src/circuit/qasm3.ts:333-339 | on any body substituting and binding never give two different values: where they disagree one of them is rejected, a formal stands next to another name, and that name is a function |
| Juxtaposition.FunctionBeforeFormal | src/circuit/qasm3.ts:333-339 | a name and then the formal: substituting agrees with binding if and only if the name is no function |
| Juxtaposition.FormalLikeFunction | src/circuit/qasm3.ts:333-339 | the formal and then parentheses: they agree if and only if the formal is not itself the name of a function |
| TextSubstitution.SubstituteGateBody | src/circuit/qasm3.ts:327-347 | the two loops over the text are one composition of replacements, parameters in parentheses first, then qubits |
| TextSubstitution.PatternsStand | src/circuit/qasm3.ts:337-344 | in an actual the host's patterns `$$`, `$&`, `` $` `` and `$'` stand for a dollar sign, the match, and what is before and behind it |
| TextSubstitution.SimultaneousExactlyWhen | src/circuit/qasm3.ts:333-346 | one replacement after the other is replacing all formals at once, in every body, if and only if every actual survives the replacement of the later formals |
| TextSubstitution.LeftAloneExactlyWhen | src/circuit/qasm3.ts:337-344 | a replacement leaves a text alone if and only if the formal is no word in it, or is replaced by itself |
| TextSubstitution.UnmentionedCapturesNothing | src/circuit/qasm3.ts:333-346 | actuals that mention no later formal all survive |
| TextSubstitution.TwoFormalsExactlyWhen | src/circuit/qasm3.ts:333-346 | with two formals: if and only if the first actual does not mention the second formal, or that one is replaced by itself |
| MacroCapture.LaterFormalIsCaptured | src/circuit/qasm3.ts:340-345 | a bit of a register named like the second formal: both places get the second actual |
| MacroCapture.ExchangedFormalsAreRefused | src/circuit/qasm3.ts:340-345 | a call with a bit each of two registers named like the formals, exchanged, is refused |
| MacroCapture.ParameterIsCaptured | src/circuit/qasm3.ts:334-345 | a parameter that mentions a qubit formal is rewritten by the qubits |
| ParameterSubstitution.TokensReplaced | src/circuit/qasm3.ts:334-339 | where the formal stands as a word exactly where it is read as a name, the tokens of the replaced text are the tokens with the bracketed actual substituted |
| ParameterSubstitution.ReplacedTextHasBoundValue | src/circuit/qasm3.ts:320-339 | its value is then that of the text with the formal bound to the value of the actual, rejections included |
| ParameterExactness.ReplacedIsBoundExactlyWhen | src/circuit/qasm3.ts:320-339 | that holds of a well-spaced parameter if and only if the formal stands as a word just where it is read as a name, or there is no value to have |
| ParameterExactness.UnalikeIsRejected | src/engine/parameters.ts:126-180 | in every other parameter the replaced text has no value, whatever the actual: a numeral or a name is torn |
| ParameterExactness.PassesBindExactlyWhen | src/circuit/qasm3.ts:333-339 | after the replacement of all formals a parameter has the value of the text with each formal bound under the later ones if and only if every formal stands just where it is read in the text the earlier ones leave, or there is no such value |
| CallParameters.EmittedParameterIsBoundExactlyWhen | src/circuit/qasm3.ts:991-1000 | a body statement with one parameter is read back, at a call, as the same gate with one parameter, and that has the bound value under exactly this condition |
| ParameterSubstitution.NumeralIsTornApart | src/circuit/qasm3.ts:334-339 | a numeral whose exponent is spelt like the formal has a value, and none after the replacement |
| MacroExpansion.Context.ExpandCustomGate | src/circuit/qasm3.ts:931-1013 | reads the call, substitutes and expands its body on the reader's state exactly as specified, spans included, or refuses exactly when the specification does |
| MacroExpansion.SpansAreLaminar | src/circuit/qasm3.ts:1001-1012 | of any two spans the earlier recorded ends before the later or lies inside it and deeper; the call's own span is last and covers all |
| MacroExpansion.SpansCoverTheirCalls | src/circuit/qasm3.ts:107-121 | the spans are those of the calls made, nested ones included, one for one and in the order they end; each covers what the recursive expansion of its call appends in the very state reached there |
| MacroExpansion.CyclesAreRefused | src/circuit/qasm3.ts:939-945 | a call into a circle of definitions whose statements are not named like their own formals is refused at every depth |
| MacroExpansion.NameIsKept | src/circuit/qasm3.ts:991-1000 | substitution keeps the name of a statement no formal is named like |
| MacroCapture.FormalCircleIsAccepted | src/circuit/qasm3.ts:991-1000 | two definitions whose statements call each other, one of them under the name of its formal, expand to a gate named like the register |
| MacroExpansion.RankedCallsExpand | src/circuit/qasm3.ts:939-945 | when statements keep their names, a call whose nesting height fits under the bound gives exactly what expansion without any bound gives, refusals for other causes included |
| MacroExpansion.DepthIsBounded | src/circuit/qasm3.ts:939-945 | a call nested more than 32 deep is refused, and no span is recorded below that |

## Left out

- ZxDiagram.Turn: assumes only the quarter-turn law of cos and sin; the snapping of phases to quarters at `src/engine/zx-graph.ts:64-68` is the identity in exact arithmetic.
- ZxRuns.RunKeeps: `applyVerified` and `sameUpToScalar` with their numerical tolerance are replaced by the exact statement.
- Trajectories.SimulateStatevector: the histogram over shots, noise trajectories and the random generator are not modelled; operands of a gate are required to be distinct, which the source assumes without checking.
- Trajectories.ExecuteOnce: a condition on a bit its register does not have is refused, where the source reads the bit behind it; the value of a register is unbounded, where the source's shift wraps from the 32nd bit on.
- Router.TranspileForHardware: the loss report and the reason strings are not modelled; a supplied layout is required to name no qubit twice (see RoutingSemantics.LayoutCarriesExactlyWhen) and operands to be distinct, which the source assumes without checking.
- RoutingSemantics.RoutingPreserves: requires each conditional to lose nothing. For one conditional that is exact (RoutingSemantics.ConditionalCarriedExactlyWhen); a circuit may still come out right because a lossy one never runs.
- RoutingVerification.UnpermuteAmplitudes: for layouts no longer than the number of qubits, and without the wrap of shift counts of 32 and more.
- Peephole.OptimizeWithZx: meaning is promised only for circuits in which no fixed gate carries a parameter; with one, PeepholeExactness.StrayAnglesBreakFusion shows a circuit it changes. The per-rule counters, the gate statistics and the numerical equivalence evidence are not modelled.
- PeepholeSteps.RuleKeepsMeaning: requires fusion to be faithful, which PeepholeExactness.RuleIsRightExactlyWhen shows is exact; stated from the circuit to its rewriting: where the circuit runs, the rewriting runs and agrees. A gate the engine refuses may be dropped by a rule.
- Folding.FoldKeepsMeaning: requires each other operation to be able to move behind each later gate. For a measurement and a gate that is exact (Folding.MeasureThenGate); in longer circuits two wrong moves may cancel.
- Decoupling.PulsesPrecedeCollapse: speaks of unconditional measurements and resets; conditionals have no layer in the source and their bodies are not tracked.
- Extrapolation.RichardsonExtrapolateToZero: equal scales are excluded, where the source divides by zero.
- Extrapolation.BumpedWeights: equal scales are excluded for Richardson extrapolation, where the source divides by zero; variances, warnings and the sampled expectations are not modelled.
- Thresholds.MaxErrorRateWithinCapacity: in real arithmetic; the last bits of fifty floating-point halvings are not modelled.
- RuntimeThreshold.RuntimeThresholdIsExactWhen: the other thresholds of the report (costs, headroom, capacities) are single divisions and not modelled.
- CircuitDiff.DiffCircuits: for any key function, of which `OperationKeys.OperationKey` is the engine's; the sorting of gate deltas and the summary text are not modelled.
- OperationKeys.OperationKey: for operations the circuit text can express, a condition guarding one simple operation.
- ParameterExactness.ReplacedIsBoundExactlyWhen: for formals that begin with a letter, as those of an OpenQASM gate do, and for hosts with no function named by the Greek letter pi.
- CallParameters.EmittedParameterIsBoundExactlyWhen: for statements with one parameter whose gate is not named like a formal and whose parameter mentions no formal qubit; MacroCapture.ParameterIsCaptured is a case of the other kind.
- Parameters.EvaluateParameter: the functions of the host are total on real numbers; a result that is not finite, which the source refuses, and the error texts are not modelled.
- TextSubstitution.SimultaneousExactlyWhen: for formals that are distinct words and actuals without the patterns `$$`, `$&` and the like, which the host expands and `TextSubstitution.Replacement` models.
- MacroExpansion.CyclesAreRefused: speaks of statements not named like a formal of their gate, because it is false otherwise (MacroCapture.FormalCircleIsAccepted).
- QasmGates.ParseQasm3: the texts of errors and loss entries and the circuit's optional name are not modelled, and a literal number is the text the host prints it as, its conversion being a parameter.
- RoutingVerdict.VerifyRouting: the final layout has one entry for each source qubit, without repetitions; the reported difference and the texts are not modelled.
- QasmRoundTrip.ParseUndoesEmit: requires operations whose lines read as no other statement (exact by QasmNames.GateLineIsReadExactlyWhen), and parameter texts that are one balanced list entry without delimiters, comments, equals signs or repeated spaces.
- The Pauli-noise, readout-mitigation and Clifford-regression estimators: statistical claims.
- Command line, network, worker, schema and report code: input and output plumbing.
