# Interop fault-proof step, modelled in Dafny

This project models the single-step state transition of the interop fault-proof
program (`op-program/client/interop/interop.go`). One invocation starts from an
agreed prior commitment. If that commitment is the "invalid" sentinel, the step
returns the sentinel at once. Otherwise it resolves the commitment to a
transition state through the preimage oracle and checks the version tags of the
transition state and of the super root it embeds. If a chain of the super root
is still pending at the current step, it derives that chain's next block;
otherwise it only bumps the step counter. It returns the commitment of the new
transition state, and the entry point optionally compares that commitment with
the claim.

Files:

- `wrappers.dfy` — `Result` and `Outcome`, standing for Go's `(value, error)` returns.
- `types.dfy` — super roots, transition states, optimistic blocks, boot information,
  the error kinds, and Go's `uint64` with its wrap-around (`AddOne`).
- `collaborators.dfy` — `Env`, one uninterpreted function per collaborator the step
  calls (Keccak-256, `TransitionState.Hash()`, the oracle's `TransitionStateByRoot`,
  `UnmarshalSuperRoot`, `TargetBlockNumber`, `RunDerivation`), and the sentinel
  `InvalidTransitionHash`, the Keccak-256 hash of the bytes of "invalid".
- `interop.dfy` — the step: `ParseAgreedState`, `DeriveOptimisticBlock`, `NextState`
  (the state machine up to the new transition state), `StateTransition` (its
  commitment), `ValidateClaim` and `RunInteropProgram`.
- `properties.dfy` — what the step guarantees: absorption, version gating,
  append-exactly-one, step + 1, head-boundary collapse, error propagation,
  independence from collaborators the step must not consult, the progress
  invariant, and what a chain of successive steps adds up to.

Modelling decisions:

- Collaborators are fields of `Env`. "No oracle or derivation call is made" is
  stated as independence: the result is unchanged when that collaborator is
  replaced by any other function.
- `Step + 1` and `Timestamp + 1` are Go `uint64` additions. They are modelled with
  explicit wrap-around (`AddOne`). Lemmas that promise `step + 1` either follow
  from `step < len(Chains)` or carry `step < 2^64 - 1` as a hypothesis.
- A super root's chain list is a Go slice, so its length is at most 2^63 - 1 and
  `uint64(len(Chains))` is exact (`ChainList`).
- Errors from collaborators are opaque (`Cause`) except for one flag: whether the
  error wraps the package's `ErrL1HeadReached`. interop.go:69 applies `errors.Is`
  to every error `deriveOptimisticBlock` returns, including the wrapped
  config-lookup errors (interop.go:105-112), the target computation's error
  (interop.go:113-116) and the executor's (interop.go:127-128).
  `IsL1HeadReached` models that test, so a wrapped head-reached error also turns
  the step into the sentinel. The production `interopTaskExecutor` cannot return
  such an error, because the packages it calls are imported by this one; an
  executor defined inside the package can.
- The boot configuration registry is two lookups keyed by chain ID, each giving
  the configuration or an error of the registry's own. The step wraps that error
  in the "no rollup config" / "no chain config" error (interop.go:107, 111), so it
  too can carry a wrapped `ErrL1HeadReached`.
- The version constants (`IntermediateTransitionVersion` = 255,
  `SuperRootVersionV1` = 1) live in packages that are not part of this model. No
  property depends on their values.
- Step counter and pending progress (interop.go:66-80): each step that derives a
  block appends one block and adds one to the step, so while chains remain the
  step equals the number of pending blocks. Past the last chain only the step
  grows. `ProgressInSync` states `len(pendingProgress) == min(step, len(Chains))`.
- The "honest round" behind the multi-step lemmas asks the oracle to resolve only
  the commitments of the round's states at steps 1 to N, and asks that none of
  them is the sentinel.
  `OneChainEnv` is a concrete environment that meets it (`HonestRoundIsSatisfiable`).

## Model

| member | source | states |
|---|---|---|
| `Types.AddOne` | op-program/client/interop/interop.go:79 | the uint64 increment is one more, except at 2^64 - 1, where it wraps to 0 |
| `Interop.ParseAgreedState` | op-program/client/interop/interop.go:84-101 | the agreed state is accepted iff the resolved version is the intermediate-transition version, the embedded super root decodes, and its version is V1; an accepted pair is the oracle's transition state and the decoding of its super-root bytes; each rejection carries the offending version or the decoder's error |
| `Interop.DeriveOptimisticBlock` | op-program/client/interop/interop.go:103-139 | a failed rollup or chain config lookup fails with the chain ID and the registry's error; a failed target computation or derivation is passed on; derivation is asked for `Chains[step]`'s output at the target for timestamp + 1; a head below the target is `L1HeadReached`; otherwise the block copies the derived hash and output root |
| `Interop.NextState` | op-program/client/interop/interop.go:58-80 | the sentinel prestate is absorbed; parse errors propagate; past the last chain the state keeps its root and progress and bumps the step; otherwise one derived block is appended, an error that is or wraps the head-reached error invalidates the transition, and any other error propagates |
| `Interop.StateTransition` | op-program/client/interop/interop.go:58-82 | an invalid transition commits to the sentinel, an advanced one to the hash of the new state, and errors propagate with no commitment |
| `Interop.ValidateClaim` | op-program/client/interop/interop.go:55 | the claim passes iff it equals the computed commitment; a mismatch names both values |
| `Interop.RunInteropProgram` | op-program/client/interop/interop.go:45-56 | a transition error is returned first; without validation any successful transition passes; with validation the outcome is the claim comparison |
| `InteropProperties.SentinelConsultsNoCollaborator` | op-program/client/interop/interop.go:59-61 | an agreed sentinel gives the sentinel (and a passing unvalidated run) whatever the oracle, decoder, timing rule, derivation and state hash would answer |
| `InteropProperties.VersionGate` | op-program/client/interop/interop.go:88-98 | an unknown transition-state version, an undecodable super root and a non-V1 super root each end the step with that version or decode error |
| `InteropProperties.NoDerivationPastLastChain` | op-program/client/interop/interop.go:66-81 | when `step >= len(Chains)` the commitment is to the same root and progress with the step bumped, independent of the timing rule, derivation, configs and L1 head |
| `InteropProperties.DerivationAppendsOneBlock` | op-program/client/interop/interop.go:66-80 | when derivation of `Chains[step]`'s output at the timestamp + 1 target reaches the target, the new state has exactly that result's block appended and step + 1 |
| `InteropProperties.HeadReachedCollapses` | op-program/client/interop/interop.go:69-70 | a derivation that stops below the target makes the step succeed with the sentinel |
| `InteropProperties.FatalErrorsAbort` | op-program/client/interop/interop.go:105-129 | a failed config lookup, target computation or derivation whose error does not wrap `ErrL1HeadReached`, abort the whole step with that error |
| `InteropProperties.WrappedHeadReachedCollapses` | op-program/client/interop/interop.go:69-72 | a config-lookup, target-computation or derivation error that wraps `ErrL1HeadReached` makes the step succeed with the sentinel, as `errors.Is` does |
| `InteropProperties.ClaimOnlyMattersWhenValidating` | op-program/client/interop/interop.go:48-55 | the commitment never depends on the claim; an unvalidated run ignores it; a validated run passes iff the claim equals the commitment |
| `InteropProperties.ParseReadsOnlyPrestateAndOracle` | op-program/client/interop/interop.go:84-101 | parsing depends only on the agreed prestate, the oracle and the super-root decoder, not on the claim, L1 head, configs, timing rule, derivation or state hash |
| `InteropProperties.DeriveReadsOnlyHeadAndConfigs` | op-program/client/interop/interop.go:103-126 | derivation reads only the L1 head and the configuration registry of the boot information |
| `InteropProperties.StepKeepsProgressInSync` | op-program/client/interop/interop.go:66-80 | an advancing step keeps the super root, extends the progress as a prefix, adds one to the step, and preserves `len(progress) == min(step, len(Chains))` |
| `InteropProperties.SentinelIsAbsorbing` | op-program/client/interop/interop.go:59-61 | from the sentinel, any number of successive steps stays on the sentinel |
| `InteropProperties.HeadReachedIsFinal` | op-program/client/interop/interop.go:69-70 | after a derivation error that is, or wraps, the head-reached error, every later step stays on the sentinel |
| `InteropProperties.HonestStep` | op-program/client/interop/interop.go:58-82 | in an honest round (the oracle resolves the commitments of the round's states at steps 1 to N, none of which is the sentinel), a step from the state after `j` steps commits to the state after `j + 1` steps |
| `InteropProperties.HonestRun` | op-program/client/interop/interop.go:58-82 | in an honest round, `k` successive steps from the state after `j` steps commit to the state after `j + k` steps |
| `InteropProperties.FullRoundDerivesEveryChain` | op-program/client/interop/interop.go:58-82 | in an honest round, from a super root presented as step 0, `len(Chains) + 1` steps commit to step `len(Chains) + 1` with the blocks of `DerivedBlocks`, one per chain in chain order |

## Left out

- Keccak-256 and the byte encoding behind `TransitionState.Hash()`: foreign code, modelled as the uninterpreted `Env.keccak256` and `Env.stateHash`.
- The oracle's `TransitionStateByRoot`, including how it turns a bare super-root commitment into a step-0 transition state, and `eth.UnmarshalSuperRoot`: modelled as `Env.transitionStateByRoot` and `Env.unmarshalSuperRoot`. Oracle panics on a missing preimage are not modelled; these functions are total.
- `rollup.Config.TargetBlockNumber`: its block-timing rule is not part of this model; it is the partial function `Env.targetBlockNumber`.
- `tasks.RunDerivation` and the `interopTaskExecutor` pass-through (interop.go:141-162), and the public `RunInteropProgram` (interop.go:41-43), which only supplies that executor: the derivation pipeline, with both oracles bound in, is `Env.runDerivation`.
- Logging (interop.go:46) and the text of error messages; error kinds are the `Error` datatype.
- The registry's lookups: which chains are configured and what a failed lookup reports are not part of this model; they are the fields `ConfigRegistry.rollup` and `ConfigRegistry.chain`, functions that return a configuration or an error.
- The type assertion `super.(*eth.SuperV1)`: a decoded super root is one datatype with a version tag, so the assertion cannot fail in the model.
- `claim.ValidateClaim` (called at interop.go:55) is not part of this model; `Interop.ValidateClaim` assumes it is a byte comparison of the claim against the computed commitment that fails, naming both, on a mismatch.
- Determinism needs no lemma: every member is a pure function of its arguments.
- `InteropProperties.StepKeepsProgressInSync`: assumes `step < 2^64 - 1`, because at the top of the uint64 range the step wraps to 0 and the invariant does not hold.
