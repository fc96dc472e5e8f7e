/** Properties of the interop step: how it threads its collaborators' answers,
    what it never consults, and what successive steps add up to. */
module InteropProperties {
  import opened Wrappers
  import opened Types
  import opened Collaborators
  import opened Interop

  // ---------------------------------------------------------------------------
  // Single steps
  // ---------------------------------------------------------------------------

  /** An agreed sentinel yields the sentinel, whatever the oracle, the decoder, the
      timing rule, the derivation pipeline and the state hash would answer. */
  lemma SentinelConsultsNoCollaborator(env: Env, boot: BootInfo, other: Env)
    requires boot.agreedPrestate == InvalidTransitionHash(env)
    requires other.keccak256 == env.keccak256
    ensures StateTransition(other, boot) == Success(InvalidTransitionHash(env))
    ensures RunInteropProgram(other, boot, false) == Pass
  {
  }

  /** Unknown version tags and undecodable super roots end the step with an error
      that carries the offending version or the decoder's cause. */
  lemma VersionGate(env: Env, boot: BootInfo)
    requires boot.agreedPrestate != InvalidTransitionHash(env)
    ensures var resolved := env.transitionStateByRoot(boot.agreedPrestate);
            resolved.version != IntermediateTransitionVersion ==>
              StateTransition(env, boot) == Failure(IncorrectOutputRootType(resolved.version))
    ensures var resolved := env.transitionStateByRoot(boot.agreedPrestate);
            var decoded := env.unmarshalSuperRoot(resolved.state.superRoot);
            resolved.version == IntermediateTransitionVersion && decoded.Failure? ==>
              StateTransition(env, boot) == Failure(InvalidSuperRoot(decoded.error))
    ensures var resolved := env.transitionStateByRoot(boot.agreedPrestate);
            var decoded := env.unmarshalSuperRoot(resolved.state.superRoot);
            resolved.version == IntermediateTransitionVersion && decoded.Success? &&
            decoded.value.version != SuperRootVersionV1 ==>
              StateTransition(env, boot) == Failure(IncorrectOutputRootType(decoded.value.version))
  {
  }

  /** Once every chain has been derived, a step derives nothing: the result does not
      depend on the timing rule, the derivation pipeline, the configurations or the
      L1 head, keeps the super root and the pending progress, and bumps the step. */
  lemma NoDerivationPastLastChain(env: Env, boot: BootInfo,
                                  targetRule: (RollupConfig, uint64) -> Result<uint64, Cause>,
                                  derivation: DerivationRequest -> Result<DerivationResult, Cause>,
                                  configs: ConfigRegistry, l1Head: Bytes32)
    requires boot.agreedPrestate != InvalidTransitionHash(env)
    requires ParseAgreedState(env, boot).Success?
    requires ParseAgreedState(env, boot).value.0.step >= |ParseAgreedState(env, boot).value.1.chains|
    ensures var state := ParseAgreedState(env, boot).value.0;
            StateTransition(env.(targetBlockNumber := targetRule, runDerivation := derivation),
                            boot.(configs := configs, l1Head := l1Head))
            == Success(env.stateHash(TransitionState(state.superRoot, state.pendingProgress, AddOne(state.step))))
  {
  }

  /** A successful derivation of chain `step` appends exactly one block, copied from
      the derivation result, and advances the step by one. The derivation is asked
      for that chain's agreed output root and for the target block of the timestamp
      after the super root's. */
  lemma DerivationAppendsOneBlock(env: Env, boot: BootInfo, target: uint64, result: DerivationResult)
    requires boot.agreedPrestate != InvalidTransitionHash(env)
    requires ParseAgreedState(env, boot).Success?
    requires var (state, superRoot) := ParseAgreedState(env, boot).value;
             && state.step < |superRoot.chains|
             && var chain := superRoot.chains[state.step];
                && boot.configs.rollup(chain.chainId).Success?
                && boot.configs.chain(chain.chainId).Success?
                && env.targetBlockNumber(boot.configs.rollup(chain.chainId).value, AddOne(superRoot.timestamp))
                   == Success(target)
                && env.runDerivation(DerivationRequest(boot.configs.rollup(chain.chainId).value,
                                                       boot.configs.chain(chain.chainId).value,
                                                       boot.l1Head, chain.output, target))
                   == Success(result)
    requires result.headNumber >= target
    ensures var (state, superRoot) := ParseAgreedState(env, boot).value;
            var next := TransitionState(state.superRoot,
                                        state.pendingProgress + [OptimisticBlock(result.blockHash, result.outputRoot)],
                                        state.step + 1);
            && NextState(env, boot) == Success(Advanced(next))
            && StateTransition(env, boot) == Success(env.stateHash(next))
  {
  }

  /** A derivation that stops short of the target block turns the step into the
      sentinel, as a success and not as an error. */
  lemma HeadReachedCollapses(env: Env, boot: BootInfo, target: uint64, result: DerivationResult)
    requires boot.agreedPrestate != InvalidTransitionHash(env)
    requires ParseAgreedState(env, boot).Success?
    requires var (state, superRoot) := ParseAgreedState(env, boot).value;
             && state.step < |superRoot.chains|
             && var chain := superRoot.chains[state.step];
                && boot.configs.rollup(chain.chainId).Success?
                && boot.configs.chain(chain.chainId).Success?
                && env.targetBlockNumber(boot.configs.rollup(chain.chainId).value, AddOne(superRoot.timestamp))
                   == Success(target)
                && env.runDerivation(DerivationRequest(boot.configs.rollup(chain.chainId).value,
                                                       boot.configs.chain(chain.chainId).value,
                                                       boot.l1Head, chain.output, target))
                   == Success(result)
    requires result.headNumber < target
    ensures StateTransition(env, boot) == Success(InvalidTransitionHash(env))
  {
  }

  /** A failed configuration lookup, a failed target computation and a failed
      derivation abort the step with that error and no commitment, unless the
      error wraps `ErrL1HeadReached`. */
  lemma FatalErrorsAbort(env: Env, boot: BootInfo)
    requires boot.agreedPrestate != InvalidTransitionHash(env)
    requires ParseAgreedState(env, boot).Success?
    requires ParseAgreedState(env, boot).value.0.step < |ParseAgreedState(env, boot).value.1.chains|
    ensures var (state, superRoot) := ParseAgreedState(env, boot).value;
            var id := superRoot.chains[state.step].chainId;
            var rollup := boot.configs.rollup(id);
            rollup.Failure? && !rollup.error.wrapsL1HeadReached ==>
              StateTransition(env, boot) == Failure(NoRollupConfig(id, rollup.error))
    ensures var (state, superRoot) := ParseAgreedState(env, boot).value;
            var id := superRoot.chains[state.step].chainId;
            var chain := boot.configs.chain(id);
            boot.configs.rollup(id).Success? && chain.Failure? && !chain.error.wrapsL1HeadReached ==>
              StateTransition(env, boot) == Failure(NoChainConfig(id, chain.error))
    ensures var (state, superRoot) := ParseAgreedState(env, boot).value;
            var id := superRoot.chains[state.step].chainId;
            boot.configs.rollup(id).Success? && boot.configs.chain(id).Success? ==>
              var target := env.targetBlockNumber(boot.configs.rollup(id).value, AddOne(superRoot.timestamp));
              && (target.Failure? && !target.error.wrapsL1HeadReached ==>
                    StateTransition(env, boot) == Failure(TargetBlockUnavailable(target.error)))
              && (target.Success? ==>
                    var derived := env.runDerivation(
                      DerivationRequest(boot.configs.rollup(id).value, boot.configs.chain(id).value,
                                        boot.l1Head, superRoot.chains[state.step].output, target.value));
                    derived.Failure? && !derived.error.wrapsL1HeadReached ==>
                      StateTransition(env, boot) == Failure(DerivationFailed(derived.error)))
  {
  }

  /** A configuration lookup, target computation or derivation error that wraps
      `ErrL1HeadReached` is recognised like the head check's own error: the step
      succeeds with the sentinel. */
  lemma WrappedHeadReachedCollapses(env: Env, boot: BootInfo)
    requires boot.agreedPrestate != InvalidTransitionHash(env)
    requires ParseAgreedState(env, boot).Success?
    requires ParseAgreedState(env, boot).value.0.step < |ParseAgreedState(env, boot).value.1.chains|
    ensures var (state, superRoot) := ParseAgreedState(env, boot).value;
            var id := superRoot.chains[state.step].chainId;
            var rollup := boot.configs.rollup(id);
            rollup.Failure? && rollup.error.wrapsL1HeadReached ==>
              StateTransition(env, boot) == Success(InvalidTransitionHash(env))
    ensures var (state, superRoot) := ParseAgreedState(env, boot).value;
            var id := superRoot.chains[state.step].chainId;
            var chain := boot.configs.chain(id);
            boot.configs.rollup(id).Success? && chain.Failure? && chain.error.wrapsL1HeadReached ==>
              StateTransition(env, boot) == Success(InvalidTransitionHash(env))
    ensures var (state, superRoot) := ParseAgreedState(env, boot).value;
            var id := superRoot.chains[state.step].chainId;
            boot.configs.rollup(id).Success? && boot.configs.chain(id).Success? ==>
              var target := env.targetBlockNumber(boot.configs.rollup(id).value, AddOne(superRoot.timestamp));
              && (target.Failure? && target.error.wrapsL1HeadReached ==>
                    StateTransition(env, boot) == Success(InvalidTransitionHash(env)))
              && (target.Success? ==>
                    var derived := env.runDerivation(
                      DerivationRequest(boot.configs.rollup(id).value, boot.configs.chain(id).value,
                                        boot.l1Head, superRoot.chains[state.step].output, target.value));
                    derived.Failure? && derived.error.wrapsL1HeadReached ==>
                      StateTransition(env, boot) == Success(InvalidTransitionHash(env)))
  {
  }

  /** The step never reads the claim: changing it changes neither the commitment
      nor the outcome of a run that does not validate. */
  lemma ClaimOnlyMattersWhenValidating(env: Env, boot: BootInfo, claim: Bytes32)
    ensures StateTransition(env, boot.(claim := claim)) == StateTransition(env, boot)
    ensures RunInteropProgram(env, boot.(claim := claim), false) == RunInteropProgram(env, boot, false)
    ensures StateTransition(env, boot).Success? ==>
              (RunInteropProgram(env, boot.(claim := claim), true) == Pass <==>
               claim == StateTransition(env, boot).value)
  {
  }

  /** Parsing reads only the agreed prestate, the oracle and the super-root decoder:
      the claim, the L1 head, the configurations, the timing rule, the derivation
      pipeline and the state hash play no part in it. */
  lemma ParseReadsOnlyPrestateAndOracle(env: Env, boot: BootInfo, other: Env, otherBoot: BootInfo)
    requires other.transitionStateByRoot == env.transitionStateByRoot
    requires other.unmarshalSuperRoot == env.unmarshalSuperRoot
    requires otherBoot.agreedPrestate == boot.agreedPrestate
    ensures ParseAgreedState(other, otherBoot) == ParseAgreedState(env, boot)
  {
  }

  /** Derivation reads only the L1 head and the configuration registry of the boot
      information, never the agreed prestate or the claim. */
  lemma DeriveReadsOnlyHeadAndConfigs(env: Env, boot: BootInfo, other: BootInfo, superRoot: SuperRoot, step: nat)
    requires step < |superRoot.chains|
    requires other.l1Head == boot.l1Head && other.configs == boot.configs
    ensures DeriveOptimisticBlock(env, other, superRoot, step) == DeriveOptimisticBlock(env, boot, superRoot, step)
  {
  }

  // ---------------------------------------------------------------------------
  // The progress invariant
  // ---------------------------------------------------------------------------

  /** The pending progress holds one block per step taken, up to one per chain. */
  ghost predicate ProgressInSync(state: TransitionState, chainCount: nat)
  {
    |state.pendingProgress| == Min(state.step, chainCount)
  }

  /** A step that advances keeps the super root, extends the pending progress, adds
      one to the step, and keeps the progress in sync with the step. */
  lemma StepKeepsProgressInSync(env: Env, boot: BootInfo)
    requires boot.agreedPrestate != InvalidTransitionHash(env)
    requires ParseAgreedState(env, boot).Success?
    requires var (state, superRoot) := ParseAgreedState(env, boot).value;
             ProgressInSync(state, |superRoot.chains|) && state.step < TWO_TO_THE_64 - 1
    requires NextState(env, boot).Success? && NextState(env, boot).value.Advanced?
    ensures var (state, superRoot) := ParseAgreedState(env, boot).value;
            var next := NextState(env, boot).value.state;
            && next.superRoot == state.superRoot
            && next.step == state.step + 1
            && state.pendingProgress <= next.pendingProgress
            && ProgressInSync(next, |superRoot.chains|)
  {
  }

  // ---------------------------------------------------------------------------
  // Successive steps
  // ---------------------------------------------------------------------------

  /** The commitment reached after `k` successive steps, each run with the previous
      step's commitment as its agreed prestate. */
  function Drive(env: Env, boot: BootInfo, k: nat): Result<Bytes32, Error>
    decreases k
  {
    if k == 0 then Success(boot.agreedPrestate)
    else
      match StateTransition(env, boot)
      case Failure(e) => Failure(e)
      case Success(commitment) => Drive(env, boot.(agreedPrestate := commitment), k - 1)
  }

  /** The sentinel is absorbing: any number of further steps stays on it. */
  lemma {:induction false} SentinelIsAbsorbing(env: Env, boot: BootInfo, k: nat)
    requires boot.agreedPrestate == InvalidTransitionHash(env)
    ensures Drive(env, boot, k) == Success(InvalidTransitionHash(env))
    decreases k
  {
    if k > 0 {
      assert boot.(agreedPrestate := InvalidTransitionHash(env)) == boot;
      SentinelIsAbsorbing(env, boot, k - 1);
    }
  }

  /** Reaching the L1 head freezes the whole remaining history on the sentinel. */
  lemma HeadReachedIsFinal(env: Env, boot: BootInfo, k: nat)
    requires k >= 1
    requires boot.agreedPrestate != InvalidTransitionHash(env)
    requires ParseAgreedState(env, boot).Success?
    requires var (state, superRoot) := ParseAgreedState(env, boot).value;
             state.step < |superRoot.chains| &&
             DeriveOptimisticBlock(env, boot, superRoot, state.step).Failure? &&
             IsL1HeadReached(DeriveOptimisticBlock(env, boot, superRoot, state.step).error)
    ensures Drive(env, boot, k) == Success(InvalidTransitionHash(env))
  {
    SentinelIsAbsorbing(env, boot.(agreedPrestate := InvalidTransitionHash(env)), k - 1);
  }

  /** Every chain of the super root derives successfully up to its target. */
  ghost predicate EveryChainDerives(env: Env, boot: BootInfo, superRoot: SuperRoot)
  {
    forall i :: 0 <= i < |superRoot.chains| ==> DeriveOptimisticBlock(env, boot, superRoot, i).Success?
  }

  /** The blocks derived for the first `n` chains, in chain order. */
  function DerivedBlocks(env: Env, boot: BootInfo, superRoot: SuperRoot, n: nat): (blocks: seq<OptimisticBlock>)
    requires n <= |superRoot.chains|
    requires EveryChainDerives(env, boot, superRoot)
    ensures |blocks| == n
    ensures forall i :: 0 <= i < n ==> blocks[i] == DeriveOptimisticBlock(env, boot, superRoot, i).value
  {
    if n == 0 then []
    else DerivedBlocks(env, boot, superRoot, n - 1) + [DeriveOptimisticBlock(env, boot, superRoot, n - 1).value]
  }

  /** The honest environment of a round over one super root: the super root's
      encoding decodes to it, every chain derives, and each state the round passes
      through after step 0 and up to step N is committed to by a value other than
      the sentinel that the oracle resolves back to that state. */
  ghost predicate HonestRound(env: Env, boot: BootInfo, superRoot: SuperRoot, encoded: Bytes)
  {
    && superRoot.version == SuperRootVersionV1
    && env.unmarshalSuperRoot(encoded) == Success(superRoot)
    && EveryChainDerives(env, boot, superRoot)
    && forall j: nat {:trigger RoundState(env, boot, superRoot, encoded, j)} :: 1 <= j <= |superRoot.chains| ==>
         && env.stateHash(RoundState(env, boot, superRoot, encoded, j)) != InvalidTransitionHash(env)
         && env.transitionStateByRoot(env.stateHash(RoundState(env, boot, superRoot, encoded, j)))
            == ResolvedTransitionState(IntermediateTransitionVersion, RoundState(env, boot, superRoot, encoded, j))
  }

  /** A digest whose bytes all equal `b`. */
  function Filled(b: uint8): Bytes32
  {
    seq(32, _ => b)
  }

  /** A one-chain super root, its boot information and an environment in which
      every derivation reaches its target and each state's commitment records its
      step, so that the oracle can resolve the round's states. */
  function OneChainSuperRoot(): SuperRoot
  {
    SuperRoot(SuperRootVersionV1, 0, [ChainIdAndOutput(0, Filled(9))])
  }

  function OneChainBoot(): BootInfo
  {
    BootInfo(Filled(3), Filled(4), Filled(5),
             ConfigRegistry((id: ChainId) => Success(RollupConfig(id)), (id: ChainId) => Success(ChainConfig(id))))
  }

  function OneChainEnv(): Env
  {
    Env(
      (_: Bytes) => Filled(255),
      (state: TransitionState) => Filled(state.step % 255),
      (root: Bytes32) => if root[0] == 0
              then ResolvedTransitionState(IntermediateTransitionVersion, TransitionState([], [], 0))
              else ResolvedTransitionState(IntermediateTransitionVersion,
                                           TransitionState([], [OptimisticBlock(Filled(7), Filled(8))], root[0])),
      (_: Bytes) => Success(OneChainSuperRoot()),
      (_: RollupConfig, _: uint64) => Success(5),
      (request: DerivationRequest) => Success(DerivationResult(request.claimedBlockNumber, Filled(7), Filled(8))))
  }

  /** `HonestRound` is not vacuous: the one-chain environment meets it. */
  lemma HonestRoundIsSatisfiable()
    ensures HonestRound(OneChainEnv(), OneChainBoot(), OneChainSuperRoot(), [])
  {
    var env, boot, superRoot := OneChainEnv(), OneChainBoot(), OneChainSuperRoot();
    assert DeriveOptimisticBlock(env, boot, superRoot, 0) == Success(OptimisticBlock(Filled(7), Filled(8))) by {
      assert boot.configs.rollup(0) == Success(RollupConfig(0));
      assert boot.configs.chain(0) == Success(ChainConfig(0));
    }
    assert EveryChainDerives(env, boot, superRoot);
    var last := RoundState(env, boot, superRoot, [], 1);
    assert last == TransitionState([], [OptimisticBlock(Filled(7), Filled(8))], 1);
    assert env.stateHash(last) == Filled(1);
    assert Filled(1)[0] == 1 && Filled(1) != Filled(255);
    assert env.transitionStateByRoot(Filled(1)) == ResolvedTransitionState(IntermediateTransitionVersion, last);
  }

  /** The transition state after `j` honest steps of a round: one derived block
      per step taken, up to one per chain. */
  function RoundState(env: Env, boot: BootInfo, superRoot: SuperRoot, encoded: Bytes, j: uint64): (state: TransitionState)
    requires EveryChainDerives(env, boot, superRoot)
    ensures ProgressInSync(state, |superRoot.chains|)
  {
    TransitionState(encoded, DerivedBlocks(env, boot, superRoot, Min(j, |superRoot.chains|)), j)
  }

  /** One honest step from the state after `j` steps leads to the state after `j + 1`. */
  lemma HonestStep(env: Env, boot: BootInfo, prestate: Bytes32, superRoot: SuperRoot, encoded: Bytes, j: nat)
    requires HonestRound(env, boot, superRoot, encoded)
    requires prestate != InvalidTransitionHash(env)
    requires j <= |superRoot.chains|
    requires env.transitionStateByRoot(prestate)
             == ResolvedTransitionState(IntermediateTransitionVersion, RoundState(env, boot, superRoot, encoded, j))
    ensures StateTransition(env, boot.(agreedPrestate := prestate))
            == Success(env.stateHash(RoundState(env, boot, superRoot, encoded, j + 1)))
  {
  }

  /** Starting from the state after `j` honest steps, `k` more steps commit to the
      state after `j + k` steps. */
  lemma {:induction false} HonestRun(env: Env, boot: BootInfo, prestate: Bytes32, superRoot: SuperRoot,
                                     encoded: Bytes, j: nat, k: nat)
    requires HonestRound(env, boot, superRoot, encoded)
    requires prestate != InvalidTransitionHash(env)
    requires 1 <= k && j + k <= |superRoot.chains| + 1
    requires env.transitionStateByRoot(prestate)
             == ResolvedTransitionState(IntermediateTransitionVersion, RoundState(env, boot, superRoot, encoded, j))
    ensures Drive(env, boot.(agreedPrestate := prestate), k)
            == Success(env.stateHash(RoundState(env, boot, superRoot, encoded, j + k)))
    decreases k
  {
    var next := RoundState(env, boot, superRoot, encoded, j + 1);
    var commitment := env.stateHash(next);
    HonestStep(env, boot, prestate, superRoot, encoded, j);
    DriveUnfolds(env, boot.(agreedPrestate := prestate), k, commitment);
    assert boot.(agreedPrestate := prestate).(agreedPrestate := commitment) == boot.(agreedPrestate := commitment);
    if k > 1 {
      assert RoundState(env, boot, superRoot, encoded, j + 1) == next;
      HonestRun(env, boot, commitment, superRoot, encoded, j + 1, k - 1);
    }
  }

  /** The first of several steps, when it commits to `commitment`, hands it on as
      the next agreed prestate. */
  lemma DriveUnfolds(env: Env, boot: BootInfo, k: nat, commitment: Bytes32)
    requires k >= 1
    requires StateTransition(env, boot) == Success(commitment)
    ensures Drive(env, boot, k) == Drive(env, boot.(agreedPrestate := commitment), k - 1)
  {
  }

  /** A full round from a super root: the oracle presents the super-root commitment
      as step 0 with no progress, and after one step per chain plus one more the
      commitment is to every chain's derived block, in chain order, at step N + 1. */
  lemma FullRoundDerivesEveryChain(env: Env, boot: BootInfo, prestate: Bytes32, superRoot: SuperRoot, encoded: Bytes)
    requires HonestRound(env, boot, superRoot, encoded)
    requires prestate != InvalidTransitionHash(env)
    requires env.transitionStateByRoot(prestate)
             == ResolvedTransitionState(IntermediateTransitionVersion, TransitionState(encoded, [], 0))
    ensures var n := |superRoot.chains|;
            var blocks := DerivedBlocks(env, boot, superRoot, n);
            Drive(env, boot.(agreedPrestate := prestate), n + 1)
            == Success(env.stateHash(TransitionState(encoded, blocks, n + 1)))
  {
    assert RoundState(env, boot, superRoot, encoded, 0) == TransitionState(encoded, [], 0);
    HonestRun(env, boot, prestate, superRoot, encoded, 0, |superRoot.chains| + 1);
  }
}
