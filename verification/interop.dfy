/** One step of the interop fault-proof program: resolve the agreed transition
    state, derive at most one chain's block, and commit to the resulting state. */
module Interop {
  import opened Wrappers
  import opened Types
  import opened Collaborators

  /** Where a step ends before its result is committed to: the transition is
      declared invalid, or a new transition state results. */
  datatype StepOutcome = Invalidated | Advanced(state: TransitionState)

  /** Resolves the agreed prestate through the oracle and accepts it only if the
      transition state and the super root it embeds carry the known versions. */
  function ParseAgreedState(env: Env, boot: BootInfo): (r: Result<(TransitionState, SuperRoot), Error>)
    ensures var resolved := env.transitionStateByRoot(boot.agreedPrestate);
            resolved.version != IntermediateTransitionVersion ==>
              r == Failure(IncorrectOutputRootType(resolved.version))
    ensures var resolved := env.transitionStateByRoot(boot.agreedPrestate);
            var decoded := env.unmarshalSuperRoot(resolved.state.superRoot);
            resolved.version == IntermediateTransitionVersion && decoded.Failure? ==>
              r == Failure(InvalidSuperRoot(decoded.error))
    ensures var resolved := env.transitionStateByRoot(boot.agreedPrestate);
            var decoded := env.unmarshalSuperRoot(resolved.state.superRoot);
            resolved.version == IntermediateTransitionVersion && decoded.Success? &&
            decoded.value.version != SuperRootVersionV1 ==>
              r == Failure(IncorrectOutputRootType(decoded.value.version))
    ensures var resolved := env.transitionStateByRoot(boot.agreedPrestate);
            r.Success? <==>
              && resolved.version == IntermediateTransitionVersion
              && env.unmarshalSuperRoot(resolved.state.superRoot).Success?
              && env.unmarshalSuperRoot(resolved.state.superRoot).value.version == SuperRootVersionV1
    ensures r.Success? ==>
              && r.value.0 == env.transitionStateByRoot(boot.agreedPrestate).state
              && env.unmarshalSuperRoot(r.value.0.superRoot) == Success(r.value.1)
              && r.value.1.version == SuperRootVersionV1
  {
    var resolved := env.transitionStateByRoot(boot.agreedPrestate);
    if resolved.version != IntermediateTransitionVersion then
      Failure(IncorrectOutputRootType(resolved.version))
    else
      match env.unmarshalSuperRoot(resolved.state.superRoot)
      case Failure(e) => Failure(InvalidSuperRoot(e))
      case Success(superRoot) =>
        if superRoot.version != SuperRootVersionV1 then
          Failure(IncorrectOutputRootType(superRoot.version))
        else
          Success((resolved.state, superRoot))
  }

  /** Both configurations of the chain at `step` are registered. */
  predicate Configured(boot: BootInfo, superRoot: SuperRoot, step: nat)
    requires step < |superRoot.chains|
  {
    var id := superRoot.chains[step].chainId;
    boot.configs.rollup(id).Success? && boot.configs.chain(id).Success?
  }

  /** The block number the chain at `step` must reach: the timing rule applied to
      the timestamp one past the super root's. */
  function TargetFor(env: Env, boot: BootInfo, superRoot: SuperRoot, step: nat): Result<uint64, Cause>
    requires step < |superRoot.chains| && Configured(boot, superRoot, step)
  {
    env.targetBlockNumber(boot.configs.rollup(superRoot.chains[step].chainId).value, AddOne(superRoot.timestamp))
  }

  /** What derivation is asked for the chain at `step`: its configurations, the
      trusted L1 head, the chain's agreed output root and the target block. */
  function RequestFor(boot: BootInfo, superRoot: SuperRoot, step: nat, target: uint64): DerivationRequest
    requires step < |superRoot.chains| && Configured(boot, superRoot, step)
  {
    var chain := superRoot.chains[step];
    DerivationRequest(boot.configs.rollup(chain.chainId).value, boot.configs.chain(chain.chainId).value,
                      boot.l1Head, chain.output, target)
  }

  /** Derives the next block of the chain at position `step` of the super root.
      `deriveOptimisticBlock` takes the whole `*types.TransitionState` but reads
      only its `Step`. */
  function DeriveOptimisticBlock(env: Env, boot: BootInfo, superRoot: SuperRoot, step: nat)
    : (r: Result<OptimisticBlock, Error>)
    requires step < |superRoot.chains|
    ensures var id := superRoot.chains[step].chainId;
            boot.configs.rollup(id).Failure? ==> r == Failure(NoRollupConfig(id, boot.configs.rollup(id).error))
    ensures var id := superRoot.chains[step].chainId;
            boot.configs.rollup(id).Success? && boot.configs.chain(id).Failure? ==>
              r == Failure(NoChainConfig(id, boot.configs.chain(id).error))
    ensures Configured(boot, superRoot, step) && TargetFor(env, boot, superRoot, step).Failure? ==>
              r == Failure(TargetBlockUnavailable(TargetFor(env, boot, superRoot, step).error))
    ensures Configured(boot, superRoot, step) && TargetFor(env, boot, superRoot, step).Success? ==>
              var target := TargetFor(env, boot, superRoot, step).value;
              var derived := env.runDerivation(RequestFor(boot, superRoot, step, target));
              && (derived.Failure? ==> r == Failure(DerivationFailed(derived.error)))
              && (derived.Success? && derived.value.headNumber < target ==> r == Failure(L1HeadReached))
              && (derived.Success? && derived.value.headNumber >= target ==>
                    r == Success(OptimisticBlock(derived.value.blockHash, derived.value.outputRoot)))
  {
    var chain := superRoot.chains[step];
    if boot.configs.rollup(chain.chainId).Failure? then
      Failure(NoRollupConfig(chain.chainId, boot.configs.rollup(chain.chainId).error))
    else if boot.configs.chain(chain.chainId).Failure? then
      Failure(NoChainConfig(chain.chainId, boot.configs.chain(chain.chainId).error))
    else
      match TargetFor(env, boot, superRoot, step)
      case Failure(e) => Failure(TargetBlockUnavailable(e))
      case Success(target) =>
        match env.runDerivation(RequestFor(boot, superRoot, step, target))
        case Failure(e) => Failure(DerivationFailed(e))
        case Success(derived) =>
          if derived.headNumber < target then Failure(L1HeadReached)
          else Success(OptimisticBlock(derived.blockHash, derived.outputRoot))
  }

  /** The state-machine part of a step: absorb the sentinel, parse, derive the chain
      at the current step if there is one left, and build the next transition state. */
  function NextState(env: Env, boot: BootInfo): (r: Result<StepOutcome, Error>)
    ensures boot.agreedPrestate == InvalidTransitionHash(env) ==> r == Success(Invalidated)
    ensures boot.agreedPrestate != InvalidTransitionHash(env) &&
            ParseAgreedState(env, boot).Failure? ==>
              r == Failure(ParseAgreedState(env, boot).error)
    ensures boot.agreedPrestate != InvalidTransitionHash(env) &&
            ParseAgreedState(env, boot).Success? ==>
              var (state, superRoot) := ParseAgreedState(env, boot).value;
              state.step >= |superRoot.chains| ==>
                r == Success(Advanced(TransitionState(state.superRoot, state.pendingProgress, AddOne(state.step))))
    ensures boot.agreedPrestate != InvalidTransitionHash(env) &&
            ParseAgreedState(env, boot).Success? ==>
              var (state, superRoot) := ParseAgreedState(env, boot).value;
              state.step < |superRoot.chains| ==>
                var derived := DeriveOptimisticBlock(env, boot, superRoot, state.step);
                && (derived.Success? ==>
                      r == Success(Advanced(TransitionState(state.superRoot,
                                                            state.pendingProgress + [derived.value],
                                                            AddOne(state.step)))))
                && (derived.Failure? && IsL1HeadReached(derived.error) ==> r == Success(Invalidated))
                && (derived.Failure? && !IsL1HeadReached(derived.error) ==> r == Failure(derived.error))
  {
    if boot.agreedPrestate == InvalidTransitionHash(env) then
      Success(Invalidated)
    else
      match ParseAgreedState(env, boot)
      case Failure(e) => Failure(e)
      case Success((state, superRoot)) =>
        if state.step < |superRoot.chains| then
          match DeriveOptimisticBlock(env, boot, superRoot, state.step)
          case Failure(e) =>
            if IsL1HeadReached(e) then Success(Invalidated) else Failure(e)
          case Success(block) =>
            Success(Advanced(TransitionState(state.superRoot, state.pendingProgress + [block], AddOne(state.step))))
        else
          Success(Advanced(TransitionState(state.superRoot, state.pendingProgress, AddOne(state.step))))
  }

  /** One step of the program: the commitment to the next state, or the sentinel
      when the transition is invalid. */
  function StateTransition(env: Env, boot: BootInfo): (r: Result<Bytes32, Error>)
    ensures NextState(env, boot).Failure? ==> r == Failure(NextState(env, boot).error)
    ensures NextState(env, boot) == Success(Invalidated) ==> r == Success(InvalidTransitionHash(env))
    ensures NextState(env, boot).Success? && NextState(env, boot).value.Advanced? ==>
              r == Success(env.stateHash(NextState(env, boot).value.state))
  {
    match NextState(env, boot)
    case Failure(e) => Failure(e)
    case Success(Invalidated) => Success(InvalidTransitionHash(env))
    case Success(Advanced(state)) => Success(env.stateHash(state))
  }

  /** Byte comparison of the claimed commitment against the computed one. */
  function ValidateClaim(claimed: Bytes32, computed: Bytes32): (r: Outcome<Error>)
    ensures r.Pass? <==> claimed == computed
    ensures r.Fail? ==> r.error == ClaimNotValid(claimed, computed)
  {
    if claimed != computed then Fail(ClaimNotValid(claimed, computed)) else Pass
  }

  /** The program's entry point: run the step and, when asked, check the claim. */
  function RunInteropProgram(env: Env, boot: BootInfo, validateClaim: bool): (r: Outcome<Error>)
    ensures StateTransition(env, boot).Failure? ==> r == Fail(StateTransition(env, boot).error)
    ensures StateTransition(env, boot).Success? && !validateClaim ==> r == Pass
    ensures StateTransition(env, boot).Success? && validateClaim ==>
              && (r.Pass? <==> boot.claim == StateTransition(env, boot).value)
              && (r.Fail? ==> r.error == ClaimNotValid(boot.claim, StateTransition(env, boot).value))
  {
    match StateTransition(env, boot)
    case Failure(e) => Fail(e)
    case Success(expected) =>
      if !validateClaim then Pass else ValidateClaim(boot.claim, expected)
  }
}
