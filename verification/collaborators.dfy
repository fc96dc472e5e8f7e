/** The code one step calls but does not contain, as uninterpreted functions. */
module Collaborators {
  import opened Wrappers
  import opened Types

  /** Arguments handed to the derivation pipeline for one chain. */
  datatype DerivationRequest = DerivationRequest(
    rollupConfig: RollupConfig,
    chainConfig: ChainConfig,
    l1Head: Bytes32,
    agreedOutputRoot: Bytes32,
    claimedBlockNumber: uint64)

  /** What the derivation pipeline reports: the block it reached and its commitments. */
  datatype DerivationResult = DerivationResult(headNumber: uint64, blockHash: Bytes32, outputRoot: Bytes32)

  /** The environment of a step. Each field stands for one collaborator:
      - `keccak256`: the Keccak-256 hash;
      - `stateHash`: `TransitionState.Hash()`, the commitment to a transition state;
      - `transitionStateByRoot`: the L2 preimage oracle resolving a commitment;
      - `unmarshalSuperRoot`: decoding of a super root's bytes;
      - `targetBlockNumber`: a rollup configuration's block-timing rule;
      - `runDerivation`: the derivation pipeline, with both oracles bound in. */
  datatype Env = Env(
    keccak256: Bytes -> Bytes32,
    stateHash: TransitionState -> Bytes32,
    transitionStateByRoot: Bytes32 -> ResolvedTransitionState,
    unmarshalSuperRoot: Bytes -> Result<SuperRoot, Cause>,
    targetBlockNumber: (RollupConfig, uint64) -> Result<uint64, Cause>,
    runDerivation: DerivationRequest -> Result<DerivationResult, Cause>)

  /** The ASCII bytes of the literal "invalid". */
  const InvalidTransition: Bytes := [0x69, 0x6e, 0x76, 0x61, 0x6c, 0x69, 0x64]

  /** The absorbing sentinel commitment: the hash of "invalid". */
  function InvalidTransitionHash(env: Env): Bytes32
  {
    env.keccak256(InvalidTransition)
  }
}
