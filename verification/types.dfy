/** Plain data of one interop fault-proof step: fixed-width integers, commitments,
    super roots, transition states, boot information and the error kinds. */
module Types {

  import opened Wrappers

  type uint8 = x: int | 0 <= x < 0x100

  const TWO_TO_THE_64: int := 0x1_0000_0000_0000_0000

  type uint64 = x: int | 0 <= x < TWO_TO_THE_64

  type Bytes = seq<uint8>

  /** A 32-byte digest: commitments, block hashes, output roots, the L1 head. */
  type Bytes32 = b: Bytes | |b| == 32 witness seq(32, _ => 0)

  /** Chain identifiers are 256-bit in Go; only their identity matters here. */
  type ChainId = nat

  /** Go's `x + 1` on a uint64: wraps to zero at the top of the range. */
  function AddOne(x: uint64): (r: uint64)
    ensures x < TWO_TO_THE_64 - 1 ==> r == x + 1
    ensures x == TWO_TO_THE_64 - 1 ==> r == 0
  {
    (x + 1) % TWO_TO_THE_64
  }

  function Min(a: int, b: int): int
  {
    if a <= b then a else b
  }

  /** Version tag of an intermediate transition state (defined in the interop types
      package, which is not part of this model). */
  const IntermediateTransitionVersion: uint8 := 255

  /** The one super-root version this step understands (defined in op-service/eth,
      which is not part of this model). */
  const SuperRootVersionV1: uint8 := 1

  /** One chain's entry in a super root: its identifier and agreed output root. */
  datatype ChainIdAndOutput = ChainIdAndOutput(chainId: ChainId, output: Bytes32)

  /** The largest Go `int`, which bounds the length of every slice. */
  const MAX_INT64: int := 0x7fff_ffff_ffff_ffff

  /** The chain list of a super root, a Go slice; its length converts to uint64 exactly. */
  type ChainList = s: seq<ChainIdAndOutput> | |s| <= MAX_INT64

  /** A decoded super root: the agreed state of every chain at one timestamp.
      The order of `chains` is significant. */
  datatype SuperRoot = SuperRoot(version: uint8, timestamp: uint64, chains: ChainList)

  /** One chain's freshly derived block within a transition. */
  datatype OptimisticBlock = OptimisticBlock(blockHash: Bytes32, outputRoot: Bytes32)

  /** A super-chain state part-way through derivation: the encoded super root it
      started from, the blocks derived so far, and the step counter. */
  datatype TransitionState = TransitionState(
    superRoot: Bytes,
    pendingProgress: seq<OptimisticBlock>,
    step: uint64)

  /** What the preimage oracle hands back for a commitment: a transition state
      together with the version tag it reports. */
  datatype ResolvedTransitionState = ResolvedTransitionState(version: uint8, state: TransitionState)

  /** Per-chain configuration records; only the chain they belong to is kept. */
  datatype RollupConfig = RollupConfig(l2ChainId: ChainId)
  datatype ChainConfig = ChainConfig(chainId: ChainId)

  /** The boot-time registry of per-chain configurations. Each lookup either finds
      the chain's configuration or fails with an error of the registry's own, which
      the step wraps and passes on. */
  datatype ConfigRegistry = ConfigRegistry(
    rollup: ChainId -> Result<RollupConfig, Cause>,
    chain: ChainId -> Result<ChainConfig, Cause>)

  /** Read-only inputs of one invocation. */
  datatype BootInfo = BootInfo(
    l1Head: Bytes32,
    agreedPrestate: Bytes32,
    claim: Bytes32,
    configs: ConfigRegistry)

  /** An error value produced by a collaborator. Its content is opaque to the step,
      except whether it wraps the package's own `ErrL1HeadReached`. */
  datatype Cause = Cause(code: nat, wrapsL1HeadReached: bool)

  /** The ways one invocation can fail. */
  datatype Error =
    | IncorrectOutputRootType(version: uint8)     // unknown transition-state or super-root version
    | InvalidSuperRoot(cause: Cause)              // the embedded super root does not decode
    | NoRollupConfig(chainId: ChainId, cause: Cause)   // the registry has no rollup config
    | NoChainConfig(chainId: ChainId, cause: Cause)    // the registry has no chain config
    | TargetBlockUnavailable(cause: Cause)        // the block-timing rule gave no target
    | DerivationFailed(cause: Cause)              // passed through from the derivation pipeline
    | L1HeadReached                               // derivation stopped short of the target
    | ClaimNotValid(claimed: Bytes32, computed: Bytes32)

  /** Go's `errors.Is(err, ErrL1HeadReached)`: the error is the head-reached error
      itself or a collaborator error that wraps it. */
  predicate IsL1HeadReached(e: Error)
  {
    match e
    case L1HeadReached => true
    case InvalidSuperRoot(c) => c.wrapsL1HeadReached
    case NoRollupConfig(_, c) => c.wrapsL1HeadReached
    case NoChainConfig(_, c) => c.wrapsL1HeadReached
    case TargetBlockUnavailable(c) => c.wrapsL1HeadReached
    case DerivationFailed(c) => c.wrapsL1HeadReached
    case _ => false
  }
}
