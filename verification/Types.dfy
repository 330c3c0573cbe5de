/** The data a VeloDAG node exchanges and stores, and the protocol constants. */
module Types {
  datatype Option<+T> = None | Some(value: T)

  datatype Result<+T, +E> = Ok(value: T) | Err(error: E)

  /** 32-byte block hashes and addresses. Only equality and the lexicographic order on bytes matter. */
  type Hash = nat
  type Address = nat

  type byte = x: int | 0 <= x < 0x100
  const TWO_TO_THE_64: int := 0x1_0000_0000_0000_0000
  const TWO_TO_THE_128: int := 0x1_0000_0000_0000_0000_0000_0000_0000_0000
  type u64 = x: int | 0 <= x < 0x1_0000_0000_0000_0000
  type u128 = x: int | 0 <= x < 0x1_0000_0000_0000_0000_0000_0000_0000_0000

  /** A difficulty target: 32 bytes, most significant first. */
  type Target = t: seq<byte> | |t| == 32 witness seq(32, _ => 0)

  /** SHA3-256 outputs as the terms that produced them, so that distinct inputs give distinct digests.
      A transaction identifier hashes at least 80 bytes and an inner Merkle node exactly 64, hence the
      two hashed shapes never meet; `Zero` is the all-zero root of a block without transactions. */
  datatype Digest =
    | Zero
    | TxId(sender: Address, recipient: Address, amount: u64, nonce: u64, proof: seq<byte>)
    | Pair(left: Digest, right: Digest)

  datatype Transaction = Transaction(
    sender: Address,
    recipient: Address,
    amount: u64,
    nonce: u64,
    publicKey: seq<byte>,
    signature: seq<byte>)

  datatype BlockHeader = BlockHeader(
    timestamp: u64,
    parents: seq<Hash>,
    txMerkleRoot: Digest,
    nonce: u64,
    height: u64,
    difficultyTarget: Target)

  datatype VeloBlock = VeloBlock(
    header: BlockHeader,
    transactions: seq<Transaction>,
    coinbaseMinerAddress: Address,
    coinbaseMinerOutput: u64,
    coinbaseDevAddress: Address,
    coinbaseDevOutput: u64)

  const INITIAL_BLOCK_REWARD: u64 := 83_238
  const DEV_TAX_PERCENTAGE: u64 := 5
  const BLOCKS_PER_ERA: u64 := 126_144_000
  /** The treasury address 0xdddd...dd, read as a 256-bit number. */
  const DEV_TREASURY_ADDRESS: Address := 0xdddddddddddddddddddddddddddddddddddddddddddddddddddddddddddddddd
  const TRANSACTION_FEE: u64 := 100
  const MAX_TRANSACTIONS_PER_BLOCK: nat := 5_000
  const MAX_FUTURE_DRIFT_SECS: u64 := 30
  const MAX_SYNC_BLOCKS: nat := 500

  ghost function Pow2(n: nat): nat {
    if n == 0 then 1 else 2 * Pow2(n - 1)
  }
}
