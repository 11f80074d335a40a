/**
 Values that the ledger stores and exchanges: fixed-width integers, byte
 strings, transactions, blocks and the error codes of the two wire protocols.
*/
module Types {

  const U32_SIZE: int := 0x1_0000_0000
  const U64_MAX: int := 0xFFFF_FFFF_FFFF_FFFF

  type byte = b: int | 0 <= b < 0x100
  type u32 = n: int | 0 <= n < 0x1_0000_0000
  type u64 = n: int | 0 <= n <= 0xFFFF_FFFF_FFFF_FFFF

  /** A conversion to a 32-bit unsigned integer keeps the low 32 bits. */
  function ToU32(n: nat): (v: u32)
    ensures n < U32_SIZE ==> v == n
  {
    n % 0x1_0000_0000
  }

  type Bytes = seq<byte>

  type Hash = h: Bytes | |h| == 32 witness seq(32, i => 0)
  type Address = a: Bytes | |a| == 20 witness seq(20, i => 0)
  type PublicKey = k: Bytes | |k| == 32 witness seq(32, i => 0)
  type Signature = s: Bytes | |s| == 64 witness seq(64, i => 0)

  function Zeros(n: nat): (b: Bytes)
    ensures |b| == n && forall i :: 0 <= i < n ==> b[i] == 0
  {
    if n == 0 then [] else [0] + Zeros(n - 1)
  }

  /** `Hash{}` */
  function ZeroHash(): Hash {
    Zeros(32)
  }

  /** A LevelDB store: byte-string keys to byte-string values. */
  type Db = map<Bytes, Bytes>

  /**
   The primitives taken from libsodium. They are parameters: every lemma that
   mentions a Crypto holds for all hash functions and signature checks.
  */
  datatype Crypto = Crypto(
    blake2b: Bytes -> Hash,
    deriveAddress: PublicKey -> Address,
    verifySig: (PublicKey, Hash, Signature) -> bool)

  datatype OutPoint = OutPoint(txid: Hash, index: u32)

  datatype TxOutput = TxOutput(recipient: Address, amount: u64)

  /** The txid is stored, not recomputed: deserialisation trusts the bytes. */
  datatype Transaction = Transaction(txid: Hash, inputs: seq<OutPoint>, outputs: seq<TxOutput>, timestamp: u64)
  {
    predicate IsCoinbase() {
      inputs == []
    }
  }

  datatype SignedTransaction = SignedTransaction(tx: Transaction, pubkey: PublicKey, sig: Signature)

  datatype BlockHeader = BlockHeader(prevHash: Hash, merkleRoot: Hash, timestamp: u64, nonce: u64)

  /** `hash` is the cached header hash. */
  datatype Block = Block(header: BlockHeader, hash: Hash, transactions: seq<Transaction>)

  datatype TxError =
    | TxNone
    | TxInvalidPayload
    | TxZeroAmount
    | TxBadOwnership
    | TxBadSignature
    | TxDuplicate
    | TxInputSpent

  datatype BlockError =
    | BlockNone
    | BlockBadPreviousHash
    | BlockInvalidBlockHash
    | BlockHighHash
    | BlockInvalidPayload

  datatype Option<+T> = None | Some(value: T)

  /** A call that may throw. */
  datatype Result<+T> = Success(value: T) | Failure
  {
    predicate IsFailure() {
      Failure?
    }

    function PropagateFailure<U>(): Result<U>
      requires Failure?
    {
      Failure
    }

    function Extract(): T
      requires Success?
    {
      value
    }
  }

  ghost predicate NoDuplicates<T>(s: seq<T>) {
    forall i, j :: 0 <= i < j < |s| ==> s[i] != s[j]
  }

  lemma NoDuplicatesPush<T>(s: seq<T>, x: T)
    ensures NoDuplicates(s + [x]) <==> NoDuplicates(s) && x !in s
  {
    var t := s + [x];
    assert forall i :: 0 <= i < |s| ==> t[i] == s[i];
    assert t[|s|] == x;
  }
}
