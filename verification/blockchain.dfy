/** The `Blockchain` ledger: an append-only chain of blocks and a pool of
    pending transactions, with canonical hashing and the proof-of-work test.

    SHA-256 and `json.dumps(block, sort_keys=True)` are foreign library calls;
    they are supplied as the two functions of a `Crypto` value, and nothing
    here depends on how they compute. */
module Blockchain {
  import opened PyValue

  /** A transaction record. The ledger moves these between the pool and a
      block and never looks inside one. */
  type Tx(==)

  /** The reading of the wall clock at the moment a block is built; the
      ledger only stores it. */
  type Timestamp(==)

  /** The five keys of a block dictionary. */
  datatype Block = Block(
    index: int,
    timestamp: Timestamp,
    transactions: seq<Tx>,
    proof: Value,
    previousHash: Value)

  /** `chain` and `current_transactions` of a `Blockchain` object. */
  datatype Ledger = Ledger(chain: seq<Block>, pending: seq<Tx>)

  /** What `new_block` gives back: the updated ledger and the block it built. */
  datatype Sealed = Sealed(ledger: Ledger, block: Block)

  /** The two foreign functions: the sorted-key JSON text of a block, and the
      lowercase hexadecimal SHA-256 digest of a string. */
  datatype Crypto = Crypto(canon: Block -> string, sha256Hex: string -> string)

  /** The genesis block carries proof 100 and the integer 1 in place of a
      predecessor's hash. */
  const GenesisProof: int := 100
  const GenesisPreviousHash: int := 1

  /** Number of leading `'0'` hex digits a proof guess must hash to. */
  const Difficulty: nat := 6

  predicate IsLowerHex(s: string) {
    forall i :: 0 <= i < |s| ==> ('0' <= s[i] <= '9' || 'a' <= s[i] <= 'f')
  }

  /** What `hexdigest()` of SHA-256 always yields: 64 lowercase hex digits. */
  ghost predicate DigestShape(c: Crypto) {
    forall s :: |c.sha256Hex(s)| == 64 && IsLowerHex(c.sha256Hex(s))
  }

  /** The text `json.dumps(block, sort_keys=True)`: used both for the block
      hash and for the proof guess, so the two cannot disagree. */
  function BlockString(c: Crypto, b: Block): string {
    c.canon(b)
  }

  /** `Blockchain.hash`: the digest of the block's canonical text. */
  function Hash(c: Crypto, b: Block): (h: string)
    ensures DigestShape(c) ==> |h| == 64 && IsLowerHex(h)
    ensures h == c.sha256Hex(BlockString(c, b))
  {
    c.sha256Hex(c.canon(b))
  }

  /** Python's `s[:n]`: the whole string when it is shorter than `n`. */
  function PyPrefix(s: string, n: nat): (r: string)
    ensures |r| == if |s| < n then |s| else n
    ensures r <= s
  {
    if |s| <= n then s else s[..n]
  }

  function Repeat(ch: char, n: nat): (r: string)
    ensures |r| == n
    ensures forall i :: 0 <= i < n ==> r[i] == ch
  {
    if n == 0 then [] else [ch] + Repeat(ch, n - 1)
  }

  /** The digest starts with `n` zero digits. */
  predicate HasLeadingZeros(h: string, n: nat) {
    |h| >= n && forall i :: 0 <= i < n ==> h[i] == '0'
  }

  /** `Blockchain.valid_proof`: hash the block text with the proof's `str`
      appended and compare the digest's first `Difficulty` characters with
      zeros. It reads nothing but its two arguments. */
  predicate ValidProof(c: Crypto, blockString: string, proof: Value) {
    PyPrefix(c.sha256Hex(blockString + ToStr(proof)), Difficulty) == Repeat('0', Difficulty)
  }

  lemma ValidProofMeansLeadingZeros(c: Crypto, blockString: string, proof: Value)
    ensures ValidProof(c, blockString, proof)
        <==> HasLeadingZeros(c.sha256Hex(blockString + ToStr(proof)), Difficulty)
  {
  }

  /** Every block's `index` is its 1-based position. */
  predicate IndexedByPosition(chain: seq<Block>) {
    forall k :: 0 <= k < |chain| ==> chain[k].index == k + 1
  }

  /** The structural invariant every ledger keeps from construction onwards. */
  predicate WellFormed(l: Ledger) {
    |l.chain| > 0 && IndexedByPosition(l.chain)
  }

  /** The chain starts at a genesis block with the sentinel predecessor, and
      every later block records the hash of the one before it. */
  predicate LinkedFromGenesis(c: Crypto, chain: seq<Block>) {
    && |chain| > 0
    && chain[0].previousHash == Int(GenesisPreviousHash)
    && forall i :: 1 <= i < |chain| ==> chain[i].previousHash == Str(Hash(c, chain[i - 1]))
  }

  /** `Blockchain.new_block`: snapshots the pool into a block numbered one past
      the chain's length, empties the pool and appends the block. Neither
      `proof` nor `previousHash` is checked or recomputed. */
  function NewBlock(l: Ledger, proof: Value, previousHash: Value, now: Timestamp): (r: Sealed)
    ensures r.ledger.chain == l.chain + [r.block]
    ensures r.block.index == |l.chain| + 1
    ensures r.block.transactions == l.pending && r.ledger.pending == []
    ensures r.block.proof == proof && r.block.previousHash == previousHash
    ensures r.block.timestamp == now
  {
    var block := Block(|l.chain| + 1, now, l.pending, proof, previousHash);
    Sealed(Ledger(l.chain + [block], []), block)
  }

  /** `Blockchain.__init__`: an empty ledger that seals the genesis block. */
  function NewLedger(now: Timestamp): (l: Ledger)
    ensures WellFormed(l) && |l.chain| == 1 && l.pending == []
    ensures l.chain[0] == Block(1, now, [], Int(GenesisProof), Int(GenesisPreviousHash))
  {
    NewBlock(Ledger([], []), Int(GenesisProof), Int(GenesisPreviousHash), now).ledger
  }

  /** `Blockchain.last_block`: `chain[-1]`. */
  function LastBlock(l: Ledger): (b: Block)
    requires |l.chain| > 0
    ensures b in l.chain
    ensures WellFormed(l) ==> b.index == |l.chain|
  {
    l.chain[|l.chain| - 1]
  }

  lemma NewLedgerIsLinked(c: Crypto, now: Timestamp)
    ensures LinkedFromGenesis(c, NewLedger(now).chain)
  {
  }

  /** Appending keeps every index equal to its position, leaves the earlier
      blocks alone, and makes the new block the head. */
  lemma NewBlockPreservesWellFormed(l: Ledger, proof: Value, previousHash: Value, now: Timestamp)
    requires WellFormed(l)
    ensures var r := NewBlock(l, proof, previousHash, now);
      && WellFormed(r.ledger)
      && |r.ledger.chain| == |l.chain| + 1
      && r.ledger.chain[..|l.chain|] == l.chain
      && LastBlock(r.ledger) == r.block
  {
  }

  /** `new_block` on its own does not keep the chain linked: it stores
      whatever predecessor hash it is handed, so any value other than the
      head's hash breaks the link. */
  lemma NewBlockTrustsCaller(c: Crypto, l: Ledger, proof: Value, h: Value, now: Timestamp)
    requires |l.chain| > 0 && h != Str(Hash(c, LastBlock(l)))
    ensures !LinkedFromGenesis(c, NewBlock(l, proof, h, now).ledger.chain)
  {
    var chain := NewBlock(l, proof, h, now).ledger.chain;
    var k := |l.chain|;
    assert chain[k - 1] == LastBlock(l);
    assert chain[k].previousHash == h;
    assert chain[k].previousHash != Str(Hash(c, chain[k - 1]));
  }

  /** Calling `new_block` with its default `previous_hash=None` yields an
      unlinked chain, whether or not the ledger was empty. */
  lemma NewBlockDefaultHashBreaksLink(c: Crypto, l: Ledger, proof: Value, now: Timestamp)
    ensures !LinkedFromGenesis(c, NewBlock(l, proof, None, now).ledger.chain)
  {
    var chain := NewBlock(l, proof, None, now).ledger.chain;
    var k := |l.chain|;
    assert chain[k].previousHash == None;
    if k > 0 {
      assert chain[k].previousHash != Str(Hash(c, chain[k - 1]));
    }
  }

  /** Appending a block whose predecessor hash is the old head's hash keeps
      the chain linked. */
  lemma NewBlockWithHeadHashPreservesLink(c: Crypto, l: Ledger, proof: Value, now: Timestamp)
    requires LinkedFromGenesis(c, l.chain)
    ensures LinkedFromGenesis(c, NewBlock(l, proof, Str(Hash(c, LastBlock(l))), now).ledger.chain)
  {
  }
}
