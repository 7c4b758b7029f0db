# Proof-of-work ledger: a Dafny model

This project models the `Blockchain` ledger of `basic_transactions_gp/blockchain.py`
together with the decision the `/mine` handler takes for a posted proof.

The ledger holds an append-only `chain` of blocks and a pool of pending transactions,
`current_transactions`. It is built with a genesis block that has proof `100` and the
integer `1` standing in for a predecessor's hash. `new_block` numbers each block one
past the chain's length. It snapshots the pool into the block, empties the pool and
appends the block. It stores the `proof` and `previous_hash` it is given without
checking either.

`valid_proof` hashes the head block's sorted-key JSON text with `str(proof)` appended.
It accepts the proof when the hex digest starts with six `'0'` characters. `/mine`
gives one of three answers:

- "proof or id are not present" (status 400) when either field is falsy;
- "Not valid" when the proof fails;
- "New Block Forged" otherwise, after sealing a block whose `previous_hash` is the
  hash of the old head.

Modules:

- `Decimal` (`decimal.dfy`): Python's `str(int)` and a parser that undoes it.
- `PyValue` (`py_value.dfy`): the JSON scalars a request can carry (`None`, `bool`,
  `int`, `str`), with Python truthiness and `str`.
- `Blockchain` (`blockchain.dfy`): blocks, the ledger, hashing, `valid_proof`,
  `new_block`, `last_block`, the constructor, and the ledger invariants.
- `Mine` (`mine.dfy`): the `/mine` decision as a pure transition, runs of requests,
  and the invariants every reachable ledger keeps.

SHA-256 and `json.dumps(block, sort_keys=True)` are foreign library calls. They are
passed in as the two functions of a `Crypto` value, `sha256Hex` and `canon`, and the
proofs hold whatever those functions compute. The fact that a hex digest has 64
lowercase hex characters is the hypothesis `DigestShape`. Since `Hash` and the proof
guess both go through the one `BlockString`, the block hash and the proof check always
read the same canonical text. Determinism of hashing holds by construction, because
Dafny functions are deterministic. The clock reading that `time()` supplies is an
explicit `Timestamp` parameter.

The `valid_proof` docstring (line 72) speaks of three leading zeroes, but the code
(line 84) compares six characters. The model follows the code: `Difficulty` is 6.

## Model

| member | source | states |
|---|---|---|
| Decimal.NatToDecimal | basic_transactions_gp/blockchain.py:81 | `str` of a non-negative int is a non-empty digit string with no leading zero, and it is `"0"` exactly for zero |
| Decimal.ParseNatToDecimal | basic_transactions_gp/blockchain.py:81 | reading the decimal text of `n` back gives `n` |
| Decimal.ParseIntToDecimal | basic_transactions_gp/blockchain.py:81 | the text `str(i)` of any int, including a negative one, parses back to `i` |
| Decimal.IntToDecimal | basic_transactions_gp/blockchain.py:81 | `str(i)` of an int is non-empty and starts with `-` exactly when `i` is negative |
| Decimal.NatToDecimalOfParse | basic_transactions_gp/blockchain.py:81 | every canonical digit string is `str` of the number it denotes, so rendering and parsing are inverse on canonical text |
| Decimal.ParseIntAcceptsOnlyDecimals | basic_transactions_gp/blockchain.py:81 | every string the integer parser accepts is `str` of the integer it yields |
| Decimal.IntToDecimalInjective | basic_transactions_gp/blockchain.py:81 | distinct integer proofs splice distinct text into the proof guess |
| PyValue.FalsyValues | basic_transactions_gp/blockchain.py:101 | the values the `proof and bId` test rejects are exactly `None`, `False`, `0` and `""` |
| PyValue.ToStr | basic_transactions_gp/blockchain.py:81 | the f-string renders an int proof as text that parses back to it, and a string proof as itself |
| Blockchain.Hash | basic_transactions_gp/blockchain.py:40-64 | a block's hash is the SHA-256 hex digest of its sorted-key JSON text, the same text `valid_proof` is given; under `DigestShape` it is 64 lowercase hex digits |
| Blockchain.PyPrefix | basic_transactions_gp/blockchain.py:84 | `guess_hash[:6]` is the first six characters, or the whole string when it is shorter |
| Blockchain.ValidProofMeansLeadingZeros | basic_transactions_gp/blockchain.py:69-84 | a proof is valid iff the digest of block text plus `str(proof)` has at least six characters and the first six are all `'0'` |
| Blockchain.NewBlock | basic_transactions_gp/blockchain.py:14-39 | the chain grows by exactly the returned block, numbered `len(chain)+1`; the block holds exactly the pool as it was and the given proof, predecessor hash and time; the pool is then empty |
| Blockchain.NewLedger | basic_transactions_gp/blockchain.py:9-13 | a new ledger has exactly one block: index 1, no transactions, proof 100, predecessor hash 1; the pool is empty and the ledger is well formed |
| Blockchain.LastBlock | basic_transactions_gp/blockchain.py:65-67 | the head is a block of the chain, and on a well-formed ledger its index is the chain's length |
| Blockchain.NewLedgerIsLinked | basic_transactions_gp/blockchain.py:9-13 | the genesis-only chain satisfies the linkage invariant |
| Blockchain.NewBlockPreservesWellFormed | basic_transactions_gp/blockchain.py:27-39 | appending keeps `chain[k].index == k+1` everywhere, leaves earlier blocks unchanged, and makes the returned block the head |
| Blockchain.NewBlockTrustsCaller | basic_transactions_gp/blockchain.py:31-32 | `new_block` alone does not keep the chain linked: given any predecessor hash other than the head's hash (a stale or forged digest included) it stores it, and the chain stops being linked |
| Blockchain.NewBlockDefaultHashBreaksLink | basic_transactions_gp/blockchain.py:14 | called with its default `previous_hash=None`, `new_block` yields an unlinked chain, even on an empty ledger |
| Blockchain.NewBlockWithHeadHashPreservesLink | basic_transactions_gp/blockchain.py:102-105 | appending with the old head's hash as predecessor keeps every block linked to its predecessor's hash |
| Mine.Mine | basic_transactions_gp/blockchain.py:94-120 | the answer is "missing" iff `proof` or `id` is falsy, and "forged" iff both are truthy and the proof is valid for the head's text; a rejection leaves chain and pool untouched; forging appends one block numbered `len(chain)+1` carrying the proof, the request's time, the old head's hash and the old pool, and empties the pool |
| Mine.Outcome.Status | basic_transactions_gp/blockchain.py:106-120 | the answer carries status 400 exactly when a field is missing, and 200 for both a forged block and an invalid proof |
| Mine.ZeroProofIsMissing | basic_transactions_gp/blockchain.py:101 | a proof of 0 is answered as missing, whatever its digest |
| Mine.MinePreserves | basic_transactions_gp/blockchain.py:101-105 | one `/mine` call keeps the ledger well formed and linked |
| Mine.MineAll | basic_transactions_gp/blockchain.py:90-120 | serving requests never shrinks the chain or alters an existing block |
| Mine.MineAllPreserves | basic_transactions_gp/blockchain.py:90-120 | any sequence of `/mine` calls, served one after another, keeps the ledger well formed and linked, and an empty pool stays empty |
| Mine.ReachableLedgerInvariants | basic_transactions_gp/blockchain.py:9-13 | when `/mine` requests are handled one at a time, every ledger reachable from start-up is non-empty, keeps its genesis block, has `chain[k].index == k+1`, links every later block to its predecessor's hash, and has an empty pool |

## Left out

- HTTP plumbing is not modelled: Flask routing, `request.get_json`, `jsonify`, and
  the `/chain` and `/last_block` endpoints, which only serialise `chain`, `len(chain)`
  or `LastBlock`. `Mine.Outcome` keeps the three messages and their status codes.
- A request body without a `proof` or `id` key raises `KeyError` at lines 98-99. That is
  framework error handling and is not modelled; a key that is present but falsy is.
- Proof strings that hold a lone surrogate (JSON `"\ud800"`, which `json.loads` keeps)
  are not modelled. For them `.encode()` at line 81 raises `UnicodeEncodeError`, but a
  Dafny string can only hold Unicode scalar values.
- Request values that are floats, lists or objects are not modelled. Their truthiness
  and `str` rendering would need JSON number and container printing.
- The real SHA-256 and `json.dumps` are not modelled. They are the uninterpreted
  functions of `Crypto`, so no cryptographic property is claimed, in particular no
  collision resistance and no sensitivity of the hash to a changed field.
- `time()` is not modelled. The timestamp is an opaque parameter, so the
  non-decreasing timestamps a real clock would give are not stated.
- The `uuid4` node identifier is not modelled. It is randomness, and the ledger
  never uses it.
- Concurrency is not modelled. The module-level singleton has no locking, and the
  model is a sequential transition system, so the index and linkage invariants are
  proved only for `/mine` requests handled one at a time. The threaded development
  server started at line 142 can break linkage: two `/mine` calls with valid proofs
  for the same head can both read its hash at line 102 before either appends at line
  105, and the second block appended then records the hash of the block two places
  back.
- Transactions and timestamps are opaque types. The ledger only moves and stores
  them, so nothing is assumed about their contents.
- Adding transactions to the pool is not modelled, because no code in this core
  does it. `NewBlock` and `Mine` are stated for an arbitrary pool.
