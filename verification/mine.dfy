/** The decision the `/mine` handler makes for one posted proof, as a pure
    transition of the ledger, and what any run of such requests preserves. */
module Mine {
  import opened PyValue
  import opened Blockchain

  /** The three answers the handler can give. */
  datatype Outcome = Forged | NotValid | Missing {

    function Message(): string {
      match this
      case Forged => "New Block Forged"
      case NotValid => "Not valid"
      case Missing => "proof or id are not present"
    }

    /** Only a missing field is a client error; a bad proof is an ordinary answer. */
    function Status(): (code: int)
      ensures code == 400 <==> this == Missing
      ensures this != Missing ==> code == 200
    {
      if this == Missing then 400 else 200
    }
  }

  datatype MineResult = MineResult(ledger: Ledger, outcome: Outcome)

  /** The body of a `/mine` POST, with the clock reading used if a block is sealed. */
  datatype Request = Request(proof: Value, id: Value, now: Timestamp)

  /** One `/mine` call: reject when `proof` or `id` is falsy, reject when the
      proof fails against the head's canonical text, and otherwise seal a
      block whose predecessor hash is the head's hash. */
  function Mine(c: Crypto, l: Ledger, req: Request): (r: MineResult)
    requires |l.chain| > 0
    ensures r.outcome == Missing <==> !(Truthy(req.proof) && Truthy(req.id))
    ensures r.outcome == Forged
        <==> Truthy(req.proof) && Truthy(req.id) && ValidProof(c, BlockString(c, LastBlock(l)), req.proof)
    ensures r.outcome != Forged ==> r.ledger == l
    ensures r.outcome == Forged ==>
      && |r.ledger.chain| == |l.chain| + 1
      && r.ledger.chain[..|l.chain|] == l.chain
      && LastBlock(r.ledger).index == |l.chain| + 1
      && LastBlock(r.ledger).timestamp == req.now
      && LastBlock(r.ledger).proof == req.proof
      && LastBlock(r.ledger).previousHash == Str(Hash(c, LastBlock(l)))
      && LastBlock(r.ledger).transactions == l.pending
      && r.ledger.pending == []
  {
    if Truthy(req.proof) && Truthy(req.id) then
      var head := LastBlock(l);
      var previousHash := Hash(c, head);
      var blockString := BlockString(c, head);
      if ValidProof(c, blockString, req.proof) then
        var sealed := NewBlock(l, req.proof, Str(previousHash), req.now);
        assert sealed.ledger.chain[..|l.chain|] == l.chain;
        MineResult(sealed.ledger, Forged)
      else
        MineResult(l, NotValid)
    else
      MineResult(l, Missing)
  }

  /** A proof of 0 is falsy, so it is turned away as missing before the
      digest is ever looked at. */
  lemma ZeroProofIsMissing(c: Crypto, l: Ledger, id: Value, now: Timestamp)
    requires |l.chain| > 0
    ensures Mine(c, l, Request(Int(0), id, now)).outcome == Missing
  {
  }

  /** One mine call keeps the ledger well formed and linked. */
  lemma MinePreserves(c: Crypto, l: Ledger, req: Request)
    requires WellFormed(l) && LinkedFromGenesis(c, l.chain)
    ensures WellFormed(Mine(c, l, req).ledger)
    ensures LinkedFromGenesis(c, Mine(c, l, req).ledger.chain)
  {
  }

  /** The ledger after serving a sequence of `/mine` requests in order. */
  function MineAll(c: Crypto, l: Ledger, reqs: seq<Request>): (r: Ledger)
    requires |l.chain| > 0
    ensures |r.chain| >= |l.chain|
    ensures r.chain[..|l.chain|] == l.chain
    decreases |reqs|
  {
    if |reqs| == 0 then l
    else
      var next := Mine(c, l, reqs[0]).ledger;
      var r := MineAll(c, next, reqs[1..]);
      assert next.chain[..|l.chain|] == l.chain;
      assert r.chain[..|l.chain|] == r.chain[..|next.chain|][..|l.chain|];
      r
  }

  /** Whatever requests arrive, served one after another, the ledger stays
      well formed and every block is linked to its predecessor's hash. */
  lemma {:induction false} MineAllPreserves(c: Crypto, l: Ledger, reqs: seq<Request>)
    requires WellFormed(l) && LinkedFromGenesis(c, l.chain)
    ensures WellFormed(MineAll(c, l, reqs))
    ensures LinkedFromGenesis(c, MineAll(c, l, reqs).chain)
    ensures l.pending == [] ==> MineAll(c, l, reqs).pending == []
    decreases |reqs|
  {
    if |reqs| > 0 {
      MinePreserves(c, l, reqs[0]);
      MineAllPreserves(c, Mine(c, l, reqs[0]).ledger, reqs[1..]);
    }
  }

  /** Every ledger the node can reach from start-up when `/mine` requests are
      handled one at a time: the head exists, the genesis block is never
      replaced, index equals position plus one, every later block is linked
      to its predecessor's hash, and the pool stays empty (no operation of
      this core adds to it). */
  lemma {:induction false} ReachableLedgerInvariants(c: Crypto, start: Timestamp, reqs: seq<Request>)
    ensures var l := MineAll(c, NewLedger(start), reqs);
      && |l.chain| > 0
      && (forall k :: 0 <= k < |l.chain| ==> l.chain[k].index == k + 1)
      && l.chain[0] == NewLedger(start).chain[0]
      && l.chain[0].previousHash == Int(GenesisPreviousHash)
      && l.pending == []
      && forall i :: 1 <= i < |l.chain| ==> l.chain[i].previousHash == Str(Hash(c, l.chain[i - 1]))
  {
    NewLedgerIsLinked(c, start);
    MineAllPreserves(c, NewLedger(start), reqs);
  }
}
