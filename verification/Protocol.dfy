/**
 Block submission as the server performs it: a lock is taken for each pool
 lookup, for the target, for the tip and for the final insertion, and web
 threads may submit transactions between any two of them.
*/
module Protocol {
  import opened Types
  import opened BlockCodec
  import opened Merkle
  import opened ByteOrder
  import opened LedgerSpec
  import opened ChainSpec
  import opened Recovery

  /** Where the submission stands; Contains(i) and Get(i) are about the i-th listed txid. */
  datatype Pc =
    | Contains(i: nat)
    | Get(i: nat)
    | CheckMerkle
    | CheckTarget
    | CheckTip
    | Insert
    | Answered(err: BlockError)

  datatype Session = Session(chain: State, pc: Pc, taken: seq<Transaction>)

  datatype Move = Server | Web(st: SignedTransaction)

  /** The server's next step. A lookup that misses throws and is answered as an invalid payload. */
  function ServerStep(c: Crypto, req: BlockRequest, p: Session): (p': Session)
    requires p.chain.blocks != []
    ensures p'.chain.blocks != []
  {
    var b := RequestedBlock(c, req, p.taken);
    match p.pc
    case Contains(i) =>
      if i >= |req.txids| then p.(pc := CheckMerkle)
      else if req.txids[i] in p.chain.pool then p.(pc := Get(i))
      else p.(pc := Answered(BlockInvalidPayload))
    case Get(i) =>
      if i < |req.txids| && req.txids[i] in p.chain.pool
      then p.(pc := Contains(i + 1), taken := p.taken + [p.chain.pool[req.txids[i]]])
      else p.(pc := Answered(BlockInvalidPayload))
    case CheckMerkle =>
      p.(pc := if b.header.merkleRoot != req.wireMerkle then Answered(BlockInvalidBlockHash) else CheckTarget)
    case CheckTarget =>
      p.(pc := if LexLess(Target(DIFFICULTY), b.hash) then Answered(BlockHighHash) else CheckTip)
    case CheckTip =>
      p.(pc := if b.header.prevHash != TipHash(p.chain) then Answered(BlockBadPreviousHash) else Insert)
    case Insert =>
      ConfirmedAll(p.chain, b.transactions);
      p.(pc := Answered(BlockNone), chain := AddBlock(p.chain, b))
    case Answered(_) => p
  }

  function Step(c: Crypto, req: BlockRequest, p: Session, m: Move): (p': Session)
    requires p.chain.blocks != []
    ensures p'.chain.blocks != []
  {
    match m
    case Server => ServerStep(c, req, p)
    case Web(st) => p.(chain := AddTx(c, p.chain, st))
  }

  function Begin(s: State): Session {
    Session(s, Contains(0), [])
  }

  /** Any interleaving of the submission with transactions from web threads. */
  function Interleave(c: Crypto, req: BlockRequest, s: State, moves: seq<Move>): (p: Session)
    requires s.blocks != []
    ensures p.chain.blocks != []
  {
    if moves == [] then Begin(s) else Step(c, req, Interleave(c, req, s, moves[..|moves| - 1]), moves[|moves| - 1])
  }

  // ------------------------------------------------------------------- the invariant

  /** Everything taken so far is still pooled under its listed txid. */
  ghost predicate StillPooled(req: BlockRequest, p: Session, n: nat) {
    && |p.taken| == n <= |req.txids|
    && forall k :: 0 <= k < n ==> req.txids[k] in p.chain.pool && p.chain.pool[req.txids[k]] == p.taken[k]
  }

  ghost predicate SessionOk(c: Crypto, req: BlockRequest, p: Session) {
    && p.chain.blocks != [] && PoolOk(p.chain)
    && var b := RequestedBlock(c, req, p.taken);
    match p.pc
    case Contains(i) => StillPooled(req, p, i)
    case Get(i) => i < |req.txids| && StillPooled(req, p, i) && req.txids[i] in p.chain.pool
    case CheckMerkle => StillPooled(req, p, |req.txids|)
    case CheckTarget => StillPooled(req, p, |req.txids|) && b.header.merkleRoot == req.wireMerkle
    case CheckTip =>
      && StillPooled(req, p, |req.txids|) && b.header.merkleRoot == req.wireMerkle
      && !LexLess(Target(DIFFICULTY), b.hash)
    case Insert =>
      && StillPooled(req, p, |req.txids|) && BlockVerdict(TipHash(p.chain), req, b) == BlockNone
    case Answered(_) => true
  }

  lemma {:induction false} TakenIsDrawn(pool: map<Hash, Transaction>, txids: seq<Hash>, taken: seq<Transaction>)
    requires |taken| == |txids|
    requires forall k :: 0 <= k < |txids| ==> txids[k] in pool && pool[txids[k]] == taken[k]
    ensures Draw(pool, txids) == Some(taken)
  {
    if txids != [] {
      var n := |txids| - 1;
      TakenIsDrawn(pool, txids[..n], taken[..n]);
      assert taken == taken[..n] + [taken[n]];
    }
  }

  lemma AddTxOnlyAdds(c: Crypto, s: State, st: SignedTransaction)
    ensures AddTx(c, s, st).blocks == s.blocks
    ensures forall t :: t in s.pool ==> t in AddTx(c, s, st).pool && AddTx(c, s, st).pool[t] == s.pool[t]
  {
    hide Acceptable;
    VerdictExact(c, s, st);
    if Verdict(c, s, st) == TxNone {
      NotPooledYet(c, s, st);
    }
  }

  lemma NotPooledYet(c: Crypto, s: State, st: SignedTransaction)
    requires Verdict(c, s, st) == TxNone
    ensures st.tx.txid !in s.pool
  {
    VerdictExact(c, s, st);
  }

  lemma WebKeepsSession(c: Crypto, req: BlockRequest, p: Session, st: SignedTransaction)
    requires SessionOk(c, req, p)
    ensures SessionOk(c, req, Step(c, req, p, Web(st)))
  {
    hide PoolOk, AddTx, RequestedBlock, LexLess, Target;
    AddTxKeepsPool(c, p.chain, st);
    AddTxOnlyAdds(c, p.chain, st);
  }

  /** What the invariant says at the insertion: the atomic submission would succeed here too. */
  lemma ReadyToInsert(c: Crypto, req: BlockRequest, p: Session)
    requires SessionOk(c, req, p) && p.pc == Insert
    ensures Draw(p.chain.pool, req.txids) == Some(p.taken)
    ensures SubmitBlock(c, p.chain, req) == (BlockNone, AddBlock(p.chain, RequestedBlock(c, req, p.taken)))
    ensures DrawnFrom(p.chain.pool, RequestedBlock(c, req, p.taken).transactions)
    ensures PoolOk(p.chain)
  {
    hide LexLess, Target, AddBlock, MerkleRoot, Mirrors, Disjoint, PoolInputs, BlockVerdict;
    TakenIsDrawn(p.chain.pool, req.txids, p.taken);
    DrawnBlock(c, p.chain.pool, req, p.taken);
  }

  lemma DrawnBlock(c: Crypto, pool: map<Hash, Transaction>, req: BlockRequest, taken: seq<Transaction>)
    requires forall t :: t in pool ==> pool[t].txid == t
    requires Draw(pool, req.txids) == Some(taken)
    ensures DrawnFrom(pool, RequestedBlock(c, req, taken).transactions)
  {
    hide MerkleRoot;
    DrawFinds(pool, req.txids);
    var txs := RequestedBlock(c, req, taken).transactions;
    assert txs == [Coinbase(c, req)] + taken;
  }

  lemma ServerKeepsSession(c: Crypto, req: BlockRequest, p: Session)
    requires SessionOk(c, req, p)
    ensures SessionOk(c, req, ServerStep(c, req, p))
  {
    hide PoolOk, RequestedBlock, LexLess, Target, AddBlock, DrawnFrom, SubmitBlock, Draw;
    if p.pc == Insert {
      var b := RequestedBlock(c, req, p.taken);
      ReadyToInsert(c, req, p);
      AddBlockKeepsPool(p.chain, b);
    }
  }

  lemma {:induction false} InterleaveOk(c: Crypto, req: BlockRequest, s: State, moves: seq<Move>)
    requires s.blocks != [] && PoolOk(s)
    ensures SessionOk(c, req, Interleave(c, req, s, moves))
  {
    if moves != [] {
      hide SessionOk, PoolOk, AddTx, ServerStep;
      var p := Interleave(c, req, s, moves[..|moves| - 1]);
      InterleaveOk(c, req, s, moves[..|moves| - 1]);
      match moves[|moves| - 1] {
        case Server => ServerKeepsSession(c, req, p);
        case Web(st) => WebKeepsSession(c, req, p, st);
      }
    }
  }

  /** In every interleaving, the lookup after a successful membership test never misses. */
  lemma LookupNeverMisses(c: Crypto, req: BlockRequest, s: State, moves: seq<Move>)
    requires s.blocks != [] && PoolOk(s)
    ensures var p := Interleave(c, req, s, moves);
      p.pc.Get? ==> p.pc.i < |req.txids| && req.txids[p.pc.i] in p.chain.pool
  {
    hide PoolOk;
    InterleaveOk(c, req, s, moves);
  }

  /**
   In every interleaving, when the block is inserted its previous hash is still
   the tip, every listed transaction is still pooled, and every input of the
   block is still live.
  */
  lemma ChecksStillHold(c: Crypto, req: BlockRequest, s: State, moves: seq<Move>)
    requires s.blocks != [] && PoolOk(s)
    ensures var p := Interleave(c, req, s, moves);
      p.pc == Insert ==>
        && req.prevHash == TipHash(p.chain)
        && (forall t :: t in req.txids ==> t in p.chain.pool)
        && (forall tx :: tx in RequestedBlock(c, req, p.taken).transactions ==> Ops(tx.inputs) <= p.chain.ledger.utxo.Keys)
  {
    hide Interleave, SessionOk, PoolOk, DrawnFrom, Draw, SubmitBlock, AddBlock, RequestedBlock;
    var p := Interleave(c, req, s, moves);
    InterleaveOk(c, req, s, moves);
    if p.pc == Insert {
      ReadyToInsert(c, req, p);
      InsertedInputsLive(c, req, p);
      ChecksAtInsert(c, req, p);
    }
  }

  lemma ChecksAtInsert(c: Crypto, req: BlockRequest, p: Session)
    requires SessionOk(c, req, p) && p.pc == Insert
    ensures req.prevHash == TipHash(p.chain)
    ensures forall t :: t in req.txids ==> t in p.chain.pool
  {
    hide PoolOk, MerkleRoot, LexLess, Target;
  }

  lemma InsertedInputsLive(c: Crypto, req: BlockRequest, p: Session)
    requires PoolOk(p.chain) && DrawnFrom(p.chain.pool, RequestedBlock(c, req, p.taken).transactions)
    ensures forall tx :: tx in RequestedBlock(c, req, p.taken).transactions ==> Ops(tx.inputs) <= p.chain.ledger.utxo.Keys
  {
    hide RequestedBlock, Mirrors, Disjoint;
    var txs := RequestedBlock(c, req, p.taken).transactions;
    forall tx, op | tx in txs && op in tx.inputs ensures op in p.chain.ledger.utxo {
      InputsOfDrawn(p.chain.pool, txs, tx);
      PoolInputsAt(p.chain.pool, op);
    }
  }

  // -------------------------------------------------------------------------- progress

  /** How many of its own steps the submission still needs at most. */
  function Rank(req: BlockRequest, pc: Pc): nat {
    match pc
    case Contains(i) => 5 + if i < |req.txids| then 2 * (|req.txids| - i) else 0
    case Get(i) => 4 + if i < |req.txids| then 2 * (|req.txids| - i) else 0
    case CheckMerkle => 4
    case CheckTarget => 3
    case CheckTip => 2
    case Insert => 1
    case Answered(_) => 0
  }

  function OwnSteps(moves: seq<Move>): nat {
    if moves == [] then 0 else OwnSteps(moves[..|moves| - 1]) + if moves[|moves| - 1].Server? then 1 else 0
  }

  lemma RankStep(c: Crypto, req: BlockRequest, p: Session)
    requires p.chain.blocks != []
    ensures Rank(req, p.pc) > 0 ==> Rank(req, ServerStep(c, req, p).pc) < Rank(req, p.pc)
    ensures Rank(req, p.pc) == 0 ==> ServerStep(c, req, p) == p
  {
    hide RequestedBlock, LexLess, Target, AddBlock, TipHash;
  }

  lemma {:induction false} RankFalls(c: Crypto, req: BlockRequest, s: State, moves: seq<Move>)
    requires s.blocks != []
    ensures var rank := Rank(req, Interleave(c, req, s, moves).pc);
      rank == 0 || rank + OwnSteps(moves) <= 5 + 2 * |req.txids|
  {
    if moves != [] {
      hide AddTx, ServerStep, Rank;
      RankFalls(c, req, s, moves[..|moves| - 1]);
      var p := Interleave(c, req, s, moves[..|moves| - 1]);
      RankStep(c, req, p);
    } else {
      assert Rank(req, Contains(0)) == 5 + 2 * |req.txids|;
    }
  }

  /** However web threads interleave, 2n+5 of its own steps answer a submission that lists n transactions. */
  lemma AnsweredInTime(c: Crypto, req: BlockRequest, s: State, moves: seq<Move>)
    requires s.blocks != [] && OwnSteps(moves) >= 5 + 2 * |req.txids|
    ensures Interleave(c, req, s, moves).pc.Answered?
  {
    hide Interleave;
    RankFalls(c, req, s, moves);
  }

  // -------------------------------------------------------------------- linearisation

  function DoAll(c: Crypto, s: State, ops: seq<Op>): (s': State)
    requires s.blocks != []
    ensures s'.blocks != []
  {
    if ops == [] then s else Do(c, DoAll(c, s, ops[..|ops| - 1]), ops[|ops| - 1])
  }

  /** The server's next step is the one that settles the answer. */
  predicate Answers(c: Crypto, req: BlockRequest, p: Session)
    requires p.chain.blocks != []
  {
    !p.pc.Answered? && ServerStep(c, req, p).pc.Answered?
  }

  /** The operations of an interleaving in the order they take effect: the block request where it is answered. */
  function Effects(c: Crypto, req: BlockRequest, s: State, moves: seq<Move>): seq<Op>
    requires s.blocks != []
  {
    if moves == [] then [] else
      var init, last := moves[..|moves| - 1], moves[|moves| - 1];
      var before := Effects(c, req, s, init);
      match last
      case Web(st) => before + [Submit(st)]
      case Server => if Answers(c, req, Interleave(c, req, s, init)) then before + [Mine(req)] else before
  }

  lemma DoPush(c: Crypto, s: State, ops: seq<Op>, op: Op)
    requires s.blocks != []
    ensures DoAll(c, s, ops + [op]) == Do(c, DoAll(c, s, ops), op)
  {
    assert (ops + [op])[..|ops|] == ops;
  }

  lemma ServerOnlyAnswers(c: Crypto, req: BlockRequest, p: Session)
    requires p.chain.blocks != [] && !Answers(c, req, p)
    ensures ServerStep(c, req, p).chain == p.chain
  {
  }

  /** The step that answers does what the atomic submission would do there, error code included. */
  lemma AnswerIsAtomic(c: Crypto, req: BlockRequest, p: Session)
    requires SessionOk(c, req, p) && Answers(c, req, p)
    ensures var p' := ServerStep(c, req, p);
      SubmitBlock(c, p.chain, req) == (p'.pc.err, p'.chain)
  {
    hide LexLess, Target, AddBlock, MerkleRoot, NewBlock, PoolOk, DrawnFrom;
    if p.pc == Insert {
      ReadyToInsert(c, req, p);
    } else if p.pc.Contains? {
      DrawFinds(p.chain.pool, req.txids);
    } else {
      TakenIsDrawn(p.chain.pool, req.txids, p.taken);
    }
  }

  /**
   Every interleaving ends in the state of a sequential execution of its
   operations, in which the block submission is one atomic step.
  */
  lemma {:induction false} Linearizable(c: Crypto, req: BlockRequest, s: State, moves: seq<Move>)
    requires s.blocks != [] && PoolOk(s)
    ensures Interleave(c, req, s, moves).chain == DoAll(c, s, Effects(c, req, s, moves))
  {
    if moves != [] {
      hide PoolOk, SessionOk, AddTx, ServerStep, SubmitBlock, DoAll;
      var init, last := moves[..|moves| - 1], moves[|moves| - 1];
      var p := Interleave(c, req, s, init);
      Linearizable(c, req, s, init);
      InterleaveOk(c, req, s, init);
      match last {
        case Web(st) =>
          DoPush(c, s, Effects(c, req, s, init), Submit(st));
        case Server =>
          if Answers(c, req, p) {
            AnswerIsAtomic(c, req, p);
            DoPush(c, s, Effects(c, req, s, init), Mine(req));
          } else {
            ServerOnlyAnswers(c, req, p);
          }
      }
    }
  }

  /**
   The block request occurs in that execution once it is answered, once only,
   and the answer given is the one the atomic submission gives at its place.
  */
  lemma {:induction false} AnswerLinearizable(c: Crypto, req: BlockRequest, s: State, moves: seq<Move>) returns (n: nat)
    requires s.blocks != [] && PoolOk(s)
    ensures var p, ops := Interleave(c, req, s, moves), Effects(c, req, s, moves);
      && n <= |ops|
      && (n < |ops| <==> p.pc.Answered?)
      && (n < |ops| ==> ops[n] == Mine(req) && SubmitBlock(c, DoAll(c, s, ops[..n]), req).0 == p.pc.err)
      && forall k :: 0 <= k < |ops| && k != n ==> ops[k].Submit?
  {
    hide PoolOk, SessionOk, AddTx, ServerStep, SubmitBlock, DoAll;
    if moves == [] {
      n := 0;
    } else {
      var init, last := moves[..|moves| - 1], moves[|moves| - 1];
      var p, before := Interleave(c, req, s, init), Effects(c, req, s, init);
      n := AnswerLinearizable(c, req, s, init);
      AnsweredStays(c, req, p);
      match last {
        case Web(st) =>
          assert (before + [Submit(st)])[..n] == before[..n];
          n := if p.pc.Answered? then n else n + 1;
        case Server =>
          if Answers(c, req, p) {
            InterleaveOk(c, req, s, init);
            AnswerIsAtomic(c, req, p);
            Linearizable(c, req, s, init);
            assert (before + [Mine(req)])[..n] == before;
          }
      }
    }
  }

  lemma AnsweredStays(c: Crypto, req: BlockRequest, p: Session)
    requires p.chain.blocks != []
    ensures p.pc.Answered? ==> ServerStep(c, req, p) == p
  {
  }

  /** Each operation fits when its turn comes. */
  ghost predicate OpsFit(c: Crypto, s: State, ops: seq<Op>)
    requires s.blocks != []
  {
    ops == [] ||
    var init, last := ops[..|ops| - 1], ops[|ops| - 1];
    OpsFit(c, s, init) && OpFits(c, DoAll(c, s, init), last)
  }

  /** Sequential executions keep the whole invariant. */
  lemma {:induction false} EffectsKeepInv(c: Crypto, s: State, ops: seq<Op>)
    requires Inv(c, s) && OpsFit(c, s, ops)
    ensures Inv(c, DoAll(c, s, ops))
  {
    hide Inv, Do, OpFits;
    HasGenesis(c, s);
    if ops != [] {
      EffectsKeepInv(c, s, ops[..|ops| - 1]);
      DoKeepsInv(c, DoAll(c, s, ops[..|ops| - 1]), ops[|ops| - 1]);
    }
  }

  /** The request and the transactions submitted fit the stored form. */
  ghost predicate AllSmall(req: BlockRequest, moves: seq<Move>) {
    Small(Mine(req)) && forall st :: Web(st) in moves ==> Small(Submit(st))
  }

  lemma OpsFitPush(c: Crypto, s: State, ops: seq<Op>, op: Op)
    requires s.blocks != [] && OpsFit(c, s, ops) && OpFits(c, DoAll(c, s, ops), op)
    ensures OpsFit(c, s, ops + [op])
  {
    assert (ops + [op])[..|ops|] == ops;
  }

  /**
   So does every interleaving, however many transactions the web threads submit;
   and all that takes effect in it fits.
  */
  lemma {:induction false} InterleavingKeepsInv(c: Crypto, req: BlockRequest, s: State, moves: seq<Move>)
    requires Inv(c, s) && |s.blocks| + 1 < 0x1_0000_0000 && AllSmall(req, moves)
    ensures var p := Interleave(c, req, s, moves);
      Inv(c, p.chain) && (!p.pc.Answered? ==> p.chain.blocks == s.blocks)
    ensures OpsFit(c, s, Effects(c, req, s, moves))
  {
    hide Inv, PoolOk, SessionOk, AddTx, ServerStep, SubmitBlock, NestedFits, ChainOk, Stored, Mirrors, PoolFits,
      PoolInputs, BlockFits, ApplyAll, AllTxs, OpsFit, Verdict;
    Parts(c, s);
    if moves == [] {
      NothingToFit(c, s);
    } else {
      var init, last := moves[..|moves| - 1], moves[|moves| - 1];
      assert moves == init + [last];
      var p, before := Interleave(c, req, s, init), Effects(c, req, s, init);
      InterleavingKeepsInv(c, req, s, init);
      InterleaveOk(c, req, s, init);
      Linearizable(c, req, s, init);
      AnsweredStays(c, req, p);
      match last {
        case Web(st) =>
          assert Web(st) in moves;
          AddTxOnlyAdds(c, p.chain, st);
          AddTxKeepsInv(c, p.chain, st);
          OpsFitPush(c, s, before, Submit(st));
        case Server =>
          if Answers(c, req, p) {
            AnswerIsAtomic(c, req, p);
            DoKeepsInv(c, p.chain, Mine(req));
            OpsFitPush(c, s, before, Mine(req));
          } else {
            ServerOnlyAnswers(c, req, p);
          }
      }
    }
  }

  lemma NothingToFit(c: Crypto, s: State)
    requires s.blocks != []
    ensures OpsFit(c, s, [])
  {
  }

  // ------------------------------------------------------------ interleavings are runs

  function Lives(ops: seq<Op>): seq<Event> {
    if ops == [] then [] else Lives(ops[..|ops| - 1]) + [Live(ops[|ops| - 1])]
  }

  /** Carrying on from a run with more operations is a longer run, and fits if they do. */
  lemma {:induction false} DoAllIsRun(c: Crypto, events: seq<Event>, ops: seq<Op>)
    ensures DoAll(c, Run(c, events), ops) == Run(c, events + Lives(ops))
    ensures RunFits(c, events) && OpsFit(c, Run(c, events), ops) ==> RunFits(c, events + Lives(ops))
  {
    hide Do, OpFits, Next, EventFits, Run, RunFits;
    if ops == [] {
      assert events + [] == events;
    } else {
      var init, last := ops[..|ops| - 1], ops[|ops| - 1];
      DoAllIsRun(c, events, init);
      var all := events + Lives(ops);
      assert all == events + Lives(init) + [Live(last)];
      LiveLast(c, events + Lives(init), last);
    }
  }

  lemma LiveLast(c: Crypto, events: seq<Event>, op: Op)
    ensures Run(c, events + [Live(op)]) == Do(c, Run(c, events), op)
    ensures RunFits(c, events) && OpFits(c, Run(c, events), op) ==> RunFits(c, events + [Live(op)])
  {
    hide Do, OpFits;
    assert (events + [Live(op)])[..|events|] == events;
  }

  /**
   Whatever state a run has reached, interleaving a block request with web
   submissions leads to a state that a longer run reaches, and that run fits
   unless the block would be one too many: all that holds of runs holds of
   interleaved executions.
  */
  lemma InterleavingIsRun(c: Crypto, events: seq<Event>, req: BlockRequest, moves: seq<Move>)
    requires RunFits(c, events)
    ensures var longer := events + Lives(Effects(c, req, Run(c, events), moves));
      && Interleave(c, req, Run(c, events), moves).chain == Run(c, longer)
      && (|Run(c, events).blocks| + 1 < 0x1_0000_0000 && AllSmall(req, moves) ==> RunFits(c, longer))
  {
    hide Run, RunFits, Interleave, Effects, DoAll, OpsFit, Inv, PoolOk, AllSmall, ChainOk, Stored, Mirrors, PoolFits,
      PoolInputs, BlockFits, ApplyAll, AllTxs, HeaderHash;
    var s := Run(c, events);
    RunInv(c, events);
    Parts(c, s);
    Linearizable(c, req, s, moves);
    DoAllIsRun(c, events, Effects(c, req, s, moves));
    if |s.blocks| + 1 < 0x1_0000_0000 && AllSmall(req, moves) {
      InterleavingKeepsInv(c, req, s, moves);
    }
  }
}
