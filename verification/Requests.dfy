/**
 What a block request may repeat. The server accepts any coinbase and any list
 of pooled txids, so whether a txid is ever confirmed twice is up to the miners'
 requests, and can be told from them before they are submitted.
*/
module Requests {
  import opened Types
  import opened TxCodec
  import opened BlockCodec
  import opened Merkle
  import opened ByteOrder
  import opened LedgerSpec
  import opened ChainSpec
  import opened Recovery
  import opened History

  predicate Accepted(c: Crypto, s: State, req: BlockRequest)
    requires s.blocks != []
  {
    SubmitBlock(c, s, req).0 == BlockNone
  }

  function Inserted(c: Crypto, s: State, req: BlockRequest): (b: Block)
    requires s.blocks != [] && Accepted(c, s, req)
  {
    RequestedBlock(c, req, Draw(s.pool, req.txids).value)
  }

  /**
   For every coinbase and every list of pooled txids, repeated or not, some
   request carries them and is accepted exactly when its hash has three leading
   zero bytes: nothing else is checked.
  */
  lemma OnlyWorkRemains(c: Crypto, s: State, draft: BlockRequest) returns (req: BlockRequest)
    requires s.blocks != [] && forall t :: t in draft.txids ==> t in s.pool
    ensures req == draft.(prevHash := TipHash(s), wireMerkle := req.wireMerkle)
    ensures Draw(s.pool, req.txids).Some?
    ensures var b := RequestedBlock(c, req, Draw(s.pool, req.txids).value);
      Accepted(c, s, req) <==> b.hash[0] == b.hash[1] == b.hash[2] == 0
  {
    hide MerkleRoot, HeaderHash, SubmitBlock, Txids, Coinbase;
    DrawFinds(s.pool, draft.txids);
    var txs := Draw(s.pool, draft.txids).value;
    var root := MerkleRoot(c, Txids([Coinbase(c, draft)] + txs));
    req := draft.(prevHash := TipHash(s), wireMerkle := root);
    SameCoinbase(c, draft, req);
    SubmissionExact(c, s, req);
  }

  lemma SameCoinbase(c: Crypto, req: BlockRequest, req': BlockRequest)
    requires req.cbAddress == req'.cbAddress && req.cbReward == req'.cbReward && req.cbTimestamp == req'.cbTimestamp
    ensures Coinbase(c, req) == Coinbase(c, req')
  {
  }

  /** The listed txids are distinct, and the coinbase's is not confirmed yet. */
  ghost predicate Fresh(c: Crypto, s: State, req: BlockRequest) {
    NoDuplicates(req.txids) && !HasTxid(AllTxs(s.blocks), Coinbase(c, req).txid)
  }

  /** The transactions an accepted request adds to the history, and their txids. */
  lemma InsertedTxs(c: Crypto, s: State, req: BlockRequest)
    requires PoolOk(s) && s.blocks != [] && Accepted(c, s, req)
    ensures var block := Inserted(c, s, req).transactions;
      && AllTxs(SubmitBlock(c, s, req).1.blocks) == AllTxs(s.blocks) + block
      && |block| == |req.txids| + 1 && block[0] == Coinbase(c, req)
      && forall i :: 0 <= i < |req.txids| ==>
        req.txids[i] in s.pool && block[i + 1] == s.pool[req.txids[i]] && block[i + 1].txid == req.txids[i]
  {
    hide AllTxs, BlockVerdict, Coinbase, MerkleRoot, HeaderHash, Mirrors, Disjoint, PoolInputs, AddBlock;
    DrawFinds(s.pool, req.txids);
    AddBlockFields(s, Inserted(c, s, req));
    AllTxsPush(s.blocks, Inserted(c, s, req));
  }

  /** A request that is not fresh confirms a txid twice, whatever the hash function. */
  lemma RepeatConfirmsTwice(c: Crypto, s: State, req: BlockRequest)
    requires PoolOk(s) && s.blocks != [] && Accepted(c, s, req) && !Fresh(c, s, req)
    ensures !DistinctTxids(AllTxs(SubmitBlock(c, s, req).1.blocks))
  {
    hide AllTxs, SubmitBlock, PoolOk, Coinbase, Accepted, Inserted;
    InsertedTxs(c, s, req);
    var txs, block := AllTxs(s.blocks), Inserted(c, s, req).transactions;
    var all := txs + block;
    if !NoDuplicates(req.txids) {
      var i, j :| 0 <= i < j < |req.txids| && req.txids[i] == req.txids[j];
      assert all[|txs| + i + 1].txid == all[|txs| + j + 1].txid;
    } else {
      var tx :| tx in txs && tx.txid == block[0].txid;
      var i :| 0 <= i < |txs| && txs[i] == tx;
      assert all[i].txid == all[|txs|].txid;
    }
  }

  /** An accepted request keeps all confirmed txids distinct if and only if it is fresh. */
  lemma AcceptedKeepsDistinct(c: Crypto, s: State, req: BlockRequest, universe: set<Transaction>)
    requires Inv(c, s) && HistoryOk(s, universe) && Distinguishing(universe)
    requires Coinbase(c, req) in universe && Accepted(c, s, req)
    ensures DistinctTxids(AllTxs(SubmitBlock(c, s, req).1.blocks)) <==> Fresh(c, s, req)
  {
    hide AllTxs, SubmitBlock, Coinbase, Accepted, Inserted, Inv, PoolOk, Sound, HasTxid, Fee, ChainOk, Stored,
      Mirrors, PoolInputs, ApplyAll, PoolFits;
    Parts(c, s);
    InsertedTxs(c, s, req);
    if Fresh(c, s, req) {
      FreshKeepsDistinct(c, s, req, universe);
    } else {
      RepeatConfirmsTwice(c, s, req);
    }
  }

  lemma FreshKeepsDistinct(c: Crypto, s: State, req: BlockRequest, universe: set<Transaction>)
    requires Inv(c, s) && HistoryOk(s, universe) && Distinguishing(universe)
    requires Coinbase(c, req) in universe && Accepted(c, s, req) && Fresh(c, s, req)
    ensures DistinctTxids(AllTxs(SubmitBlock(c, s, req).1.blocks))
  {
    hide AllTxs, SubmitBlock, Coinbase, Accepted, Inserted, Inv, PoolOk, Sound, Fee, ChainOk, Stored,
      Mirrors, PoolInputs, ApplyAll, PoolFits, HistoryOk;
    Parts(c, s);
    InsertedTxs(c, s, req);
    var txs, block := AllTxs(s.blocks), Inserted(c, s, req).transactions;
    forall i, j | 0 <= i < j < |txs| ensures txs[i].txid != txs[j].txid {
      AllFit(c, s);
      SoundHistory(s, universe);
      NothingTwice(txs, i, j);
    }
    forall j | 0 <= j < |block| ensures !HasTxid(txs, block[j].txid) {
      if j > 0 {
        PooledIsNew(s, universe, req.txids[j - 1]);
      }
    }
    forall j | 0 < j < |block| ensures block[0].txid != block[j].txid {
      CoinbaseShape(c, req);
      PooledIsNew(s, universe, req.txids[j - 1]);
    }
    forall i, j | 0 <= i < j < |block| ensures block[i].txid != block[j].txid {
      if i > 0 {
        assert req.txids[i - 1] != req.txids[j - 1];
      }
    }
    JoinDistinct(txs, block);
  }

  lemma SoundHistory(s: State, universe: set<Transaction>)
    requires HistoryOk(s, universe)
    ensures Sound(AllTxs(s.blocks))
  {
  }

  lemma CoinbaseShape(c: Crypto, req: BlockRequest)
    ensures Coinbase(c, req).IsCoinbase()
  {
  }

  lemma PooledIsNew(s: State, universe: set<Transaction>, t: Hash)
    requires HistoryOk(s, universe) && PoolOk(s) && t in s.pool
    ensures s.pool[t] in universe && !HasTxid(AllTxs(s.blocks), t) && !s.pool[t].IsCoinbase()
  {
    hide AllTxs, Sound, HasTxid, Fee, Mirrors;
  }

  lemma JoinDistinct(txs: seq<Transaction>, block: seq<Transaction>)
    requires DistinctTxids(txs) && DistinctTxids(block)
    requires forall j :: 0 <= j < |block| ==> !HasTxid(txs, block[j].txid)
    ensures DistinctTxids(txs + block)
  {
    assert forall i :: 0 <= i < |txs| ==> txs[i] in txs;
  }

  // ------------------------------------------------------------------------ whole runs

  /** The event completes an accepted request. */
  ghost predicate Confirms(c: Crypto, s: State, e: Event)
    requires s.blocks != []
  {
    e.op.Mine? && Accepted(c, s, e.op.req) && Completes(c, s, e)
  }

  /** Every request that went through was fresh when it was submitted. */
  ghost predicate AllFresh(c: Crypto, events: seq<Event>) {
    events == [] ||
    var init, last := events[..|events| - 1], events[|events| - 1];
    AllFresh(c, init) && (Confirms(c, Run(c, init), last) ==> Fresh(c, Run(c, init), last.op.req))
  }

  lemma NextBlocks(c: Crypto, s: State, e: Event)
    requires Inv(c, s) && EventFits(c, s, e)
    ensures Confirms(c, s, e) ==> Next(c, s, e) == SubmitBlock(c, s, e.op.req).1
    ensures !Confirms(c, s, e) ==> Next(c, s, e).blocks == s.blocks
  {
    hide Inv, Next, OpFits, AddTx, BlockVerdict, AddBlock, RequestedBlock, Writes, PoolInputs, PoolKeys;
    var done, gone := NextCases(c, s, e);
    if e.op.Submit? {
      SubmitBlocks(c, s, e.op.st);
    }
  }

  /**
   Where txids tell transactions apart, no txid is confirmed twice in a run if
   and only if each request that went through was fresh.
  */
  lemma ConfirmedOnceIffFresh(c: Crypto, events: seq<Event>)
    requires RunFits(c, events) && Distinguishing(Universe(c, events))
    ensures DistinctTxids(AllTxs(Run(c, events).blocks)) <==> AllFresh(c, events)
  {
    hide Run, AllTxs, RunFits, Distinguishing, AllFresh, DistinctTxids;
    DistinctIffFresh(c, events, Universe(c, events));
  }

  lemma {:induction false} DistinctIffFresh(c: Crypto, events: seq<Event>, universe: set<Transaction>)
    requires RunFits(c, events) && Distinguishing(universe)
    requires Admitted(c, events) <= universe && AllIn(AllTxs(Run(c, events).blocks), universe)
    ensures DistinctTxids(AllTxs(Run(c, events).blocks)) <==> AllFresh(c, events)
  {
    hide Inv, Next, Run, RunFits, AllTxs, DistinctTxids, Distinguishing, AllIn, Fresh, Confirms, Admitted, Enters,
      EventFits, HistoryOk;
    if events == [] {
      StartRun(c);
      StartDistinct(c);
    } else {
      var init, last := events[..|events| - 1], events[|events| - 1];
      var s := Run(c, init);
      LastEvent(c, events);
      RunInv(c, init);
      NextGrows(c, s, last);
      AllInBefore(s.blocks, Run(c, events).blocks, universe);
      DistinctIffFresh(c, init, universe);
      if DistinctTxids(AllTxs(s.blocks)) {
        HistoryWhenDistinct(c, init, universe);
        StepDistinct(c, s, last, universe);
      } else {
        NotDistinctBefore(s.blocks, Run(c, events).blocks);
      }
    }
  }

  /** One event keeps the confirmed txids distinct exactly when the request it completes, if any, is fresh. */
  lemma StepDistinct(c: Crypto, s: State, e: Event, universe: set<Transaction>)
    requires Inv(c, s) && EventFits(c, s, e)
    requires HistoryOk(s, universe) && Distinguishing(universe) && AllIn(AllTxs(Next(c, s, e).blocks), universe)
    requires DistinctTxids(AllTxs(s.blocks))
    ensures DistinctTxids(AllTxs(Next(c, s, e).blocks)) <==> (Confirms(c, s, e) ==> Fresh(c, s, e.op.req))
  {
    hide Inv, Next, AllTxs, OpFits, HistoryOk, DistinctTxids, Distinguishing, Fresh, SubmitBlock, Inserted, Coinbase,
      PoolOk, Stored, ChainOk, Mirrors, PoolFits, PoolInputs, BlockFits, ApplyAll, Writes;
    Parts(c, s);
    NextBlocks(c, s, e);
    if Confirms(c, s, e) {
      var req := e.op.req;
      InsertedTxs(c, s, req);
      var block := Inserted(c, s, req).transactions;
      assert block[0] in AllTxs(s.blocks) + block;
      AcceptedKeepsDistinct(c, s, req, universe);
    }
  }

  lemma StartDistinct(c: Crypto)
    ensures DistinctTxids(AllTxs(Start(c).blocks))
  {
    hide Start, AllTxs, Constructed;
    var cb := StartShape(c);
  }

  lemma AllInBefore(before: seq<Block>, blocks: seq<Block>, universe: set<Transaction>)
    requires before <= blocks && AllIn(AllTxs(blocks), universe)
    ensures AllIn(AllTxs(before), universe)
  {
    hide AllTxs;
    AllTxsPrefix(before, blocks);
    assert forall tx :: tx in AllTxs(before) ==> tx in AllTxs(blocks);
  }

  lemma NotDistinctBefore(before: seq<Block>, blocks: seq<Block>)
    requires before <= blocks && !DistinctTxids(AllTxs(before))
    ensures !DistinctTxids(AllTxs(blocks))
  {
    hide AllTxs;
    AllTxsPrefix(before, blocks);
  }

  lemma HistoryWhenDistinct(c: Crypto, events: seq<Event>, universe: set<Transaction>)
    requires RunFits(c, events) && Distinguishing(universe)
    requires Admitted(c, events) <= universe && AllIn(AllTxs(Run(c, events).blocks), universe)
    requires DistinctTxids(AllTxs(Run(c, events).blocks))
    ensures HistoryOk(Run(c, events), universe)
  {
    hide Run, AllTxs, RunFits, Distinguishing, HistoryOk, Admitted, AllIn;
    DistinctMeansOnce(Run(c, events).blocks);
    RunHistory(c, events, universe);
  }
}
