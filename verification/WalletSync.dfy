/**
 The wallet's database as the object that `wallet/src/sync.rs` updates in place, and its
 synchronisation with a node.
 */
module WalletSync {
  import opened Scale
  import opened Types
  import opened Ledger
  import opened Wallet
  import opened WalletChain

  /** The two questions the wallet asks a node: the hash at a height, and the block with a hash. */
  datatype Node = Node(hashAt: nat -> Option<H256>, blockOf: H256 -> Option<OpaqueBlock>)

  /** The node answers from the given chain. */
  ghost predicate Serves<C>(rt: Runtime<OuterVerifier, C>, node: Node, chain: Chain<C>)
    requires AllFit(rt, chain)
  {
    && (forall h: nat :: node.hashAt(h) == if h < |chain| then Some(chain[h].hash) else None)
    && (forall i :: 0 <= i < |chain| ==> node.blockOf(chain[i].hash) == Some(Opaque(rt, chain[i].block)))
  }

  /** The chain `mine` leaves `theirs` at or below this height. */
  predicate Orphaned<C(==)>(mine: Chain<C>, theirs: Chain<C>, h: nat)
    requires h < |mine|
  {
    h >= |theirs| || mine[h].hash != theirs[h].hash
  }

  /**
   The database holds the chain `mine`, the node serves the chain `theirs`, both start from one
   genesis block, and heights fit 32 bits. The blocks that have to be rolled back are undoable.
   */
  ghost predicate Resyncs<C(!new)>(rt: Runtime<OuterVerifier, C>, filter: Filter, db: Tables, node: Node,
                                   mine: Chain<C>, theirs: Chain<C>) {
    && LawfulCodecs(rt.codecs) && Followable(rt, filter, mine) && Followable(rt, filter, theirs)
    && SameHashSameBlock(mine, mine) && SameHashSameBlock(mine, theirs)
    && 0 < |mine| && 0 < |theirs| < 0x1_0000_0000 && mine[0].hash == theirs[0].hash
    && (forall h :: 0 <= h < |mine| && Orphaned(mine, theirs, h) ==> UndoableBlock(rt, filter, mine, h))
    && db == Replay(rt, filter, mine) && Serves(rt, node, theirs)
  }

  // ----- One step of each loop

  lemma {:induction false} HashAtTop<C(!new)>(rt: Runtime<OuterVerifier, C>, filter: Filter, chain: Chain<C>)
    requires Followable(rt, filter, chain) && chain != []
    ensures var db := Replay(rt, filter, chain);
            && BestHeight(db) == Some(|chain| - 1)
            && |chain| - 1 in db.blockHashes && db.blockHashes[|chain| - 1] == chain[|chain| - 1].hash
  {
    ReplayHashes(rt, filter, chain);
    assert chain[|chain| - 1].block.header.number == |chain| - 1;
    PredecessorFits(|chain|);
  }

  /** The database holds the chain up to and including the given height. */
  ghost predicate HoldsUpTo<C>(rt: Runtime<OuterVerifier, C>, filter: Filter, db: Tables, chain: Chain<C>, h: nat) {
    && h < |chain| && AllFit(rt, chain[..h + 1])
    && db == Replay(rt, filter, chain[..h + 1])
    && h in db.blockHashes && db.blockHashes[h] == chain[h].hash
  }

  lemma {:induction false} HoldsAll<C(!new)>(rt: Runtime<OuterVerifier, C>, filter: Filter, chain: Chain<C>)
    requires Followable(rt, filter, chain) && chain != []
    ensures BestHeight(Replay(rt, filter, chain)) == Some(|chain| - 1)
    ensures HoldsUpTo(rt, filter, Replay(rt, filter, chain), chain, |chain| - 1)
  {
    HashAtTop(rt, filter, chain);
    assert chain[..|chain|] == chain;
  }

  /** From a chain to the chain without its best block. */
  lemma {:induction false} BackOne<C(!new)>(rt: Runtime<OuterVerifier, C>, filter: Filter, upTo: Chain<C>,
                                            below: Chain<C>)
    requires LawfulCodecs(rt.codecs) && Followable(rt, filter, upTo) && SameHashSameBlock(upTo, upTo)
    requires 0 < |below| == |upTo| - 1 && below == upTo[..|below|] && Followable(rt, filter, below)
    requires UndoableBlock(rt, filter, upTo, |below|)
    ensures WalletChain.UnapplyHighestBlock(rt, Replay(rt, filter, upTo)) == (Replay(rt, filter, below), true)
    ensures var (n, db) := (|below| - 1, Replay(rt, filter, below));
            n in db.blockHashes && db.blockHashes[n] == below[n].hash
  {
    RollbackBlock(rt, filter, upTo);
    HashAtTop(rt, filter, below);
  }

  lemma {:induction false} StepBack<C(!new)>(rt: Runtime<OuterVerifier, C>, filter: Filter, db: Tables, chain: Chain<C>,
                                             h: nat)
    requires LawfulCodecs(rt.codecs) && Followable(rt, filter, chain) && SameHashSameBlock(chain, chain)
    requires HoldsUpTo(rt, filter, db, chain, h) && h > 0 && UndoableBlock(rt, filter, chain, h)
    ensures var (db', ok) := WalletChain.UnapplyHighestBlock(rt, db); ok && HoldsUpTo(rt, filter, db', chain, h - 1)
  {
    var upTo, below := chain[..h + 1], chain[..h];
    assert upTo[..h] == below && upTo[h] == chain[h];
    FollowablePrefix(rt, filter, chain, h + 1);
    FollowablePrefix(rt, filter, chain, h);
    BackOne(rt, filter, upTo, below);
  }

  lemma {:induction false} StepForward<C(!new)>(rt: Runtime<OuterVerifier, C>, filter: Filter, chain: Chain<C>, h: nat)
    requires LawfulCodecs(rt.codecs) && AllFit(rt, chain) && AllLegible(filter, chain) && h < |chain|
    ensures AllFit(rt, chain[..h + 1]) && AllFit(rt, chain[..h])
    ensures ApplyBlock(rt, filter, Replay(rt, filter, chain[..h]), Opaque(rt, chain[h].block), chain[h].hash) ==
            (Replay(rt, filter, chain[..h + 1]), true)
  {
    assert chain[..h + 1][..h] == chain[..h];
    ReplayStep(rt, filter, chain[..h + 1]);
  }

  /** The node serves a chain the wallet can follow, and the database holds it up to the given height. */
  ghost predicate Follows<C(!new)>(rt: Runtime<OuterVerifier, C>, filter: Filter, db: Tables, node: Node,
                                   theirs: Chain<C>, h: nat) {
    && LawfulCodecs(rt.codecs) && Followable(rt, filter, theirs) && Serves(rt, node, theirs)
    && h <= |theirs| < 0x1_0000_0000 && AllFit(rt, theirs[..h]) && db == Replay(rt, filter, theirs[..h])
  }

  lemma {:induction false} FollowStep<C(!new)>(rt: Runtime<OuterVerifier, C>, filter: Filter, db: Tables, node: Node,
                                               theirs: Chain<C>, h: nat)
    requires Follows(rt, filter, db, node, theirs, h) && node.hashAt(h).Some?
    ensures h < 0xFFFF_FFFF && node.blockOf(node.hashAt(h).value).Some?
    ensures var hash := node.hashAt(h).value;
            var (db', ok) := WalletChain.ApplyBlock(rt, filter, db, node.blockOf(hash).value, hash);
            ok && Follows(rt, filter, db', node, theirs, h + 1)
  {
    StepForward(rt, filter, theirs, h);
  }

  /** The database holds one chain up to a height at which the other has the same hash. */
  ghost predicate MeetAt<C>(rt: Runtime<OuterVerifier, C>, filter: Filter, db: Tables, mine: Chain<C>, theirs: Chain<C>,
                            h: nat) {
    h < |mine| && h < |theirs| && mine[h].hash == theirs[h].hash && HoldsUpTo(rt, filter, db, mine, h)
  }

  /** Where the node has another block or none, the wallet's block is not genesis and can be rolled back. */
  lemma {:induction false} RollBackStep<C(!new)>(rt: Runtime<OuterVerifier, C>, filter: Filter, db0: Tables, db: Tables,
                                                 node: Node, mine: Chain<C>, theirs: Chain<C>, h: nat)
    requires Resyncs(rt, filter, db0, node, mine, theirs) && HoldsUpTo(rt, filter, db, mine, h)
    requires node.hashAt(h) != Some(mine[h].hash)
    ensures h > 0
    ensures var (db', ok) := WalletChain.UnapplyHighestBlock(rt, db); ok && HoldsUpTo(rt, filter, db', mine, h - 1)
  {
    assert Orphaned(mine, theirs, h);
    StepBack(rt, filter, db, mine, h);
  }

  lemma {:induction false} RollBackEnd<C(!new)>(rt: Runtime<OuterVerifier, C>, filter: Filter, db0: Tables, db: Tables,
                                                node: Node, mine: Chain<C>, theirs: Chain<C>, h: nat)
    requires Resyncs(rt, filter, db0, node, mine, theirs) && HoldsUpTo(rt, filter, db, mine, h)
    requires node.hashAt(h) == Some(mine[h].hash)
    ensures MeetAt(rt, filter, db, mine, theirs, h)
  {
  }

  /** Below a common hash the two chains are one, so what is left of one can be followed up along the other. */
  lemma {:induction false} AncestorFollows<C(!new)>(rt: Runtime<OuterVerifier, C>, filter: Filter, db0: Tables,
                                                    db: Tables, node: Node, mine: Chain<C>, theirs: Chain<C>, h: nat)
    requires Resyncs(rt, filter, db0, node, mine, theirs) && MeetAt(rt, filter, db, mine, theirs, h)
    ensures h < 0xFFFF_FFFF && Follows(rt, filter, db, node, theirs, h + 1)
  {
    CommonAncestor(mine, theirs, h);
  }

  lemma {:induction false} FollowEnd<C(!new)>(rt: Runtime<OuterVerifier, C>, filter: Filter, db: Tables, node: Node,
                                              theirs: Chain<C>, h: nat)
    requires Follows(rt, filter, db, node, theirs, h) && node.hashAt(h).None?
    ensures db == Replay(rt, filter, theirs)
  {
    assert theirs[..h] == theirs;
  }

  // ----- What any answer of the node allows

  /** The wallet's hash at the height is the node's. */
  predicate Shares(blockHashes: map<nat, H256>, node: Node, h: nat) {
    h in blockHashes && node.hashAt(h) == Some(blockHashes[h])
  }

  predicate Within(a: map<nat, H256>, b: map<nat, H256>) {
    forall h :: h in a ==> h in b && a[h] == b[h]
  }

  /** The node knows a hash at the height, and the block with that hash. */
  predicate Answers(node: Node, h: nat) {
    node.hashAt(h).Some? && node.blockOf(node.hashAt(h).value).Some?
  }

  /** The node's chain ends below `end`, and it has all blocks from `start` to there. */
  ghost predicate AnswersUpTo(node: Node, start: nat, end: nat) {
    AnswersBelow(node, start, end) && node.hashAt(end).None?
  }

  predicate AnswersBelow(node: Node, start: nat, end: nat) {
    start <= end && forall h: nat :: start <= h < end ==> Answers(node, h)
  }

  ghost predicate AnswersFrom(node: Node, start: nat) {
    exists end: nat :: AnswersUpTo(node, start, end)
  }

  // ----- The database

  class WalletDb<C(!new)> {
    const rt: Runtime<OuterVerifier, C>
    var blockHashes: map<nat, H256>
    var blocks: map<H256, OpaqueBlock>
    var unspent: map<OutputRef, Owned>
    var spent: map<OutputRef, Owned>

    ghost function Value(): Tables
      reads this
    {
      Tables(blockHashes, blocks, Coins(unspent, spent))
    }

    constructor (rt: Runtime<OuterVerifier, C>)
      ensures this.rt == rt && Value() == EMPTY
    {
      this.rt := rt;
      blockHashes, blocks, unspent, spent := map[], map[], map[], map[];
    }

    method Height() returns (h: Option<nat>)
      ensures h == BestHeight(Value())
    {
      var size := |blockHashes|;
      h := if size == 0 then None else Some(Predecessor32(size));
    }

    /** False when a populated database belongs to another genesis block. */
    method Open(expectedHash: H256, expectedBlock: OpaqueBlock) returns (ok: bool)
      modifies this
      ensures old(|blockHashes|) > 0 ==>
                Value() == old(Value()) && ok == (0 in blockHashes && blockHashes[0] == expectedHash)
      ensures old(|blockHashes|) == 0 ==>
                && ok
                && Value() == old(Value()).(blockHashes := map[0 := expectedHash],
                                            blocks := old(blocks)[expectedHash := expectedBlock])
    {
      var h := Height();
      if h.Some? {
        return 0 in blockHashes && blockHashes[0] == expectedHash;
      }
      blockHashes := blockHashes[0 := expectedHash];
      blocks := blocks[expectedHash := expectedBlock];
      return true;
    }

    /** A new database: opened for the genesis block, which is then applied like any other. */
    method Initialize(filter: Filter, ghost genesis: Sealed<C>, hash: H256, block: OpaqueBlock) returns (ok: bool)
      requires LawfulCodecs(rt.codecs) && Fits(rt, genesis.block)
      requires Legible(filter, genesis.block) && genesis.block.header.number == 0
      requires hash == genesis.hash && block == Opaque(rt, genesis.block)
      requires Value() == EMPTY
      modifies this
      ensures ok && Value() == Replay(rt, filter, [genesis])
    {
      ok := Open(hash, block);
      assert blockHashes[0 := hash] == map[0 := hash] && blocks[hash := block] == map[hash := block];
      StepForward(rt, filter, [genesis], 0);
      assert [genesis][..1] == [genesis];
      ok := ApplyBlock(filter, block, hash);
    }

    method SpendOutput(r: OutputRef)
      modifies this`unspent, this`spent
      ensures Coins(unspent, spent) == Spend(old(Coins(unspent, spent)), r)
    {
      if r in unspent {
        var coin := unspent[r];
        unspent := unspent - {r};
        spent := spent[r := coin];
      }
    }

    method UnspendOutput(r: OutputRef)
      modifies this`unspent, this`spent
      ensures Coins(unspent, spent) == Unspend(old(Coins(unspent, spent)), r)
    {
      if r in spent {
        var coin := spent[r];
        spent := spent - {r};
        unspent := unspent[r := coin];
      }
    }

    method InsertNewOutputs(filter: Filter, hash: H256, outputs: Vec<Output<OuterVerifier>>) returns (ok: bool)
      modifies this`unspent
      ensures (unspent, ok) == InsertOutputs(filter, old(unspent), hash, outputs, |outputs|)
    {
      var i: nat := 0;
      ok := true;
      while i < |outputs|
        invariant i <= |outputs| && ok
        invariant (unspent, true) == InsertOutputs(filter, old(unspent), hash, outputs, i)
      {
        match EntryOf(filter, outputs[i]) {
          case Ignored =>
          case Tracked(coin) => unspent := unspent[OutputRef(hash, i) := coin];
          case Unreadable =>
            StopsEarly(filter, old(unspent), hash, outputs, i + 1, |outputs|);
            return false;
        }
        i := i + 1;
      }
    }

    method ApplyTransaction(filter: Filter, e: Vec<Byte>) returns (ok: bool)
      modifies this`unspent, this`spent
      ensures (Coins(unspent, spent), ok) == Wallet.ApplyTransaction(rt, filter, old(Coins(unspent, spent)), e)
    {
      var encoded := rt.codecs.bytes.enc(e);
      var decoded := rt.codecs.tx.dec(encoded);
      if decoded.None? {
        return false;
      }
      var tx := decoded.value.0;
      ok := InsertNewOutputs(filter, rt.hashOf(encoded), tx.outputs);
      if !ok {
        return;
      }
      ghost var c := Coins(unspent, spent);
      ghost var refs := Refs(tx.inputs);
      for k := 0 to |tx.inputs|
        invariant Coins(unspent, spent) == SpendAll(c, refs[..k])
      {
        SpendOutput(tx.inputs[k].outputRef);
        assert refs[..k + 1][..k] == refs[..k];
      }
      assert refs[..|tx.inputs|] == refs;
    }

    /** The transactions of a block, first to last, up to the first that cannot be applied. */
    method ApplyInOrder(filter: Filter, es: seq<Vec<Byte>>) returns (ok: bool)
      modifies this`unspent, this`spent
      ensures (Coins(unspent, spent), ok) == ApplyExtrinsics(rt, filter, old(Coins(unspent, spent)), es)
    {
      ghost var c := Coins(unspent, spent);
      for k := 0 to |es|
        invariant (Coins(unspent, spent), true) == ApplyExtrinsics(rt, filter, c, es[..k])
      {
        assert es[..k + 1][..k] == es[..k];
        ok := ApplyTransaction(filter, es[k]);
        if !ok {
          FailsEarly(rt, filter, c, es, k + 1);
          return;
        }
      }
      assert es[..|es|] == es;
      ok := true;
    }

    method ApplyBlock(filter: Filter, b: OpaqueBlock, hash: H256) returns (ok: bool)
      modifies this
      ensures (Value(), ok) == WalletChain.ApplyBlock(rt, filter, old(Value()), b, hash)
    {
      blockHashes := blockHashes[b.header.number := hash];
      blocks := blocks[hash := b];
      ok := ApplyInOrder(filter, b.extrinsics);
    }

    method UnapplyTransaction(e: Vec<Byte>) returns (ok: bool)
      modifies this`unspent, this`spent
      ensures (Coins(unspent, spent), ok) == Wallet.UnapplyTransaction(rt, old(Coins(unspent, spent)), e)
    {
      var decoded := rt.codecs.tx.dec(rt.codecs.bytes.enc(e));
      if decoded.None? {
        return false;
      }
      var tx := decoded.value.0;
      ghost var c := Coins(unspent, spent);
      ghost var refs := Refs(tx.inputs);
      for k := 0 to |tx.inputs|
        invariant Coins(unspent, spent) == UnspendAll(c, refs[..k])
      {
        UnspendOutput(tx.inputs[k].outputRef);
        assert refs[..k + 1][..k] == refs[..k];
      }
      assert refs[..|tx.inputs|] == refs;
      ghost var u := unspent;
      var hash := rt.hashOf(rt.codecs.tx.enc(tx));
      for i := 0 to |tx.outputs|
        invariant spent == UnspendAll(c, refs).spent
        invariant unspent == u - RefSet(OutRefs(rt, tx)[..i])
      {
        unspent := unspent - {OutputRef(hash, i)};
        RefSetSnoc(OutRefs(rt, tx)[..i + 1]);
        assert OutRefs(rt, tx)[..i + 1][..i] == OutRefs(rt, tx)[..i];
      }
      assert OutRefs(rt, tx)[..|tx.outputs|] == OutRefs(rt, tx);
      ok := true;
    }

    /** The transactions of a block, last to first. */
    method UnapplyInReverse(es: seq<Vec<Byte>>) returns (ok: bool)
      modifies this`unspent, this`spent
      ensures (Coins(unspent, spent), ok) == UnapplyExtrinsics(rt, old(Coins(unspent, spent)), es)
    {
      ghost var c := Coins(unspent, spent);
      var k: nat := |es|;
      assert es[..k] == es;
      while k > 0
        invariant k <= |es|
        invariant UnapplyExtrinsics(rt, Coins(unspent, spent), es[..k]) == UnapplyExtrinsics(rt, c, es)
      {
        k := k - 1;
        assert es[..k + 1][..k] == es[..k];
        ok := UnapplyTransaction(es[k]);
        if !ok {
          return;
        }
      }
      ok := true;
    }

    method UnapplyHighestBlock() returns (ok: bool)
      modifies this
      ensures (Value(), ok) == WalletChain.UnapplyHighestBlock(rt, old(Value()))
    {
      var h := Height();
      if h.None? || h.value !in blockHashes {
        return false;
      }
      var hash := blockHashes[h.value];
      blockHashes := blockHashes - {h.value};
      if hash !in blocks {
        return false;
      }
      var block := blocks[hash];
      blocks := blocks - {hash};
      ok := UnapplyInReverse(block.extrinsics);
    }

    /** The first loop: roll back to the highest block the node also has. */
    method RollBack(filter: Filter, node: Node, ghost mine: Chain<C>, ghost theirs: Chain<C>)
      returns (ancestor: Option<nat>)
      modifies this
      ensures Resyncs(rt, filter, old(Value()), node, mine, theirs) ==>
                ancestor.Some? && MeetAt(rt, filter, Value(), mine, theirs, ancestor.value)
      ensures ancestor.Some? ==> Shares(old(blockHashes), node, ancestor.value)
    {
      ghost var fair := Resyncs(rt, filter, Value(), node, mine, theirs);
      var best := Height();
      if fair {
        HoldsAll(rt, filter, mine);
      }
      if best.None? || best.value !in blockHashes {
        return None;
      }
      var height: nat := best.value;
      var walletHash := blockHashes[height];
      var nodeHash := node.hashAt(height);
      while Some(walletHash) != nodeHash
        invariant nodeHash == node.hashAt(height)
        invariant height in blockHashes && walletHash == blockHashes[height]
        invariant Within(blockHashes, old(blockHashes))
        invariant fair ==> HoldsUpTo(rt, filter, Value(), mine, height)
        decreases height
      {
        if fair {
          RollBackStep(rt, filter, old(Value()), Value(), node, mine, theirs, height);
        }
        UnapplyOutcome(rt, Value());
        var undone := UnapplyHighestBlock();
        if !undone || height == 0 {
          return None;
        }
        height := height - 1;
        if height !in blockHashes {
          return None;
        }
        walletHash := blockHashes[height];
        nodeHash := node.hashAt(height);
      }
      if fair {
        RollBackEnd(rt, filter, old(Value()), Value(), node, mine, theirs, height);
      }
      return Some(height);
    }

    /** The second loop: apply the node's blocks from a height on. */
    method Follow(filter: Filter, node: Node, start: nat, ghost theirs: Chain<C>) returns (ok: bool)
      modifies this
      ensures Follows(rt, filter, old(Value()), node, theirs, start) ==> ok && Value() == Replay(rt, filter, theirs)
      ensures ok ==> AnswersFrom(node, start)
    {
      ghost var fair := Follows(rt, filter, Value(), node, theirs, start);
      var height: nat := start;
      var nodeHash := node.hashAt(height);
      while nodeHash.Some?
        invariant nodeHash == node.hashAt(height)
        invariant AnswersBelow(node, start, height)
        invariant fair ==> Follows(rt, filter, Value(), node, theirs, height)
        decreases 0xFFFF_FFFF - height
      {
        if fair {
          FollowStep(rt, filter, Value(), node, theirs, height);
        }
        var block := node.blockOf(nodeHash.value);
        if block.None? {
          return false;
        }
        var applied := ApplyBlock(filter, block.value, nodeHash.value);
        if !applied || height >= 0xFFFF_FFFF {
          return false;
        }
        height := height + 1;
        nodeHash := node.hashAt(height);
      }
      if fair {
        FollowEnd(rt, filter, Value(), node, theirs, height);
      }
      assert AnswersUpTo(node, start, height);
      return true;
    }

    /**
     Synchronisation: roll back to the common ancestor, then follow the node. False where the
     source returns an error or panics, in particular where a height would leave 32 bits.

     Whatever the depth of the re-organisation, the result is the replay of the node's chain. And
     success always means that the wallet had a block of the node's, and that the node had an
     answer for every height from there to its end.
     */
    method Synchronize(filter: Filter, node: Node, ghost mine: Chain<C>, ghost theirs: Chain<C>) returns (ok: bool)
      modifies this
      ensures Resyncs(rt, filter, old(Value()), node, mine, theirs) ==> ok && Value() == Replay(rt, filter, theirs)
      ensures ok ==> exists h: nat :: Shares(old(blockHashes), node, h) && AnswersFrom(node, h + 1)
    {
      ghost var fair := Resyncs(rt, filter, Value(), node, mine, theirs);
      var ancestor := RollBack(filter, node, mine, theirs);
      if fair {
        AncestorFollows(rt, filter, old(Value()), Value(), node, mine, theirs, ancestor.value);
      }
      if ancestor.None? || ancestor.value >= 0xFFFF_FFFF {
        return false;
      }
      ok := Follow(filter, node, ancestor.value + 1, theirs);
    }
  }

  // ----- Early exits

  lemma {:induction false} StopsEarly(filter: Filter, u: map<OutputRef, Owned>, hash: H256,
                                      outputs: Vec<Output<OuterVerifier>>, i: nat, n: nat)
    requires i <= n <= |outputs| && !InsertOutputs(filter, u, hash, outputs, i).1
    ensures InsertOutputs(filter, u, hash, outputs, n) == InsertOutputs(filter, u, hash, outputs, i)
  {
    if i < n {
      StopsEarly(filter, u, hash, outputs, i, n - 1);
    }
  }

  lemma {:induction false} FailsEarly<C>(rt: Runtime<OuterVerifier, C>, filter: Filter, c: Coins, es: seq<Vec<Byte>>,
                                         k: nat)
    requires k <= |es| && !ApplyExtrinsics(rt, filter, c, es[..k]).1
    ensures ApplyExtrinsics(rt, filter, c, es) == ApplyExtrinsics(rt, filter, c, es[..k])
  {
    if k == |es| {
      assert es[..k] == es;
    } else {
      var p := es[..|es| - 1];
      assert p[..k] == es[..k];
      FailsEarly(rt, filter, c, p, k);
    }
  }
}
