/**
 The wallet, a node and the runtime together: synchronising with a node that serves a chain the
 executive imports leaves the wallet with the tracked part of that node's UTXO set.
 */
module Mirror {
  import opened Scale
  import opened Types
  import opened Ledger
  import opened UtxoSet
  import opened Blocks
  import Refinement
  import opened Genesis
  import opened Sums
  import opened Wallet
  import opened WalletChain
  import opened WalletSync
  import opened WalletLedger
  import opened Holdings
  import opened Wardrobe

  /**
   A linked chain of transportable blocks that the executive imports on top of its genesis storage,
   with a genesis block that the wallet can read and whose outputs do not clash.
   */
  ghost predicate Imported<C(!new)>(rt: Runtime<OuterVerifier, C>, filter: Filter, base: Storage, chain: Chain<C>,
                                    encoded: Bytes) {
    && chain != [] && AllFit(rt, chain) && Linked(chain)
    && Legible(filter, chain[0].block) && NoClash(rt, chain[0].block.extrinsics)
    && StorageOf(rt, base, chain, encoded).Some?
  }

  lemma {:induction false} ImportedIsFollowable(rt: Runtime<OuterVerifier, Checker>, host: Host, filter: Filter,
                                                base: Storage, chain: Chain<Checker>, encoded: Bytes)
    requires LawfulCodecs(rt.codecs) && Dresses(rt, host) && Keystore(filter)
    requires Imported(rt, filter, base, chain, encoded)
    ensures Followable(rt, filter, chain)
  {
    ImportedIsAllLegible(rt, host, filter, base, chain, encoded);
  }

  /** Where no reference is created twice, every block of an imported chain can be rolled back. */
  lemma {:induction false} ImportedIsUndoable(rt: Runtime<OuterVerifier, Checker>, host: Host, filter: Filter,
                                              base: Storage, chain: Chain<Checker>, encoded: Bytes, h: nat)
    requires LawfulCodecs(rt.codecs) && Dresses(rt, host) && Keystore(filter) && Unreserved(base)
    requires Imported(rt, filter, base, chain, encoded) && CreatedOnce(rt, AllTxs(chain)) && h < |chain|
    ensures UndoableBlock(rt, filter, chain, h)
  {
    WardrobeConfined(rt, host);
    ImportedIsAllLegible(rt, host, filter, base, chain, encoded);
    ImportedIsFair(rt, base, chain, encoded);
    FairIsUndoable(rt, filter, chain, h);
  }

  /** Two imported chains from one genesis block, in which a hash identifies its block. */
  ghost predicate Forks<C>(mine: Chain<C>, theirs: Chain<C>) {
    && SameHashSameBlock(mine, mine) && SameHashSameBlock(mine, theirs)
    && 0 < |mine| && 0 < |theirs| < 0x1_0000_0000 && mine[0].hash == theirs[0].hash
  }

  /** What `mine` has and `theirs` does not can be rolled back. */
  ghost predicate OrphansUndoable<C>(rt: Runtime<OuterVerifier, C>, filter: Filter, mine: Chain<C>, theirs: Chain<C>)
    requires AllFit(rt, mine)
  {
    forall h :: 0 <= h < |mine| && Orphaned(mine, theirs, h) ==> UndoableBlock(rt, filter, mine, h)
  }

  /** Two such chains are all that synchronising needs. */
  lemma {:induction false} ImportedResyncs(rt: Runtime<OuterVerifier, Checker>, host: Host, filter: Filter, node: Node,
                                           base: Storage, encoded: Bytes, mine: Chain<Checker>, theirs: Chain<Checker>)
    requires LawfulCodecs(rt.codecs) && Dresses(rt, host) && Keystore(filter)
    requires Imported(rt, filter, base, mine, encoded) && Imported(rt, filter, base, theirs, encoded)
    requires Forks(mine, theirs) && OrphansUndoable(rt, filter, mine, theirs) && Serves(rt, node, theirs)
    ensures Resyncs(rt, filter, Replay(rt, filter, mine), node, mine, theirs)
  {
    ImportedIsFollowable(rt, host, filter, base, mine, encoded);
    ImportedIsFollowable(rt, host, filter, base, theirs, encoded);
  }

  /**
   Afterwards the wallet's unspent table holds exactly the coins of its own owners, with their
   values, that are stored at the node it synchronised with, for every runtime and whatever had to
   be rolled back.
   */
  method SynchronizeWithRuntime<C(!new)>(db: WalletDb<C>, filter: Filter, node: Node, ghost base: Storage,
                                         ghost encoded: Bytes, ghost mine: Chain<C>, ghost theirs: Chain<C>)
    returns (ok: bool)
    requires Refinement.Sound(db.rt) && Unreserved(base) && Resyncs(db.rt, filter, db.Value(), node, mine, theirs)
    requires NoClash(db.rt, theirs[0].block.extrinsics) && StorageOf(db.rt, base, theirs, encoded).Some?
    modifies db
    ensures ok && db.unspent == TrackedOf(filter, UtxosOf(db.rt.codecs, StorageOf(db.rt, base, theirs, encoded).value))
    ensures var u := UtxosOf(db.rt.codecs, StorageOf(db.rt, base, theirs, encoded).value);
            forall r ::
              (r in db.unspent <==> OwnedAt(filter, u, r)) && (r in db.unspent ==> db.unspent[r] == EntryFor(u[r]))
  {
    forall r
      ensures var unspent := Replay(db.rt, filter, theirs).coins.unspent;
              var u := UtxosOf(db.rt.codecs, StorageOf(db.rt, base, theirs, encoded).value);
              (r in unspent <==> OwnedAt(filter, u, r)) && (r in unspent ==> unspent[r] == EntryFor(u[r]))
    {
      UnspentIsStored(db.rt, filter, base, theirs, encoded, r);
    }
    IndexAgreesWithStorage(db.rt, filter, base, theirs, encoded);
    ok := db.Synchronize(filter, node, mine, theirs);
  }
}
