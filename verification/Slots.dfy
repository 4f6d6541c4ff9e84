/** One block slot, or one inbound block, on a node whose chain and store are in step: all or nothing. */
module Slots {
  import opened Blocks
  import opened Encoding
  import opened Totals
  import Chain
  import Ledger
  import opened Node
  import opened Producer
  import opened Replica
  import Startup

  // ---------------------------------------------------------------------------
  // Chain and store in step
  // ---------------------------------------------------------------------------

  /** The block at a height is valid on its parent and is the one the store holds there. */
  ghost predicate StoredAt(g: Config, s: State, i: nat) {
    && i < |s.chain.blocks| && s.chain.blocks[i].index == i
    && (i > 0 ==> && i in s.ledger.db.blocks && s.ledger.db.blocks[i].body == s.chain.blocks[i]
                  && g.validates(s.chain.blocks[i - 1], s.chain.blocks[i]))
  }

  ghost predicate Lockstep(g: Config, s: State) {
    && s.chain.blocks != [] && s.chain.blocks[0] == g.genesis
    && s.ledger.height == s.ledger.db.height == |s.chain.blocks| - 1 < U64
    && Ledger.Loadable(s.ledger, g.context.chainId, g.hash(g.genesis), g.hash)
    && forall i: nat | i < |s.chain.blocks| :: StoredAt(g, s, i)
  }

  /** Between calls: chain and store in step, every difference from the store is marked, and the ledger
      answers as a start on its store would. Above height 0 that is what the store alone says; at
      height 0 the genesis allocation may still be in the cache only. */
  ghost predicate Safe(g: Config, s: State) {
    && Lockstep(g, s) && Ledger.Clean(s.ledger)
    && Startup.Launch(g.launch, s.ledger.db).Some?
    && Ledger.SameView(s.ledger, Startup.Launch(g.launch, s.ledger.db).value)
  }

  lemma SameViewSelf(s: Ledger.State)
    ensures Ledger.SameView(s, s)
  {
  }

  /** Above height 0 it is enough that the store answers like the ledger. */
  lemma SettledIsSafe(g: Config, s: State)
    requires Lockstep(g, s) && Ledger.Settled(s.ledger) && s.ledger.height > 0
    ensures Safe(g, s)
  {
    hide Ledger.Loadable, StoredAt;
    Ledger.SettledIsClean(s.ledger);
  }

  /** And above height 0 the store does answer like the ledger. */
  lemma SafeIsSettled(g: Config, s: State)
    requires Safe(g, s) && s.ledger.height > 0
    ensures Ledger.Settled(s.ledger)
  {
    forall a
      ensures Ledger.View(s.ledger, a) == Ledger.Durable(s.ledger.db, a)
    {
      assert Ledger.View(s.ledger, a) == Ledger.View(Startup.Opened(s.ledger.db), a);
    }
  }

  /** The block built on the tip always passes the checks of the store, up to the last height. */
  lemma NextFollows(g: Config, s: State, after: Ledger.State, b: Block)
    requires Lockstep(g, s) && after.db == s.ledger.db && after.height == s.ledger.height
    requires b.index == TipOf(s.chain).index + 1 && b.previous == g.hash(TipOf(s.chain))
    ensures b.index == s.ledger.height + 1
    ensures Ledger.Follows(after, PlaceOf(g, b), g.hash(g.genesis)) <==> s.ledger.height + 1 < U64
  {
    var h := s.ledger.height;
    assert StoredAt(g, s, h);
    if h > 0 {
      assert Ledger.LinkedAt(s.ledger, h, g.context.chainId, g.hash(g.genesis), g.hash);
    }
  }

  lemma StoreKept(g: Config, s: State, t: State, i: nat)
    requires StoredAt(g, s, i) && s.chain.blocks <= t.chain.blocks
    requires i in s.ledger.db.blocks ==> i in t.ledger.db.blocks && t.ledger.db.blocks[i] == s.ledger.db.blocks[i]
    ensures StoredAt(g, t, i)
  {
  }

  /** Storing a valid block on the tip and adding it to the chain keeps the two in step. */
  lemma AppendKeepsLockstep(g: Config, s: State, after: Ledger.State, b: Block, t: State)
    requires Lockstep(g, s) && after.db == s.ledger.db && after.height == s.ledger.height
    requires Ledger.Follows(after, PlaceOf(g, b), g.hash(g.genesis)) && g.validates(TipOf(s.chain), b)
    requires t.ledger == Ledger.Persisted(after, b, PlaceOf(g, b), g.hash(g.genesis), true)
    requires t.chain.blocks == s.chain.blocks + [b]
    ensures Lockstep(g, t)
  {
    SameDb(s.ledger, after, g);
    Ledger.PersistKeepsLoadable(after, b, PlaceOf(g, b), g.hash(g.genesis), g.hash);
    hide Ledger.Loadable;
    forall i: nat | i < |t.chain.blocks|
      ensures StoredAt(g, t, i)
    {
      if i < |s.chain.blocks| {
        assert StoredAt(g, s, i);
        StoreKept(g, s, t, i);
      }
    }
  }

  lemma CommittedState(g: Config, s: State, after: Ledger.State, b: Block, pool: seq<Tx>, slot: Slot)
    requires s.chain.blocks != [] && b.index > 0 && Committed(g, s, after, b, pool, slot).1.Produced?
    ensures var t := Committed(g, s, after, b, pool, slot).0;
            && Ledger.Follows(after, PlaceOf(g, b), g.hash(g.genesis)) && g.validates(TipOf(s.chain), b)
            && t.ledger == Ledger.Persisted(after, b, PlaceOf(g, b), g.hash(g.genesis), true)
            && t.chain.blocks == s.chain.blocks + [b]
  {
    hide Chain.Applied, Drop, Ledger.Follows;
  }

  lemma SameDb(s: Ledger.State, t: Ledger.State, g: Config)
    requires t.db == s.db && t.height == s.height
    requires Ledger.Loadable(s, g.context.chainId, g.hash(g.genesis), g.hash)
    ensures Ledger.Loadable(t, g.context.chainId, g.hash(g.genesis), g.hash)
  {
    forall k: nat | 1 <= k <= t.height
      ensures Ledger.LinkedAt(t, k, g.context.chainId, g.hash(g.genesis), g.hash)
    {
      assert Ledger.LinkedAt(s, k, g.context.chainId, g.hash(g.genesis), g.hash);
    }
  }

  // ---------------------------------------------------------------------------
  // All or nothing
  // ---------------------------------------------------------------------------

  /** Neither the ledger nor the blocks of the chain have changed. */
  ghost predicate Untouched(s: State, t: State) {
    t.ledger == s.ledger && t.chain.blocks == s.chain.blocks
  }

  lemma RolledBackBlocks(chain: Chain.State, b: Block, valid: bool)
    requires Chain.Extends(chain, b, valid)
    ensures var back := Chain.RolledBack(Chain.Added(chain, b, valid));
            && back.blocks == chain.blocks
            && back.balances == Chain.Reverted(Chain.Applied(chain.balances, b.txs).value, b.txs)
  {
    hide Chain.Applied, Chain.Reverted;
    assert (chain.blocks + [b])[..|chain.blocks|] == chain.blocks;
  }

  /** What the commit of a block on the tip does, path by path. */
  lemma CommitAllOrNothing(g: Config, s: State, after: Ledger.State, b: Block, pool: seq<Tx>, slot: Slot)
    requires Safe(g, s) && after.db == s.ledger.db && after.height == s.ledger.height && Ledger.Clean(after)
    requires b.index == TipOf(s.chain).index + 1 && b.previous == g.hash(TipOf(s.chain))
    ensures var (t, r) := Committed(g, s, after, b, pool, slot);
            var taken := Chain.Extends(s.chain, b, Valid(g, s.chain, b, slot));
            && (r.Produced? <==> taken && slot.disk && s.ledger.height + 1 < U64)
            && (r.Produced? ==> && r.block == b && Safe(g, t) && t.chain.blocks == s.chain.blocks + [b]
                                && Ledger.SameView(t.ledger, after))
            && (!r.Produced? ==> Untouched(s, t))
  {
    var (t, r) := Committed(g, s, after, b, pool, slot);
    var valid := Valid(g, s.chain, b, slot);
    NextFollows(g, s, after, b);
    if Chain.Extends(s.chain, b, valid) {
      RolledBackBlocks(s.chain, b, valid);
      hide Chain.Extends, Drop;
      if r.Produced? {
        CommittedState(g, s, after, b, pool, slot);
        AppendKeepsLockstep(g, s, after, b, t);
        hide Lockstep, Committed;
        Ledger.PersistSettles(after, b, PlaceOf(g, b), g.hash(g.genesis));
        hide Ledger.Persisted;
        CommittedHeight(after, b, PlaceOf(g, b), g.hash(g.genesis));
        SettledIsSafe(g, t);
      }
    }
  }

  lemma CommittedHeight(after: Ledger.State, b: Block, at: Ledger.Place, genesis: Bytes)
    requires Ledger.Follows(after, at, genesis)
    ensures Ledger.Persisted(after, b, at, genesis, true).height == after.height + 1
  {
  }

  /** The chain of a slot that committed nothing, and the removals it has spawned. */
  lemma CommitTraces(g: Config, s: State, after: Ledger.State, b: Block, pool: seq<Tx>, slot: Slot)
    requires s.chain.blocks != []
    ensures var (t, r) := Committed(g, s, after, b, pool, slot);
            var valid := Valid(g, s.chain, b, slot);
            && t.spawned == s.spawned + (if Chain.Extends(s.chain, b, valid) then Ids(b.txs) else {})
            && (r.Produced? ==> Chain.Extends(s.chain, b, valid) && t.chain == Chain.Added(s.chain, b, valid)
                                && t.pool == Drop(pool, Ids(b.txs)))
            && (!r.Produced? ==> t.pool == pool)
            && (!r.Produced? ==> t.chain == if Chain.Extends(s.chain, b, valid)
                                            then Chain.RolledBack(Chain.Added(s.chain, b, valid)) else s.chain)
  {
    hide Chain.Added, Chain.RolledBack, Chain.Extends, Drop, Ids, Ledger.Persists;
  }

  /** The slot gets as far as a sealed block. */
  ghost predicate Reaches(g: Config, s: State, slot: Slot) {
    && Peek(s.pool, slot.limit) != [] && slot.turn == Mine && slot.seal.Some?
    && Included(g.context, s.ledger, SlotItems(s, slot)) != []
  }

  ghost function AfterPhase(g: Config, s: State, slot: Slot): Ledger.State {
    Phase(g.context, s.ledger, SlotItems(s, slot))
  }

  ghost function BlockOf(g: Config, s: State, slot: Slot): Block
    requires s.chain.blocks != [] && Reaches(g, s, slot)
  {
    NextBlock(g, s.chain, AfterPhase(g, s, slot), Included(g.context, s.ledger, SlotItems(s, slot)), slot.epoch,
              slot.seal.value)
  }

  /** The chain takes the block of the slot. */
  ghost predicate Accepted(g: Config, s: State, slot: Slot) {
    && s.chain.blocks != [] && Reaches(g, s, slot)
    && Chain.Extends(s.chain, BlockOf(g, s, slot), Valid(g, s.chain, BlockOf(g, s, slot), slot))
  }

  /** Every slot either adds one block to the chain and to the store together, or leaves the ledger and
      the blocks of the chain exactly as they were, and the chain's balances too while their total
      fits in 64 bits. It adds one exactly when the chain accepts the sealed block and the disk takes
      the write: the store has no other reason to refuse below the last height. */
  lemma AllOrNothing(g: Config, s: State, slot: Slot)
    requires Safe(g, s)
    ensures var (t, r) := Produce(g, s, slot);
            && (r.Produced? <==> Accepted(g, s, slot) && slot.disk && s.ledger.height + 1 < U64)
            && (r.Produced? ==> && r.block == BlockOf(g, s, slot) && Safe(g, t)
                                && t.chain.blocks == s.chain.blocks + [r.block]
                                && Ledger.SameView(t.ledger, AfterPhase(g, s, slot)))
            && (!r.Produced? ==> Untouched(s, t))
            && (!r.Produced? && Total(s.chain.balances) < U64 ==> Same(t.chain.balances, s.chain.balances))
  {
    hide Phase, Included, Producer.Failed, Drop, Chain.Extends, Committed, Total, Same;
    if !Produce(g, s, slot).1.Produced? && Total(s.chain.balances) < U64 { BalancesUntouched(g, s, slot); }
    var items := SlotItems(s, slot);
    PhaseKeeps(g.context, s.ledger, items);
    if Reaches(g, s, slot) {
      CommitAllOrNothing(g, s, Phase(g.context, s.ledger, items), BlockOf(g, s, slot),
                         Drop(s.pool, Producer.Failed(g.context, s.ledger, items)), slot);
      hide Safe, Ledger.SameView, Untouched;
    }
  }

  /** How a slot ends, in terms of what it is given: it is skipped without anything to do, when another
      leads, or when every transaction fails; it produces exactly the block on the tip with what was
      included; and it fails otherwise. */
  lemma SlotOutcome(g: Config, s: State, slot: Slot)
    requires Safe(g, s)
    ensures var o := Produce(g, s, slot).1; var tip := TipOf(s.chain);
            var txs := Included(g.context, s.ledger, SlotItems(s, slot));
            var mine := slot.limit > 0 && s.pool != [] && slot.turn == Mine && txs != [];
            && (o.Skipped? <==>
                slot.limit == 0 || s.pool == [] || slot.turn == Other || (slot.turn == Mine && txs == []))
            && (o.Produced? ==>
                && slot.seal.Some?
                && o.block == Block(tip.index + 1, g.hash(tip), txs, slot.epoch,
                                    g.root(Ledger.Contents(AfterPhase(g, s, slot))), slot.seal.value))
            && (o.Produced? <==>
                && mine && slot.seal.Some? && slot.member && slot.disk && s.ledger.height + 1 < U64
                && Chain.Applied(s.chain.balances, txs).Some?
                && g.validates(tip, Block(tip.index + 1, g.hash(tip), txs, slot.epoch,
                                          g.root(Ledger.Contents(AfterPhase(g, s, slot))), slot.seal.value)))
  {
    hide Phase, Included, Producer.Failed, Drop, Safe, Chain.Applied, Ledger.Contents;
    AllOrNothing(g, s, slot);
    SafeHasTip(g, s);
    hide Ledger.Persisted, Chain.RolledBack, Chain.Added, Ledger.Persists;
  }

  lemma SafeHasTip(g: Config, s: State)
    requires Safe(g, s)
    ensures s.chain.blocks != [] && TipOf(s.chain).index == s.ledger.height
  {
    assert StoredAt(g, s, s.ledger.height);
  }

  lemma SlotTraces(g: Config, s: State, slot: Slot)
    requires s.chain.blocks != []
    ensures var (t, r) := Produce(g, s, slot);
            && t.spawned == s.spawned + (if Accepted(g, s, slot) then Ids(BlockOf(g, s, slot).txs) else {})
            && (r.Produced? ==>
                  && Accepted(g, s, slot)
                  && t.chain == Chain.Added(s.chain, BlockOf(g, s, slot), Valid(g, s.chain, BlockOf(g, s, slot), slot))
                  && t.pool == Drop(Drop(s.pool, Producer.Failed(g.context, s.ledger, SlotItems(s, slot))),
                                    Ids(BlockOf(g, s, slot).txs)))
            && (!r.Produced? ==>
                  t.chain == if Accepted(g, s, slot)
                             then Chain.RolledBack(Chain.Added(s.chain, BlockOf(g, s, slot),
                                                               Valid(g, s.chain, BlockOf(g, s, slot), slot)))
                             else s.chain)
  {
    hide Phase, Included, Producer.Failed, Drop, Chain.Extends, Committed, Chain.Added, Chain.RolledBack, Ids, Valid;
    assert s.spawned + {} == s.spawned;
    if Reaches(g, s, slot) {
      CommitTraces(g, s, AfterPhase(g, s, slot), BlockOf(g, s, slot),
                   Drop(s.pool, Producer.Failed(g.context, s.ledger, SlotItems(s, slot))), slot);
    }
  }

  lemma BalancesUntouched(g: Config, s: State, slot: Slot)
    requires s.chain.blocks != [] && Total(s.chain.balances) < U64 && !Produce(g, s, slot).1.Produced?
    ensures Same(Produce(g, s, slot).0.chain.balances, s.chain.balances)
  {
    hide Produce, Total, Valid, BlockOf, Reaches, Chain.Applied, Chain.Reverted, Ids;
    SlotTraces(g, s, slot);
    if Accepted(g, s, slot) {
      var b := BlockOf(g, s, slot);
      RolledBackBlocks(s.chain, b, Valid(g, s.chain, b, slot));
      var m := Chain.Applied(s.chain.balances, b.txs).value;
      assert Same(m, m);
      Chain.RevertUndoes(s.chain.balances, m, b.txs);
    }
  }

  // ---------------------------------------------------------------------------
  // The pool
  // ---------------------------------------------------------------------------

  lemma {:induction false} DropTwice(pool: seq<Tx>, a: set<Bytes>, b: set<Bytes>)
    ensures Drop(Drop(pool, a), b) == Drop(pool, a + b)
  {
    hide TxId;
    if pool != [] {
      var front, last := pool[..|pool| - 1], pool[|pool| - 1];
      DropTwice(front, a, b);
      var kept := Drop(front, a);
      assert (kept + [last])[..|kept|] == kept;
      assert kept + [] == kept;
    }
  }

  /** A block takes exactly the transactions looked at, included or failed, out of the pool; the others
      keep their order. */
  lemma PoolIsDrained(g: Config, s: State, slot: Slot)
    requires s.chain.blocks != []
    ensures Produce(g, s, slot).1.Produced? ==>
              Produce(g, s, slot).0.pool == Drop(s.pool, Ids(Peek(s.pool, slot.limit)))
  {
    hide Phase, TxId, Produce, Drop, Committed;
    var pending, items := Peek(s.pool, slot.limit), SlotItems(s, slot);
    var failed, txs := Producer.Failed(g.context, s.ledger, items), Included(g.context, s.ledger, items);
    SlotTraces(g, s, slot);
    DropTwice(s.pool, failed, Ids(txs));
    AllPlaced(g.context, s.ledger, items, pending);
  }

  ghost predicate ColonFree(t: Tx) {
    58 !in t.sender && 58 !in t.receiver
  }

  /** The same payment, for all but the nonce. */
  predicate Twins(t: Tx, u: Tx) {
    t.sender == u.sender && t.receiver == u.receiver && t.amount == u.amount && t.timestamp == u.timestamp
  }

  /** A pending transaction that the slot did not look at is not in the block. It stays in the pool unless
      it has a twin among those looked at: then it is lost, whatever its nonce. */
  lemma UnseenLostIff(g: Config, s: State, slot: Slot, t: Tx)
    requires s.chain.blocks != [] && t in s.pool && t !in Peek(s.pool, slot.limit)
    requires forall u | u in s.pool :: ColonFree(u)
    ensures var (after, o) := Produce(g, s, slot);
            o.Produced? ==>
              && t !in o.block.txs
              && (t !in after.pool <==> exists u :: u in Peek(s.pool, slot.limit) && Twins(t, u))
  {
    hide Phase, TxId, Produce, Drop, Committed, Included;
    var seen := Peek(s.pool, slot.limit);
    PoolIsDrained(g, s, slot);
    forall u | u in seen
      ensures TxId(t) == TxId(u) <==> Twins(t, u)
    {
      var i :| 0 <= i < |seen| && seen[i] == u;
      assert s.pool[i] == u && ColonFree(u) && ColonFree(t);
      TxIdIff(t, u);
    }
    if Produce(g, s, slot).1.Produced? {
      ProducedTxs(g, s, slot);
      if t in Included(g.context, s.ledger, SlotItems(s, slot)) {
        IncludedWasPending(g.context, s.ledger, SlotItems(s, slot), t);
      }
    }
  }

  lemma ProducedTxs(g: Config, s: State, slot: Slot)
    ensures var o := Produce(g, s, slot).1;
            o.Produced? ==> o.block.txs == Included(g.context, s.ledger, SlotItems(s, slot))
  {
    hide Phase, Included, Producer.Failed, Drop, Ledger.Contents;
  }

  lemma AllPlaced(c: Context, s: Ledger.State, items: seq<Item>, pending: seq<Tx>)
    requires |items| == |pending| && forall k | 0 <= k < |items| :: items[k].tx == pending[k]
    ensures Producer.Failed(c, s, items) + Ids(Included(c, s, items)) == Ids(pending)
  {
    hide Phase, TxId, AdmittedAt, Included, Producer.Failed;
    forall tx | tx in pending
      ensures TxId(tx) in Producer.Failed(c, s, items) + Ids(Included(c, s, items))
    {
      var k :| 0 <= k < |pending| && pending[k] == tx;
      EveryTxPlaced(c, s, items, k);
    }
    FailedWerePending(c, s, items, pending);
    forall t | t in Included(c, s, items)
      ensures t in pending
    {
      IncludedWasPending(c, s, items, t);
    }
  }

  lemma {:induction false} FailedWerePending(c: Context, s: Ledger.State, items: seq<Item>, pending: seq<Tx>)
    requires forall k | 0 <= k < |items| :: items[k].tx in pending
    ensures Producer.Failed(c, s, items) <= Ids(pending)
  {
    hide AdmittedAt, TxId;
    if items != [] {
      FailedWerePending(c, s, items[..|items| - 1], pending);
    }
  }

  /** When the chain accepts a block that the disk then refuses, its transactions are lost: nothing is
      committed, yet background tasks will take each of them out of the pool. No other slot spawns
      tasks without committing. */
  lemma RefusedWriteLosesBlock(g: Config, s: State, slot: Slot)
    requires Safe(g, s)
    ensures var (t, r) := Produce(g, s, slot);
            && (!r.Produced? && t.spawned != s.spawned ==>
                  Accepted(g, s, slot) && !(slot.disk && s.ledger.height + 1 < U64))
            && (!r.Produced? && Accepted(g, s, slot) ==>
                  && Untouched(s, t)
                  && forall tx | tx in BlockOf(g, s, slot).txs ::
                       TxId(tx) in t.spawned && tx !in Confirmed(t, TxId(tx)).pool)
  {
    hide Produce, Phase, Included, Chain.Extends, TxId, Chain.Added, Chain.RolledBack;
    AllOrNothing(g, s, slot);
    SlotTraces(g, s, slot);
    assert s.spawned + {} == s.spawned;
  }

  // ---------------------------------------------------------------------------
  // Blocks from other nodes
  // ---------------------------------------------------------------------------

  /** A delivered block is stored and added together or changes nothing: after the preflight the chain
      never refuses a block that the store has taken. */
  lemma DeliveryAllOrNothing(g: Config, s: State, d: Delivery)
    requires Safe(g, s)
    ensures var (t, ok) := Delivered(g, s, d); var b := d.block;
            && (ok <==> && b.index == TipOf(s.chain).index + 1 && b.previous == g.hash(TipOf(s.chain))
                        && d.randomness && d.member && g.validates(TipOf(s.chain), b)
                        && Chain.Applied(s.chain.balances, b.txs).Some?
                        && Ledger.Replayed(s.ledger, Transfers(b.txs)).Some?
                        && b.root == g.root(Ledger.Contents(Ledger.Replayed(s.ledger, Transfers(b.txs)).value))
                        && d.disk && s.ledger.height + 1 < U64)
            && (ok ==> && Safe(g, t) && t.chain == Chain.Added(s.chain, b, true)
                       && t.chain.blocks == s.chain.blocks + [b]
                       && Ledger.Replayed(s.ledger, Transfers(b.txs)).Some?
                       && Ledger.SameView(t.ledger, Ledger.Replayed(s.ledger, Transfers(b.txs)).value))
            && (!ok ==> t == s)
  {
    hide Chain.Applied, Ledger.Replayed, Ledger.Contents, StoredAt, Ledger.Loadable, Startup.Launch, Ledger.SameView;
    var (t, ok) := Delivered(g, s, d);
    var b := d.block;
    SafeHasTip(g, s);
    if Welcome(g, s.chain, d) { DeliveryFollows(g, s, b); }
    if ok {
      var x := Ledger.Replayed(s.ledger, Transfers(b.txs)).value;
      Ledger.ReplayedKeeps(s.ledger, Transfers(b.txs));
      FollowsAlike(x, s.ledger, PlaceOf(g, b), g.hash(g.genesis));
      AppendKeepsLockstep(g, s, x, b, t);
      PersistedSame(x, b, PlaceOf(g, b), g.hash(g.genesis));
      SettledIsSafe(g, t);
    }
  }

  lemma PersistedSame(s: Ledger.State, b: Block, at: Ledger.Place, genesis: Bytes)
    requires Ledger.Clean(s) && Ledger.Follows(s, at, genesis)
    ensures var t := Ledger.Persisted(s, b, at, genesis, true); Ledger.Settled(t) && Ledger.SameView(t, s)
  {
    Ledger.PersistSettles(s, b, at, genesis);
  }

  lemma FollowsAlike(r: Ledger.State, s: Ledger.State, at: Ledger.Place, genesis: Bytes)
    requires r.height == s.height && r.db.tip == s.db.tip && r.db.chainId == s.db.chainId
    ensures Ledger.Follows(r, at, genesis) <==> Ledger.Follows(s, at, genesis)
  {
  }

  lemma DeliveryFollows(g: Config, s: State, b: Block)
    requires Safe(g, s)
    ensures b.index == Chain.NextIndex(TipOf(s.chain)) ==>
              (Ledger.Follows(s.ledger, PlaceOf(g, b), g.hash(g.genesis))
               <==> b.previous == g.hash(TipOf(s.chain)) && s.ledger.height + 1 < U64)
  {
    var h := s.ledger.height;
    assert StoredAt(g, s, h);
    if h > 0 {
      assert Ledger.LinkedAt(s.ledger, h, g.context.chainId, g.hash(g.genesis), g.hash);
    }
  }
}
