/** What holds over whole runs of a node: submissions, block slots, blocks from other nodes, background
    tasks, snapshots and restarts in any order, whatever the virtual machine does. A restart
    (src/bin/main.rs) reopens the store, mints the genesis allocation if the store is empty, reads the
    chain back, validates it again and seeds the chain's balance table from the ledger. */
module Runs {
  import opened Blocks
  import opened Encoding
  import Chain
  import Ledger
  import opened Node
  import opened Producer
  import opened Replica
  import opened Slots
  import Startup

  // ---------------------------------------------------------------------------
  // Runs
  // ---------------------------------------------------------------------------

  datatype Op =
    | Submit(tx: Tx)
    | Run(slot: Slot)
    | Deliver(delivery: Delivery)
    | Confirm(id: Bytes)
    | Snapshot(disk: bool)
    | Restart

  /** The chain as the store holds it. */
  function Recovered(g: Config, db: Ledger.Db): seq<Block> {
    seq(db.height, (i: nat) => if i + 1 in db.blocks then db.blocks[i + 1].body else g.genesis)
  }

  /** The balances that fit into 64 bits. */
  function Seeded(s: Ledger.State): map<Addr, nat> {
    map a | a in Ledger.Exported(s) && Ledger.Exported(s)[a] < U64 :: Ledger.Exported(s)[a]
  }

  /** A node comes up exactly when its accounts can be launched and the stored chain can be read, ends at
      the stored height and is valid. */
  ghost predicate Boots(g: Config, db: Ledger.Db) {
    && Startup.Launch(g.launch, db).Some?
    && Ledger.Loadable(Startup.Opened(db), g.context.chainId, g.hash(g.genesis), g.hash)
    && (db.height > 0 ==> Recovered(g, db)[db.height - 1].index == db.height)
    && Chain.Restorable(g.genesis, Recovered(g, db), g.validates)
  }

  ghost function Booted(g: Config, db: Ledger.Db): State
    requires Boots(g, db)
  {
    var ledger := Startup.Launch(g.launch, db).value;
    State(ledger, Chain.State([g.genesis] + Recovered(g, db), Seeded(ledger)), [], {})
  }

  /** The node after a restart; one that does not come up is left as it was. */
  ghost function Restarted(g: Config, s: State): State {
    if Boots(g, s.ledger.db) then Booted(g, s.ledger.db) else s
  }

  ghost function Step(g: Config, s: State, op: Op): State {
    match op
    case Submit(tx) => s.(pool := s.pool + [tx])
    case Run(slot) => Produce(g, s, slot).0
    case Deliver(d) => Delivered(g, s, d).0
    case Confirm(id) => Confirmed(s, id)
    case Snapshot(disk) => s.(ledger := Ledger.Synced(s.ledger, disk))
    case Restart => Restarted(g, s)
  }

  ghost function After(g: Config, s: State, ops: seq<Op>): State {
    if ops == [] then s else Step(g, After(g, s, ops[..|ops| - 1]), ops[|ops| - 1])
  }

  /** A node just started on its store. */
  ghost predicate Starts(g: Config, s: State) {
    && g.genesis.index == 0 && g.genesis.txs == [] && g.launch.launch > 0
    && s.ledger.db.height < U64 && Boots(g, s.ledger.db) && s == Booted(g, s.ledger.db)
  }

  const EMPTY_DB := Ledger.Db(map[], 0, None, None, map[])

  /** A new node starts: an empty disk boots, with every account at its allocation and no transaction in
      the chain. */
  lemma EmptyDiskStarts(g: Config)
    requires g.genesis.index == 0 && g.genesis.txs == []
    requires Startup.Allocated(g.launch.allocation) == g.launch.launch && 0 < g.launch.launch <= Ledger.MAX_SUPPLY
    ensures Boots(g, EMPTY_DB) && Starts(g, Booted(g, EMPTY_DB)) && Nonces(Booted(g, EMPTY_DB))
    ensures forall a :: Ledger.View(Booted(g, EMPTY_DB).ledger, a)
                        == Ledger.EMPTY.(balance := Startup.AllocatedTo(g.launch.allocation, a))
  {
    Startup.EmptyStoreLaunches(g.launch, EMPTY_DB);
    Startup.LaunchKeeps(g.launch, EMPTY_DB);
    hide Startup.Launch, Startup.Allocated, Startup.AllocatedTo, Ledger.Supply;
    assert Recovered(g, EMPTY_DB) == [];
    var s := Booted(g, EMPTY_DB);
    assert s.chain.blocks == [g.genesis];
    assert Chain.AllTxs([g.genesis]) == [];
  }

  lemma {:induction false} RestoredIndex(g: Config, blocks: seq<Block>, j: nat)
    requires g.genesis.index == 0 && Chain.Restorable(g.genesis, blocks, g.validates) && j < |blocks| && j + 1 < U64
    ensures blocks[j].index == j + 1
  {
    assert Chain.RestoredAt(g.genesis, blocks, j, g.validates);
    if j > 0 { RestoredIndex(g, blocks, j - 1); }
  }

  /** Every start is safe, at any height. */
  lemma StartIsSafe(g: Config, s: State)
    requires Starts(g, s)
    ensures Safe(g, s)
  {
    var db := s.ledger.db;
    Startup.LaunchKeeps(g.launch, db);
    hide Startup.Launch, Seeded;
    assert s.ledger.height == db.height;
    assert Ledger.Loadable(s.ledger, g.context.chainId, g.hash(g.genesis), g.hash) by {
      SameDb(Startup.Opened(db), s.ledger, g);
    }
    forall i: nat | i < |s.chain.blocks|
      ensures StoredAt(g, s, i)
    {
      StartStored(g, db, i);
    }
    SameViewSelf(s.ledger);
  }

  lemma StartStored(g: Config, db: Ledger.Db, i: nat)
    requires g.genesis.index == 0 && db.height < U64 && Boots(g, db) && i <= db.height
    ensures var blocks := [g.genesis] + Recovered(g, db);
            && blocks[i].index == i
            && (i > 0 ==> && i in db.blocks && db.blocks[i].body == blocks[i] && g.validates(blocks[i - 1], blocks[i]))
  {
    hide Startup.Launch;
    if i > 0 {
      RestoredIndex(g, Recovered(g, db), i - 1);
      assert Chain.RestoredAt(g.genesis, Recovered(g, db), i - 1, g.validates);
    }
  }

  /** No sender and nonce twice in the chain, and all of them used up in the ledger. */
  ghost predicate Nonces(s: State) {
    PairsDistinct(Chain.AllTxs(s.chain.blocks)) && Used(Chain.AllTxs(s.chain.blocks), s.ledger)
  }

  lemma UsedSame(txs: seq<Tx>, s: Ledger.State, t: Ledger.State)
    requires Used(txs, s) && Ledger.SameView(s, t)
    ensures Used(txs, t)
  {
  }

  lemma SlotNonces(g: Config, s: State, slot: Slot)
    requires Safe(g, s) && Nonces(s)
    ensures Nonces(Produce(g, s, slot).0)
  {
    hide Produce, Safe, Reaches, Phase, Included, PairsDistinct, Used, Chain.Extends, Ledger.SameView;
    AllOrNothing(g, s, slot);
    var (t, r) := Produce(g, s, slot);
    if r.Produced? {
      PhaseUses(g.context, Chain.AllTxs(s.chain.blocks), s.ledger, SlotItems(s, slot));
      Chain.AllTxsSnoc(s.chain.blocks, r.block);
      Ledger.SameViewSym(t.ledger, AfterPhase(g, s, slot));
      UsedSame(Chain.AllTxs(t.chain.blocks), AfterPhase(g, s, slot), t.ledger);
    }
  }

  /** Only the chain's blocks and the ledger matter to being safe. */
  lemma SafeSame(g: Config, s: State, t: State)
    requires Safe(g, s) && Untouched(s, t)
    ensures Safe(g, t)
  {
    hide Ledger.Loadable, Ledger.Clean, Ledger.SameView, Startup.Launch;
    forall i: nat | i < |t.chain.blocks|
      ensures StoredAt(g, t, i)
    {
      assert StoredAt(g, s, i);
    }
  }

  // ---------------------------------------------------------------------------
  // Blocks from other nodes, and snapshots
  // ---------------------------------------------------------------------------

  lemma DeliveryNonces(g: Config, s: State, d: Delivery)
    requires Safe(g, s) && Nonces(s)
    ensures Nonces(Delivered(g, s, d).0)
  {
    hide Delivered, Safe, PairsDistinct, Used, Ledger.Replayed, Transfers, Ledger.SameView, Welcome, RootMatches;
    DeliveryAllOrNothing(g, s, d);
    var (t, ok) := Delivered(g, s, d);
    if ok {
      var before := Chain.AllTxs(s.chain.blocks);
      var x := Ledger.Replayed(s.ledger, Transfers(d.block.txs)).value;
      ReplayUses(before, s.ledger, d.block.txs);
      Chain.AllTxsSnoc(s.chain.blocks, d.block);
      Ledger.SameViewSym(t.ledger, x);
      UsedSame(before + d.block.txs, x, t.ledger);
    }
  }

  /** Writing the cache out, at any height, leaves a node that starts to the same answers. */
  lemma SnapshotSafe(g: Config, s: State, disk: bool)
    requires Safe(g, s) && g.launch.launch > 0
    ensures var t := Step(g, s, Snapshot(disk)); Safe(g, t) && Ledger.SameView(s.ledger, t.ledger)
  {
    var t := Step(g, s, Snapshot(disk));
    if disk {
      Startup.LaunchAfterSync(g.launch, s.ledger);
      Ledger.SyncSettles(s.ledger);
      Ledger.SettledIsClean(t.ledger);
      LoadableSynced(g, s.ledger);
      hide Ledger.Loadable, Startup.Launch, Ledger.Clean;
      Ledger.SameViewSym(t.ledger, s.ledger);
      forall i: nat | i < |t.chain.blocks|
        ensures StoredAt(g, t, i)
      {
        assert StoredAt(g, s, i);
      }
    } else {
      SameViewSelf(s.ledger);
    }
  }

  lemma LoadableSynced(g: Config, s: Ledger.State)
    ensures Ledger.Loadable(s, g.context.chainId, g.hash(g.genesis), g.hash)
            ==> Ledger.Loadable(Ledger.Synced(s, true), g.context.chainId, g.hash(g.genesis), g.hash)
  {
    var t := Ledger.Synced(s, true);
    forall k: nat | Ledger.Loadable(s, g.context.chainId, g.hash(g.genesis), g.hash) && 1 <= k <= t.height
      ensures Ledger.LinkedAt(t, k, g.context.chainId, g.hash(g.genesis), g.hash)
    {
      assert Ledger.LinkedAt(s, k, g.context.chainId, g.hash(g.genesis), g.hash);
    }
  }

  lemma StepSafe(g: Config, s: State, op: Op)
    requires Safe(g, s) && g.launch.launch > 0
    ensures Safe(g, Step(g, s, op))
  {
    hide Safe, Produce, Accepted, Delivered, Welcome, RootMatches, Ledger.Synced;
    match op
    case Submit(_) => SafeSame(g, s, Step(g, s, op));
    case Run(slot) =>
      AllOrNothing(g, s, slot);
      if !Produce(g, s, slot).1.Produced? { SafeSame(g, s, Produce(g, s, slot).0); }
    case Deliver(d) => DeliveryAllOrNothing(g, s, d);
    case Confirm(_) => SafeSame(g, s, Step(g, s, op));
    case Snapshot(disk) => SnapshotSafe(g, s, disk);
    case Restart => RestartLosesNothing(g, s);
  }

  lemma StepNonces(g: Config, s: State, op: Op)
    requires Safe(g, s) && g.launch.launch > 0 && Nonces(s)
    ensures Nonces(Step(g, s, op))
  {
    hide Safe, Produce, Delivered, PairsDistinct, Used, Ledger.Synced;
    match op
    case Submit(_) =>
    case Run(slot) => SlotNonces(g, s, slot);
    case Deliver(d) => DeliveryNonces(g, s, d);
    case Confirm(_) =>
    case Snapshot(disk) =>
      SnapshotSafe(g, s, disk);
      UsedSame(Chain.AllTxs(s.chain.blocks), s.ledger, Step(g, s, op).ledger);
    case Restart => RestartNonces(g, s);
  }

  /** Over every run from every start, side effects, foreign blocks, snapshots and restarts included: chain
      and store are in step, a restart would answer like the ledger, every block is valid on its parent,
      and if no sender and nonce was in the stored chain twice then none ever is. */
  lemma {:induction false} RunsAreSafe(g: Config, s: State, ops: seq<Op>)
    requires Starts(g, s)
    ensures Safe(g, After(g, s, ops))
    ensures Nonces(s) ==> Nonces(After(g, s, ops))
  {
    hide Safe, Nonces, Step, Boots;
    if ops == [] {
      StartIsSafe(g, s);
    } else {
      var k := |ops| - 1;
      RunsAreSafe(g, s, ops[..k]);
      StepSafe(g, After(g, s, ops[..k]), ops[k]);
      if Nonces(s) { StepNonces(g, After(g, s, ops[..k]), ops[k]); }
    }
  }

  // ---------------------------------------------------------------------------
  // Restarts
  // ---------------------------------------------------------------------------

  lemma RecoveredSame(g: Config, s: State)
    requires Safe(g, s)
    ensures [g.genesis] + Recovered(g, s.ledger.db) == s.chain.blocks
  {
    hide Ledger.Loadable;
    var blocks := [g.genesis] + Recovered(g, s.ledger.db);
    forall i: nat | i < |s.chain.blocks|
      ensures blocks[i] == s.chain.blocks[i]
    {
      assert StoredAt(g, s, i);
    }
  }

  /** A restart between two calls always comes up and loses nothing: the same valid chain is read back,
      the same height, and the ledger answers every question as before. */
  lemma RestartLosesNothing(g: Config, s: State)
    requires Safe(g, s)
    ensures Boots(g, s.ledger.db)
    ensures var t := Restarted(g, s);
            && t.chain.blocks == s.chain.blocks && t.ledger.height == s.ledger.height && t.ledger.db == s.ledger.db
            && Ledger.SameView(t.ledger, s.ledger) && Safe(g, t)
  {
    var db, blocks := s.ledger.db, s.chain.blocks;
    RecoveredSame(g, s);
    SameDb(s.ledger, Startup.Opened(db), g);
    Startup.LaunchKeeps(g.launch, db);
    hide Ledger.Loadable, Recovered, Startup.Launch, Seeded, Ledger.Clean, Ledger.Above, Ledger.Settled;
    RestoredAgain(g, s);
    assert StoredAt(g, s, db.height);
    var t := Restarted(g, s);
    Ledger.SameViewSym(s.ledger, t.ledger);
    SameViewSelf(t.ledger);
    hide Ledger.SameView;
    LoadableSame(g, s.ledger, t.ledger);
    forall i: nat | i < |t.chain.blocks|
      ensures StoredAt(g, t, i)
    {
      assert StoredAt(g, s, i);
    }
  }

  lemma LoadableSame(g: Config, s: Ledger.State, t: Ledger.State)
    requires t.db == s.db && t.height == s.height
    ensures Ledger.Loadable(s, g.context.chainId, g.hash(g.genesis), g.hash)
            ==> Ledger.Loadable(t, g.context.chainId, g.hash(g.genesis), g.hash)
  {
    if Ledger.Loadable(s, g.context.chainId, g.hash(g.genesis), g.hash) { SameDb(s, t, g); }
  }

  lemma RestoredAgain(g: Config, s: State)
    requires Safe(g, s)
    ensures Chain.Restorable(g.genesis, Recovered(g, s.ledger.db), g.validates)
    ensures var db := s.ledger.db; db.height > 0 ==> Recovered(g, db)[db.height - 1].index == db.height
  {
    RecoveredSame(g, s);
    hide Recovered, Ledger.Loadable;
    var stored, blocks := Recovered(g, s.ledger.db), s.chain.blocks;
    forall j: nat | j < |stored|
      ensures Chain.RestoredAt(g.genesis, stored, j, g.validates)
    {
      assert StoredAt(g, s, j) && StoredAt(g, s, j + 1);
      assert stored[j] == blocks[j + 1] && (j > 0 ==> stored[j - 1] == blocks[j]);
    }
    assert StoredAt(g, s, s.ledger.db.height);
    if s.ledger.db.height > 0 { assert stored[s.ledger.db.height - 1] == blocks[s.ledger.db.height]; }
  }

  lemma RestartNonces(g: Config, s: State)
    requires Safe(g, s) && Nonces(s)
    ensures Nonces(Restarted(g, s))
  {
    hide PairsDistinct, Used, Restarted, Safe;
    RestartLosesNothing(g, s);
    Ledger.SameViewSym(Restarted(g, s).ledger, s.ledger);
    UsedSame(Chain.AllTxs(s.chain.blocks), s.ledger, Restarted(g, s).ledger);
  }
}
