/** A block slot from start to end (crates/bleep-consensus/src/block_producer.rs, produce_one): the
    pool, the ledger, the chain and the store together. Whose turn it is, the virtual machine, sealing
    and finality, the validator set and the disk are given from outside. */
module Node {
  import opened Blocks
  import opened Encoding
  import Chain
  import Ledger
  import opened Producer
  import opened Replica
  import Startup

  /** `spawned` holds the ids that background tasks have been told to remove from the pool. */
  datatype State = State(ledger: Ledger.State, chain: Chain.State, pool: seq<Tx>, spawned: set<Bytes>)

  datatype Turn = Mine | Other | Unknown

  /** What the virtual machine and the clock say about a pending transaction. */
  datatype Report = Report(executed: bool, effects: Effects, now: nat)

  /** One slot as seen from outside. The seal is absent when building, signing, proving or agreeing on
      the block fails; `member` tells whether the signer is in the validator set. */
  datatype Slot = Slot(limit: nat, turn: Turn, reports: nat -> Report, epoch: nat, seal: Option<Bytes>,
                       member: bool, disk: bool)

  datatype Outcome = Produced(block: Block) | Skipped | Failed

  /** `validates` is the validation of a block on its parent under the key it carries, and `root` the
      commitment to a set of accounts. */
  datatype Config = Config(context: Context, genesis: Block, hash: Block -> Bytes,
                           validates: (Block, Block) -> bool, root: map<Addr, (nat, nat)> -> Bytes,
                           launch: Startup.Genesis)

  /** The oldest transactions of the pool. */
  function Peek(pool: seq<Tx>, limit: nat): (oldest: seq<Tx>)
    ensures |oldest| == if limit < |pool| then limit else |pool|
    ensures forall i | 0 <= i < |oldest| :: oldest[i] == pool[i]
  {
    if limit < |pool| then pool[..limit] else pool
  }

  /** `remove_confirmed` for a set of ids. */
  function Drop(pool: seq<Tx>, ids: set<Bytes>): (rest: seq<Tx>)
    ensures forall t | t in rest :: t in pool && TxId(t) !in ids
    ensures forall t | t in pool && TxId(t) !in ids :: t in rest
  {
    if pool == [] then []
    else Drop(pool[..|pool| - 1], ids) + if TxId(pool[|pool| - 1]) in ids then [] else [pool[|pool| - 1]]
  }

  /** Dropping keeps the order. */
  lemma DropSnoc(pool: seq<Tx>, t: Tx, ids: set<Bytes>)
    ensures Drop(pool + [t], ids) == Drop(pool, ids) + if TxId(t) in ids then [] else [t]
  {
    hide TxId;
    assert (pool + [t])[..|pool|] == pool;
  }

  function Ids(txs: seq<Tx>): set<Bytes> {
    set t | t in txs :: TxId(t)
  }

  /** The pending transactions, each with the report on it. */
  function Items(pending: seq<Tx>, reports: nat -> Report): (items: seq<Item>)
    ensures |items| == |pending|
    ensures forall i | 0 <= i < |items| ::
              && items[i].tx == pending[i] && items[i].executed == reports(i).executed
              && items[i].effects == reports(i).effects && items[i].now == reports(i).now
  {
    seq(|pending|, i requires 0 <= i < |pending| =>
      Item(pending[i], reports(i).executed, reports(i).effects, reports(i).now))
  }

  function TipOf(chain: Chain.State): Block
    requires chain.blocks != []
  {
    chain.blocks[|chain.blocks| - 1]
  }

  function NextBlock(g: Config, chain: Chain.State, after: Ledger.State, txs: seq<Tx>, epoch: nat, seal: Bytes): Block
    requires chain.blocks != []
  {
    Block(TipOf(chain).index + 1, g.hash(TipOf(chain)), txs, epoch, g.root(Ledger.Contents(after)), seal)
  }

  function PlaceOf(g: Config, b: Block): Ledger.Place {
    Ledger.Place(b.index, g.hash(b), b.previous, g.context.chainId)
  }

  /** Validation against the validator set: the signer belongs to it and the block is valid under its key. */
  predicate Valid(g: Config, chain: Chain.State, b: Block, slot: Slot)
    requires chain.blocks != []
  {
    slot.member && g.validates(TipOf(chain), b)
  }

  /** The commit of a sealed block: chain first, then the store. The chain tells a background task to
      take the block's transactions from the pool. A failed write rolls the chain back, and the ledger
      returns to the checkpoint. */
  function Committed(g: Config, s: State, after: Ledger.State, b: Block, pool: seq<Tx>, slot: Slot): (State, Outcome)
    requires s.chain.blocks != []
  {
    var valid := Valid(g, s.chain, b, slot);
    if !Chain.Extends(s.chain, b, valid) then (State(s.ledger, s.chain, pool, s.spawned), Failed)
    else
      var chain := Chain.Added(s.chain, b, valid);
      var spawned := s.spawned + Ids(b.txs);
      if Ledger.Persists(after, PlaceOf(g, b), g.hash(g.genesis), slot.disk)
      then (State(Ledger.Persisted(after, b, PlaceOf(g, b), g.hash(g.genesis), slot.disk), chain,
                  Drop(pool, Ids(b.txs)), spawned), Produced(b))
      else (State(s.ledger, Chain.RolledBack(chain), pool, spawned), Failed)
  }

  /** A background task gets to one of its ids. */
  function Confirmed(s: State, id: Bytes): State {
    if id in s.spawned then s.(pool := Drop(s.pool, {id}), spawned := s.spawned - {id}) else s
  }

  function SlotItems(s: State, slot: Slot): seq<Item> {
    Items(Peek(s.pool, slot.limit), slot.reports)
  }

  /** `produce_one`. */
  function Produce(g: Config, s: State, slot: Slot): (State, Outcome) {
    var pending := Peek(s.pool, slot.limit);
    if pending == [] then (s, Skipped)
    else if s.chain.blocks == [] || slot.turn == Unknown then (s, Failed)
    else if slot.turn == Other then (s, Skipped)
    else
      var items := SlotItems(s, slot);
      var after := Phase(g.context, s.ledger, items);
      var txs := Included(g.context, s.ledger, items);
      var pool := Drop(s.pool, Producer.Failed(g.context, s.ledger, items));
      if txs == [] then (State(after, s.chain, pool, s.spawned), Skipped)
      else if slot.seal.None? then (State(s.ledger, s.chain, pool, s.spawned), Failed)
      else Committed(g, s, after, NextBlock(g, s.chain, after, txs, slot.epoch, slot.seal.value), pool, slot)
  }

  /** A block from another node (src/bin/main.rs): the proposer's randomness check, membership of the
      signer and the disk are given from outside. */
  datatype Delivery = Delivery(block: Block, randomness: bool, member: bool, disk: bool)

  /** It follows the tip and is valid on it. */
  predicate Welcome(g: Config, chain: Chain.State, d: Delivery)
    requires chain.blocks != []
  {
    d.block.index == Chain.NextIndex(TipOf(chain)) && d.randomness && d.member && g.validates(TipOf(chain), d.block)
  }

  /** The state root of the block is that of its replay. */
  predicate RootMatches(g: Config, s: Ledger.State, b: Block) {
    match Ledger.Replayed(s, Transfers(b.txs))
    case None => false
    case Some(x) => g.root(Ledger.Contents(x)) == b.root
  }

  /** The inbound handler: a preflight on a copy of the table, then the store, then the chain. */
  function Delivered(g: Config, s: State, d: Delivery): (State, bool) {
    var b := d.block;
    if s.chain.blocks == [] || !Welcome(g, s.chain, d) || Chain.Applied(s.chain.balances, b.txs).None? then (s, false)
    else if !(Ledger.Persists(s.ledger, PlaceOf(g, b), g.hash(g.genesis), d.disk) && RootMatches(g, s.ledger, b))
    then (s, false)
    else
      var stored := s.(ledger := Ledger.Persisted(Ledger.Replayed(s.ledger, Transfers(b.txs)).value, b, PlaceOf(g, b),
                                                  g.hash(g.genesis), true));
      if Chain.Extends(s.chain, b, true)
      then (stored.(chain := Chain.Added(s.chain, b, true), spawned := s.spawned + Ids(b.txs)), true)
      else (stored, false)
  }

  ghost predicate Reports(slot: Slot) {
    forall i: nat :: forall t | t in slot.reports(i).effects.nonces :: t.1 < U64
  }

  class BlockProducer {
    const config: Config
    const ledger: Ledger.StateManager
    const chain: Chain.Blockchain
    var pool: seq<Tx>
    var spawned: set<Bytes>

    ghost function Abs(): State
      reads this, ledger, chain, chain.state
    {
      State(ledger.Abs(), chain.Abs(), pool, spawned)
    }

    constructor (g: Config, l: Ledger.StateManager, c: Chain.Blockchain)
      ensures config == g && ledger == l && chain == c && pool == [] && spawned == {}
    {
      config, ledger, chain, pool, spawned := g, l, c, [], {};
    }

    method RemoveConfirmed(ids: set<Bytes>)
      modifies this`pool
      ensures pool == Drop(old(pool), ids)
    {
      ghost var before := pool;
      var rest: seq<Tx> := [];
      for i := 0 to |pool|
        invariant pool == before && rest == Drop(pool[..i], ids)
      {
        assert pool[..i + 1][..i] == pool[..i];
        if TxId(pool[i]) !in ids {
          rest := rest + [pool[i]];
        }
      }
      assert pool[..|pool|] == pool;
      pool := rest;
    }

    /** A background task removes one id, some time after the block was added. */
    method RunBackgroundTask(id: Bytes)
      modifies this`pool, this`spawned
      ensures Abs() == Confirmed(old(Abs()), id)
    {
      if id in spawned {
        RemoveConfirmed({id});
        spawned := spawned - {id};
      }
    }

    /** Handles a block from another node. */
    method HandleInbound(d: Delivery) returns (ok: bool)
      modifies this`spawned, ledger, chain, chain.state
      ensures Abs() == Delivered(config, old(Abs()), d).0 && ok == Delivered(config, old(Abs()), d).1
    {
      hide Chain.Applied, Ledger.Replayed, Ledger.Contents;
      var b := d.block;
      if chain.chain == [] {
        return false;
      }
      var tip := chain.chain[|chain.chain| - 1];
      if b.index != Chain.NextIndex(tip) || !d.randomness || !d.member || !config.validates(tip, b) {
        return false;
      }
      var staged := new Chain.BlockchainState(chain.state.balances);
      var applies := staged.ApplyBlock(b);
      if !applies {
        return false;
      }
      var at := Ledger.Place(b.index, config.hash(b), b.previous, config.context.chainId);
      var matches := RootMatches(config, Ledger.State(ledger.db, ledger.cache, ledger.height), b);
      ok := ledger.ApplyCanonicalBlock(b, at, config.hash(config.genesis), Transfers(b.txs), matches, d.disk);
      if !ok {
        return;
      }
      ok := chain.AddBlock(b, true);
      if ok {
        spawned := spawned + (set t | t in b.txs :: TxId(t));
      }
    }

    /** Keeps a checkpoint of the ledger and goes back to it on every error. */
    method ProduceOne(slot: Slot) returns (r: Outcome)
      requires Reports(slot)
      modifies this`pool, this`spawned, ledger, chain, chain.state
      ensures Abs() == Produce(config, old(Abs()), slot).0 && r == Produce(config, old(Abs()), slot).1
    {
      var checkpoint := Ledger.State(ledger.db, ledger.cache, ledger.height);
      r := ProduceOneInner(slot);
      if r.Failed? {
        ledger.Restore(checkpoint);
      }
    }

    method ProduceOneInner(slot: Slot) returns (r: Outcome)
      requires Reports(slot)
      modifies this`pool, this`spawned, ledger, chain, chain.state
      ensures var (t, o) := Produce(config, old(Abs()), slot);
              && r == o && chain.Abs() == t.chain && pool == t.pool && spawned == t.spawned
              && (r.Failed? ==> ledger.db == old(ledger.db) && t.ledger == old(ledger.Abs()))
              && (!r.Failed? ==> ledger.Abs() == t.ledger)
    {
      hide Phase, Included, Producer.Failed, Drop, Chain.Added, Chain.Extends, Chain.RolledBack;
      hide Committed;
      ghost var before := Abs();
      var pending := Peek(pool, slot.limit);
      if pending == [] {
        return Skipped;
      }
      if chain.chain == [] || slot.turn == Unknown {
        return Failed;
      }
      if slot.turn == Other {
        return Skipped;
      }
      var items := Items(pending, slot.reports);
      assert forall i | i in items :: Reported(i);
      var txs, failed := PhaseB(config.context, ledger, items);
      PhaseKeeps(config.context, before.ledger, items);
      RemoveConfirmed(failed);
      if txs == [] {
        return Skipped;
      }
      if slot.seal.None? {
        return Failed;
      }
      var tip := chain.chain[|chain.chain| - 1];
      var root := config.root(Ledger.Contents(Ledger.State(ledger.db, ledger.cache, ledger.height)));
      var block := Block(tip.index + 1, config.hash(tip), txs, slot.epoch, root, slot.seal.value);
      r := Commit(block, slot, before);
    }

    /** Adds to the chain, then writes to the store; undoes the first if the second fails. */
    method Commit(block: Block, slot: Slot, ghost start: State) returns (r: Outcome)
      requires start.chain == chain.Abs() && start.spawned == spawned && chain.chain != []
      modifies this`pool, this`spawned, ledger, chain, chain.state
      ensures var (t, o) := Committed(config, start, old(ledger.Abs()), block, old(pool), slot);
              && r == o && chain.Abs() == t.chain && pool == t.pool && spawned == t.spawned
              && (r.Failed? ==> ledger.db == old(ledger.db) && t.ledger == start.ledger)
              && (!r.Failed? ==> ledger.Abs() == t.ledger)
    {
      hide Drop, Chain.Extends, Chain.RolledBack;
      var valid := slot.member && config.validates(chain.chain[|chain.chain| - 1], block);
      var accepted := chain.AddBlock(block, valid);
      if !accepted {
        return Failed;
      }
      var ids := set t | t in block.txs :: TxId(t);
      spawned := spawned + ids;
      var at := Ledger.Place(block.index, config.hash(block), block.previous, config.context.chainId);
      var ok := ledger.PersistCanonicalBlock(block, at, config.hash(config.genesis), slot.disk);
      if !ok {
        chain.Rollback();
        return Failed;
      }
      RemoveConfirmed(ids);
      r := Produced(block);
    }
  }
}
