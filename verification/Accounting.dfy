/** The money of a node over whole runs: the chain's own balance table against the ledger, and the supply. */
module Accounting {
  import opened Blocks
  import opened Encoding
  import opened Totals
  import Chain
  import Ledger
  import opened Node
  import opened Producer
  import opened Replica
  import opened Runs
  import opened Slots
  import Startup

  // ---------------------------------------------------------------------------
  // The two balance tables
  // ---------------------------------------------------------------------------

  /** The table agrees with the ledger on the accounts in scope, whose own total fits in 64 bits. */
  ghost predicate Balanced(scope: Scope, s: State) {
    AgreeOn(scope, s.chain.balances, s.ledger) && Total(Own(s.chain.balances, scope)) < U64
  }

  /** A ledger whose supply fits in 64 bits seeds a table that agrees with it on every account. */
  lemma SmallSupplyIsBalanced(s: Ledger.State)
    requires Ledger.Above(s) && Ledger.Supply(s) < U64
    ensures AgreeOn(a => true, Seeded(s), s) && Total(Own(Seeded(s), a => true)) < U64
  {
    hide Total;
    forall a
      ensures Get(Seeded(s), a) == Ledger.View(s, a).balance && Get(Own(Seeded(s), a => true), a) == Get(Seeded(s), a)
      ensures Get(Seeded(s), a) == Get(Ledger.Balances(s), a)
    {
      Ledger.ExportedIsView(s, a);
      Ledger.BalancesGet(s, a);
      PartOfTotal(Ledger.Balances(s), a, a + [0]);
    }
    TotalSame(Own(Seeded(s), a => true), Ledger.Balances(s));
  }

  /** A new node starts with the two tables in agreement on every account. */
  lemma EmptyDiskBalanced(g: Config)
    requires g.genesis.index == 0 && g.genesis.txs == []
    requires Startup.Allocated(g.launch.allocation) == g.launch.launch && 0 < g.launch.launch <= Ledger.MAX_SUPPLY
    ensures Boots(g, EMPTY_DB) && Balanced(a => true, Booted(g, EMPTY_DB))
  {
    EmptyDiskStarts(g);
    Startup.EmptyStoreLaunches(g.launch, EMPTY_DB);
    Startup.LaunchKeeps(g.launch, EMPTY_DB);
    hide Startup.Launch, Startup.Allocated, Startup.AllocatedTo, Ledger.Supply;
    SmallSupplyIsBalanced(Booted(g, EMPTY_DB).ledger);
    hide Ledger.View, Seeded;
  }

  lemma AgreeSame(scope: Scope, m: map<Addr, nat>, n: map<Addr, nat>, s: Ledger.State, t: Ledger.State)
    requires AgreeOn(scope, m, s) && SameOn(scope, m, n) && Ledger.SameView(s, t)
    ensures AgreeOn(scope, n, t)
  {
    hide Get, Ledger.View;
  }

  /** The chain accepts the block of a slot exactly when it is valid and nobody in it sends to itself,
      and its table then agrees with the ledger after the slot. */
  lemma BlockAgrees(scope: Scope, g: Config, s: State, slot: Slot)
    requires s.chain.blocks != [] && Balanced(scope, s) && Covers(scope, g.context, SlotItems(s, slot))
    requires Reaches(g, s, slot)
    ensures var b := BlockOf(g, s, slot);
            && SentFrom(scope, b.txs)
            && (Accepted(g, s, slot) <==> Valid(g, s.chain, b, slot) && NoSelf(b.txs))
            && (NoSelf(b.txs) ==>
                  && Chain.Applied(s.chain.balances, b.txs).Some?
                  && AgreeOn(scope, Chain.Applied(s.chain.balances, b.txs).value, AfterPhase(g, s, slot)))
  {
    hide Phase, Included, Chain.Applied, AgreeOn, Covers, NoSelf, SentFrom, Own, Total;
    PhaseAgrees(scope, g.context, s.chain.balances, s.ledger, SlotItems(s, slot));
  }

  /** A slot commits exactly when it gets as far as a valid sealed block in which nobody sends to itself
      and the disk takes the write. */
  lemma ProducedIff(scope: Scope, g: Config, s: State, slot: Slot)
    requires Safe(g, s) && Balanced(scope, s) && Covers(scope, g.context, SlotItems(s, slot))
    ensures Produce(g, s, slot).1.Produced?
            <==> Reaches(g, s, slot) && Valid(g, s.chain, BlockOf(g, s, slot), slot)
                 && NoSelf(BlockOf(g, s, slot).txs) && slot.disk && s.ledger.height + 1 < U64
  {
    hide Produce, Balanced, Covers, NoSelf, Valid, BlockOf, Reaches, SentFrom, AgreeOn, Chain.Extends, Chain.Applied;
    AllOrNothing(g, s, slot);
    if Reaches(g, s, slot) { BlockAgrees(scope, g, s, slot); }
  }

  lemma RolledBackAgrees(scope: Scope, chain: Chain.State, b: Block, valid: bool)
    requires Chain.Extends(chain, b, valid) && SentFrom(scope, b.txs) && Total(Own(chain.balances, scope)) < U64
    ensures SameOn(scope, Chain.RolledBack(Chain.Added(chain, b, valid)).balances, chain.balances)
  {
    hide Chain.Applied, Chain.Reverted, Own, Total, SentFrom;
    RolledBackBlocks(chain, b, valid);
    var m := Chain.Applied(chain.balances, b.txs).value;
    assert SameOn(scope, m, m);
    hide SameOn;
    ScopedRevert(scope, chain.balances, m, b.txs);
  }

  lemma SlotBalanced(scope: Scope, g: Config, s: State, slot: Slot)
    requires Safe(g, s) && Balanced(scope, s) && Covers(scope, g.context, SlotItems(s, slot))
    ensures Balanced(scope, Produce(g, s, slot).0)
  {
    hide Produce, AgreeOn, Covers, NoSelf, Valid, Reaches, SentFrom, Chain.Applied, Own, Total, Ledger.SameView;
    hide BlockOf, SameOn, StoredAt, Ledger.Loadable, Ledger.Clean, Startup.Launch;
    AllOrNothing(g, s, slot);
    SlotTraces(g, s, slot);
    var (t, r) := Produce(g, s, slot);
    if Accepted(g, s, slot) {
      var b := BlockOf(g, s, slot);
      var valid := Valid(g, s.chain, b, slot);
      BlockAgrees(scope, g, s, slot);
      ScopedBlock(scope, s.chain.balances, b.txs);
      if r.Produced? {
        Ledger.SameViewSym(t.ledger, AfterPhase(g, s, slot));
        SameOnSelf(scope, t.chain.balances);
        AgreeSame(scope, t.chain.balances, t.chain.balances, AfterPhase(g, s, slot), t.ledger);
      } else {
        RolledBackAgrees(scope, s.chain, b, valid);
        SameOnTurned(scope, s.chain.balances, t.chain.balances);
        OwnTotalSame(scope, s.chain.balances, t.chain.balances);
        SameViewSelf(s.ledger);
        AgreeSame(scope, s.chain.balances, t.chain.balances, s.ledger, t.ledger);
      }
    }
  }

  lemma SameOnSelf(scope: Scope, m: map<Addr, nat>)
    ensures SameOn(scope, m, m)
  {
  }

  /** Restarting seeds a table with the same balances for the accounts in scope. */
  lemma RestartBalanced(scope: Scope, g: Config, s: State)
    requires Safe(g, s) && Balanced(scope, s)
    ensures Balanced(scope, Restarted(g, s))
  {
    RestartLosesNothing(g, s);
    Startup.LaunchKeeps(g.launch, s.ledger.db);
    var t := Restarted(g, s);
    hide Own, Total, Safe, Startup.Launch, Seeded;
    Ledger.SameViewSym(t.ledger, s.ledger);
    SeededSame(scope, s, t.ledger);
    OwnTotalSame(scope, s.chain.balances, t.chain.balances);
    AgreeSame(scope, s.chain.balances, t.chain.balances, s.ledger, t.ledger);
  }

  lemma SeededSame(scope: Scope, s: State, started: Ledger.State)
    requires Ledger.Above(started) && Ledger.SameView(s.ledger, started) && Balanced(scope, s)
    ensures SameOn(scope, s.chain.balances, Seeded(started))
  {
    hide Total, Own, Ledger.View;
    forall a | scope(a)
      ensures Get(s.chain.balances, a) == Get(Seeded(started), a)
    {
      assert Get(s.chain.balances, a) == Ledger.View(s.ledger, a).balance;
      assert Ledger.View(s.ledger, a) == Ledger.View(started, a);
      Ledger.ExportedIsView(started, a);
      OwnGet(s.chain.balances, scope, a);
      PartOfTotal(Own(s.chain.balances, scope), a, a + [0]);
    }
  }

  lemma DeliveryBalanced(scope: Scope, g: Config, s: State, d: Delivery)
    requires Safe(g, s) && Balanced(scope, s)
    ensures Delivered(g, s, d).1 ==> g.validates(TipOf(s.chain), d.block)
    ensures (Delivered(g, s, d).1 ==> SentFrom(scope, d.block.txs)) ==> Balanced(scope, Delivered(g, s, d).0)
  {
    hide Delivered, Safe, AgreeOn, Own, Total, Ledger.Replayed, Transfers, Ledger.SameView, Chain.Applied, RootMatches;
    DeliveryAllOrNothing(g, s, d);
    var (t, ok) := Delivered(g, s, d);
    if ok && SentFrom(scope, d.block.txs) {
      var x := Ledger.Replayed(s.ledger, Transfers(d.block.txs)).value;
      ReplayAgrees(scope, s.chain.balances, s.ledger, d.block.txs);
      ScopedBlock(scope, s.chain.balances, d.block.txs);
      Ledger.SameViewSym(t.ledger, x);
      SameOnSelf(scope, t.chain.balances);
      AgreeSame(scope, t.chain.balances, t.chain.balances, x, t.ledger);
    }
  }

  /** Authorized senders are in scope, also those of valid blocks, and the side effects of the operation
      are not. */
  ghost predicate Respects(scope: Scope, g: Config, op: Op) {
    && (forall tx | g.context.authorized(tx) :: scope(tx.sender))
    && (op.Deliver? ==> forall p | g.validates(p, op.delivery.block) :: SentFrom(scope, op.delivery.block.txs))
    && (op.Run? ==> forall i: nat, d | d in op.slot.reports(i).effects.balances :: !scope(Hex(d.0)))
  }

  lemma RespectsCovers(scope: Scope, g: Config, s: State, op: Op)
    requires op.Run? && Respects(scope, g, op)
    ensures Covers(scope, g.context, SlotItems(s, op.slot))
  {
    hide Hex;
    var items := SlotItems(s, op.slot);
    forall i, d | i in items && d in i.effects.balances
      ensures !scope(Hex(d.0))
    {
      var k :| 0 <= k < |items| && items[k] == i;
      assert d in op.slot.reports(k).effects.balances;
    }
  }

  lemma StepBalanced(scope: Scope, g: Config, s: State, op: Op)
    requires Safe(g, s) && g.launch.launch > 0 && Balanced(scope, s) && Respects(scope, g, op)
    ensures Balanced(scope, Step(g, s, op))
  {
    hide Safe, Produce, Delivered, Covers, AgreeOn, Own, Total, Restarted, SentFrom, Ledger.Synced;
    match op
    case Submit(_) =>
    case Run(slot) =>
      RespectsCovers(scope, g, s, op);
      SlotBalanced(scope, g, s, slot);
    case Deliver(d) => DeliveryBalanced(scope, g, s, d);
    case Confirm(_) =>
    case Snapshot(disk) =>
      SnapshotSafe(g, s, disk);
      SameOnSelf(scope, s.chain.balances);
      AgreeSame(scope, s.chain.balances, s.chain.balances, s.ledger, Step(g, s, op).ledger);
    case Restart => RestartBalanced(scope, g, s);
  }

  /** Over every run the chain's table and the ledger agree on any scope that holds the senders and that
      side effects stay out of. */
  lemma {:induction false} TablesAgree(scope: Scope, g: Config, s: State, ops: seq<Op>)
    requires Starts(g, s) && Balanced(scope, s)
    ensures (forall op | op in ops :: Respects(scope, g, op)) ==> Balanced(scope, After(g, s, ops))
  {
    hide Boots, Balanced, Respects, Step, Safe;
    if ops != [] && forall op | op in ops :: Respects(scope, g, op) {
      var k := |ops| - 1;
      assert ops[k] in ops;
      TablesAgree(scope, g, s, ops[..k]);
      RunsAreSafe(g, s, ops[..k]);
      StepBalanced(scope, g, After(g, s, ops[..k]), ops[k]);
    }
  }

  /** The transactions of valid blocks carry authorized senders. */
  ghost predicate SignedBlocks(g: Config) {
    forall p, b, t | g.validates(p, b) && t in b.txs :: g.context.authorized(t)
  }

  /** Whatever the virtual machine does, over every run the two tables agree on all account addresses,
      because side effects only name hexadecimal accounts and those cannot send. */
  lemma AddressesAgree(g: Config, s: State, ops: seq<Op>)
    requires Starts(g, s) && Addressed(g.context) && SignedBlocks(g) && Balanced(a => !VmName(a), s)
    ensures Balanced(a => !VmName(a), After(g, s, ops))
  {
    var scope: Scope := a => !VmName(a);
    forall op | op in ops
      ensures Respects(scope, g, op)
    {
      forall tx | g.context.authorized(tx)
        ensures scope(tx.sender)
      {
        AddressIsNoVmName(tx.sender);
      }
    }
    TablesAgree(scope, g, s, ops);
  }

  /** Without balance side effects they agree on every account. */
  lemma AllAccountsAgree(g: Config, s: State, ops: seq<Op>)
    requires Starts(g, s) && Balanced(a => true, s)
    requires forall op, i: nat | op in ops && op.Run? :: op.slot.reports(i).effects.balances == []
    ensures Balanced(a => true, After(g, s, ops))
  {
    var scope: Scope := a => true;
    forall op | op in ops
      ensures Respects(scope, g, op)
    {
    }
    TablesAgree(scope, g, s, ops);
  }

  // ---------------------------------------------------------------------------
  // The supply
  // ---------------------------------------------------------------------------

  lemma {:induction false} AppliedNoSelf(m: map<Addr, nat>, txs: seq<Tx>)
    requires Chain.Applied(m, txs).Some?
    ensures NoSelf(txs)
  {
    if txs != [] {
      var k := |txs| - 1;
      AppliedNoSelf(m, txs[..k]);
      LastApart(txs[..k], txs[k]);
      assert txs[..k] + [txs[k]] == txs;
    }
  }

  /** What the side effects of an operation do to the supply, if it commits a block. */
  ghost function OpDrift(g: Config, s: State, op: Op): int {
    if op.Run? && Produce(g, s, op.slot).1.Produced? then Drift(g.context, s.ledger, SlotItems(s, op.slot)) else 0
  }

  ghost function RunDrift(g: Config, s: State, ops: seq<Op>): int {
    if ops == [] then 0
    else RunDrift(g, s, ops[..|ops| - 1]) + OpDrift(g, After(g, s, ops[..|ops| - 1]), ops[|ops| - 1])
  }

  lemma SlotSupply(g: Config, s: State, slot: Slot)
    requires Safe(g, s)
    ensures Ledger.Supply(Produce(g, s, slot).0.ledger) == Ledger.Supply(s.ledger) + OpDrift(g, s, Run(slot))
  {
    hide Produce, Phase, Included, Ledger.Supply, Drift, Safe, Ledger.SameView, Chain.Applied, Ledger.SelfSent, NoSelf;
    AllOrNothing(g, s, slot);
    var (t, r) := Produce(g, s, slot);
    if r.Produced? {
      Ledger.SupplySame(t.ledger, AfterPhase(g, s, slot));
      PhaseSupply(g.context, s.ledger, SlotItems(s, slot));
      AppliedNoSelf(s.chain.balances, r.block.txs);
      NothingSelfSent(r.block.txs);
    }
  }

  lemma DeliverySupply(g: Config, s: State, d: Delivery)
    requires Safe(g, s)
    ensures Ledger.Supply(Delivered(g, s, d).0.ledger) == Ledger.Supply(s.ledger)
  {
    hide Delivered, Safe, Ledger.Replayed, Transfers, Ledger.SameView, Chain.Applied, Ledger.SelfSent, Ledger.Supply;
    DeliveryAllOrNothing(g, s, d);
    var (t, ok) := Delivered(g, s, d);
    if ok {
      Ledger.SupplySame(t.ledger, Ledger.Replayed(s.ledger, Transfers(d.block.txs)).value);
      Ledger.ReplayedSupply(s.ledger, Transfers(d.block.txs));
      AppliedNoSelf(s.chain.balances, d.block.txs);
      NothingSelfSent(d.block.txs);
    }
  }

  /** Over every run the supply moves by exactly what the side effects of committed blocks add or take;
      in particular transfers conserve it, although a self-transfer alone would not. */
  lemma {:induction false} SupplyFollowsEffects(g: Config, s: State, ops: seq<Op>)
    requires Starts(g, s)
    ensures Ledger.Supply(After(g, s, ops).ledger) == Ledger.Supply(s.ledger) + RunDrift(g, s, ops)
  {
    hide Boots, Safe, Produce, Ledger.Supply, Drift, Restarted;
    if ops != [] {
      var k := |ops| - 1;
      SupplyFollowsEffects(g, s, ops[..k]);
      RunsAreSafe(g, s, ops[..k]);
      var t := After(g, s, ops[..k]);
      match ops[k]
      case Submit(_) =>
      case Run(slot) => SlotSupply(g, t, slot);
      case Deliver(d) => DeliverySupply(g, t, d);
      case Confirm(_) =>
      case Snapshot(disk) =>
        SnapshotSafe(g, t, disk);
        Ledger.SupplySame(t.ledger, Step(g, t, ops[k]).ledger);
      case Restart =>
        RestartLosesNothing(g, t);
        Ledger.SupplySame(Restarted(g, t).ledger, t.ledger);
    }
  }

  ghost predicate Plain(op: Op) {
    op.Run? ==> forall i: nat :: op.slot.reports(i).effects == Effects([], [])
  }

  /** Over every run without side effects the tables agree on every account and the supply is constant. */
  lemma {:induction false} PlainRunsConserve(g: Config, s: State, ops: seq<Op>)
    requires Starts(g, s) && Balanced(a => true, s) && forall op | op in ops :: Plain(op)
    ensures Balanced(a => true, After(g, s, ops))
    ensures Ledger.Supply(After(g, s, ops).ledger) == Ledger.Supply(s.ledger)
  {
    AllAccountsAgree(g, s, ops);
    SupplyFollowsEffects(g, s, ops);
    hide Boots, Balanced, Ledger.Supply;
    NoDrift(g, s, ops);
  }

  lemma {:induction false} NoDrift(g: Config, s: State, ops: seq<Op>)
    requires forall op | op in ops :: Plain(op)
    ensures RunDrift(g, s, ops) == 0
  {
    hide Produce, Drift, After;
    if ops != [] {
      var k := |ops| - 1;
      assert ops[k] in ops;
      NoDrift(g, s, ops[..k]);
      if ops[k].Run? {
        var t := After(g, s, ops[..k]);
        NoEffectsAreQuiet(g.context, t.ledger, SlotItems(t, ops[k].slot));
      }
    }
  }
}
