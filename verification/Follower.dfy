/** A second node that receives every block the first one adds and applies it with
    `apply_canonical_block` (crates/bleep-state/src/state_manager.rs): it replays the transfers and
    compares the state root. */
module Follower {
  import opened Blocks
  import opened Encoding
  import Chain
  import Ledger
  import opened Node
  import opened Producer
  import opened Replica
  import opened Runs
  import opened Slots

  /** The follower's ledger after one inbound block, or none if the block or its write is refused. */
  function Followed(g: Config, r: Ledger.State, b: Block, disk: bool): Option<Ledger.State> {
    if Ledger.Persists(r, PlaceOf(g, b), g.hash(g.genesis), disk) && RootMatches(g, r, b)
    then Some(Ledger.Persisted(Ledger.Replayed(r, Transfers(b.txs)).value, b, PlaceOf(g, b), g.hash(g.genesis), true))
    else None
  }

  /** The follower stands at the same block and answers every question alike. */
  ghost predicate Tracks(r: Ledger.State, s: Ledger.State) {
    && Ledger.SameView(r, s) && Ledger.Clean(r)
    && r.height == s.height && r.db.tip == s.db.tip && r.db.chainId == s.db.chainId
  }

  /** The state root tells the proposer's accounts from the replayed ones. */
  ghost predicate RootBinds(g: Config, s: State, r: Ledger.State, slot: Slot) {
    var replayed := Ledger.Replayed(r, Transfers(Included(g.context, s.ledger, SlotItems(s, slot))));
    replayed.Some? && g.root(Ledger.Contents(AfterPhase(g, s, slot))) == g.root(Ledger.Contents(replayed.value)) ==>
      Ledger.Contents(AfterPhase(g, s, slot)) == Ledger.Contents(replayed.value)
  }

  /** What a produced block carries, and leaves in the proposer's store. */
  lemma ProducedStore(g: Config, s: State, slot: Slot)
    ensures var (t, o) := Produce(g, s, slot);
            o.Produced? ==>
              var at := PlaceOf(g, o.block);
              && Ledger.Follows(AfterPhase(g, s, slot), at, g.hash(g.genesis))
              && o.block.txs == Included(g.context, s.ledger, SlotItems(s, slot))
              && o.block.root == g.root(Ledger.Contents(AfterPhase(g, s, slot)))
              && t.ledger.height == at.index && t.ledger.db.tip == Some(at.hash)
              && t.ledger.db.chainId == Some(at.chainId)
  {
    hide Phase, Included, Producer.Failed, Drop, Ledger.Contents;
  }

  /** Two outcomes of a slot with the same balances and nonces are the same to every reader. */
  lemma SameContentsSameView(c: Context, s: Ledger.State, r: Ledger.State, items: seq<Item>, ts: seq<Ledger.Transfer>)
    requires Ledger.SameView(s, r) && Ledger.Replayed(r, ts).Some?
    ensures Ledger.Contents(Phase(c, s, items)) == Ledger.Contents(Ledger.Replayed(r, ts).value)
            <==> Ledger.SameView(Phase(c, s, items), Ledger.Replayed(r, ts).value)
  {
    var p, x := Phase(c, s, items), Ledger.Replayed(r, ts).value;
    PhaseKeeps(c, s, items);
    Ledger.ReplayedKeeps(r, ts);
    Ledger.ContentsSame(p, x);
    hide Phase, Ledger.Replayed, Ledger.Contents, Ledger.View, Ledger.Clean, Included;
    forall a
      ensures Ledger.View(p, a).code == Ledger.View(x, a).code
    {
      assert Ledger.View(s, a) == Ledger.View(r, a);
    }
  }

  lemma StillTracks(g: Config, r: Ledger.State, b: Block, t: Ledger.State, after: Ledger.State)
    requires Followed(g, r, b, true).Some? && Ledger.Clean(r) && Ledger.SameView(t, after)
    requires Ledger.SameView(after, Ledger.Replayed(r, Transfers(b.txs)).value)
    requires t.height == b.index && t.db.tip == Some(g.hash(b)) && t.db.chainId == Some(g.context.chainId)
    ensures Tracks(Followed(g, r, b, true).value, t)
  {
    hide Ledger.Replayed, Ledger.Contents;
    var x, f := Ledger.Replayed(r, Transfers(b.txs)).value, Followed(g, r, b, true).value;
    Ledger.ReplayedKeeps(r, Transfers(b.txs));
    FollowsAlike(x, r, PlaceOf(g, b), g.hash(g.genesis));
    Ledger.PersistSettles(x, b, PlaceOf(g, b), g.hash(g.genesis));
    Ledger.SettledIsClean(f);
    hide Ledger.View, Ledger.Clean, Ledger.Settled;
  }

  /** A block on which the replay answers like the proposer is taken. */
  lemma AlikeIsFollowed(g: Config, s: State, r: Ledger.State, slot: Slot)
    requires Safe(g, s) && Tracks(r, s.ledger) && Alike(g.context, s.ledger, r, SlotItems(s, slot))
    ensures var (t, o) := Produce(g, s, slot);
            o.Produced? ==> Followed(g, r, o.block, true).Some? && Tracks(Followed(g, r, o.block, true).value, t.ledger)
  {
    hide Produce, Phase, Included, Safe, Accepted, Ledger.Replayed, Ledger.Contents, Ledger.SameView, Ledger.Clean;
    var (t, o) := Produce(g, s, slot);
    var items, after := SlotItems(s, slot), AfterPhase(g, s, slot);
    if o.Produced? {
      ProducedStore(g, s, slot);
      PhaseKeeps(g.context, s.ledger, items);
      FollowsAlike(r, after, PlaceOf(g, o.block), g.hash(g.genesis));
      Ledger.SameViewSym(r, s.ledger);
      SameContentsSameView(g.context, s.ledger, r, items, Transfers(o.block.txs));
      AllOrNothing(g, s, slot);
      StillTracks(g, r, o.block, t.ledger, after);
    }
  }

  /** A block is taken only if the replay answers like the proposer. */
  lemma FollowedIsAlike(g: Config, s: State, r: Ledger.State, slot: Slot, disk: bool)
    requires Tracks(r, s.ledger) && RootBinds(g, s, r, slot)
    ensures var o := Produce(g, s, slot).1;
            o.Produced? && Followed(g, r, o.block, disk).Some? ==>
              disk && Alike(g.context, s.ledger, r, SlotItems(s, slot))
  {
    hide Produce, Phase, Included, Ledger.Replayed, Ledger.Contents, Ledger.SameView, Ledger.Clean;
    var o := Produce(g, s, slot).1;
    if o.Produced? && Followed(g, r, o.block, disk).Some? {
      ProducedStore(g, s, slot);
      Ledger.SameViewSym(r, s.ledger);
      SameContentsSameView(g.context, s.ledger, r, SlotItems(s, slot), Transfers(o.block.txs));
    }
  }

  /** A node in the proposer's state takes a block the proposer produced if and only if the block leaves no
      trace beyond its transfers and the write succeeds, and it then stays in the proposer's state. */
  lemma BlockIsFollowedIff(g: Config, s: State, r: Ledger.State, slot: Slot, disk: bool)
    requires Safe(g, s) && Tracks(r, s.ledger) && RootBinds(g, s, r, slot) && Addressed(g.context)
    ensures var (t, o) := Produce(g, s, slot);
            o.Produced? ==>
              && (Followed(g, r, o.block, disk).Some? <==> NoTrace(g.context, s.ledger, SlotItems(s, slot)) && disk)
              && (Followed(g, r, o.block, disk).Some? ==> Tracks(Followed(g, r, o.block, disk).value, t.ledger))
  {
    FollowedIsAlike(g, s, r, slot, disk);
    Ledger.SameViewSym(r, s.ledger);
    AlikeIffNoTrace(g.context, s.ledger, r, SlotItems(s, slot));
    hide Produce, Safe, Followed, Alike, NoTrace, Tracks;
    if Alike(g.context, s.ledger, r, SlotItems(s, slot)) && disk { AlikeIsFollowed(g, s, r, slot); }
  }

  /** A block refused: one transaction whose one side effect credits one unit to an empty third account. */
  lemma OneCoinIsRefused(g: Config, s: State, r: Ledger.State, slot: Slot, i: Item, account: Bytes, disk: bool)
    requires Safe(g, s) && Tracks(r, s.ledger) && RootBinds(g, s, r, slot) && Addressed(g.context)
    requires SlotItems(s, slot) == [i] && i.effects == Effects([(account, 1)], [])
    requires Hex(account) != i.tx.sender && Hex(account) != i.tx.receiver
    requires Ledger.View(s.ledger, Hex(account)) == Ledger.EMPTY
    ensures Produce(g, s, slot).1.Produced? ==> Followed(g, r, Produce(g, s, slot).1.block, disk).None?
  {
    hide Produce, Followed, Hex, Ledger.View, Tracks, RootBinds, NoTrace, Phase, Included, Safe;
    BlockIsFollowedIff(g, s, r, slot, disk);
    AllOrNothing(g, s, slot);
    if Accepted(g, s, slot) { OneCoinTraces(g.context, s.ledger, i, account); }
  }

  lemma OneCoinTraces(c: Context, s: Ledger.State, i: Item, account: Bytes)
    requires i.effects == Effects([(account, 1)], []) && Ledger.View(s, Hex(account)) == Ledger.EMPTY
    requires Hex(account) != i.tx.sender && Hex(account) != i.tx.receiver
    ensures Included(c, s, [i]) != [] ==> !NoTrace(c, s, [i])
  {
    hide Ledger.View, Fresh, Executed, Drifted, Hex;
    assert [i][..0] == [];
    if Included(c, s, [i]) != [] {
      var a := Hex(account);
      assert Included(c, s, [i]) == [i.tx];
      ExecutedView(s, i);
      assert Ledger.View(Phase(c, s, [i]), a) == ExecutedAccount(s, i, a);
      OneDelta(account);
      OneReceiver(i.tx, a);
      assert VmName(a);
    }
  }

  lemma OneDelta(account: Bytes)
    ensures Drifted(0, [(account, 1)], Hex(account)) == 1
  {
    assert [(account, 1)][..0] == [];
  }

  lemma OneReceiver(t: Tx, a: Addr)
    requires t.receiver != a
    ensures Received([t], a) == 0
  {
    assert [t][..0] == [];
  }

  lemma DeliveredStore(g: Config, s: State, d: Delivery)
    ensures var (t, ok) := Delivered(g, s, d); var at := PlaceOf(g, d.block);
            ok ==> && Ledger.Follows(s.ledger, at, g.hash(g.genesis)) && RootMatches(g, s.ledger, d.block)
                   && t.ledger.height == at.index && t.ledger.db.tip == Some(at.hash)
                   && t.ledger.db.chainId == Some(at.chainId)
  {
    hide Ledger.Replayed, Ledger.Contents, Chain.Applied, Chain.Extends, Welcome, Ids;
    if Delivered(g, s, d).1 { Ledger.ReplayedKeeps(s.ledger, Transfers(d.block.txs)); }
  }

  /** A block the proposer took from elsewhere is taken by the follower too, if the write succeeds. */
  lemma DeliveryIsFollowed(g: Config, s: State, r: Ledger.State, d: Delivery, disk: bool)
    requires Safe(g, s) && Tracks(r, s.ledger) && Delivered(g, s, d).1
    ensures Followed(g, r, d.block, disk).Some? <==> disk
    ensures disk ==> Tracks(Followed(g, r, d.block, disk).value, Delivered(g, s, d).0.ledger)
  {
    hide Safe, Ledger.Replayed, Transfers, Ledger.SameView, Ledger.Clean, Ledger.Contents, Delivered;
    var t, b := Delivered(g, s, d).0, d.block;
    DeliveryAllOrNothing(g, s, d);
    DeliveredStore(g, s, d);
    FollowsAlike(r, s.ledger, PlaceOf(g, b), g.hash(g.genesis));
    Ledger.ReplayConverges(r, s.ledger, Transfers(b.txs));
    var x, y := Ledger.Replayed(r, Transfers(b.txs)).value, Ledger.Replayed(s.ledger, Transfers(b.txs)).value;
    SameContents(x, y);
    if disk {
      Ledger.SameViewSym(x, y);
      StillTracks(g, r, b, t.ledger, y);
    }
  }

  lemma SameContents(x: Ledger.State, y: Ledger.State)
    requires Ledger.SameView(x, y)
    ensures Ledger.Contents(x) == Ledger.Contents(y)
  {
    Ledger.ContentsSame(x, y);
  }

  // ---------------------------------------------------------------------------
  // Runs
  // ---------------------------------------------------------------------------

  /** The block an operation of the proposer adds, if any. */
  ghost function BlockAdded(g: Config, t: State, op: Op): Option<Block> {
    if op.Run? && Produce(g, t, op.slot).1.Produced? then Some(Produce(g, t, op.slot).1.block)
    else if op.Deliver? && Delivered(g, t, op.delivery).1 then Some(op.delivery.block)
    else None
  }

  ghost function FollowerStep(g: Config, t: State, f: Ledger.State, op: Op, disk: bool): Option<Ledger.State> {
    match BlockAdded(g, t, op)
    case None => Some(f)
    case Some(b) => Followed(g, f, b, disk)
  }

  /** The follower after a run of the proposer; none once it has failed to take a block. `disk` gives the
      outcome of its write for each operation. */
  ghost function FollowerAfter(g: Config, s: State, r: Ledger.State, ops: seq<Op>, disk: nat -> bool)
    : Option<Ledger.State>
  {
    if ops == [] then Some(r)
    else
      var k := |ops| - 1;
      match FollowerAfter(g, s, r, ops[..k], disk)
      case None => None
      case Some(f) => FollowerStep(g, After(g, s, ops[..k]), f, ops[k], disk(k))
  }

  /** The operation leaves nothing that a follower could trip over: a condition on the proposer's run. */
  ghost predicate Clear(g: Config, t: State, op: Op, disk: bool) {
    && (op.Run? && Produce(g, t, op.slot).1.Produced? ==> NoTrace(g.context, t.ledger, SlotItems(t, op.slot)))
    && (BlockAdded(g, t, op).Some? ==> disk)
  }

  ghost predicate RootsBind(g: Config, t: State, f: Ledger.State, op: Op) {
    op.Run? ==> RootBinds(g, t, f, op.slot)
  }

  lemma OtherStepTracked(g: Config, t: State, f: Ledger.State, op: Op, disk: bool)
    requires Safe(g, t) && g.launch.launch > 0 && Tracks(f, t.ledger) && !op.Run?
    ensures FollowerStep(g, t, f, op, disk).Some? <==> Clear(g, t, op, disk)
    ensures FollowerStep(g, t, f, op, disk).Some? ==>
              Tracks(FollowerStep(g, t, f, op, disk).value, Step(g, t, op).ledger)
  {
    hide Delivered, Followed, Safe, Ledger.Clean, Ledger.SameView;
    match op
    case Submit(_) =>
    case Deliver(d) =>
      DeliveryAllOrNothing(g, t, d);
      if Delivered(g, t, d).1 { DeliveryIsFollowed(g, t, f, d, disk); }
    case Confirm(_) =>
    case Snapshot(written) =>
      SnapshotSafe(g, t, written);
      Ledger.SameViewThrough(f, t.ledger, Step(g, t, op).ledger);
    case Restart =>
      RestartLosesNothing(g, t);
      Ledger.SameViewSym(Restarted(g, t).ledger, t.ledger);
      Ledger.SameViewThrough(f, t.ledger, Restarted(g, t).ledger);
  }

  lemma StepTracked(g: Config, t: State, f: Ledger.State, op: Op, disk: bool)
    requires Safe(g, t) && g.launch.launch > 0 && Tracks(f, t.ledger) && RootsBind(g, t, f, op) && Addressed(g.context)
    ensures FollowerStep(g, t, f, op, disk).Some? <==> Clear(g, t, op, disk)
    ensures FollowerStep(g, t, f, op, disk).Some? ==>
              Tracks(FollowerStep(g, t, f, op, disk).value, Step(g, t, op).ledger)
  {
    if op.Run? {
      hide Produce, Followed, Safe, NoTrace, RootBinds, Accepted, Tracks;
      AllOrNothing(g, t, op.slot);
      BlockIsFollowedIff(g, t, f, op.slot, disk);
      if !Produce(g, t, op.slot).1.Produced? { StaysTracked(f, t.ledger, Step(g, t, op).ledger); }
    } else {
      OtherStepTracked(g, t, f, op, disk);
    }
  }

  lemma StaysTracked(f: Ledger.State, s: Ledger.State, t: Ledger.State)
    requires Tracks(f, s) && s == t
    ensures Tracks(f, t)
  {
  }

  ghost predicate AllClear(g: Config, s: State, ops: seq<Op>, disk: nat -> bool) {
    forall k: nat | k < |ops| :: Clear(g, After(g, s, ops[..k]), ops[k], disk(k))
  }

  ghost predicate AllBind(g: Config, s: State, r: Ledger.State, ops: seq<Op>, disk: nat -> bool) {
    forall k: nat | k < |ops| && FollowerAfter(g, s, r, ops[..k], disk).Some? ::
      RootsBind(g, After(g, s, ops[..k]), FollowerAfter(g, s, r, ops[..k], disk).value, ops[k])
  }

  lemma AllClearSnoc(g: Config, s: State, ops: seq<Op>, disk: nat -> bool)
    requires ops != []
    ensures var n := |ops| - 1;
            AllClear(g, s, ops, disk) <==>
              AllClear(g, s, ops[..n], disk) && Clear(g, After(g, s, ops[..n]), ops[n], disk(n))
  {
    hide Clear, After;
    var n := |ops| - 1;
    forall k: nat | k < n
      ensures ops[..n][..k] == ops[..k] && ops[..n][k] == ops[k]
    {
    }
    if !AllClear(g, s, ops[..n], disk) {
      var k: nat :| k < n && !Clear(g, After(g, s, ops[..n][..k]), ops[..n][k], disk(k));
      assert !Clear(g, After(g, s, ops[..k]), ops[k], disk(k));
    }
  }

  lemma AllBindPrefix(g: Config, s: State, r: Ledger.State, ops: seq<Op>, disk: nat -> bool)
    requires ops != [] && AllBind(g, s, r, ops, disk)
    ensures AllBind(g, s, r, ops[..|ops| - 1], disk)
  {
    hide RootsBind, After, FollowerAfter;
    var n := |ops| - 1;
    forall k: nat | k < n && FollowerAfter(g, s, r, ops[..n][..k], disk).Some?
      ensures RootsBind(g, After(g, s, ops[..n][..k]), FollowerAfter(g, s, r, ops[..n][..k], disk).value, ops[..n][k])
    {
      assert ops[..n][..k] == ops[..k];
    }
  }

  /** Over every run of the proposer, side effects, foreign blocks and restarts included, a node that takes
      the blocks it receives answers every question as the proposer does, for as long as it keeps up; and
      it keeps up if and only if no produced block leaves a trace and its own writes succeed. */
  lemma {:induction false} FollowerTracks(g: Config, s: State, r: Ledger.State, ops: seq<Op>, disk: nat -> bool)
    requires Starts(g, s) && Tracks(r, s.ledger) && Addressed(g.context) && AllBind(g, s, r, ops, disk)
    ensures FollowerAfter(g, s, r, ops, disk).Some? <==> AllClear(g, s, ops, disk)
    ensures FollowerAfter(g, s, r, ops, disk).Some? ==>
              Tracks(FollowerAfter(g, s, r, ops, disk).value, After(g, s, ops).ledger)
  {
    hide Tracks, Followed, Boots, RootsBind, Step, Safe, FollowerStep, Clear, Addressed;
    if ops != [] {
      var n := |ops| - 1;
      AllBindPrefix(g, s, r, ops, disk);
      AllClearSnoc(g, s, ops, disk);
      FollowerTracks(g, s, r, ops[..n], disk);
      RunsAreSafe(g, s, ops[..n]);
      if FollowerAfter(g, s, r, ops[..n], disk).Some? {
        StepTracked(g, After(g, s, ops[..n]), FollowerAfter(g, s, r, ops[..n], disk).value, ops[n], disk(n));
      }
    }
  }

  ghost predicate Silent(g: Config, s: State, op: Op) {
    op.Run? ==> Quiet(g.context, s.ledger, SlotItems(s, op.slot))
  }

  /** If all side effects come to nothing at their turn and the writes succeed, it takes every block,
      whatever the state root and the addresses. */
  lemma {:induction false} FollowerKeepsUp(g: Config, s: State, r: Ledger.State, ops: seq<Op>, disk: nat -> bool)
    requires Starts(g, s) && Tracks(r, s.ledger)
    requires forall k: nat | k < |ops| :: disk(k) && Silent(g, After(g, s, ops[..k]), ops[k])
    ensures FollowerAfter(g, s, r, ops, disk).Some?
    ensures Tracks(FollowerAfter(g, s, r, ops, disk).value, After(g, s, ops).ledger)
  {
    hide Tracks, Followed, Boots, Step, Safe, FollowerStep, Silent;
    if ops != [] {
      var n := |ops| - 1;
      forall k: nat | k < n
        ensures disk(k) && Silent(g, After(g, s, ops[..n][..k]), ops[..n][k])
      {
        assert ops[..n][..k] == ops[..k];
      }
      FollowerKeepsUp(g, s, r, ops[..n], disk);
      RunsAreSafe(g, s, ops[..n]);
      SilentStep(g, After(g, s, ops[..n]), FollowerAfter(g, s, r, ops[..n], disk).value, ops[n]);
    }
  }

  lemma SilentStep(g: Config, t: State, f: Ledger.State, op: Op)
    requires Safe(g, t) && g.launch.launch > 0 && Tracks(f, t.ledger) && Silent(g, t, op)
    ensures FollowerStep(g, t, f, op, true).Some?
    ensures Tracks(FollowerStep(g, t, f, op, true).value, Step(g, t, op).ledger)
  {
    if op.Run? {
      var items := SlotItems(t, op.slot);
      Ledger.SameViewSym(f, t.ledger);
      QuietIsAlike(g.context, t.ledger, f, items, |items|);
      assert items[..|items|] == items;
      hide Produce, Safe, Followed, Alike, Tracks, Accepted;
      AllOrNothing(g, t, op.slot);
      AlikeIsFollowed(g, t, f, op.slot);
      if !Produce(g, t, op.slot).1.Produced? { StaysTracked(f, t.ledger, Step(g, t, op).ledger); }
    } else {
      OtherStepTracked(g, t, f, op, true);
    }
  }
}
