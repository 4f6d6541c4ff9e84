/** The proposer's ledger against two other readings of the same block: a replica that replays its
    transfers (crates/bleep-state/src/state_manager.rs, apply_canonical_block), and the chain's own
    balance table (crates/bleep-core/src/blockchain.rs). Neither sees the virtual machine's side
    effects. */
module Replica {
  import opened Blocks
  import opened Encoding
  import opened Totals
  import Chain
  import Ledger
  import opened Producer

  // ---------------------------------------------------------------------------
  // Replaying a block
  // ---------------------------------------------------------------------------

  function TransferOf(t: Tx): Ledger.Transfer {
    Ledger.Transfer(t.sender, t.receiver, t.amount, t.nonce)
  }

  function Transfers(txs: seq<Tx>): seq<Ledger.Transfer> {
    seq(|txs|, i requires 0 <= i < |txs| => TransferOf(txs[i]))
  }

  lemma TransfersSnoc(txs: seq<Tx>, t: Tx)
    ensures Transfers(txs + [t]) == Transfers(txs) + [TransferOf(t)]
    ensures (Transfers(txs) + [TransferOf(t)])[..|txs|] == Transfers(txs)
  {
  }

  lemma ReplaySnoc(s: Ledger.State, txs: seq<Tx>, t: Tx)
    ensures Ledger.Replayed(s, Transfers(txs + [t]))
            == match Ledger.Replayed(s, Transfers(txs))
               case None => None
               case Some(u) =>
                 if Ledger.AcceptsTransfer(u, TransferOf(t)) then Some(Ledger.Moved(u, t.sender, t.receiver, t.amount))
                 else None
  {
    hide Ledger.Moved, Ledger.AcceptsTransfer;
    TransfersSnoc(txs, t);
  }

  lemma NothingReplayed(s: Ledger.State)
    ensures Ledger.Replayed(s, Transfers([])) == Some(s)
  {
  }

  /** The side effects of an item come to nothing: every delta for a third account cancels out, and no
      target lies above a nonce, except for the sender, who is skipped. */
  ghost predicate Inert(s: Ledger.State, i: Item) {
    && (forall a | a != i.tx.sender && a != i.tx.receiver ::
          Drifted(Ledger.View(s, a).balance, i.effects.balances, a) == Ledger.View(s, a).balance)
    && (forall t | t in i.effects.nonces ::
          Hex(t.0) == i.tx.sender || t.1 <= Ledger.View(s, Hex(t.0)).nonce)
  }

  /** One transaction with any side effects leaves the ledger as its transfer alone would exactly when
      they come to nothing. */
  lemma EffectsShowIff(s: Ledger.State, i: Item)
    requires Ledger.View(s, i.tx.sender).balance >= i.tx.amount
    ensures Ledger.SameView(Executed(s, i), Ledger.Moved(s, i.tx.sender, i.tx.receiver, i.tx.amount)) <==> Inert(s, i)
  {
    var t, moved := Executed(s, i), Ledger.Moved(s, i.tx.sender, i.tx.receiver, i.tx.amount);
    ExecutedView(s, i);
    Ledger.MovedView(s, i.tx.sender, i.tx.receiver, i.tx.amount);
    hide Executed, Ledger.Moved, Ledger.View, Drifted, Raised, Hex;
    if Ledger.SameView(t, moved) {
      forall a | a != i.tx.sender && a != i.tx.receiver
        ensures Drifted(Ledger.View(s, a).balance, i.effects.balances, a) == Ledger.View(s, a).balance
      {
        assert Ledger.View(t, a) == Ledger.View(moved, a);
      }
      forall x | x in i.effects.nonces && Hex(x.0) != i.tx.sender
        ensures x.1 <= Ledger.View(s, Hex(x.0)).nonce
      {
        var a := Hex(x.0);
        assert Ledger.View(t, a) == Ledger.View(moved, a);
        RaisedIff(Ledger.View(s, a).nonce, i.effects.nonces, a);
      }
    }
    if Inert(s, i) {
      forall a
        ensures Ledger.View(t, a) == Ledger.View(moved, a)
      {
        assert Ledger.View(t, a) == ExecutedAccount(s, i, a);
        RaisedIff(Ledger.View(s, a).nonce, i.effects.nonces, a);
      }
    }
  }

  /** A replica in state `r` accepts the block and answers like the proposer after it. */
  ghost predicate Alike(c: Context, s: Ledger.State, r: Ledger.State, items: seq<Item>) {
    var replayed := Ledger.Replayed(r, Transfers(Included(c, s, items)));
    replayed.Some? && Ledger.SameView(Phase(c, s, items), replayed.value)
  }

  /** The replica stays alike over one more item exactly when that is turned down or its side effects
      come to nothing. */
  lemma AlikeStep(c: Context, s: Ledger.State, r: Ledger.State, items: seq<Item>, k: nat)
    requires k < |items| && Alike(c, s, r, items[..k])
    ensures Alike(c, s, r, items[..k + 1])
            <==> (AdmittedAt(c, s, items, k) ==> Inert(Phase(c, s, items[..k]), items[k]))
  {
    hide Ledger.Replayed, Transfers, Ledger.Moved, Executed, Ledger.SameView, Inert;
    assert items[..k + 1][..k] == items[..k];
    var t, i, txs := Phase(c, s, items[..k]), items[k], Included(c, s, items[..k]);
    var u := Ledger.Replayed(r, Transfers(txs)).value;
    if AdmittedAt(c, s, items, k) {
      ReplaySnoc(r, txs, i.tx);
      Ledger.SameAccepts(t, u, TransferOf(i.tx));
      EffectsShowIff(t, i);
      ViewsCompose(Executed(t, i), Ledger.Moved(t, i.tx.sender, i.tx.receiver, i.tx.amount),
                   Ledger.Moved(u, i.tx.sender, i.tx.receiver, i.tx.amount));
    } else {
      assert Included(c, s, items[..k + 1]) == txs;
    }
  }

  lemma ViewsCompose(x: Ledger.State, y: Ledger.State, z: Ledger.State)
    requires Ledger.SameView(y, z)
    ensures Ledger.SameView(x, y) <==> Ledger.SameView(x, z)
  {
    hide Ledger.View;
  }

  /** A replica that starts alike accepts every transfer and stays alike after every transaction of
      the block if and only if all side effects come to nothing at their turn. */
  lemma ReplicaTracksIff(c: Context, s: Ledger.State, r: Ledger.State, items: seq<Item>)
    requires Ledger.SameView(s, r)
    ensures (forall k: nat | k <= |items| :: Alike(c, s, r, items[..k]))
            <==> (forall k: nat | k < |items| && AdmittedAt(c, s, items, k) ::
                    Inert(Phase(c, s, items[..k]), items[k]))
  {
    hide Alike, Inert, AdmittedAt, Phase;
    if forall k: nat | k <= |items| :: Alike(c, s, r, items[..k]) {
      forall k: nat | k < |items| && AdmittedAt(c, s, items, k)
        ensures Inert(Phase(c, s, items[..k]), items[k])
      {
        assert Alike(c, s, r, items[..k + 1]);
        AlikeStep(c, s, r, items, k);
      }
    }
    if Quiet(c, s, items) {
      forall k: nat | k <= |items|
        ensures Alike(c, s, r, items[..k])
      {
        QuietIsAlike(c, s, r, items, k);
      }
    }
  }

  /** All side effects of a block come to nothing at their turn. */
  ghost predicate Quiet(c: Context, s: Ledger.State, items: seq<Item>) {
    forall k: nat | k < |items| && AdmittedAt(c, s, items, k) :: Inert(Phase(c, s, items[..k]), items[k])
  }

  lemma {:induction false} QuietIsAlike(c: Context, s: Ledger.State, r: Ledger.State, items: seq<Item>, k: nat)
    requires Ledger.SameView(s, r) && Quiet(c, s, items) && k <= |items|
    ensures Alike(c, s, r, items[..k])
  {
    hide Inert, AdmittedAt;
    if k == 0 {
      NothingReplayed(r);
      assert items[..0] == [];
    } else {
      QuietIsAlike(c, s, r, items, k - 1);
      hide Alike, Phase;
      AlikeStep(c, s, r, items, k - 1);
    }
  }

  // ---------------------------------------------------------------------------
  // Which blocks a replica takes
  // ---------------------------------------------------------------------------

  /** What the transactions send to `a`. */
  function Received(txs: seq<Tx>, a: Addr): nat {
    if txs == [] then 0
    else Received(txs[..|txs| - 1], a) + if txs[|txs| - 1].receiver == a then txs[|txs| - 1].amount else 0
  }

  lemma ReceivedSnoc(txs: seq<Tx>, t: Tx, a: Addr)
    ensures Received(txs + [t], a) == Received(txs, a) + if t.receiver == a then t.amount else 0
  {
    assert (txs + [t])[..|txs|] == txs;
  }

  /** Each virtual machine account ends with what it had and what the block sends it: a condition on the
      proposer's slot alone. */
  ghost predicate NoTrace(c: Context, s: Ledger.State, items: seq<Item>) {
    forall a | VmName(a) ::
      var v := Ledger.View(s, a);
      Ledger.View(Phase(c, s, items), a) == v.(balance := v.balance + Received(Included(c, s, items), a))
  }

  /** An account that sends nothing comes out of a replay with what it receives. */
  lemma {:induction false} ReplayedReceiver(r: Ledger.State, txs: seq<Tx>, a: Addr)
    requires Ledger.Replayed(r, Transfers(txs)).Some? && forall t | t in txs :: t.sender != a
    ensures var v := Ledger.View(r, a);
            Ledger.View(Ledger.Replayed(r, Transfers(txs)).value, a) == v.(balance := v.balance + Received(txs, a))
  {
    hide Ledger.Replayed, Transfers, Ledger.Moved, Ledger.View;
    if txs == [] {
      NothingReplayed(r);
    } else {
      var k := |txs| - 1;
      assert txs[..k] + [txs[k]] == txs && txs[k] in txs;
      ReplaySnoc(r, txs[..k], txs[k]);
      ReplayedReceiver(r, txs[..k], a);
      var x := Ledger.Replayed(r, Transfers(txs[..k])).value;
      Ledger.MovedView(x, txs[k].sender, txs[k].receiver, txs[k].amount);
    }
  }

  lemma SendersAreAddresses(c: Context, s: Ledger.State, items: seq<Item>)
    requires Addressed(c)
    ensures forall t | t in Included(c, s, items) :: !VmName(t.sender)
  {
    hide Ledger.Accepts, Ledger.View, Phase, Included;
    forall t | t in Included(c, s, items)
      ensures !VmName(t.sender)
    {
      IncludedWasPending(c, s, items, t);
      AddressIsNoVmName(t.sender);
    }
  }

  lemma {:induction false} DriftedSmall(balance: nat, deltas: seq<(Bytes, int)>, a: Addr)
    requires balance < U128
    ensures Drifted(balance, deltas, a) < U128
  {
    hide Hex;
    if deltas != [] { DriftedSmall(balance, deltas[..|deltas| - 1], a); }
  }

  /** Whoever has received something in the slot is below 128 bits. */
  lemma {:induction false} ReceiversStaySmall(c: Context, s: Ledger.State, items: seq<Item>, a: Addr)
    requires Received(Included(c, s, items), a) > 0
    ensures Ledger.View(Phase(c, s, items), a).balance < U128
  {
    hide Executed, Drifted, Raised, Ledger.View;
    var k := |items| - 1;
    var t, i, txs := Phase(c, s, items[..k]), items[k], Included(c, s, items[..k]);
    if Admits(c, t, i) {
      ReceivedSnoc(txs, i.tx, a);
      ExecutedView(t, i);
      if Received(txs, a) > 0 { ReceiversStaySmall(c, s, items[..k], a); }
      if Ledger.View(t, a).balance < U128 { DriftedSmall(Ledger.View(t, a).balance, i.effects.balances, a); }
    } else {
      assert Included(c, s, items) == txs;
      ReceiversStaySmall(c, s, items[..k], a);
    }
  }

  /** The two ledgers agree on all account addresses. */
  ghost predicate OwnViews(x: Ledger.State, y: Ledger.State) {
    forall a | !VmName(a) :: Ledger.View(x, a) == Ledger.View(y, a)
  }

  /** No virtual machine account would overflow by what it is sent. */
  ghost predicate Roomy(s: Ledger.State, txs: seq<Tx>) {
    forall a | VmName(a) && Received(txs, a) > 0 :: Ledger.View(s, a).balance + Received(txs, a) < U128
  }

  lemma OwnStep(c: Context, t: Ledger.State, x: Ledger.State, i: Item)
    requires Admits(c, t, i) && !VmName(i.tx.sender) && OwnViews(t, x)
    requires VmName(i.tx.receiver) ==> Ledger.View(x, i.tx.receiver).balance + i.tx.amount < U128
    ensures Ledger.AcceptsTransfer(x, TransferOf(i.tx))
    ensures OwnViews(Executed(t, i), Ledger.Moved(x, i.tx.sender, i.tx.receiver, i.tx.amount))
  {
    hide Ledger.View, Ledger.Moved, Executed, VmName, Hex, Drifted, Raised;
    assert Ledger.View(t, i.tx.sender) == Ledger.View(x, i.tx.sender);
    assert !VmName(i.tx.receiver) ==> Ledger.View(t, i.tx.receiver) == Ledger.View(x, i.tx.receiver);
    ExecutedView(t, i);
    Ledger.MovedView(x, i.tx.sender, i.tx.receiver, i.tx.amount);
    forall a | !VmName(a)
      ensures ExecutedAccount(t, i, a) == Ledger.AfterTransfer(x, i.tx.sender, i.tx.receiver, i.tx.amount, a)
    {
      assert Ledger.View(t, a) == Ledger.View(x, a);
      OutsideEffects(Ledger.View(t, a).balance, Ledger.View(t, a).nonce, i.effects, a);
    }
  }

  lemma OutsideEffects(balance: nat, nonce: nat, effects: Effects, a: Addr)
    requires !VmName(a)
    ensures Drifted(balance, effects.balances, a) == balance && Raised(nonce, effects.nonces, a) == nonce
  {
    DriftedOutside(balance, effects.balances, a);
    RaisedIff(nonce, effects.nonces, a);
  }

  lemma RoomyPrefix(s: Ledger.State, txs: seq<Tx>, t: Tx)
    requires Roomy(s, txs + [t])
    ensures Roomy(s, txs)
    ensures VmName(t.receiver) && t.amount > 0 ==>
              Ledger.View(s, t.receiver).balance + Received(txs, t.receiver) + t.amount < U128
  {
    hide Ledger.View, VmName;
    forall a | VmName(a) && Received(txs, a) > 0
      ensures Ledger.View(s, a).balance + Received(txs, a) < U128
    {
      ReceivedSnoc(txs, t, a);
    }
    ReceivedSnoc(txs, t, t.receiver);
  }

  /** Replay accepts every transfer of a block that leaves room, and agrees on all account addresses. */
  lemma {:induction false} ReplayOwn(c: Context, s: Ledger.State, r: Ledger.State, items: seq<Item>)
    requires Addressed(c) && Ledger.SameView(s, r) && Roomy(s, Included(c, s, items))
    ensures var replayed := Ledger.Replayed(r, Transfers(Included(c, s, items)));
            replayed.Some? && OwnViews(Phase(c, s, items), replayed.value)
  {
    hide Executed, Ledger.Moved, Ledger.AcceptsTransfer, Ledger.Replayed, Transfers, Roomy, VmName, Ledger.View;
    if items == [] {
      NothingReplayed(r);
    } else {
      var k := |items| - 1;
      var t, i, txs := Phase(c, s, items[..k]), items[k], Included(c, s, items[..k]);
      if Admits(c, t, i) {
        RoomyPrefix(s, txs, i.tx);
        ReplayOwn(c, s, r, items[..k]);
        var x := Ledger.Replayed(r, Transfers(txs)).value;
        AddressIsNoVmName(i.tx.sender);
        SendersAreAddresses(c, s, items[..k]);
        if VmName(i.tx.receiver) { ReplayedReceiver(r, txs, i.tx.receiver); }
        OwnStep(c, t, x, i);
        ReplaySnoc(r, txs, i.tx);
      } else {
        assert Included(c, s, items) == txs;
        ReplayOwn(c, s, r, items[..k]);
      }
    }
  }

  /** A replica in the proposer's state accepts the block and ends in the proposer's state if and only if
      the block leaves no trace beyond its transfers. */
  lemma AlikeIffNoTrace(c: Context, s: Ledger.State, r: Ledger.State, items: seq<Item>)
    requires Addressed(c) && Ledger.SameView(s, r)
    ensures Alike(c, s, r, items) <==> NoTrace(c, s, items)
  {
    hide Phase, Included, Ledger.Replayed, Transfers, VmName, Ledger.View, Received;
    var txs, p := Included(c, s, items), Phase(c, s, items);
    SendersAreAddresses(c, s, items);
    if NoTrace(c, s, items) {
      forall a | VmName(a) && Received(txs, a) > 0
        ensures Ledger.View(s, a).balance + Received(txs, a) < U128
      {
        ReceiversStaySmall(c, s, items, a);
      }
      ReplayOwn(c, s, r, items);
    }
    if Ledger.Replayed(r, Transfers(txs)).Some? {
      var x := Ledger.Replayed(r, Transfers(txs)).value;
      forall a | VmName(a)
        ensures var v := Ledger.View(s, a); Ledger.View(x, a) == v.(balance := v.balance + Received(txs, a))
      {
        ReplayedReceiver(r, txs, a);
        assert Ledger.View(s, a) == Ledger.View(r, a);
      }
    }
  }

  // ---------------------------------------------------------------------------
  // The chain's balance table, on some of the accounts
  // ---------------------------------------------------------------------------

  type Scope = Addr -> bool

  /** The part of a table that belongs to accounts in scope. */
  function Own(m: map<Addr, nat>, scope: Scope): map<Addr, nat> {
    map a | a in m && scope(a) :: m[a]
  }

  ghost predicate SameOn(scope: Scope, m: map<Addr, nat>, n: map<Addr, nat>) {
    forall a | scope(a) :: Get(m, a) == Get(n, a)
  }

  lemma OwnGet(m: map<Addr, nat>, scope: Scope, a: Addr)
    ensures Get(Own(m, scope), a) == if scope(a) then Get(m, a) else 0
  {
  }

  lemma OwnTotalSame(scope: Scope, m: map<Addr, nat>, n: map<Addr, nat>)
    requires SameOn(scope, m, n)
    ensures Total(Own(m, scope)) == Total(Own(n, scope))
  {
    forall a
      ensures Get(Own(m, scope), a) == Get(Own(n, scope), a)
    {
      OwnGet(m, scope, a);
      OwnGet(n, scope, a);
    }
    TotalSame(Own(m, scope), Own(n, scope));
  }

  /** The balance of `a` after a transaction, without wrap-around. */
  function Unwrapped(m: map<Addr, nat>, t: Tx, a: Addr): int {
    if a == t.sender then Get(m, a) - t.amount else if a == t.receiver then Get(m, a) + t.amount else Get(m, a)
  }

  lemma OwnParts(scope: Scope, m: map<Addr, nat>, t: Tx)
    requires scope(t.sender) && Chain.Applies(m, t)
    ensures Get(m, t.sender) <= Total(Own(m, scope))
    ensures scope(t.receiver) ==> Get(m, t.receiver) + t.amount <= Total(Own(m, scope))
  {
    hide Total, Own;
    OwnGet(m, scope, t.sender);
    OwnGet(m, scope, t.receiver);
    PartOfTotal(Own(m, scope), t.sender, t.receiver);
  }

  /** On accounts in scope nothing wraps while their own total fits in 64 bits; that total never grows
      by transactions sent from within the scope. */
  lemma ScopedTx(scope: Scope, m: map<Addr, nat>, t: Tx)
    requires scope(t.sender) && Chain.Applies(m, t) && Total(Own(m, scope)) < U64
    ensures forall a | scope(a) :: Get(Chain.AppliedTx(m, t), a) == Unwrapped(m, t, a)
    ensures Total(Own(Chain.AppliedTx(m, t), scope)) <= Total(Own(m, scope))
  {
    hide Total, Own;
    OwnParts(scope, m, t);
    Chain.AppliedGet(m, t);
    if scope(t.receiver) { Chain.Fits(Get(m, t.receiver) + t.amount); }
    hide Chain.AppliedTx;
    ScopedTotal(scope, m, Chain.AppliedTx(m, t), t);
  }

  lemma ScopedTotal(scope: Scope, m: map<Addr, nat>, n: map<Addr, nat>, t: Tx)
    requires scope(t.sender) && Chain.Applies(m, t) && forall a | scope(a) :: Get(n, a) == Unwrapped(m, t, a)
    ensures Total(Own(n, scope)) <= Total(Own(m, scope))
  {
    hide Total;
    var o := Own(m, scope);
    OwnGet(m, scope, t.sender);
    var debited := o[t.sender := Get(m, t.sender) - t.amount];
    TotalUpdate(o, t.sender, Get(m, t.sender) - t.amount);
    var moved := if scope(t.receiver) then debited[t.receiver := Get(m, t.receiver) + t.amount] else debited;
    if scope(t.receiver) {
      OwnGet(m, scope, t.receiver);
      TotalUpdate(debited, t.receiver, Get(m, t.receiver) + t.amount);
    }
    forall a
      ensures Get(Own(n, scope), a) == Get(moved, a)
    {
      OwnGet(n, scope, a);
      OwnGet(m, scope, a);
    }
    TotalSame(Own(n, scope), moved);
  }

  predicate SentFrom(scope: Scope, txs: seq<Tx>) {
    forall t | t in txs :: scope(t.sender)
  }

  lemma {:induction false} ScopedBlock(scope: Scope, m: map<Addr, nat>, txs: seq<Tx>)
    requires SentFrom(scope, txs) && Chain.Applied(m, txs).Some? && Total(Own(m, scope)) < U64
    ensures Total(Own(Chain.Applied(m, txs).value, scope)) <= Total(Own(m, scope))
  {
    hide Total, Own, Chain.AppliedTx, Chain.Applies;
    if txs != [] {
      var k := |txs| - 1;
      assert txs[k] in txs;
      ScopedBlock(scope, m, txs[..k]);
      ScopedTx(scope, Chain.Applied(m, txs[..k]).value, txs[k]);
    }
  }

  lemma ScopedRevertTx(scope: Scope, m: map<Addr, nat>, n: map<Addr, nat>, t: Tx)
    requires scope(t.sender) && Chain.Applies(m, t) && Total(Own(m, scope)) < U64
    requires SameOn(scope, n, Chain.AppliedTx(m, t))
    ensures SameOn(scope, Chain.RevertedTx(n, t), m)
  {
    hide Total, Own, Chain.AppliedTx, Chain.RevertedTx;
    ScopedTx(scope, m, t);
    OwnParts(scope, m, t);
    Chain.RevertedGet(n, t);
    Chain.Fits(Get(m, t.sender));
    hide Get;
    forall a | scope(a)
      ensures Chain.RevertedAt(n, t, a) == Get(m, a)
    {
      assert Get(n, a) == Unwrapped(m, t, a);
    }
  }

  /** Rolling a block back restores every account in scope. */
  lemma {:induction false} ScopedRevert(scope: Scope, m: map<Addr, nat>, n: map<Addr, nat>, txs: seq<Tx>)
    requires SentFrom(scope, txs) && Chain.Applied(m, txs).Some? && Total(Own(m, scope)) < U64
    requires SameOn(scope, n, Chain.Applied(m, txs).value)
    ensures SameOn(scope, Chain.Reverted(n, txs), m)
    decreases |txs|
  {
    hide Total, Own, Chain.AppliedTx, Chain.Applies, Chain.RevertedTx, SameOn;
    if txs != [] {
      var k := |txs| - 1;
      assert txs[k] in txs;
      ScopedBlock(scope, m, txs[..k]);
      ScopedRevertTx(scope, Chain.Applied(m, txs[..k]).value, n, txs[k]);
      ScopedRevert(scope, m, Chain.RevertedTx(n, txs[k]), txs[..k]);
    } else {
      SameOnTurned(scope, m, n);
    }
  }

  lemma SameOnTurned(scope: Scope, m: map<Addr, nat>, n: map<Addr, nat>)
    requires SameOn(scope, n, m)
    ensures SameOn(scope, m, n)
  {
  }

  // ---------------------------------------------------------------------------
  // Table and ledger
  // ---------------------------------------------------------------------------

  /** The chain's table and the ledger have the same balances for the accounts in scope. */
  ghost predicate AgreeOn(scope: Scope, m: map<Addr, nat>, s: Ledger.State) {
    forall a | scope(a) :: Get(m, a) == Ledger.View(s, a).balance
  }

  predicate NoSelf(txs: seq<Tx>) {
    forall t | t in txs :: t.sender != t.receiver
  }

  /** Authorized senders are in scope, and side effects are not. */
  ghost predicate Covers(scope: Scope, c: Context, items: seq<Item>) {
    && (forall tx | c.authorized(tx) :: scope(tx.sender))
    && forall i, d | i in items && d in i.effects.balances :: !scope(Hex(d.0))
  }

  lemma ItemAgrees(scope: Scope, c: Context, m: map<Addr, nat>, s: Ledger.State, i: Item)
    requires Covers(scope, c, [i]) && AgreeOn(scope, m, s) && Total(Own(m, scope)) < U64 && Admits(c, s, i)
    ensures Chain.Applies(m, i.tx) <==> i.tx.sender != i.tx.receiver
    ensures Chain.Applies(m, i.tx) ==> AgreeOn(scope, Chain.AppliedTx(m, i.tx), Executed(s, i))
  {
    hide Total, Own;
    assert Get(m, i.tx.sender) == Ledger.View(s, i.tx.sender).balance;
    if i.tx.sender != i.tx.receiver {
      ScopedTx(scope, m, i.tx);
      ExecutedView(s, i);
      hide Chain.AppliedTx, Executed, Ledger.View, Get, Hex, Drifted, Raised;
      forall a | scope(a)
        ensures Unwrapped(m, i.tx, a) == Ledger.View(Executed(s, i), a).balance
      {
        assert Ledger.View(Executed(s, i), a) == ExecutedAccount(s, i, a);
        assert i in [i];
        DriftedOutside(Ledger.View(s, a).balance, i.effects.balances, a);
      }
    }
  }

  /** Of the transactions a slot admits, the chain's table accepts exactly the lists in which nobody
      sends to itself, and then it agrees with the ledger, side effects and all. */
  lemma {:induction false} PhaseAgrees(scope: Scope, c: Context, m: map<Addr, nat>, s: Ledger.State, items: seq<Item>)
    requires Covers(scope, c, items) && AgreeOn(scope, m, s) && Total(Own(m, scope)) < U64
    ensures var txs := Included(c, s, items);
            && SentFrom(scope, txs) && (Chain.Applied(m, txs).Some? <==> NoSelf(txs))
            && (NoSelf(txs) ==> AgreeOn(scope, Chain.Applied(m, txs).value, Phase(c, s, items)))
  {
    if items != [] {
      hide Total, Own, AgreeOn, Chain.AppliedTx, Chain.Applies, Executed, Ledger.Accepts, Ledger.View;
      var k := |items| - 1;
      var front, i := items[..k], items[k];
      CoversParts(scope, c, items);
      assert c.authorized(i.tx) ==> scope(i.tx.sender);
      hide Covers;
      PhaseAgrees(scope, c, m, s, front);
      var t, txs := Phase(c, s, front), Included(c, s, front);
      if Admits(c, t, i) {
        LastApart(txs, i.tx);
        if NoSelf(txs) {
          ScopedBlock(scope, m, txs);
          ItemAgrees(scope, c, Chain.Applied(m, txs).value, t, i);
        }
      } else {
        assert Included(c, s, items) == txs;
      }
    }
  }

  lemma CoversParts(scope: Scope, c: Context, items: seq<Item>)
    requires items != [] && Covers(scope, c, items)
    ensures Covers(scope, c, items[..|items| - 1]) && Covers(scope, c, [items[|items| - 1]])
  {
    hide Hex;
    assert items[|items| - 1] in items;
  }

  /** The same for a block that both have accepted from elsewhere. */
  lemma {:induction false} ReplayAgrees(scope: Scope, m: map<Addr, nat>, s: Ledger.State, txs: seq<Tx>)
    requires SentFrom(scope, txs) && AgreeOn(scope, m, s) && Total(Own(m, scope)) < U64
    ensures Chain.Applied(m, txs).Some? && Ledger.Replayed(s, Transfers(txs)).Some? ==>
              AgreeOn(scope, Chain.Applied(m, txs).value, Ledger.Replayed(s, Transfers(txs)).value)
  {
    hide Total, Own, AgreeOn, Chain.AppliedTx, Chain.Applies, Ledger.Moved, Ledger.AcceptsTransfer;
    hide Ledger.Replayed, Transfers;
    if txs == [] {
      NothingReplayed(s);
    } else if Chain.Applied(m, txs).Some? && Ledger.Replayed(s, Transfers(txs)).Some? {
      var k := |txs| - 1;
      assert txs[..k] + [txs[k]] == txs && txs[k] in txs;
      ReplaySnoc(s, txs[..k], txs[k]);
      ReplayAgrees(scope, m, s, txs[..k]);
      ScopedBlock(scope, m, txs[..k]);
      TxAgrees(scope, Chain.Applied(m, txs[..k]).value, Ledger.Replayed(s, Transfers(txs[..k])).value, txs[k]);
    }
  }

  lemma TxAgrees(scope: Scope, m: map<Addr, nat>, s: Ledger.State, t: Tx)
    requires scope(t.sender) && AgreeOn(scope, m, s) && Total(Own(m, scope)) < U64
    requires Chain.Applies(m, t) && Ledger.AcceptsTransfer(s, TransferOf(t))
    ensures AgreeOn(scope, Chain.AppliedTx(m, t), Ledger.Moved(s, t.sender, t.receiver, t.amount))
  {
    hide Total, Own, Chain.AppliedTx, Ledger.Moved, Ledger.View, Get;
    ScopedTx(scope, m, t);
    Ledger.MovedView(s, t.sender, t.receiver, t.amount);
    forall a | scope(a)
      ensures Unwrapped(m, t, a) == Ledger.View(Ledger.Moved(s, t.sender, t.receiver, t.amount), a).balance
    {
      assert Get(m, a) == Ledger.View(s, a).balance;
    }
  }

  /** A replay uses up each pair of sender and nonce once. */
  lemma {:induction false} ReplayUses(before: seq<Tx>, s: Ledger.State, txs: seq<Tx>)
    requires PairsDistinct(before) && Used(before, s) && Ledger.Replayed(s, Transfers(txs)).Some?
    ensures PairsDistinct(before + txs) && Used(before + txs, Ledger.Replayed(s, Transfers(txs)).value)
  {
    hide PairsDistinct, Used, Ledger.Replayed, Transfers, Ledger.Moved, Ledger.View;
    if txs == [] {
      NothingReplayed(s);
      assert before + txs == before;
    } else {
      var k := |txs| - 1;
      assert txs[..k] + [txs[k]] == txs;
      ReplaySnoc(s, txs[..k], txs[k]);
      ReplayUses(before, s, txs[..k]);
      var x := Ledger.Replayed(s, Transfers(txs[..k])).value;
      Ledger.MovedView(x, txs[k].sender, txs[k].receiver, txs[k].amount);
      UsedMore(before + txs[..k], x, Ledger.Moved(x, txs[k].sender, txs[k].receiver, txs[k].amount), txs[k]);
      assert before + txs[..k] + [txs[k]] == before + txs;
    }
  }

  lemma LastApart(txs: seq<Tx>, t: Tx)
    ensures (txs + [t])[..|txs|] == txs && (NoSelf(txs + [t]) <==> NoSelf(txs) && t.sender != t.receiver)
    ensures forall x | x in txs + [t] :: x in txs || x == t
  {
    assert t in txs + [t];
    forall x | x in txs
      ensures x in txs + [t]
    {
    }
  }

  // ---------------------------------------------------------------------------
  // The supply
  // ---------------------------------------------------------------------------

  /** What the deltas add to the supply, or take from it, after saturation. */
  function BalanceDrift(s: Ledger.State, tx: Tx, deltas: seq<(Bytes, int)>): int {
    if deltas == [] then 0
    else
      var front := deltas[..|deltas| - 1];
      var a := Hex(deltas[|deltas| - 1].0);
      var b := Ledger.View(BalanceEffects(s, tx, front), a).balance;
      BalanceDrift(s, tx, front)
      + if a == tx.sender || a == tx.receiver then 0 else Shifted(b, deltas[|deltas| - 1].1) - b
  }

  lemma {:induction false} BalanceEffectsSupply(s: Ledger.State, tx: Tx, deltas: seq<(Bytes, int)>)
    ensures Ledger.Supply(BalanceEffects(s, tx, deltas)) == Ledger.Supply(s) + BalanceDrift(s, tx, deltas)
  {
    hide Ledger.Supply, Hex;
    if deltas != [] {
      var front, last := deltas[..|deltas| - 1], deltas[|deltas| - 1];
      BalanceEffectsSupply(s, tx, front);
      var t, a := BalanceEffects(s, tx, front), Hex(last.0);
      Ledger.PutSupply(t, a, Ledger.View(t, a).(balance := Shifted(Ledger.View(t, a).balance, last.1)));
    }
  }

  lemma {:induction false} NonceEffectsSupply(s: Ledger.State, tx: Tx, targets: seq<(Bytes, nat)>)
    ensures Ledger.Supply(NonceEffects(s, tx, targets)) == Ledger.Supply(s)
  {
    hide Ledger.Supply, Hex;
    if targets != [] {
      var front, last := targets[..|targets| - 1], targets[|targets| - 1];
      NonceEffectsSupply(s, tx, front);
      var t, a := NonceEffects(s, tx, front), Hex(last.0);
      Ledger.PutSupply(t, a, Ledger.View(t, a).(nonce := last.1));
    }
  }

  /** What a slot's admitted side effects do to the supply. */
  function Drift(c: Context, s: Ledger.State, items: seq<Item>): int {
    if items == [] then 0
    else
      var k := |items| - 1;
      var t := Phase(c, s, items[..k]);
      var i := items[k];
      Drift(c, s, items[..k])
      + if Admits(c, t, i)
        then BalanceDrift(Ledger.Moved(t, i.tx.sender, i.tx.receiver, i.tx.amount), i.tx, i.effects.balances) else 0
  }

  /** A slot changes the supply by exactly what its side effects do and what accounts send to
      themselves. */
  lemma {:induction false} PhaseSupply(c: Context, s: Ledger.State, items: seq<Item>)
    ensures Ledger.Supply(Phase(c, s, items))
            == Ledger.Supply(s) + Drift(c, s, items) + Ledger.SelfSent(Transfers(Included(c, s, items)))
  {
    hide Ledger.Supply, Ledger.Moved, Ledger.View, Ledger.Accepts;
    hide BalanceEffects, NonceEffects, BalanceDrift, Transfers;
    if items == [] {
      NothingSelfSent([]);
    } else {
      var k := |items| - 1;
      PhaseSupply(c, s, items[..k]);
      var t, i := Phase(c, s, items[..k]), items[k];
      if Admits(c, t, i) {
        Covered(c, t, i);
        var moved := Ledger.Moved(t, i.tx.sender, i.tx.receiver, i.tx.amount);
        Ledger.MovedSupply(t, i.tx.sender, i.tx.receiver, i.tx.amount);
        BalanceEffectsSupply(moved, i.tx, i.effects.balances);
        NonceEffectsSupply(BalanceEffects(moved, i.tx, i.effects.balances), i.tx, i.effects.nonces);
        SelfSentSnoc(Included(c, s, items[..k]), i.tx);
      } else {
        assert Included(c, s, items) == Included(c, s, items[..k]);
      }
    }
  }

  lemma Covered(c: Context, s: Ledger.State, i: Item)
    requires Admits(c, s, i)
    ensures Ledger.View(s, i.tx.sender).balance >= i.tx.amount
  {
  }

  lemma SelfSentSnoc(txs: seq<Tx>, t: Tx)
    ensures Ledger.SelfSent(Transfers(txs + [t]))
            == Ledger.SelfSent(Transfers(txs)) + if t.sender == t.receiver then t.amount else 0
  {
    TransfersSnoc(txs, t);
  }

  lemma {:induction false} NothingSelfSent(txs: seq<Tx>)
    requires NoSelf(txs)
    ensures Ledger.SelfSent(Transfers(txs)) == 0
  {
    if txs != [] {
      var k := |txs| - 1;
      assert txs[..k] + [txs[k]] == txs && txs[k] in txs;
      SelfSentSnoc(txs[..k], txs[k]);
      NothingSelfSent(txs[..k]);
    }
  }

  /** No side effects are quiet, and change no supply. */
  lemma {:induction false} NoEffectsAreQuiet(c: Context, s: Ledger.State, items: seq<Item>)
    requires forall i | i in items :: i.effects == Effects([], [])
    ensures Quiet(c, s, items) && Drift(c, s, items) == 0
  {
    hide Admits, Phase;
    if items != [] {
      var k := |items| - 1;
      assert items[k] in items;
      NoEffectsAreQuiet(c, s, items[..k]);
    }
    forall k: nat | k < |items| && AdmittedAt(c, s, items, k)
      ensures Inert(Phase(c, s, items[..k]), items[k])
    {
      assert items[k] in items;
    }
  }
}
