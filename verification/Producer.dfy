/** Applying the pending transactions of a slot to the ledger
    (crates/bleep-consensus/src/block_producer.rs, phase B). The virtual machine's verdict and side
    effects, the clock and signature checking are given from outside. */
module Producer {
  import opened Arithmetic
  import opened Blocks
  import opened Encoding
  import Ledger

  /** Side effects of one execution, in key order: balance deltas and target nonces by account. */
  datatype Effects = Effects(balances: seq<(Bytes, int)>, nonces: seq<(Bytes, nat)>)

  datatype Item = Item(tx: Tx, executed: bool, effects: Effects, now: nat)

  datatype Context = Context(chainId: Bytes, authorized: Tx -> bool)

  // ---------------------------------------------------------------------------
  // One transaction
  // ---------------------------------------------------------------------------

  predicate Fresh(tx: Tx, now: nat) {
    -Ledger.REPLAY_WINDOW <= now - tx.timestamp <= Ledger.REPLAY_WINDOW
  }

  predicate Admits(c: Context, s: Ledger.State, i: Item) {
    && i.executed && i.tx.chainId == c.chainId && c.authorized(i.tx)
    && Ledger.View(s, i.tx.sender).nonce == i.tx.nonce
    && Fresh(i.tx, i.now) && Ledger.Accepts(s, i.tx.sender, i.tx.receiver, i.tx.amount, i.tx.nonce)
  }

  /** The sum, or the nearest number that fits in 128 bits. */
  function Shifted(balance: nat, delta: int): (shifted: nat)
    ensures 0 <= balance + delta < U128 ==> shifted == balance + delta
    ensures balance + delta < 0 ==> shifted == 0
    ensures balance < U128 <= balance + delta ==> shifted == U128 - 1
  {
    if delta >= 0 then if balance + delta < U128 then balance + delta else U128 - 1
    else SatSub(balance, -delta)
  }

  function BalanceEffects(s: Ledger.State, tx: Tx, deltas: seq<(Bytes, int)>): Ledger.State {
    if deltas == [] then s
    else
      var t := BalanceEffects(s, tx, deltas[..|deltas| - 1]);
      var (account, delta) := deltas[|deltas| - 1];
      var a := Hex(account);
      if a == tx.sender || a == tx.receiver then t
      else Ledger.WithBalance(t, a, Shifted(Ledger.View(t, a).balance, delta))
  }

  function NonceEffects(s: Ledger.State, tx: Tx, targets: seq<(Bytes, nat)>): Ledger.State {
    if targets == [] then s
    else
      var t := NonceEffects(s, tx, targets[..|targets| - 1]);
      var (account, target) := targets[|targets| - 1];
      var a := Hex(account);
      if a == tx.sender || Ledger.View(t, a).nonce >= target then t
      else Ledger.WithNonce(t, a, target)
  }

  function Executed(s: Ledger.State, i: Item): Ledger.State
    requires Ledger.View(s, i.tx.sender).balance >= i.tx.amount
  {
    var moved := Ledger.Moved(s, i.tx.sender, i.tx.receiver, i.tx.amount);
    NonceEffects(BalanceEffects(moved, i.tx, i.effects.balances), i.tx, i.effects.nonces)
  }

  // ---------------------------------------------------------------------------
  // All pending transactions
  // ---------------------------------------------------------------------------

  function Phase(c: Context, s: Ledger.State, items: seq<Item>): Ledger.State {
    if items == [] then s
    else
      var k := |items| - 1;
      var t := Phase(c, s, items[..k]);
      if Admits(c, t, items[k]) then Executed(t, items[k]) else t
  }

  /** Whether item `k` is admitted at its turn. */
  predicate AdmittedAt(c: Context, s: Ledger.State, items: seq<Item>, k: nat)
    requires k < |items|
  {
    Admits(c, Phase(c, s, items[..k]), items[k])
  }

  /** The transactions of the block, in order. */
  function Included(c: Context, s: Ledger.State, items: seq<Item>): seq<Tx> {
    if items == [] then []
    else
      var k := |items| - 1;
      Included(c, s, items[..k]) + if AdmittedAt(c, s, items, k) then [items[k].tx] else []
  }

  /** The ids of the transactions that were turned down. */
  function Failed(c: Context, s: Ledger.State, items: seq<Item>): set<Bytes> {
    if items == [] then {}
    else
      var k := |items| - 1;
      Failed(c, s, items[..k]) + if AdmittedAt(c, s, items, k) then {} else {TxId(items[k].tx)}
  }

  method ApplyBalanceEffects(ledger: Ledger.StateManager, tx: Tx, deltas: seq<(Bytes, int)>)
    modifies ledger`cache
    ensures ledger.Abs() == BalanceEffects(old(ledger.Abs()), tx, deltas)
  {
    ghost var before := ledger.Abs();
    for k := 0 to |deltas|
      invariant ledger.Abs() == BalanceEffects(before, tx, deltas[..k])
    {
      assert deltas[..k + 1][..k] == deltas[..k];
      var a := Hex(deltas[k].0);
      if a == tx.sender || a == tx.receiver {
        continue;
      }
      var current := ledger.GetAccount(a).balance;
      ledger.SetBalance(a, Shifted(current, deltas[k].1));
    }
    assert deltas[..|deltas|] == deltas;
  }

  /** Nonces climb one step at a time to the reported value. */
  method ApplyNonceEffects(ledger: Ledger.StateManager, tx: Tx, targets: seq<(Bytes, nat)>)
    requires forall t | t in targets :: t.1 < U64
    modifies ledger`cache
    ensures ledger.Abs() == NonceEffects(old(ledger.Abs()), tx, targets)
  {
    ghost var before := ledger.Abs();
    for k := 0 to |targets|
      invariant ledger.Abs() == NonceEffects(before, tx, targets[..k])
    {
      assert targets[..k + 1][..k] == targets[..k];
      assert targets[k] in targets;
      var a := Hex(targets[k].0);
      if a == tx.sender {
        continue;
      }
      ghost var at := ledger.Abs();
      var current := ledger.GetAccount(a).nonce;
      ghost var start := current;
      while current < targets[k].1
        invariant start <= current && (current <= targets[k].1 || current == start)
        invariant ledger.Abs() == if current == start then at else Ledger.WithNonce(at, a, current)
      {
        current := ledger.IncrementNonce(a);
      }
    }
    assert targets[..|targets|] == targets;
  }

  /** Nonces in a report are 64-bit numbers. */
  predicate Reported(i: Item) {
    forall t | t in i.effects.nonces :: t.1 < U64
  }

  method PhaseB(c: Context, ledger: Ledger.StateManager, items: seq<Item>) returns (txs: seq<Tx>, failed: set<Bytes>)
    requires forall i | i in items :: Reported(i)
    modifies ledger`cache
    ensures ledger.Abs() == Phase(c, old(ledger.Abs()), items)
    ensures txs == Included(c, old(ledger.Abs()), items)
    ensures failed == Failed(c, old(ledger.Abs()), items)
  {
    hide BalanceEffects, NonceEffects;
    ghost var before := ledger.Abs();
    txs, failed := [], {};
    for k := 0 to |items|
      invariant ledger.Abs() == Phase(c, before, items[..k])
      invariant txs == Included(c, before, items[..k])
      invariant failed == Failed(c, before, items[..k])
    {
      assert items[..k + 1][..k] == items[..k];
      assert items[k] in items;
      var i := items[k];
      if !i.executed || i.tx.chainId != c.chainId || !c.authorized(i.tx)
         || ledger.GetAccount(i.tx.sender).nonce != i.tx.nonce {
        failed := failed + {TxId(i.tx)};
        continue;
      }
      var ok := ledger.ApplyTransfer(i.tx.sender, i.tx.receiver, i.tx.amount, i.tx.nonce, i.tx.timestamp, i.now);
      if !ok {
        failed := failed + {TxId(i.tx)};
        continue;
      }
      ApplyBalanceEffects(ledger, i.tx, i.effects.balances);
      ApplyNonceEffects(ledger, i.tx, i.effects.nonces);
      txs := txs + [i.tx];
    }
    assert items[..|items|] == items;
  }

  // ---------------------------------------------------------------------------
  // What phase B leaves alone
  // ---------------------------------------------------------------------------

  /** The balance of `a` after the deltas that name it. */
  function Drifted(balance: nat, deltas: seq<(Bytes, int)>, a: Addr): nat {
    if deltas == [] then balance
    else
      var b := Drifted(balance, deltas[..|deltas| - 1], a);
      if Hex(deltas[|deltas| - 1].0) == a then Shifted(b, deltas[|deltas| - 1].1) else b
  }

  /** The nonce of `a` after the targets that name it. */
  function Raised(nonce: nat, targets: seq<(Bytes, nat)>, a: Addr): nat {
    if targets == [] then nonce
    else
      var n := Raised(nonce, targets[..|targets| - 1], a);
      if Hex(targets[|targets| - 1].0) == a && targets[|targets| - 1].1 > n then targets[|targets| - 1].1 else n
  }

  /** The largest of the nonce and its targets. */
  lemma {:induction false} RaisedIff(nonce: nat, targets: seq<(Bytes, nat)>, a: Addr)
    ensures Raised(nonce, targets, a) >= nonce
    ensures Raised(nonce, targets, a) == nonce <==> forall t | t in targets && Hex(t.0) == a :: t.1 <= nonce
    ensures forall t | t in targets && Hex(t.0) == a :: t.1 <= Raised(nonce, targets, a)
    ensures Raised(nonce, targets, a) == nonce
            || exists t :: t in targets && Hex(t.0) == a && t.1 == Raised(nonce, targets, a)
  {
    hide Hex;
    if targets != [] {
      var k := |targets| - 1;
      RaisedIff(nonce, targets[..k], a);
      assert targets == targets[..k] + [targets[k]];
    }
  }

  lemma {:induction false} DriftedOutside(balance: nat, deltas: seq<(Bytes, int)>, a: Addr)
    requires forall d | d in deltas :: Hex(d.0) != a
    ensures Drifted(balance, deltas, a) == balance
  {
    hide Hex;
    if deltas != [] {
      assert deltas[|deltas| - 1] in deltas;
      DriftedOutside(balance, deltas[..|deltas| - 1], a);
    }
  }

  lemma {:induction false} BalanceEffectsView(s: Ledger.State, tx: Tx, deltas: seq<(Bytes, int)>)
    ensures var t := BalanceEffects(s, tx, deltas);
            && t.db == s.db && t.height == s.height && (Ledger.Clean(s) ==> Ledger.Clean(t))
            && forall a :: Ledger.View(t, a)
                           == if a == tx.sender || a == tx.receiver then Ledger.View(s, a)
                              else var v := Ledger.View(s, a); v.(balance := Drifted(v.balance, deltas, a))
  {
    hide Hex;
    if deltas != [] {
      BalanceEffectsView(s, tx, deltas[..|deltas| - 1]);
    }
  }

  lemma {:induction false} NonceEffectsView(s: Ledger.State, tx: Tx, targets: seq<(Bytes, nat)>)
    ensures var t := NonceEffects(s, tx, targets);
            && t.db == s.db && t.height == s.height && (Ledger.Clean(s) ==> Ledger.Clean(t))
            && forall a :: Ledger.View(t, a)
                           == if a == tx.sender then Ledger.View(s, a)
                              else var v := Ledger.View(s, a); v.(nonce := Raised(v.nonce, targets, a))
  {
    hide Hex;
    if targets != [] {
      NonceEffectsView(s, tx, targets[..|targets| - 1]);
    }
  }

  /** An account as an admitted transaction leaves it, side effects included. */
  function ExecutedAccount(s: Ledger.State, i: Item, a: Addr): Ledger.Account
    requires Ledger.View(s, i.tx.sender).balance >= i.tx.amount
  {
    var v := Ledger.AfterTransfer(s, i.tx.sender, i.tx.receiver, i.tx.amount, a);
    if a == i.tx.sender then v
    else if a == i.tx.receiver then v.(nonce := Raised(v.nonce, i.effects.nonces, a))
    else v.(balance := Drifted(v.balance, i.effects.balances, a), nonce := Raised(v.nonce, i.effects.nonces, a))
  }

  lemma ExecutedView(s: Ledger.State, i: Item)
    requires Ledger.View(s, i.tx.sender).balance >= i.tx.amount
    ensures var t := Executed(s, i);
            && t.db == s.db && t.height == s.height && (Ledger.Clean(s) ==> Ledger.Clean(t))
            && forall a :: Ledger.View(t, a) == ExecutedAccount(s, i, a)
  {
    var moved := Ledger.Moved(s, i.tx.sender, i.tx.receiver, i.tx.amount);
    Ledger.MovedView(s, i.tx.sender, i.tx.receiver, i.tx.amount);
    if Ledger.Clean(s) { Ledger.MovedClean(s, i.tx.sender, i.tx.receiver, i.tx.amount); }
    BalanceEffectsView(moved, i.tx, i.effects.balances);
    var shifted := BalanceEffects(moved, i.tx, i.effects.balances);
    NonceEffectsView(shifted, i.tx, i.effects.nonces);
    hide Ledger.Moved, Ledger.View, BalanceEffects, NonceEffects, Drifted, Raised, Ledger.Clean;
    forall a
      ensures Ledger.View(Executed(s, i), a) == ExecutedAccount(s, i, a)
    {
      assert Ledger.View(moved, a) == Ledger.AfterTransfer(s, i.tx.sender, i.tx.receiver, i.tx.amount, a);
      assert Ledger.View(shifted, a) == if a == i.tx.sender || a == i.tx.receiver then Ledger.View(moved, a)
                                        else var v := Ledger.View(moved, a);
                                             v.(balance := Drifted(v.balance, i.effects.balances, a));
    }
  }

  /** The names under which the virtual machine knows accounts: lower-case hexadecimal. */
  predicate VmName(a: Addr) {
    forall k | 0 <= k < |a| :: IsHexDigit(a[k])
  }

  /** One admitted transaction: the sender's nonce moves by exactly one, no nonce goes down, and no
      other nonce moves unless it belongs to a virtual machine account. */
  lemma ExecutedNonces(s: Ledger.State, i: Item)
    requires Ledger.View(s, i.tx.sender).balance >= i.tx.amount
    ensures var t := Executed(s, i);
            && t.db == s.db && t.height == s.height && (Ledger.Clean(s) ==> Ledger.Clean(t))
            && Ledger.View(t, i.tx.sender).nonce == Ledger.View(s, i.tx.sender).nonce + 1
            && (forall a :: Ledger.View(t, a).nonce >= Ledger.View(s, a).nonce)
            && (forall a | !VmName(a) && a != i.tx.sender :: Ledger.View(t, a).nonce == Ledger.View(s, a).nonce)
            && (forall a :: Ledger.View(t, a).code == Ledger.View(s, a).code)
  {
    ExecutedView(s, i);
    hide Executed, Ledger.Clean, Ledger.View, Raised, Drifted;
    forall a | a != i.tx.sender
      ensures Ledger.View(Executed(s, i), a).nonce >= Ledger.View(s, a).nonce
      ensures !VmName(a) ==> Ledger.View(Executed(s, i), a).nonce == Ledger.View(s, a).nonce
    {
      RaisedIff(Ledger.View(s, a).nonce, i.effects.nonces, a);
      assert Ledger.View(Executed(s, i), a) == ExecutedAccount(s, i, a);
      forall t | t in i.effects.nonces && Hex(t.0) == a
        ensures VmName(a)
      {
      }
    }
    assert Ledger.View(Executed(s, i), i.tx.sender) == ExecutedAccount(s, i, i.tx.sender);
  }

  lemma {:induction false} PhaseKeeps(c: Context, s: Ledger.State, items: seq<Item>)
    ensures var t := Phase(c, s, items);
            && t.db == s.db && t.height == s.height && (Ledger.Clean(s) ==> Ledger.Clean(t))
            && (forall a :: Ledger.View(t, a).nonce >= Ledger.View(s, a).nonce
                            && Ledger.View(t, a).code == Ledger.View(s, a).code)
            && (Included(c, s, items) == [] ==> t == s)
  {
    hide Executed, Ledger.View, Ledger.Clean, VmName;
    if items != [] {
      var k := |items| - 1;
      PhaseKeeps(c, s, items[..k]);
      var t := Phase(c, s, items[..k]);
      if Admits(c, t, items[k]) { ExecutedNonces(t, items[k]); }
    }
  }

  // ---------------------------------------------------------------------------
  // Every pending transaction is placed
  // ---------------------------------------------------------------------------

  /** Each pending transaction ends in the block or among the failed. */
  lemma {:induction false} EveryTxPlaced(c: Context, s: Ledger.State, items: seq<Item>, k: nat)
    requires k < |items|
    ensures items[k].tx in Included(c, s, items) || TxId(items[k].tx) in Failed(c, s, items)
  {
    hide TxId, AdmittedAt;
    var n := |items| - 1;
    if k < n {
      EveryTxPlaced(c, s, items[..n], k);
    }
  }

  lemma {:induction false} IncludedWasPending(c: Context, s: Ledger.State, items: seq<Item>, tx: Tx)
    requires tx in Included(c, s, items)
    ensures exists k: nat :: k < |items| && items[k].tx == tx && AdmittedAt(c, s, items, k)
  {
    hide AdmittedAt;
    var n := |items| - 1;
    if tx in Included(c, s, items[..n]) {
      IncludedWasPending(c, s, items[..n], tx);
      var k: nat :| k < n && items[..n][k].tx == tx && AdmittedAt(c, s, items[..n], k);
      SameTurn(c, s, items, n, k);
      assert items[k].tx == tx;
    } else {
      assert AdmittedAt(c, s, items, n);
    }
  }

  lemma SameTurn(c: Context, s: Ledger.State, items: seq<Item>, n: nat, k: nat)
    requires k < n <= |items|
    ensures AdmittedAt(c, s, items[..n], k) <==> AdmittedAt(c, s, items, k)
  {
    assert items[..n][..k] == items[..k];
  }

  // ---------------------------------------------------------------------------
  // Which transactions a slot takes
  // ---------------------------------------------------------------------------

  /** The virtual machine accepted it, and chain, authorization and timestamp are in order. */
  predicate Presentable(c: Context, i: Item) {
    && i.executed && i.tx.chainId == c.chainId && c.authorized(i.tx)
    && i.tx.timestamp <= i.now + 30 && i.now <= i.tx.timestamp + 30
  }

  /** The sender's next nonce, a positive amount that the sender has, and room for it at the receiver. */
  predicate Payable(s: Ledger.State, tx: Tx) {
    var from, to := Ledger.View(s, tx.sender), Ledger.View(s, tx.receiver);
    tx.nonce == from.nonce && tx.nonce + 1 < U64 && 0 < tx.amount <= from.balance && to.balance + tx.amount < U128
  }

  lemma AdmitsMeans(c: Context, s: Ledger.State, i: Item)
    ensures Admits(c, s, i) <==> Presentable(c, i) && Payable(s, i.tx)
  {
  }

  /** One turn: an item that is presentable and payable leaves every account as its transfer and side
      effects say, and any other item changes nothing. */
  ghost predicate Turn(c: Context, i: Item, s: Ledger.State, t: Ledger.State) {
    if Presentable(c, i) && Payable(s, i.tx) then forall a :: Ledger.View(t, a) == ExecutedAccount(s, i, a)
    else t == s
  }

  /** The ledgers a slot goes through. */
  ghost predicate Turns(c: Context, items: seq<Item>, ts: seq<Ledger.State>) {
    |ts| == |items| + 1 && forall k | 0 <= k < |items| :: Turn(c, items[k], ts[k], ts[k + 1])
  }

  /** The transactions taken and the ids turned down, read off those ledgers. */
  ghost function Taken(c: Context, items: seq<Item>, ts: seq<Ledger.State>): seq<Tx>
    requires |ts| == |items| + 1
  {
    if items == [] then []
    else
      var k := |items| - 1;
      Taken(c, items[..k], ts[..k + 1])
      + if Presentable(c, items[k]) && Payable(ts[k], items[k].tx) then [items[k].tx] else []
  }

  ghost function TurnedDown(c: Context, items: seq<Item>, ts: seq<Ledger.State>): set<Bytes>
    requires |ts| == |items| + 1
  {
    set k | 0 <= k < |items| && !(Presentable(c, items[k]) && Payable(ts[k], items[k].tx)) :: TxId(items[k].tx)
  }

  lemma TurnedDownSnoc(c: Context, items: seq<Item>, ts: seq<Ledger.State>)
    requires |ts| == |items| + 1 && items != []
    ensures var k := |items| - 1;
            TurnedDown(c, items, ts)
            == TurnedDown(c, items[..k], ts[..k + 1])
               + if Presentable(c, items[k]) && Payable(ts[k], items[k].tx) then {} else {TxId(items[k].tx)}
  {
    hide TxId, Presentable, Payable;
    var k := |items| - 1;
    forall id | id in TurnedDown(c, items[..k], ts[..k + 1])
      ensures id in TurnedDown(c, items, ts)
    {
      var j :| 0 <= j < k && !(Presentable(c, items[..k][j]) && Payable(ts[..k + 1][j], items[..k][j].tx))
               && TxId(items[..k][j].tx) == id;
      assert items[j] == items[..k][j] && ts[j] == ts[..k + 1][j];
    }
    forall id | id in TurnedDown(c, items, ts)
      ensures id in TurnedDown(c, items[..k], ts[..k + 1])
              || (!(Presentable(c, items[k]) && Payable(ts[k], items[k].tx)) && id == TxId(items[k].tx))
    {
      var j :| 0 <= j < |items| && !(Presentable(c, items[j]) && Payable(ts[j], items[j].tx))
               && TxId(items[j].tx) == id;
      if j < k { assert items[j] == items[..k][j] && ts[j] == ts[..k + 1][j]; }
    }
  }

  /** What a slot does, without reference to how it does it. */
  lemma {:induction false} PhaseInTurns(c: Context, s: Ledger.State, items: seq<Item>) returns (ts: seq<Ledger.State>)
    ensures Turns(c, items, ts) && ts[0] == s && ts[|items|] == Phase(c, s, items)
    ensures Included(c, s, items) == Taken(c, items, ts) && Failed(c, s, items) == TurnedDown(c, items, ts)
  {
    if items == [] {
      ts := [s];
    } else {
      var k := |items| - 1;
      var front := PhaseInTurns(c, s, items[..k]);
      var t, i := front[k], items[k];
      ts := front + [Phase(c, s, items)];
      assert ts[..k + 1] == front;
      AdmitsMeans(c, t, i);
      if Admits(c, t, i) { ExecutedView(t, i); }
      TurnedDownSnoc(c, items, ts);
      assert Turn(c, i, t, Phase(c, s, items));
      hide Turn;
      TurnsSnoc(c, items, ts);
    }
  }

  lemma TurnsSnoc(c: Context, items: seq<Item>, ts: seq<Ledger.State>)
    requires |ts| == |items| + 1 && items != [] && Turns(c, items[..|items| - 1], ts[..|items|])
    requires Turn(c, items[|items| - 1], ts[|items| - 1], ts[|items|])
    ensures Turns(c, items, ts)
  {
    hide Turn;
    var n := |items| - 1;
    forall k | 0 <= k < n
      ensures Turn(c, items[k], ts[k], ts[k + 1])
    {
      assert items[..n][k] == items[k] && ts[..n + 1][k] == ts[k] && ts[..n + 1][k + 1] == ts[k + 1];
    }
  }

  /** A transaction in the block was executed, for this chain, authorized and recent. */
  lemma IncludedIsPresentable(c: Context, s: Ledger.State, items: seq<Item>, tx: Tx)
    requires tx in Included(c, s, items)
    ensures exists k: nat :: k < |items| && items[k].tx == tx && Presentable(c, items[k])
  {
    IncludedWasPending(c, s, items, tx);
    var k: nat :| k < |items| && items[k].tx == tx && AdmittedAt(c, s, items, k);
    AdmitsMeans(c, Phase(c, s, items[..k]), items[k]);
  }

  /** An item that is presentable, and payable when its turn comes, is included. */
  lemma {:induction false} FitIsIncluded(c: Context, s: Ledger.State, items: seq<Item>, k: nat)
    requires k < |items| && Presentable(c, items[k]) && Payable(Phase(c, s, items[..k]), items[k].tx)
    ensures items[k].tx in Included(c, s, items)
  {
    hide Executed;
    AdmitsMeans(c, Phase(c, s, items[..k]), items[k]);
    var n := |items| - 1;
    if k < n {
      assert items[..n][..k] == items[..k];
      FitIsIncluded(c, s, items[..n], k);
    }
  }

  /** An item that is not presentable is reported as failed and leaves the ledger as it was. */
  lemma {:induction false} UnfitFails(c: Context, s: Ledger.State, items: seq<Item>, k: nat)
    requires k < |items| && !Presentable(c, items[k])
    ensures TxId(items[k].tx) in Failed(c, s, items)
    ensures Phase(c, s, items[..k + 1]) == Phase(c, s, items[..k])
  {
    hide TxId, Executed;
    assert items[..k + 1][..k] == items[..k];
    AdmitsMeans(c, Phase(c, s, items[..k]), items[k]);
    var n := |items| - 1;
    if k < n {
      UnfitFails(c, s, items[..n], k);
    }
  }

  // ---------------------------------------------------------------------------
  // Nonces
  // ---------------------------------------------------------------------------

  /** The nonces of one sender, in order. */
  function NoncesOf(txs: seq<Tx>, a: Addr): seq<nat> {
    if txs == [] then []
    else NoncesOf(txs[..|txs| - 1], a) + if txs[|txs| - 1].sender == a then [txs[|txs| - 1].nonce] else []
  }

  lemma NoncesSnoc(txs: seq<Tx>, tx: Tx, a: Addr)
    ensures NoncesOf(txs + [tx], a) == NoncesOf(txs, a) + if tx.sender == a then [tx.nonce] else []
  {
  }

  /** Authorized senders have account addresses, which start with a capital letter. */
  ghost predicate Addressed(c: Context) {
    forall tx | c.authorized(tx) :: |tx.sender| > 0 && tx.sender[0] == 66
  }

  lemma AddressIsNoVmName(a: Addr)
    requires |a| > 0 && a[0] == 66
    ensures !VmName(a)
  {
  }

  /** The numbers from `first` on. */
  predicate Counts(ns: seq<nat>, first: nat) {
    forall k | 0 <= k < |ns| :: ns[k] == first + k
  }

  /** In a block, each sender's nonces are consecutive from its nonce in the parent state, and the
      ledger ends just past the last one. */
  lemma {:induction false} NoncesConsecutive(c: Context, s: Ledger.State, items: seq<Item>, a: Addr)
    requires Addressed(c)
    ensures var ns := NoncesOf(Included(c, s, items), a);
            && Counts(ns, Ledger.View(s, a).nonce)
            && (!VmName(a) ==> Ledger.View(Phase(c, s, items), a).nonce == Ledger.View(s, a).nonce + |ns|)
            && (VmName(a) ==> ns == [])
  {
    hide Executed, Ledger.View, VmName, NoncesOf;
    if items == [] {
      NoNonces(a);
    } else {
      var k := |items| - 1;
      NoncesConsecutive(c, s, items[..k], a);
      var t := Phase(c, s, items[..k]);
      if Admits(c, t, items[k]) {
        ExecutedNonces(t, items[k]);
        AddressIsNoVmName(items[k].tx.sender);
        NoncesSnoc(Included(c, s, items[..k]), items[k].tx, a);
      } else {
        assert Included(c, s, items) == Included(c, s, items[..k]);
      }
    }
  }

  lemma NoNonces(a: Addr)
    ensures NoncesOf([], a) == []
  {
  }

  /** No sender uses a nonce twice. */
  ghost predicate PairsDistinct(txs: seq<Tx>) {
    forall i, j | 0 <= i < j < |txs| :: !(txs[i].sender == txs[j].sender && txs[i].nonce == txs[j].nonce)
  }

  /** Every nonce in the list has been used up in the ledger. */
  ghost predicate Used(txs: seq<Tx>, s: Ledger.State) {
    forall i | 0 <= i < |txs| :: txs[i].nonce < Ledger.View(s, txs[i].sender).nonce
  }

  lemma UsedMore(before: seq<Tx>, s: Ledger.State, t: Ledger.State, tx: Tx)
    requires PairsDistinct(before) && Used(before, s) && tx.nonce == Ledger.View(s, tx.sender).nonce
    requires tx.nonce < Ledger.View(t, tx.sender).nonce
    requires forall a :: Ledger.View(t, a).nonce >= Ledger.View(s, a).nonce
    ensures PairsDistinct(before + [tx]) && Used(before + [tx], t)
  {
  }

  /** Whatever was committed before, a block adds no pair of sender and nonce a second time. */
  lemma {:induction false} PhaseUses(c: Context, before: seq<Tx>, s: Ledger.State, items: seq<Item>)
    requires PairsDistinct(before) && Used(before, s)
    ensures PairsDistinct(before + Included(c, s, items))
    ensures Used(before + Included(c, s, items), Phase(c, s, items))
  {
    hide Executed, PairsDistinct, Used;
    if items == [] {
      assert before + [] == before;
    } else {
      var k := |items| - 1;
      PhaseUses(c, before, s, items[..k]);
      var t, done := Phase(c, s, items[..k]), Included(c, s, items[..k]);
      if Admits(c, t, items[k]) {
        ExecutedNonces(t, items[k]);
        UsedMore(before + done, t, Executed(t, items[k]), items[k].tx);
        assert before + done + [items[k].tx] == before + (done + [items[k].tx]);
      } else {
        assert Included(c, s, items) == done;
      }
    }
  }
}
