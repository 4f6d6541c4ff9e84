/** The in-memory chain and its balance table (crates/bleep-core/src/blockchain.rs): applying and
    reverting blocks, adding, rolling back and switching to a longer fork. Block validation is a
    verdict and the block hash a function, both given from outside; balances wrap at 64 bits. */
module Chain {
  import opened Arithmetic
  import opened Blocks
  import opened Encoding
  import opened Totals

  datatype State = State(blocks: seq<Block>, balances: map<Addr, nat>)

  // ---------------------------------------------------------------------------
  // Transactions on the balance table
  // ---------------------------------------------------------------------------

  function Credited(m: map<Addr, nat>, a: Addr, amount: nat): map<Addr, nat> {
    m[a := (Get(m, a) + amount) % U64]
  }

  predicate Applies(m: map<Addr, nat>, t: Tx) {
    t.sender != t.receiver && t.amount != 0 && Get(m, t.sender) >= t.amount
  }

  function AppliedTx(m: map<Addr, nat>, t: Tx): map<Addr, nat>
    requires Applies(m, t)
  {
    Credited(m[t.sender := Get(m, t.sender) - t.amount], t.receiver, t.amount)
  }

  function RevertedTx(m: map<Addr, nat>, t: Tx): map<Addr, nat> {
    var n := Credited(m, t.sender, t.amount);
    if t.receiver in n then n[t.receiver := SatSub(n[t.receiver], t.amount)] else n
  }

  /** All transactions in order, or nothing. */
  function Applied(m: map<Addr, nat>, txs: seq<Tx>): Option<map<Addr, nat>> {
    if txs == [] then Some(m)
    else
      var k := |txs| - 1;
      match Applied(m, txs[..k])
      case None => None
      case Some(n) => if Applies(n, txs[k]) then Some(AppliedTx(n, txs[k])) else None
  }

  /** Undone from the last transaction to the first. */
  function Reverted(m: map<Addr, nat>, txs: seq<Tx>): map<Addr, nat>
    decreases |txs|
  {
    if txs == [] then m else Reverted(RevertedTx(m, txs[|txs| - 1]), txs[..|txs| - 1])
  }

  /** While the total fits in 64 bits nothing wraps, and the total is kept. */
  lemma TxKeepsTotal(m: map<Addr, nat>, t: Tx)
    requires Total(m) < U64 && Applies(m, t)
    ensures Get(m, t.receiver) + t.amount < U64
    ensures Total(AppliedTx(m, t)) == Total(m)
  {
    hide Total;
    PartOfTotal(m, t.sender, t.receiver);
    var n := m[t.sender := Get(m, t.sender) - t.amount];
    TotalUpdate(m, t.sender, Get(m, t.sender) - t.amount);
    Fits(Get(n, t.receiver) + t.amount);
    TotalUpdate(n, t.receiver, Get(n, t.receiver) + t.amount);
  }

  lemma Fits(x: nat)
    requires x < U64
    ensures x % U64 == x
  {
  }

  lemma {:induction false} BlockKeepsTotal(m: map<Addr, nat>, txs: seq<Tx>)
    requires Total(m) < U64 && Applied(m, txs).Some?
    ensures Total(Applied(m, txs).value) == Total(m)
  {
    hide AppliedTx, Applies;
    if txs != [] {
      BlockKeepsTotal(m, txs[..|txs| - 1]);
      TxKeepsTotal(Applied(m, txs[..|txs| - 1]).value, txs[|txs| - 1]);
    }
  }

  /** The balance of `a` after the transaction. */
  function AppliedAt(m: map<Addr, nat>, t: Tx, a: Addr): nat
    requires Applies(m, t)
  {
    if a == t.receiver then (Get(m, a) + t.amount) % U64
    else if a == t.sender then Get(m, a) - t.amount
    else Get(m, a)
  }

  lemma AppliedGet(m: map<Addr, nat>, t: Tx)
    requires Applies(m, t)
    ensures forall a :: Get(AppliedTx(m, t), a) == AppliedAt(m, t, a)
  {
  }

  /** The balance of `a` after undoing the transaction. */
  function RevertedAt(m: map<Addr, nat>, t: Tx, a: Addr): nat {
    var credited := if a == t.sender then (Get(m, a) + t.amount) % U64 else Get(m, a);
    if a == t.receiver then SatSub(credited, t.amount) else credited
  }

  lemma RevertedGet(m: map<Addr, nat>, t: Tx)
    ensures forall a :: Get(RevertedTx(m, t), a) == RevertedAt(m, t, a)
  {
  }

  lemma SameTx(m: map<Addr, nat>, n: map<Addr, nat>, t: Tx)
    requires Same(m, n)
    ensures Applies(m, t) <==> Applies(n, t)
    ensures Applies(m, t) ==> Same(AppliedTx(m, t), AppliedTx(n, t))
  {
    assert Get(m, t.sender) == Get(n, t.sender);
    if Applies(m, t) {
      AppliedGet(m, t);
      AppliedGet(n, t);
      hide Get, AppliedTx;
    }
  }

  /** Applying depends on the balances only, not on which zero entries the table holds. */
  lemma {:induction false} SameApplied(m: map<Addr, nat>, n: map<Addr, nat>, txs: seq<Tx>)
    requires Same(m, n)
    ensures Applied(m, txs).Some? <==> Applied(n, txs).Some?
    ensures Applied(m, txs).Some? ==> Same(Applied(m, txs).value, Applied(n, txs).value)
  {
    hide AppliedTx, Applies, Same;
    if txs != [] {
      var k := |txs| - 1;
      SameApplied(m, n, txs[..k]);
      if Applied(m, txs[..k]).Some? {
        SameTx(Applied(m, txs[..k]).value, Applied(n, txs[..k]).value, txs[k]);
      }
    }
  }

  // ---------------------------------------------------------------------------
  // Reverting
  // ---------------------------------------------------------------------------

  /** Reverting one transaction restores every balance exactly when crediting the receiver did not
      wrap around. */
  lemma RevertOneIff(m: map<Addr, nat>, t: Tx)
    requires Applies(m, t) && forall a :: Get(m, a) < U64
    ensures Same(RevertedTx(AppliedTx(m, t), t), m) <==> Get(m, t.receiver) + t.amount < U64
  {
    var n := AppliedTx(m, t);
    AppliedGet(m, t);
    RevertedGet(n, t);
    hide Get, AppliedTx, RevertedTx;
    assert Get(m, t.sender) < U64 && Get(m, t.receiver) < U64;
    Wraps(Get(m, t.receiver), t.amount);
    if Get(m, t.receiver) + t.amount < U64 {
      forall a
        ensures RevertedAt(n, t, a) == Get(m, a)
      {
        assert Get(n, a) == AppliedAt(m, t, a);
      }
    } else {
      assert Get(n, t.receiver) == AppliedAt(m, t, t.receiver);
      assert RevertedAt(n, t, t.receiver) == 0;
    }
  }

  lemma Wraps(b: nat, x: nat)
    requires b < U64 && x < U64
    ensures b + x < U64 ==> (b + x) % U64 == b + x
    ensures b + x >= U64 ==> (b + x) % U64 == b + x - U64 < x && b > 0
  {
  }

  lemma RevertTxUndoes(m: map<Addr, nat>, n: map<Addr, nat>, t: Tx)
    requires Applies(m, t) && Total(m) < U64 && Same(n, AppliedTx(m, t))
    ensures Same(RevertedTx(n, t), m)
  {
    hide Total, Get, AppliedTx, RevertedTx;
    TxKeepsTotal(m, t);
    PartOfTotal(m, t.sender, t.receiver);
    AppliedGet(m, t);
    RevertedGet(n, t);
    Fits(Get(m, t.receiver) + t.amount);
    Fits(Get(m, t.sender));
    forall a
      ensures RevertedAt(n, t, a) == Get(m, a)
    {
      assert Get(n, a) == AppliedAt(m, t, a);
    }
  }

  /** Reverting a block just applied restores every balance, while the total fits in 64 bits. */
  lemma {:induction false} RevertUndoes(m: map<Addr, nat>, n: map<Addr, nat>, txs: seq<Tx>)
    requires Total(m) < U64 && Applied(m, txs).Some? && Same(n, Applied(m, txs).value)
    ensures Same(Reverted(n, txs), m)
    decreases |txs|
  {
    hide AppliedTx, Applies, RevertedTx, Same;
    if txs != [] {
      var k := |txs| - 1;
      BlockKeepsTotal(m, txs[..k]);
      RevertTxUndoes(Applied(m, txs[..k]).value, n, txs[k]);
      RevertUndoes(m, RevertedTx(n, txs[k]), txs[..k]);
    }
  }

  lemma {:induction false} AppliedConcat(m: map<Addr, nat>, a: seq<Tx>, b: seq<Tx>)
    ensures Applied(m, a).None? ==> Applied(m, a + b).None?
    ensures Applied(m, a).Some? ==> Applied(m, a + b) == Applied(Applied(m, a).value, b)
  {
    hide AppliedTx, Applies;
    if b == [] {
      assert a + b == a;
    } else {
      var k := |b| - 1;
      AppliedConcat(m, a, b[..k]);
      assert (a + b)[..|a + b| - 1] == a + b[..k];
    }
  }

  lemma {:induction false} RevertedConcat(m: map<Addr, nat>, a: seq<Tx>, b: seq<Tx>)
    ensures Reverted(m, a + b) == Reverted(Reverted(m, b), a)
    decreases |b|
  {
    hide RevertedTx;
    if b == [] {
      assert a + b == a;
    } else {
      var k := |b| - 1;
      RevertedConcat(RevertedTx(m, b[k]), a, b[..k]);
      assert (a + b)[..|a + b| - 1] == a + b[..k];
    }
  }

  /** `BlockchainState`: the table that the chain owns. */
  class BlockchainState {
    var balances: map<Addr, nat>

    constructor (m: map<Addr, nat>)
      ensures balances == m
    {
      balances := m;
    }

    method Credit(a: Addr, amount: nat)
      modifies this
      ensures balances == Credited(old(balances), a, amount)
    {
      if a !in balances {
        balances := balances[a := 0];
      }
      balances := balances[a := (balances[a] + amount) % U64];
    }

    method Debit(a: Addr, amount: nat) returns (ok: bool)
      modifies this
      ensures ok <==> Get(old(balances), a) >= amount
      ensures balances == old(balances)[a := if ok then Get(old(balances), a) - amount else Get(old(balances), a)]
    {
      if a !in balances {
        balances := balances[a := 0];
      }
      if balances[a] < amount {
        return false;
      }
      balances := balances[a := balances[a] - amount];
      ok := true;
    }

    method ApplyTransaction(t: Tx) returns (ok: bool)
      modifies this
      ensures ok <==> Applies(old(balances), t)
      ensures ok ==> balances == AppliedTx(old(balances), t)
    {
      if t.sender == t.receiver {
        return false;
      }
      if t.amount == 0 {
        return false;
      }
      ok := Debit(t.sender, t.amount);
      if ok {
        Credit(t.receiver, t.amount);
      }
    }

    /** The snapshot brings back the exact table when a transaction fails. */
    method ApplyBlock(block: Block) returns (ok: bool)
      modifies this
      ensures ok <==> Applied(old(balances), block.txs).Some?
      ensures balances == if ok then Applied(old(balances), block.txs).value else old(balances)
    {
      var snapshot := balances;
      for i := 0 to |block.txs|
        invariant Applied(snapshot, block.txs[..i]) == Some(balances)
      {
        assert block.txs[..i + 1][..i] == block.txs[..i];
        var applied := ApplyTransaction(block.txs[i]);
        if !applied {
          assert block.txs == block.txs[..i + 1] + block.txs[i + 1..];
          AppliedConcat(snapshot, block.txs[..i + 1], block.txs[i + 1..]);
          balances := snapshot;
          return false;
        }
      }
      assert block.txs[..|block.txs|] == block.txs;
      ok := true;
    }

    method RevertBlock(block: Block)
      modifies this
      ensures balances == Reverted(old(balances), block.txs)
    {
      var i := |block.txs|;
      assert block.txs[..i] == block.txs;
      while i > 0
        invariant 0 <= i <= |block.txs|
        invariant Reverted(balances, block.txs[..i]) == Reverted(old(balances), block.txs)
      {
        i := i - 1;
        var t := block.txs[i];
        assert block.txs[..i + 1][..i] == block.txs[..i];
        Credit(t.sender, t.amount);
        if t.receiver in balances {
          balances := balances[t.receiver := SatSub(balances[t.receiver], t.amount)];
        }
      }
    }

    /** Undoes blocks from the last to the first. */
    method RevertAll(blocks: seq<Block>)
      modifies this
      ensures balances == Reverted(old(balances), AllTxs(blocks))
    {
      hide Reverted, AllTxs;
      var i := |blocks|;
      ghost var before := balances;
      NothingToRevert(before);
      assert blocks[i..] == [];
      while i > 0
        invariant 0 <= i <= |blocks|
        invariant balances == Reverted(before, AllTxs(blocks[i..]))
      {
        i := i - 1;
        RevertMore(before, blocks, i);
        RevertBlock(blocks[i]);
      }
      assert blocks[0..] == blocks;
    }

    /** Applies blocks in order until one fails. */
    method ApplyAll(blocks: seq<Block>) returns (ok: bool)
      modifies this
      ensures ok <==> Applied(old(balances), AllTxs(blocks)).Some?
      ensures ok ==> balances == Applied(old(balances), AllTxs(blocks)).value
    {
      ghost var before := balances;
      assert blocks[..0] == [];
      for j := 0 to |blocks|
        invariant Applied(before, AllTxs(blocks[..j])) == Some(balances)
      {
        hide Applied, AllTxs;
        ApplyMore(before, blocks, j);
        ok := ApplyBlock(blocks[j]);
        if !ok {
          return;
        }
      }
      assert blocks[..|blocks|] == blocks;
      ok := true;
    }
  }

  lemma NothingToRevert(m: map<Addr, nat>)
    ensures Reverted(m, AllTxs([])) == m
  {
  }

  // ---------------------------------------------------------------------------
  // The chain
  // ---------------------------------------------------------------------------

  /** All transactions of some blocks, in order. */
  function AllTxs(blocks: seq<Block>): seq<Tx> {
    if blocks == [] then [] else AllTxs(blocks[..|blocks| - 1]) + blocks[|blocks| - 1].txs
  }

  lemma AllTxsSnoc(a: seq<Block>, b: Block)
    ensures AllTxs(a + [b]) == AllTxs(a) + b.txs
  {
  }

  lemma {:induction false} AllTxsConcat(a: seq<Block>, b: seq<Block>)
    ensures AllTxs(a + b) == AllTxs(a) + AllTxs(b)
  {
    if b == [] {
      assert a + b == a;
    } else {
      var front, last := b[..|b| - 1], b[|b| - 1];
      AllTxsConcat(a, front);
      BlocksSplit(a, b);
      hide AllTxs;
      AllTxsSnoc(a + front, last);
      AllTxsSnoc(front, last);
      TxsAssociate(AllTxs(a), AllTxs(front), last.txs);
    }
  }

  lemma BlocksSplit(a: seq<Block>, b: seq<Block>)
    requires b != []
    ensures a + b[..|b| - 1] + [b[|b| - 1]] == a + b && b[..|b| - 1] + [b[|b| - 1]] == b
  {
  }

  lemma TxsAssociate(x: seq<Tx>, y: seq<Tx>, z: seq<Tx>)
    ensures x + y + z == x + (y + z)
  {
  }

  predicate Extends(s: State, block: Block, valid: bool) {
    && s.blocks != []
    && ((block.txs != [] || block.index != 0) ==> valid)
    && Applied(s.balances, block.txs).Some?
  }

  function Added(s: State, block: Block, valid: bool): State {
    if Extends(s, block, valid) then State(s.blocks + [block], Applied(s.balances, block.txs).value) else s
  }

  function RolledBack(s: State): State {
    if s.blocks == [] then s
    else State(s.blocks[..|s.blocks| - 1], Reverted(s.balances, s.blocks[|s.blocks| - 1].txs))
  }

  /** How many leading blocks have equal hashes. */
  function Common(a: seq<Block>, b: seq<Block>, hash: Block -> Bytes): (n: nat)
    ensures n <= |a| && n <= |b|
    ensures forall i | 0 <= i < n :: hash(a[i]) == hash(b[i])
    ensures n < |a| && n < |b| ==> hash(a[n]) != hash(b[n])
  {
    if a == [] || b == [] || hash(a[0]) != hash(b[0]) then 0 else 1 + Common(a[1..], b[1..], hash)
  }

  /** The staged table: orphaned blocks undone, candidate blocks applied. */
  function Staged(s: State, fork: seq<Block>, hash: Block -> Bytes): Option<map<Addr, nat>> {
    var n := Common(s.blocks, fork, hash);
    Applied(Reverted(s.balances, AllTxs(s.blocks[n..])), AllTxs(fork[n..]))
  }

  predicate Adopts(s: State, fork: seq<Block>, valid: bool, hash: Block -> Bytes) {
    && |fork| > |s.blocks| && s.blocks != [] && hash(fork[0]) == hash(s.blocks[0]) && valid
    && Staged(s, fork, hash).Some?
  }

  function Forked(s: State, fork: seq<Block>, valid: bool, hash: Block -> Bytes): State {
    if Adopts(s, fork, valid, hash) then State(fork, Staged(s, fork, hash).value) else s
  }

  /** The height after a block, saturating at 64 bits. */
  function NextIndex(b: Block): nat {
    if b.index + 1 < U64 then b.index + 1 else U64 - 1
  }

  ghost predicate RestoredAt(tip: Block, blocks: seq<Block>, j: nat, validates: (Block, Block) -> bool)
    requires j < |blocks|
  {
    var previous := if j > 0 then blocks[j - 1] else tip;
    blocks[j].index == NextIndex(previous) && validates(previous, blocks[j])
  }

  /** Each block follows the one before it and is valid on it. */
  ghost predicate Restorable(tip: Block, blocks: seq<Block>, validates: (Block, Block) -> bool) {
    forall j: nat | j < |blocks| :: RestoredAt(tip, blocks, j, validates)
  }

  /** Every block of a candidate chain follows the one before it and is valid on it. */
  ghost predicate ForkValid(fork: seq<Block>, validates: (Block, Block) -> bool) {
    fork != [] && Restorable(fork[0], fork[1..], validates)
  }

  class Blockchain {
    var chain: seq<Block>
    const state: BlockchainState

    ghost function Abs(): State
      reads this, state
    {
      State(chain, state.balances)
    }

    constructor (genesis: Block, m: map<Addr, nat>)
      ensures Abs() == State([genesis], m) && fresh(state)
    {
      chain := [genesis];
      state := new BlockchainState(m);
    }

    method AddBlock(block: Block, valid: bool) returns (ok: bool)
      modifies this, state
      ensures ok <==> Extends(old(Abs()), block, valid)
      ensures ok <==> && old(chain) != [] && (valid || (block.txs == [] && block.index == 0))
                      && Applied(old(state.balances), block.txs).Some?
      ensures chain == if ok then old(chain) + [block] else old(chain)
      ensures Abs() == Added(old(Abs()), block, valid)
    {
      if chain == [] {
        return false;
      }
      if (block.txs != [] || block.index != 0) && !valid {
        return false;
      }
      ok := state.ApplyBlock(block);
      if ok {
        chain := chain + [block];
      }
    }

    /** `restore_blocks`: re-validates stored blocks one by one on top of the chain. */
    method RestoreBlocks(blocks: seq<Block>, validates: (Block, Block) -> bool) returns (ok: bool)
      modifies this`chain
      ensures ok <==> old(chain) != [] && Restorable(old(chain)[|old(chain)| - 1], blocks, validates)
      ensures ok ==> chain == old(chain) + blocks
    {
      if chain == [] {
        return false;
      }
      var previous := chain[|chain| - 1];
      ghost var first := previous;
      for i := 0 to |blocks|
        invariant chain == old(chain) + blocks[..i]
        invariant previous == if i > 0 then blocks[i - 1] else first
        invariant forall j: nat | j < i :: RestoredAt(first, blocks, j, validates)
      {
        if blocks[i].index != NextIndex(previous) || !validates(previous, blocks[i]) {
          assert !RestoredAt(first, blocks, i, validates);
          return false;
        }
        previous := blocks[i];
        chain := chain + [blocks[i]];
      }
      assert blocks[..|blocks|] == blocks;
      ok := true;
    }

    method Rollback()
      modifies this, state
      ensures Abs() == RolledBack(old(Abs()))
    {
      if chain != [] {
        var removed := chain[|chain| - 1];
        chain := chain[..|chain| - 1];
        state.RevertBlock(removed);
      }
    }

    /** Works on a clone of the table; chain and table change together or not at all. */
    method HandleFork(fork: seq<Block>, validates: (Block, Block) -> bool, hash: Block -> Bytes) returns (ok: bool)
      modifies this, state
      ensures Abs() == Forked(old(Abs()), fork, ForkValid(fork, validates), hash)
      ensures ok <==> || |fork| <= |old(chain)|
                      || (&& old(chain) != [] && hash(fork[0]) == hash(old(chain)[0])
                          && Restorable(fork[0], fork[1..], validates) && Staged(old(Abs()), fork, hash).Some?)
      ensures chain == if ok && |fork| > |old(chain)| then fork else old(chain)
    {
      if |fork| <= |chain| {
        return true;
      }
      if chain == [] {
        return false;
      }
      if hash(fork[0]) != hash(chain[0]) {
        return false;
      }
      for i := 1 to |fork|
        invariant forall j: nat | j < i - 1 :: RestoredAt(fork[0], fork[1..], j, validates)
      {
        if fork[i].index != NextIndex(fork[i - 1]) || !validates(fork[i - 1], fork[i]) {
          assert !RestoredAt(fork[0], fork[1..], i - 1, validates);
          return false;
        }
        assert RestoredAt(fork[0], fork[1..], i - 1, validates);
      }
      var n := CountCommon(chain, fork, hash);
      var staged := new BlockchainState(state.balances);
      staged.RevertAll(chain[n..]);
      var applied := staged.ApplyAll(fork[n..]);
      if !applied {
        return false;
      }
      state.balances := staged.balances;
      chain := fork;
      ok := true;
    }
  }

  method CountCommon(a: seq<Block>, b: seq<Block>, hash: Block -> Bytes) returns (n: nat)
    ensures n == Common(a, b, hash)
  {
    n := 0;
    while n < |a| && n < |b| && hash(a[n]) == hash(b[n])
      invariant n <= |a| && n <= |b|
      invariant Common(a, b, hash) == n + Common(a[n..], b[n..], hash)
    {
      assert a[n..][1..] == a[n + 1..] && b[n..][1..] == b[n + 1..];
      n := n + 1;
    }
  }

  lemma RevertMore(m: map<Addr, nat>, blocks: seq<Block>, i: nat)
    requires i < |blocks|
    ensures Reverted(m, AllTxs(blocks[i..])) == Reverted(Reverted(m, AllTxs(blocks[i + 1..])), blocks[i].txs)
  {
    assert blocks[i..] == [blocks[i]] + blocks[i + 1..];
    AllTxsConcat([blocks[i]], blocks[i + 1..]);
    assert AllTxs([blocks[i]]) == blocks[i].txs;
    RevertedConcat(m, blocks[i].txs, AllTxs(blocks[i + 1..]));
  }

  lemma ApplyMore(m: map<Addr, nat>, blocks: seq<Block>, j: nat)
    requires j < |blocks| && Applied(m, AllTxs(blocks[..j])).Some?
    ensures Applied(m, AllTxs(blocks[..j + 1])) == Applied(Applied(m, AllTxs(blocks[..j])).value, blocks[j].txs)
    ensures Applied(m, AllTxs(blocks[..j + 1])).None? ==> Applied(m, AllTxs(blocks)).None?
  {
    assert blocks[..j + 1][..j] == blocks[..j];
    AppliedConcat(m, AllTxs(blocks[..j]), blocks[j].txs);
    assert blocks == blocks[..j + 1] + blocks[j + 1..];
    AllTxsConcat(blocks[..j + 1], blocks[j + 1..]);
    hide Applied, AllTxs;
    AppliedConcat(m, AllTxs(blocks[..j + 1]), AllTxs(blocks[j + 1..]));
  }

  // ---------------------------------------------------------------------------
  // Runs
  // ---------------------------------------------------------------------------

  datatype Op = Add(block: Block, valid: bool) | Rollback | Fork(fork: seq<Block>, valid: bool)

  function Step(s: State, op: Op, hash: Block -> Bytes): State {
    match op
    case Add(b, v) => Added(s, b, v)
    case Rollback => RolledBack(s)
    case Fork(f, v) => Forked(s, f, v, hash)
  }

  function Run(s: State, ops: seq<Op>, hash: Block -> Bytes): State {
    if ops == [] then s else Step(Run(s, ops[..|ops| - 1], hash), ops[|ops| - 1], hash)
  }

  /** The blocks of a run. */
  predicate Within(op: Op, known: set<Block>) {
    match op
    case Add(b, _) => b in known
    case Rollback => true
    case Fork(f, _) => forall b | b in f :: b in known
  }

  /** Among these blocks, one hash stands for one list of transactions. */
  ghost predicate HashBinds(hash: Block -> Bytes, known: set<Block>) {
    forall b, c | b in known && c in known && hash(b) == hash(c) :: b.txs == c.txs
  }

  /** The table is what replaying the whole chain over the base gives. */
  ghost predicate Sound(base: map<Addr, nat>, s: State) {
    && Applied(base, AllTxs(s.blocks)).Some?
    && Same(s.balances, Applied(base, AllTxs(s.blocks)).value)
  }

  lemma AddSound(base: map<Addr, nat>, s: State, block: Block, valid: bool)
    requires Sound(base, s)
    ensures Sound(base, Added(s, block, valid))
    ensures Applied(s.balances, block.txs).Some? <==> Applied(base, AllTxs(s.blocks) + block.txs).Some?
  {
    AppliedConcat(base, AllTxs(s.blocks), block.txs);
    SameApplied(s.balances, Applied(base, AllTxs(s.blocks)).value, block.txs);
    assert (s.blocks + [block])[..|s.blocks|] == s.blocks;
  }

  /** Undoing the last blocks of the chain leads back to the replay of the others. */
  lemma UndoSound(base: map<Addr, nat>, s: State, n: nat)
    requires Sound(base, s) && Total(base) < U64 && n <= |s.blocks|
    ensures Sound(base, State(s.blocks[..n], Reverted(s.balances, AllTxs(s.blocks[n..]))))
  {
    var keep, drop := AllTxs(s.blocks[..n]), AllTxs(s.blocks[n..]);
    assert s.blocks == s.blocks[..n] + s.blocks[n..];
    AllTxsConcat(s.blocks[..n], s.blocks[n..]);
    AppliedConcat(base, keep, drop);
    BlockKeepsTotal(base, keep);
    RevertUndoes(Applied(base, keep).value, s.balances, drop);
  }

  lemma {:induction false} SameTxs(a: seq<Block>, b: seq<Block>)
    requires |a| == |b| && forall i | 0 <= i < |a| :: a[i].txs == b[i].txs
    ensures AllTxs(a) == AllTxs(b)
  {
    if a != [] {
      SameTxs(a[..|a| - 1], b[..|b| - 1]);
    }
  }

  lemma ForkSplit(s: State, fork: seq<Block>, hash: Block -> Bytes, known: set<Block>)
    requires HashBinds(hash, known) && (forall b | b in s.blocks :: b in known) && (forall b | b in fork :: b in known)
    ensures var n := Common(s.blocks, fork, hash);
            AllTxs(fork) == AllTxs(s.blocks[..n]) + AllTxs(fork[n..])
  {
    var n := Common(s.blocks, fork, hash);
    assert fork == fork[..n] + fork[n..];
    AllTxsConcat(fork[..n], fork[n..]);
    forall i | 0 <= i < n
      ensures s.blocks[..n][i].txs == fork[..n][i].txs
    {
      assert s.blocks[i] in s.blocks && fork[i] in fork;
    }
    SameTxs(s.blocks[..n], fork[..n]);
  }

  /** A longer valid fork from the same genesis is adopted exactly when it replays over the base, and
      the table is then that replay: the detour over the abandoned blocks leaves no trace. */
  lemma ForkSound(base: map<Addr, nat>, s: State, fork: seq<Block>, hash: Block -> Bytes, known: set<Block>)
    requires Sound(base, s) && Total(base) < U64
    requires HashBinds(hash, known) && (forall b | b in s.blocks :: b in known) && (forall b | b in fork :: b in known)
    ensures Staged(s, fork, hash).Some? <==> Applied(base, AllTxs(fork)).Some?
    ensures Staged(s, fork, hash).Some? ==> Sound(base, State(fork, Staged(s, fork, hash).value))
    ensures forall valid :: Forked(s, fork, valid, hash).blocks
              == if |fork| > |s.blocks| > 0 && hash(fork[0]) == hash(s.blocks[0]) && valid
                    && Applied(base, AllTxs(fork)).Some?
                 then fork else s.blocks
  {
    var n := Common(s.blocks, fork, hash);
    ForkSplit(s, fork, hash, known);
    UndoSound(base, s, n);
    var kept := Applied(base, AllTxs(s.blocks[..n])).value;
    var undone := Reverted(s.balances, AllTxs(s.blocks[n..]));
    AppliedConcat(base, AllTxs(s.blocks[..n]), AllTxs(fork[n..]));
    SameApplied(undone, kept, AllTxs(fork[n..]));
  }

  ghost predicate Knows(s: State, known: set<Block>) {
    forall b | b in s.blocks :: b in known
  }

  lemma StepSound(base: map<Addr, nat>, s: State, op: Op, hash: Block -> Bytes, known: set<Block>)
    requires Sound(base, s) && Knows(s, known) && Total(base) < U64 && HashBinds(hash, known) && Within(op, known)
    ensures Sound(base, Step(s, op, hash)) && Knows(Step(s, op, hash), known)
  {
    hide Sound, HashBinds;
    match op
    case Add(b, v) => AddSound(base, s, b, v);
    case Rollback =>
      if s.blocks != [] {
        var n := |s.blocks| - 1;
        UndoSound(base, s, n);
        assert s.blocks[n..] == [s.blocks[n]];
        assert AllTxs([s.blocks[n]]) == s.blocks[n].txs;
      }
    case Fork(f, v) =>
      ForkSound(base, s, f, hash, known);
  }

  /** Over every run of additions, rollbacks and forks, the balance table is the replay of the chain
      over the first table. */
  lemma {:induction false} BalancesAreReplay(base: map<Addr, nat>, genesis: Block, ops: seq<Op>,
                                             hash: Block -> Bytes, known: set<Block>)
    requires genesis.txs == [] && genesis in known && Total(base) < U64 && HashBinds(hash, known)
    requires forall op | op in ops :: Within(op, known)
    ensures Sound(base, Run(State([genesis], base), ops, hash)) && Knows(Run(State([genesis], base), ops, hash), known)
  {
    if ops == [] {
      assert AllTxs([genesis]) == [];
    } else {
      hide Sound, HashBinds, Step;
      var k := |ops| - 1;
      BalancesAreReplay(base, genesis, ops[..k], hash, known);
      StepSound(base, Run(State([genesis], base), ops[..k], hash), ops[k], hash, known);
    }
  }

  /** The verdict on an operation is what validation says of its blocks. */
  ghost predicate Judged(s: State, op: Op, validates: (Block, Block) -> bool) {
    match op
    case Add(b, valid) => valid <==> s.blocks != [] && validates(s.blocks[|s.blocks| - 1], b)
    case Rollback => true
    case Fork(fork, valid) => valid <==> ForkValid(fork, validates)
  }

  /** Each block was valid on its parent, unless it is an empty one that claims index 0. */
  ghost predicate AllValid(blocks: seq<Block>, validates: (Block, Block) -> bool) {
    forall i | 0 < i < |blocks| ::
      validates(blocks[i - 1], blocks[i]) || (blocks[i].txs == [] && blocks[i].index == 0)
  }

  lemma StepValid(s: State, op: Op, hash: Block -> Bytes, validates: (Block, Block) -> bool)
    requires AllValid(s.blocks, validates) && Judged(s, op, validates)
    ensures AllValid(Step(s, op, hash).blocks, validates)
  {
    hide Applied, Staged, Reverted, Common;
    if op.Fork? && ForkValid(op.fork, validates) {
      forall i | 0 < i < |op.fork|
        ensures validates(op.fork[i - 1], op.fork[i])
      {
        assert RestoredAt(op.fork[0], op.fork[1..], i - 1, validates);
      }
    }
  }

  /** Over every run of additions, rollbacks and forks the chain holds validated blocks only. */
  lemma {:induction false} ChainStaysValid(start: State, ops: seq<Op>, hash: Block -> Bytes,
                                           validates: (Block, Block) -> bool)
    requires |start.blocks| <= 1
    requires forall k | 0 <= k < |ops| :: Judged(Run(start, ops[..k], hash), ops[k], validates)
    ensures AllValid(Run(start, ops, hash).blocks, validates)
  {
    hide Step, Judged, AllValid;
    if ops == [] {
      OneBlockIsValid(start.blocks, validates);
    } else {
      var n := |ops| - 1;
      forall k | 0 <= k < n
        ensures Judged(Run(start, ops[..n][..k], hash), ops[..n][k], validates)
      {
        assert ops[..n][..k] == ops[..k];
      }
      ChainStaysValid(start, ops[..n], hash, validates);
      StepValid(Run(start, ops[..n], hash), ops[n], hash, validates);
    }
  }

  lemma OneBlockIsValid(blocks: seq<Block>, validates: (Block, Block) -> bool)
    requires |blocks| <= 1
    ensures AllValid(blocks, validates)
  {
  }
}
