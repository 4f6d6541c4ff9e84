/** The account ledger (crates/bleep-state/src/state_manager.rs): a write-back cache over a durable
    store, transfers, checkpoints and the atomic commit of canonical blocks. The Merkle trie is a
    verdict on the state root, a disk write is a verdict, and stored values read back unchanged. */
module Ledger {
  import opened Arithmetic
  import opened Blocks
  import opened Encoding
  import opened Totals

  datatype Account = Account(balance: nat, nonce: nat, code: Option<Bytes>)

  const EMPTY := Account(0, 0, None)

  datatype Entry = Entry(account: Account, dirty: bool)

  datatype Record = Record(index: nat, hash: Bytes, previous: Bytes, chainId: Bytes, body: Block)

  datatype Db = Db(accounts: map<Addr, Account>, height: nat, chainId: Option<Bytes>, tip: Option<Bytes>,
                   blocks: map<nat, Record>)

  datatype State = State(db: Db, cache: map<Addr, Entry>, height: nat)

  const REPLAY_WINDOW := 30

  /** What the store alone says about an account. */
  function Durable(db: Db, a: Addr): Account {
    if a in db.accounts then db.accounts[a] else EMPTY
  }

  /** `get_account`: the cache first, then the store. */
  function View(s: State, a: Addr): Account {
    if a in s.cache then s.cache[a].account else Durable(s.db, a)
  }

  // ---------------------------------------------------------------------------
  // Transfers
  // ---------------------------------------------------------------------------

  function Put(s: State, a: Addr, account: Account): State {
    s.(cache := s.cache[a := Entry(account, true)])
  }

  function WithBalance(s: State, a: Addr, balance: nat): State {
    Put(s, a, View(s, a).(balance := balance))
  }

  function WithNonce(s: State, a: Addr, nonce: nat): State {
    Put(s, a, View(s, a).(nonce := nonce))
  }

  predicate Accepts(s: State, from: Addr, to: Addr, amount: nat, nonce: nat) {
    && nonce == View(s, from).nonce && nonce + 1 < U64
    && amount > 0 && View(s, from).balance >= amount && View(s, to).balance + amount < U128
  }

  /** Both balances are read before either is written. */
  function Moved(s: State, from: Addr, to: Addr, amount: nat): State
    requires View(s, from).balance >= amount
  {
    var debited := WithBalance(s, from, View(s, from).balance - amount);
    var credited := WithBalance(debited, to, View(s, to).balance + amount);
    WithNonce(credited, from, View(s, from).nonce + 1)
  }

  /** The account as a transfer leaves it. */
  function AfterTransfer(s: State, from: Addr, to: Addr, amount: nat, a: Addr): Account
    requires View(s, from).balance >= amount
  {
    var v := View(s, a);
    if a == from && a == to then v.(balance := v.balance + amount, nonce := v.nonce + 1)
    else if a == from then v.(balance := v.balance - amount, nonce := v.nonce + 1)
    else if a == to then v.(balance := v.balance + amount)
    else v
  }

  /** A transfer touches the two accounts named and no other, and moves the sender's nonce by one. */
  lemma MovedView(s: State, from: Addr, to: Addr, amount: nat)
    requires View(s, from).balance >= amount
    ensures Moved(s, from, to, amount).db == s.db && Moved(s, from, to, amount).height == s.height
    ensures forall a :: View(Moved(s, from, to, amount), a) == AfterTransfer(s, from, to, amount, a)
  {
  }

  /** All balances, as `total_supply` collects them: the store, overridden by the cache. */
  function Balances(s: State): map<Addr, nat> {
    map a | a in s.db.accounts.Keys + s.cache.Keys :: View(s, a).balance
  }

  ghost function Supply(s: State): nat {
    Total(Balances(s))
  }

  lemma BalancesGet(s: State, a: Addr)
    ensures Get(Balances(s), a) == View(s, a).balance
  {
  }

  lemma PutBalances(s: State, a: Addr, account: Account)
    ensures Balances(Put(s, a, account)) == Balances(s)[a := account.balance]
  {
  }

  lemma PutSupply(s: State, a: Addr, account: Account)
    ensures Supply(Put(s, a, account)) == Supply(s) - View(s, a).balance + account.balance
  {
    PutBalances(s, a, account);
    TotalUpdate(Balances(s), a, account.balance);
    BalancesGet(s, a);
  }

  /** A transfer conserves the supply exactly when sender and receiver differ; to itself an account
      adds the amount. */
  lemma MovedSupply(s: State, from: Addr, to: Addr, amount: nat)
    requires View(s, from).balance >= amount
    ensures Supply(Moved(s, from, to, amount)) == Supply(s) + if from == to then amount else 0
  {
    hide Supply;
    var debited := WithBalance(s, from, View(s, from).balance - amount);
    var credited := WithBalance(debited, to, View(s, to).balance + amount);
    PutSupply(s, from, View(s, from).(balance := View(s, from).balance - amount));
    PutSupply(debited, to, View(debited, to).(balance := View(s, to).balance + amount));
    PutSupply(credited, from, View(credited, from).(nonce := View(s, from).nonce + 1));
  }

  // ---------------------------------------------------------------------------
  // Minting
  // ---------------------------------------------------------------------------

  /** 200,000,000 coins of 10^8 units. */
  const MAX_SUPPLY := 20000000000000000

  ghost predicate Mints(s: State, a: Addr, amount: nat) {
    Supply(s) % U128 + amount <= MAX_SUPPLY && View(s, a).balance + amount < U128
  }

  function Credited(s: State, a: Addr, amount: nat): State {
    WithBalance(s, a, View(s, a).balance + amount)
  }

  /** Minting adds exactly the amount to the supply, and never passes the cap. */
  lemma MintSupply(s: State, a: Addr, amount: nat)
    ensures Supply(Credited(s, a, amount)) == Supply(s) + amount
    ensures Supply(s) < U128 && Mints(s, a, amount) ==> Supply(Credited(s, a, amount)) <= MAX_SUPPLY
  {
    hide Supply;
    PutSupply(s, a, View(s, a).(balance := View(s, a).balance + amount));
    if Supply(s) < U128 { SmallSupply(Supply(s)); }
  }

  lemma SmallSupply(x: nat)
    requires x < U128
    ensures x % U128 == x
  {
  }

  // ---------------------------------------------------------------------------
  // Committing a block
  // ---------------------------------------------------------------------------

  /** Where a block stands: its index, hash, parent and chain. */
  datatype Place = Place(index: nat, hash: Bytes, previous: Bytes, chainId: Bytes)

  predicate Follows(s: State, at: Place, genesis: Bytes) {
    && s.height + 1 < U64 && at.index == s.height + 1
    && (s.db.chainId.None? || s.db.chainId.value == at.chainId)
    && at.previous == if s.db.tip.Some? then s.db.tip.value else genesis
  }

  function Dirty(cache: map<Addr, Entry>): map<Addr, Account> {
    map a | a in cache && cache[a].dirty :: cache[a].account
  }

  /** The store after one atomic write of the changed accounts and the block. */
  function Flushed(s: State, block: Block, at: Place): Db {
    Db(s.db.accounts + Dirty(s.cache), at.index, Some(at.chainId), Some(at.hash),
       s.db.blocks[at.index := Record(at.index, at.hash, at.previous, at.chainId, block)])
  }

  predicate Persists(s: State, at: Place, genesis: Bytes, disk: bool) {
    Follows(s, at, genesis) && disk
  }

  /** `persist_canonical_block`: a failed write sets the height to one below the index. */
  function Persisted(s: State, block: Block, at: Place, genesis: Bytes, disk: bool): State {
    if Persists(s, at, genesis, disk) then State(Flushed(s, block, at), s.cache, at.index) else s
  }

  /** A cache entry that is not marked agrees with the store. */
  ghost predicate Clean(s: State) {
    forall a | a in s.cache && !s.cache[a].dirty :: s.cache[a].account == Durable(s.db, a)
  }

  /** The cache says nothing that is not in the store. */
  ghost predicate Settled(s: State) {
    forall a :: View(s, a) == Durable(s.db, a)
  }

  lemma SettledIsClean(s: State)
    requires Settled(s)
    ensures Clean(s)
  {
  }

  lemma MovedClean(s: State, from: Addr, to: Addr, amount: nat)
    requires Clean(s) && View(s, from).balance >= amount
    ensures Clean(Moved(s, from, to, amount))
  {
  }

  /** After a commit the store alone answers as the ledger did before it. */
  lemma PersistSettles(s: State, block: Block, at: Place, genesis: Bytes)
    requires Clean(s) && Follows(s, at, genesis)
    ensures var t := Persisted(s, block, at, genesis, true);
            Settled(t) && forall a :: View(t, a) == View(s, a)
  {
  }

  /** Writing the cache out, as a snapshot does. */
  function Synced(s: State, disk: bool): State {
    if disk then s.(db := s.db.(accounts := s.db.accounts + Dirty(s.cache), height := s.height)) else s
  }

  /** Writing the cache out changes no answer, and the store then gives the same ones. */
  lemma SyncSettles(s: State)
    requires Clean(s)
    ensures var t := Synced(s, true);
            Settled(t) && forall a :: View(t, a) == View(s, a)
  {
    forall a
      ensures View(Synced(s, true), a) == Durable(Synced(s, true).db, a) == View(s, a)
    {
      if a in s.cache && s.cache[a].dirty { assert a in Dirty(s.cache); }
    }
  }

  /** `export_balances`: positive balances in the store, overridden by positive ones in the cache. */
  function Exported(s: State): map<Addr, nat> {
    (map a | a in s.db.accounts && s.db.accounts[a].balance > 0 :: s.db.accounts[a].balance)
    + (map a | a in s.cache && s.cache[a].account.balance > 0 :: s.cache[a].account.balance)
  }

  /** No cached balance lies below the stored one. */
  ghost predicate Above(s: State) {
    forall a | a in s.cache :: s.cache[a].account.balance >= Durable(s.db, a).balance
  }

  /** The export is what the ledger answers, except where a stored balance has become zero in the cache. */
  lemma ExportedIsView(s: State, a: Addr)
    ensures Get(Exported(s), a) == View(s, a).balance
            <==> (a in s.cache && s.cache[a].account.balance == 0 ==> Durable(s.db, a).balance == 0)
  {
  }

  // ---------------------------------------------------------------------------
  // Inbound blocks
  // ---------------------------------------------------------------------------

  datatype Transfer = Transfer(sender: Addr, receiver: Addr, amount: nat, nonce: nat)

  predicate AcceptsTransfer(s: State, t: Transfer) {
    Accepts(s, t.sender, t.receiver, t.amount, t.nonce)
  }

  /** All transfers in order, or nothing. */
  function Replayed(s: State, ts: seq<Transfer>): Option<State> {
    if ts == [] then Some(s)
    else
      var n := |ts| - 1;
      match Replayed(s, ts[..n])
      case None => None
      case Some(t) =>
        if AcceptsTransfer(t, ts[n]) then Some(Moved(t, ts[n].sender, ts[n].receiver, ts[n].amount)) else None
  }

  lemma {:induction false} ReplayedPrefix(s: State, ts: seq<Transfer>, k: nat)
    requires k <= |ts| && Replayed(s, ts).Some?
    ensures Replayed(s, ts[..k]).Some?
  {
    if k < |ts| {
      assert ts[..|ts| - 1][..k] == ts[..k];
      ReplayedPrefix(s, ts[..|ts| - 1], k);
    } else {
      assert ts[..k] == ts;
    }
  }

  lemma {:induction false} ReplayedKeeps(s: State, ts: seq<Transfer>)
    requires Replayed(s, ts).Some?
    ensures var t := Replayed(s, ts).value;
            && t.db == s.db && t.height == s.height && (Clean(s) ==> Clean(t))
            && forall a :: View(t, a).code == View(s, a).code
  {
    if ts != [] {
      var n := |ts| - 1;
      ReplayedKeeps(s, ts[..n]);
      var t := Replayed(s, ts[..n]).value;
      MovedView(t, ts[n].sender, ts[n].receiver, ts[n].amount);
      if Clean(s) { MovedClean(t, ts[n].sender, ts[n].receiver, ts[n].amount); }
    }
  }

  /** The amounts that accounts send to themselves. */
  function SelfSent(ts: seq<Transfer>): nat {
    if ts == [] then 0
    else
      var t := ts[|ts| - 1];
      SelfSent(ts[..|ts| - 1]) + if t.sender == t.receiver then t.amount else 0
  }

  /** Replay changes the supply by exactly what accounts send to themselves. */
  lemma {:induction false} ReplayedSupply(s: State, ts: seq<Transfer>)
    requires Replayed(s, ts).Some?
    ensures Supply(Replayed(s, ts).value) == Supply(s) + SelfSent(ts)
  {
    hide Supply, Moved;
    if ts != [] {
      var n := |ts| - 1;
      ReplayedSupply(s, ts[..n]);
      MovedSupply(Replayed(s, ts[..n]).value, ts[n].sender, ts[n].receiver, ts[n].amount);
    }
  }

  class StateManager {
    var db: Db
    var cache: map<Addr, Entry>
    var height: nat

    ghost function Abs(): State
      reads this
    {
      State(db, cache, height)
    }

    /** Opening: the height is read back, the cache starts empty. */
    constructor (stored: Db)
      ensures Abs() == State(stored, map[], stored.height)
    {
      db, cache, height := stored, map[], stored.height;
    }

    function GetAccount(a: Addr): (account: Account)
      reads this
      ensures account == View(Abs(), a)
    {
      if a in cache then cache[a].account
      else if a in db.accounts then db.accounts[a]
      else EMPTY
    }

    method CacheEntry(a: Addr)
      modifies this`cache
      ensures a in cache && cache == old(cache)[a := cache[a]]
      ensures cache[a] == if a in old(cache) then old(cache)[a] else Entry(old(View(Abs(), a)), false)
      ensures forall b :: View(Abs(), b) == old(View(Abs(), b))
    {
      if a !in cache {
        cache := cache[a := Entry(GetAccount(a), false)];
      }
    }

    method SetBalance(a: Addr, balance: nat)
      modifies this`cache
      ensures Abs() == WithBalance(old(Abs()), a, balance)
    {
      CacheEntry(a);
      cache := cache[a := Entry(cache[a].account.(balance := balance), true)];
    }

    method SetNonce(a: Addr, nonce: nat)
      modifies this`cache
      ensures Abs() == WithNonce(old(Abs()), a, nonce)
    {
      CacheEntry(a);
      cache := cache[a := Entry(cache[a].account.(nonce := nonce), true)];
    }

    /** `increment_nonce`, which wraps around at the top of the range. */
    method IncrementNonce(a: Addr) returns (n: nat)
      modifies this`cache
      ensures n == (old(View(Abs(), a)).nonce + 1) % U64
      ensures Abs() == WithNonce(old(Abs()), a, n)
    {
      CacheEntry(a);
      n := (cache[a].account.nonce + 1) % U64;
      cache := cache[a := Entry(cache[a].account.(nonce := n), true)];
    }

    method ApplyTransferWithNonce(from: Addr, to: Addr, amount: nat, nonce: nat) returns (ok: bool)
      modifies this`cache
      ensures ok <==> Accepts(old(Abs()), from, to, amount, nonce)
      ensures var payer, payee := old(View(Abs(), from)), old(View(Abs(), to));
              ok <==> && nonce == payer.nonce && nonce + 1 < U64 && 0 < amount <= payer.balance
                      && payee.balance + amount < U128
      ensures ok ==> Abs() == Moved(old(Abs()), from, to, amount)
      ensures !ok ==> Abs() == old(Abs())
    {
      var current := GetAccount(from).nonce;
      if nonce != current {
        return false;
      }
      if current + 1 >= U64 {
        return false;
      }
      if amount == 0 {
        return false;
      }
      if GetAccount(from).balance < amount {
        return false;
      }
      var left := GetAccount(from).balance - amount;
      if GetAccount(to).balance + amount >= U128 {
        return false;
      }
      var received := GetAccount(to).balance + amount;
      SetBalance(from, left);
      SetBalance(to, received);
      SetNonce(from, current + 1);
      ok := true;
    }

    /** `apply_transfer`: a fresh transfer, within 30 seconds of the clock either way. */
    method ApplyTransfer(from: Addr, to: Addr, amount: nat, nonce: nat, timestamp: nat, now: nat) returns (ok: bool)
      modifies this`cache
      ensures ok <==> -REPLAY_WINDOW <= now - timestamp <= REPLAY_WINDOW && Accepts(old(Abs()), from, to, amount, nonce)
      ensures ok ==> Abs() == Moved(old(Abs()), from, to, amount)
      ensures !ok ==> Abs() == old(Abs())
    {
      var apart := if now >= timestamp then now - timestamp else timestamp - now;
      if apart > REPLAY_WINDOW {
        return false;
      }
      ok := ApplyTransferWithNonce(from, to, amount, nonce);
    }

    /** The sum wraps around at 128 bits. */
    method TotalSupply() returns (sum: nat)
      ensures sum == Supply(Abs()) % U128
    {
      var balances := Balances(State(db, cache, height));
      var rest := balances;
      sum := 0;
      while rest != map[]
        invariant rest.Keys <= balances.Keys && sum < U128
        invariant (sum + Total(rest)) % U128 == Total(balances) % U128
        decreases rest.Keys
      {
        var a :| a in rest.Keys;
        TotalRemove(rest, a);
        AddWrapped(sum + rest[a], Total(rest - {a}), U128);
        sum := (sum + rest[a]) % U128;
        rest := rest - {a};
      }
    }

    method Mint(a: Addr, amount: nat) returns (ok: bool)
      modifies this`cache
      ensures ok <==> Mints(old(Abs()), a, amount)
      ensures ok <==> old(Supply(Abs())) % U128 + amount <= 20_000_000_000_000_000
                      && old(View(Abs(), a)).balance + amount < U128
      ensures Abs() == if ok then Credited(old(Abs()), a, amount) else old(Abs())
    {
      var total := TotalSupply();
      if total + amount >= U128 || total + amount > MAX_SUPPLY {
        return false;
      }
      var balance := GetAccount(a).balance;
      if balance + amount >= U128 {
        return false;
      }
      SetBalance(a, balance + amount);
      ok := true;
    }

    /** `flush_internal`: the changed accounts and the height in one write. */
    method FlushInternal(disk: bool) returns (ok: bool)
      modifies this`db
      ensures ok == disk && Abs() == Synced(old(Abs()), disk)
    {
      var batch := Batch();
      if disk {
        db := db.(accounts := db.accounts + batch, height := height);
      }
      ok := disk;
    }

    method Restore(checkpoint: State)
      modifies this
      ensures cache == checkpoint.cache && height == checkpoint.height && db == old(db)
    {
      cache, height := checkpoint.cache, checkpoint.height;
    }

    /** Collects the changed accounts of the cache, in any order. */
    method Batch() returns (batch: map<Addr, Account>)
      ensures batch == Dirty(cache)
    {
      batch := map[];
      var keys := cache.Keys;
      while keys != {}
        invariant keys <= cache.Keys
        invariant batch == map a | a in cache && a !in keys && cache[a].dirty :: cache[a].account
        decreases keys
      {
        var a :| a in keys;
        if cache[a].dirty {
          batch := batch[a := cache[a].account];
        }
        keys := keys - {a};
      }
    }

    method CheckNextCanonicalBlock(at: Place, genesis: Bytes) returns (ok: bool)
      ensures ok <==> Follows(Abs(), at, genesis)
      ensures ok <==> && at.index == height + 1 < U64 && (db.chainId == None || db.chainId == Some(at.chainId))
                      && (db.tip == Some(at.previous) || (db.tip == None && at.previous == genesis))
    {
      if height + 1 >= U64 || at.index != height + 1 {
        return false;
      }
      if db.chainId.Some? && db.chainId.value != at.chainId {
        return false;
      }
      if at.previous != (if db.tip.Some? then db.tip.value else genesis) {
        return false;
      }
      ok := true;
    }

    /** One write for the changed accounts, the metadata and the block. */
    method FlushWithCanonicalBlock(block: Block, at: Place, disk: bool) returns (ok: bool)
      modifies this`db
      ensures ok == disk
      ensures db == if disk then Flushed(old(Abs()), block, at) else old(db)
    {
      var batch := Batch();
      if !disk {
        return false;
      }
      db := Db(db.accounts + batch, at.index, Some(at.chainId), Some(at.hash),
               db.blocks[at.index := Record(at.index, at.hash, at.previous, at.chainId, block)]);
      ok := true;
    }

    method PersistCanonicalBlock(block: Block, at: Place, genesis: Bytes, disk: bool) returns (ok: bool)
      modifies this
      ensures ok <==> Persists(old(Abs()), at, genesis, disk)
      ensures Abs() == Persisted(old(Abs()), block, at, genesis, disk)
    {
      var next := CheckNextCanonicalBlock(at, genesis);
      if !next {
        return false;
      }
      height := at.index;
      ok := FlushWithCanonicalBlock(block, at, disk);
      if !ok {
        height := SatSub(at.index, 1);
      }
    }

    /** All or nothing: unless every transfer is accepted, the root matches and the write succeeds,
        the ledger is exactly as it was. */
    method ApplyCanonicalBlock(block: Block, at: Place, genesis: Bytes, transfers: seq<Transfer>,
                               rootMatches: bool, disk: bool)
      returns (ok: bool)
      modifies this
      ensures ok <==> Persists(old(Abs()), at, genesis, disk) && Replayed(old(Abs()), transfers).Some? && rootMatches
      ensures ok ==> Abs() == Persisted(Replayed(old(Abs()), transfers).value, block, at, genesis, true)
      ensures !ok ==> Abs() == old(Abs())
    {
      ghost var before := Abs();
      var next := CheckNextCanonicalBlock(at, genesis);
      if !next {
        return false;
      }
      var original := cache;
      for i := 0 to |transfers|
        invariant db == before.db && height == before.height
        invariant Replayed(before, transfers[..i]) == Some(Abs())
      {
        assert transfers[..i + 1][..i] == transfers[..i];
        var t := transfers[i];
        if GetAccount(t.sender).nonce != t.nonce {
          cache := original;
          NotReplayed(before, transfers, i);
          return false;
        }
        var moved := ApplyTransferWithNonce(t.sender, t.receiver, t.amount, t.nonce);
        if !moved {
          cache := original;
          NotReplayed(before, transfers, i);
          return false;
        }
      }
      assert transfers[..|transfers|] == transfers;
      if !rootMatches {
        cache := original;
        return false;
      }
      height := at.index;
      ok := FlushWithCanonicalBlock(block, at, disk);
      if !ok {
        height := SatSub(at.index, 1);
        cache := original;
      }
    }
  }

  lemma NotReplayed(s: State, ts: seq<Transfer>, k: nat)
    requires k < |ts| && Replayed(s, ts[..k]).Some? && !AcceptsTransfer(Replayed(s, ts[..k]).value, ts[k])
    ensures Replayed(s, ts).None?
  {
    if Replayed(s, ts).Some? {
      ReplayedPrefix(s, ts, k + 1);
      assert ts[..k + 1][..k] == ts[..k];
    }
  }

  // ---------------------------------------------------------------------------
  // Two ledgers
  // ---------------------------------------------------------------------------

  /** Two ledgers that answer alike, whatever is cached or stored. */
  ghost predicate SameView(s: State, t: State) {
    forall a :: View(s, a) == View(t, a)
  }

  /** What the state root commits to: the accounts that hold a balance or have a nonce. */
  function Contents(s: State): map<Addr, (nat, nat)> {
    map a | a in s.db.accounts.Keys + s.cache.Keys && (View(s, a).balance > 0 || View(s, a).nonce > 0)
      :: (View(s, a).balance, View(s, a).nonce)
  }

  /** The contents fix every balance and nonce, and are fixed by them. */
  lemma ContentsSame(s: State, t: State)
    ensures Contents(s) == Contents(t)
            <==> forall a :: View(s, a).balance == View(t, a).balance && View(s, a).nonce == View(t, a).nonce
  {
    if Contents(s) == Contents(t) {
      forall a
        ensures View(s, a).balance == View(t, a).balance && View(s, a).nonce == View(t, a).nonce
      {
        assert a in Contents(s) <==> a in Contents(t);
        ContentsAt(s, a);
        ContentsAt(t, a);
      }
    }
    if forall a :: View(s, a).balance == View(t, a).balance && View(s, a).nonce == View(t, a).nonce {
      forall a
        ensures a in Contents(s) <==> a in Contents(t)
        ensures a in Contents(s) ==> Contents(s)[a] == Contents(t)[a]
      {
        ContentsAt(s, a);
        ContentsAt(t, a);
      }
      assert Contents(s) == Contents(t);
    }
  }

  lemma ContentsAt(s: State, a: Addr)
    ensures a in Contents(s) <==> View(s, a).balance > 0 || View(s, a).nonce > 0
    ensures a in Contents(s) ==> Contents(s)[a] == (View(s, a).balance, View(s, a).nonce)
  {
  }

  lemma SameViewSym(s: State, t: State)
    requires SameView(s, t)
    ensures SameView(t, s)
  {
  }

  lemma SameViewThrough(s: State, t: State, u: State)
    requires SameView(s, t) && SameView(t, u)
    ensures SameView(s, u)
  {
    hide View;
  }

  lemma SupplySame(s: State, t: State)
    requires SameView(s, t)
    ensures Supply(s) == Supply(t)
  {
    hide Total;
    forall a
      ensures Get(Balances(s), a) == Get(Balances(t), a)
    {
      BalancesGet(s, a);
      BalancesGet(t, a);
      assert View(s, a) == View(t, a);
    }
    TotalSame(Balances(s), Balances(t));
  }

  lemma SameAccepts(s: State, t: State, x: Transfer)
    requires SameView(s, t)
    ensures AcceptsTransfer(s, x) <==> AcceptsTransfer(t, x)
    ensures AcceptsTransfer(s, x) ==>
              SameView(Moved(s, x.sender, x.receiver, x.amount), Moved(t, x.sender, x.receiver, x.amount))
  {
    assert View(s, x.sender) == View(t, x.sender) && View(s, x.receiver) == View(t, x.receiver);
    if AcceptsTransfer(s, x) {
      MovedView(s, x.sender, x.receiver, x.amount);
      MovedView(t, x.sender, x.receiver, x.amount);
    }
  }

  /** Replaying the same transfers keeps two ledgers alike, and succeeds on both or neither. */
  lemma {:induction false} ReplayConverges(s: State, t: State, ts: seq<Transfer>)
    requires SameView(s, t)
    ensures Replayed(s, ts).Some? <==> Replayed(t, ts).Some?
    ensures Replayed(s, ts).Some? ==> SameView(Replayed(s, ts).value, Replayed(t, ts).value)
  {
    hide Moved, AcceptsTransfer, SameView;
    if ts != [] {
      var n := |ts| - 1;
      ReplayConverges(s, t, ts[..n]);
      if Replayed(s, ts[..n]).Some? {
        SameAccepts(Replayed(s, ts[..n]).value, Replayed(t, ts[..n]).value, ts[n]);
      }
    }
  }

  // ---------------------------------------------------------------------------
  // Reading the stored chain back
  // ---------------------------------------------------------------------------

  const BLOCK_PREFIX := Ascii("chain:block:")
  const KEY_DIGITS := 20

  function Pow10(k: nat): nat {
    if k == 0 then 1 else 10 * Pow10(k - 1)
  }

  /** A number in exactly `width` decimal digits. */
  function Padded(n: nat, width: nat): (digits: Bytes)
    ensures |digits| == width
  {
    if width == 0 then [] else Padded(n / 10, width - 1) + [48 + n % 10]
  }

  function BlockKey(index: nat): Bytes {
    BLOCK_PREFIX + Padded(index, KEY_DIGITS)
  }

  lemma {:induction false} PaddedOrder(m: nat, n: nat, width: nat)
    requires m < Pow10(width) && n < Pow10(width)
    ensures LexLess(Padded(m, width), Padded(n, width)) <==> m < n
    ensures Padded(m, width) == Padded(n, width) <==> m == n
  {
    if width > 0 {
      PaddedOrder(m / 10, n / 10, width - 1);
      var a, b := Padded(m / 10, width - 1), Padded(n / 10, width - 1);
      LexLessSnoc(a, 48 + m % 10, b, 48 + n % 10);
      assert (a + [48 + m % 10])[..width - 1] == a && (b + [48 + n % 10])[..width - 1] == b;
      assert (a + [48 + m % 10])[width - 1] == 48 + m % 10 && (b + [48 + n % 10])[width - 1] == 48 + n % 10;
    }
  }

  lemma {:induction false} LexLessPrefix(p: Bytes, a: Bytes, b: Bytes)
    ensures LexLess(p + a, p + b) <==> LexLess(a, b)
  {
    if p == [] {
      assert p + a == a && p + b == b;
    } else {
      LexLessPrefix(p[1..], a, b);
      assert (p + a)[1..] == p[1..] + a && (p + b)[1..] == p[1..] + b;
    }
  }

  lemma TwentyDigits()
    ensures Pow10(KEY_DIGITS) > U64
  {
    assert Pow10(5) == 100000;
    assert Pow10(10) == 100000 * Pow10(5);
    assert Pow10(15) == 100000 * Pow10(10);
    assert Pow10(20) == 100000 * Pow10(15);
  }

  /** The zero-padded keys of blocks sort by height. */
  lemma KeysSortByHeight(m: nat, n: nat)
    requires m < U64 && n < U64
    ensures LexLess(BlockKey(m), BlockKey(n)) <==> m < n
  {
    hide Padded, LexLess, Pow10;
    TwentyDigits();
    PaddedOrder(m, n, KEY_DIGITS);
    LexLessPrefix(BLOCK_PREFIX, Padded(m, KEY_DIGITS), Padded(n, KEY_DIGITS));
  }

  /** The stored heights as the store iterates their keys, in byte order. */
  ghost predicate Iterated(order: seq<nat>, heights: set<nat>) {
    && (forall k | k in heights :: k < U64)
    && (forall k :: k in order <==> k in heights)
    && (forall i, j | 0 <= i < j < |order| :: LexLess(BlockKey(order[i]), BlockKey(order[j])))
  }

  lemma IteratedAscends(order: seq<nat>, heights: set<nat>)
    requires Iterated(order, heights)
    ensures Ascending(order, heights)
  {
    hide BlockKey;
    forall i, j | 0 <= i < j < |order|
      ensures order[i] < order[j]
    {
      assert order[i] in heights && order[j] in heights;
      KeysSortByHeight(order[i], order[j]);
    }
  }

  /** Record `k` has the right key, chain and hash, and names the hash of the one before it. */
  ghost predicate LinkedAt(s: State, k: nat, chainId: Bytes, genesis: Bytes, hash: Block -> Bytes) {
    && k in s.db.blocks && (k > 1 ==> k - 1 in s.db.blocks)
    && var r := s.db.blocks[k];
       && r.index == k && r.chainId == chainId && r.hash == hash(r.body)
       && r.previous == if k > 1 then s.db.blocks[k - 1].hash else genesis
  }

  ghost predicate TipMatches(s: State, chainId: Bytes) {
    if s.height == 0 then s.db.chainId.None? && s.db.tip.None?
    else
      && s.db.chainId == Some(chainId)
      && s.height in s.db.blocks && s.db.tip == Some(s.db.blocks[s.height].hash)
  }

  /** The stored blocks form one chain from genesis to the stored tip. */
  ghost predicate Loadable(s: State, chainId: Bytes, genesis: Bytes, hash: Block -> Bytes) {
    && (forall k :: k in s.db.blocks <==> 1 <= k <= s.height)
    && (forall k: nat | 1 <= k <= s.height :: LinkedAt(s, k, chainId, genesis, hash))
    && TipMatches(s, chainId)
  }

  lemma CountsAll(order: seq<nat>, keys: set<nat>)
    requires Ascending(order, keys) && forall j | 0 <= j < |order| :: order[j] == j + 1
    ensures forall k :: k in keys <==> 1 <= k <= |order|
  {
    forall k | 1 <= k <= |order|
      ensures k in keys
    {
      assert order[k - 1] == k;
      assert k in order;
    }
  }

  ghost predicate GoodAt(s: State, order: seq<nat>, i: nat, chainId: Bytes, genesis: Bytes, hash: Block -> Bytes)
    requires i < |order|
  {
    order[i] == i + 1 && LinkedAt(s, i + 1, chainId, genesis, hash)
  }

  ghost predicate ReadAt(s: State, blocks: seq<Block>, i: nat) {
    i < |blocks| && i + 1 in s.db.blocks && blocks[i] == s.db.blocks[i + 1].body
  }

  /** Reads the records in key order, checking each against the one before it. */
  method ReadRecords(s: State, order: seq<nat>, chainId: Bytes, genesis: Bytes, hash: Block -> Bytes)
    returns (ok: bool, blocks: seq<Block>, tip: Bytes)
    requires forall k | k in order :: k in s.db.blocks
    ensures ok <==> forall i: nat | i < |order| :: GoodAt(s, order, i, chainId, genesis, hash)
    ensures ok ==> |blocks| == |order| && forall i: nat | i < |order| :: ReadAt(s, blocks, i)
    ensures ok && order != [] ==> |order| in s.db.blocks && tip == s.db.blocks[|order|].hash
  {
    blocks, tip := [], genesis;
    for i := 0 to |order|
      invariant |blocks| == i
      invariant forall j: nat | j < i :: GoodAt(s, order, j, chainId, genesis, hash)
      invariant forall j: nat | j < i :: ReadAt(s, blocks, j)
      invariant if i > 0 then i in s.db.blocks && tip == s.db.blocks[i].hash else tip == genesis
    {
      assert order[i] in order;
      var record := s.db.blocks[order[i]];
      if order[i] != i + 1 || record.index != i + 1 || record.previous != tip || record.chainId != chainId
         || record.hash != hash(record.body) {
        assert !GoodAt(s, order, i, chainId, genesis, hash);
        return false, blocks, tip;
      }
      ghost var before := blocks;
      blocks := blocks + [record.body];
      tip := record.hash;
      forall j: nat | j <= i
        ensures ReadAt(s, blocks, j)
      {
        if j < i { assert ReadAt(s, before, j); }
      }
    }
    ok := true;
  }

  lemma LoadableIffRead(s: State, order: seq<nat>, chainId: Bytes, genesis: Bytes, hash: Block -> Bytes)
    requires Ascending(order, s.db.blocks.Keys)
    ensures Loadable(s, chainId, genesis, hash)
            <==> (forall i: nat | i < |order| :: GoodAt(s, order, i, chainId, genesis, hash))
                 && |order| == s.height && TipMatches(s, chainId)
  {
    hide TipMatches;
    if Loadable(s, chainId, genesis, hash) {
      AllCounted(order, s.db.blocks.Keys, 1, s.height + 1);
      hide LinkedAt, Ascending;
    } else if forall i: nat | i < |order| :: GoodAt(s, order, i, chainId, genesis, hash) {
      forall j | 0 <= j < |order|
        ensures order[j] == j + 1
      {
        assert GoodAt(s, order, j, chainId, genesis, hash);
      }
      CountsAll(order, s.db.blocks.Keys);
      hide LinkedAt, Ascending;
      forall k: nat | 1 <= k <= |order|
        ensures LinkedAt(s, k, chainId, genesis, hash)
      {
        assert GoodAt(s, order, k - 1, chainId, genesis, hash);
      }
    }
  }

  /** The record at a height: filed under its index, with the hash of its block, on the block below it. */
  ghost predicate ChainsAt(db: Db, k: nat, chainId: Bytes, genesis: Bytes, hash: Block -> Bytes) {
    && k in db.blocks && db.blocks[k].index == k && db.blocks[k].chainId == chainId
    && db.blocks[k].hash == hash(db.blocks[k].body)
    && (k == 1 ==> db.blocks[k].previous == genesis)
    && (k > 1 ==> k - 1 in db.blocks && db.blocks[k].previous == hash(db.blocks[k - 1].body))
  }

  /** What can be loaded: records for the heights 1 to the stored one and no others, each on the one below
      it, and a tip that is the hash of the last. */
  lemma LoadableIff(s: State, chainId: Bytes, genesis: Bytes, hash: Block -> Bytes)
    ensures Loadable(s, chainId, genesis, hash) <==>
              && (forall k :: k in s.db.blocks <==> 1 <= k <= s.height)
              && (forall k: nat | 1 <= k <= s.height :: ChainsAt(s.db, k, chainId, genesis, hash))
              && (s.height == 0 ==> s.db.chainId == None && s.db.tip == None)
              && (s.height > 0 ==> s.db.chainId == Some(chainId)
                                   && s.db.tip == Some(hash(s.db.blocks[s.height].body)))
  {
    if forall k: nat | 1 <= k <= s.height :: LinkedAt(s, k, chainId, genesis, hash) {
      forall k: nat | 1 <= k <= s.height
        ensures ChainsAt(s.db, k, chainId, genesis, hash)
      {
        assert LinkedAt(s, k, chainId, genesis, hash);
        if k > 1 { assert LinkedAt(s, k - 1, chainId, genesis, hash); }
      }
      if s.height > 0 { assert LinkedAt(s, s.height, chainId, genesis, hash); }
    }
    if forall k: nat | 1 <= k <= s.height :: ChainsAt(s.db, k, chainId, genesis, hash) {
      forall k: nat | 1 <= k <= s.height
        ensures LinkedAt(s, k, chainId, genesis, hash)
      {
        assert ChainsAt(s.db, k, chainId, genesis, hash);
        if k > 1 { assert ChainsAt(s.db, k - 1, chainId, genesis, hash); }
      }
      if s.height > 0 { assert ChainsAt(s.db, s.height, chainId, genesis, hash); }
    }
  }

  /** Succeeds exactly on a readable chain, and returns its blocks from height 1 to the tip. */
  method LoadCanonicalBlocks(s: State, order: seq<nat>, chainId: Bytes, genesis: Bytes, hash: Block -> Bytes)
    returns (r: Option<seq<Block>>)
    requires Iterated(order, s.db.blocks.Keys)
    ensures r.Some? <==> Loadable(s, chainId, genesis, hash)
    ensures r.Some? ==> |r.value| == s.height
                        && forall i: nat | i < s.height :: ReadAt(s, r.value, i)
    ensures r.Some? ==> forall i: nat | i < s.height :: i + 1 in s.db.blocks && r.value[i] == s.db.blocks[i + 1].body
  {
    IteratedAscends(order, s.db.blocks.Keys);
    LoadableIffRead(s, order, chainId, genesis, hash);
    hide GoodAt, Loadable, BlockKey, LexLess;
    var ok, blocks, tip := ReadRecords(s, order, chainId, genesis, hash);
    if !ok {
      return None;
    }
    forall i: nat | i < |blocks|
      ensures i + 1 in s.db.blocks && blocks[i] == s.db.blocks[i + 1].body
    {
      assert ReadAt(s, blocks, i);
    }
    if s.height == 0 {
      if blocks != [] || s.db.chainId.Some? || s.db.tip.Some? {
        return None;
      }
      return Some(blocks);
    }
    if s.db.chainId != Some(chainId) || |blocks| != s.height || s.db.tip != Some(tip) {
      return None;
    }
    r := Some(blocks);
  }

  /** Committing a block that follows keeps the stored chain readable, one block longer. */
  lemma PersistKeepsLoadable(s: State, block: Block, at: Place, genesis: Bytes, hash: Block -> Bytes)
    requires Loadable(s, at.chainId, genesis, hash) && Follows(s, at, genesis) && at.hash == hash(block)
    ensures Loadable(Persisted(s, block, at, genesis, true), at.chainId, genesis, hash)
  {
    var t := Persisted(s, block, at, genesis, true);
    forall k: nat | 1 <= k <= t.height
      ensures LinkedAt(t, k, at.chainId, genesis, hash)
    {
      if k <= s.height { assert LinkedAt(s, k, at.chainId, genesis, hash); }
    }
  }
}
