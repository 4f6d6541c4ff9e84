/** Starting a node on its store (src/bin/main.rs): the genesis allocation is minted into the cache of an
    empty store at height 0, and nothing but the launch supply is accepted there. */
module Startup {
  import opened Blocks
  import opened Encoding
  import opened Ledger

  datatype Genesis = Genesis(allocation: seq<(Addr, nat)>, launch: nat)

  function Opened(db: Db): State {
    State(db, map[], db.height)
  }

  /** All allocations in order, or nothing. */
  ghost function Minted(s: State, allocation: seq<(Addr, nat)>): Option<State> {
    if allocation == [] then Some(s)
    else
      var k := |allocation| - 1;
      match Minted(s, allocation[..k])
      case None => None
      case Some(t) =>
        if Mints(t, allocation[k].0, allocation[k].1) then Some(Credited(t, allocation[k].0, allocation[k].1)) else None
  }

  /** The ledger a node starts with, or none if start-up stops. */
  ghost function Launch(g: Genesis, db: Db): Option<State> {
    if db.height > 0 then Some(Opened(db))
    else if Supply(Opened(db)) % U128 == 0 then
      match Minted(Opened(db), g.allocation)
      case None => None
      case Some(t) => if Supply(t) % U128 == g.launch then Some(t) else None
    else if Supply(Opened(db)) % U128 == g.launch then Some(Opened(db))
    else None
  }

  lemma {:induction false} MintedPrefix(s: State, allocation: seq<(Addr, nat)>, k: nat)
    requires k <= |allocation| && Minted(s, allocation).Some?
    ensures Minted(s, allocation[..k]).Some?
  {
    hide Mints;
    if k < |allocation| {
      assert allocation[..|allocation| - 1][..k] == allocation[..k];
      MintedPrefix(s, allocation[..|allocation| - 1], k);
    } else {
      assert allocation[..k] == allocation;
    }
  }

  /** The start of a node on a store it has just opened. */
  method LaunchGenesis(g: Genesis, ledger: StateManager) returns (ok: bool)
    requires ledger.cache == map[] && ledger.height == ledger.db.height
    modifies ledger`cache
    ensures ok <==> Launch(g, ledger.db).Some?
    ensures ok ==> ledger.Abs() == Launch(g, ledger.db).value
  {
    hide Supply, Mints, Credited;
    if ledger.height > 0 {
      return true;
    }
    ghost var start := ledger.Abs();
    var existing := ledger.TotalSupply();
    if existing == 0 {
      for k := 0 to |g.allocation|
        invariant ledger.db == start.db && ledger.height == start.height
        invariant Minted(start, g.allocation[..k]) == Some(ledger.Abs())
      {
        assert g.allocation[..k + 1][..k] == g.allocation[..k];
        var minted := ledger.Mint(g.allocation[k].0, g.allocation[k].1);
        if !minted {
          if Minted(start, g.allocation).Some? { MintedPrefix(start, g.allocation, k + 1); }
          return false;
        }
      }
      assert g.allocation[..|g.allocation|] == g.allocation;
    } else if existing != g.launch {
      return false;
    }
    var total := ledger.TotalSupply();
    ok := total == g.launch;
  }

  // ---------------------------------------------------------------------------
  // What start-up guarantees
  // ---------------------------------------------------------------------------

  function Allocated(allocation: seq<(Addr, nat)>): nat {
    if allocation == [] then 0 else Allocated(allocation[..|allocation| - 1]) + allocation[|allocation| - 1].1
  }

  lemma {:induction false} MintedKeeps(s: State, allocation: seq<(Addr, nat)>)
    requires Minted(s, allocation).Some? && Clean(s) && Above(s)
    ensures var t := Minted(s, allocation).value;
            && t.db == s.db && t.height == s.height && Clean(t) && Above(t)
            && Supply(t) == Supply(s) + Allocated(allocation)
  {
    hide Supply, Mints;
    if allocation != [] {
      var k := |allocation| - 1;
      MintedKeeps(s, allocation[..k]);
      MintSupply(Minted(s, allocation[..k]).value, allocation[k].0, allocation[k].1);
    }
  }

  /** A started ledger stands on its store at the stored height, marks whatever it holds beyond the store,
      and at height 0 has exactly the launch supply. */
  lemma LaunchKeeps(g: Genesis, db: Db)
    requires Launch(g, db).Some?
    ensures var t := Launch(g, db).value;
            && t.db == db && t.height == db.height && Clean(t) && Above(t)
            && (db.height > 0 ==> Settled(t)) && (db.height == 0 ==> Supply(t) % U128 == g.launch)
  {
    hide Supply;
    if db.height == 0 && Supply(Opened(db)) % U128 == 0 {
      MintedKeeps(Opened(db), g.allocation);
    }
  }

  /** An allocation within the cap that adds up to the launch supply starts on the empty store, and every
      account then holds exactly what the allocation gives it. */
  lemma EmptyStoreLaunches(g: Genesis, db: Db)
    requires db.height == 0 && db.accounts == map[]
    requires Allocated(g.allocation) == g.launch <= MAX_SUPPLY
    ensures Launch(g, db).Some? && Supply(Launch(g, db).value) == g.launch
    ensures forall a :: View(Launch(g, db).value, a) == EMPTY.(balance := AllocatedTo(g.allocation, a))
  {
    hide Supply, Minted, View, AllocatedTo, Allocated;
    NothingStored(db);
    AllocationMints(Opened(db), g.allocation);
    SmallSupply(0);
    SmallSupply(g.launch);
  }

  lemma NothingStored(db: Db)
    requires db.accounts == map[]
    ensures Supply(Opened(db)) == 0
  {
    assert Balances(Opened(db)) == map[];
  }

  function AllocatedTo(allocation: seq<(Addr, nat)>, a: Addr): nat {
    if allocation == [] then 0
    else
      var last := allocation[|allocation| - 1];
      AllocatedTo(allocation[..|allocation| - 1], a) + if last.0 == a then last.1 else 0
  }

  lemma {:induction false} AllocationMints(s: State, allocation: seq<(Addr, nat)>)
    requires Supply(s) == 0 && s.db.accounts == map[] && s.cache == map[] && Allocated(allocation) <= MAX_SUPPLY
    ensures Minted(s, allocation).Some? && Supply(Minted(s, allocation).value) == Allocated(allocation)
    ensures forall a :: View(Minted(s, allocation).value, a) == EMPTY.(balance := AllocatedTo(allocation, a))
    ensures forall a :: AllocatedTo(allocation, a) <= Allocated(allocation)
  {
    hide Supply;
    if allocation != [] {
      var k := |allocation| - 1;
      AllocationMints(s, allocation[..k]);
      SmallSupply(Allocated(allocation[..k]));
      MintSupply(Minted(s, allocation[..k]).value, allocation[k].0, allocation[k].1);
    }
  }

  /** A ledger that answers as its store would start still does so after writing its cache out. */
  lemma LaunchAfterSync(g: Genesis, s: State)
    requires g.launch > 0 && Clean(s) && s.height == s.db.height
    requires Launch(g, s.db).Some? && SameView(s, Launch(g, s.db).value)
    ensures var t := Synced(s, true);
            Launch(g, t.db).Some? && SameView(t, Launch(g, t.db).value) && SameView(t, s)
  {
    var t := Synced(s, true);
    SyncSettles(s);
    LaunchKeeps(g, s.db);
    assert SameView(t, Opened(t.db)) && SameView(t, s);
    hide Supply, Minted;
    SupplySame(s, Launch(g, s.db).value);
    SupplySame(t, s);
    SupplySame(t, Opened(t.db));
  }
}
