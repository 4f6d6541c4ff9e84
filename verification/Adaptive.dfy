/** The adaptive consensus driver (crates/bleep-consensus/src/consensus.rs). The order in which a hash
    map hands out its validators, the hash of the proof-of-work search and the network hash rate are
    given from outside; reputation and reliability are real numbers. */
module Adaptive {
  import opened Encoding
  import opened Epoch

  datatype Validator = Validator(id: Bytes, reputation: real, latency: nat, stake: nat, active: bool)

  /** A block, with the digest that mining commits to if its protocol version has one. */
  datatype Block = Block(index: nat, commitment: Option<Bytes>, body: Bytes)

  datatype State = State(mode: Mode, reliability: real, validators: map<Bytes, Validator>,
                         difficulty: nat, chain: seq<Block>)

  /** What one attempt at consensus sees of the outside. */
  datatype Round = Round(order: seq<Bytes>, hashrate: nat)

  predicate Keyed(vs: map<Bytes, Validator>) {
    forall id | id in vs :: vs[id].id == id
  }

  predicate Enumerates(order: seq<Bytes>, vs: map<Bytes, Validator>) {
    (forall id | id in vs :: id in order) && (forall id | id in order :: id in vs)
  }

  // ---------------------------------------------------------------------------
  // The leader
  // ---------------------------------------------------------------------------

  lemma {:induction false} LexTotal(a: Bytes, b: Bytes)
    ensures a == b || LexLess(a, b) || LexLess(b, a)
    ensures !(LexLess(a, b) && LexLess(b, a)) && !LexLess(a, a)
  {
    if a != [] {
      LexTotal(a[1..], if b == [] then [] else b[1..]);
      assert a == [a[0]] + a[1..];
      if b != [] { assert b == [b[0]] + b[1..]; }
    }
  }

  lemma {:induction false} LexTransitive(a: Bytes, b: Bytes, c: Bytes)
    requires LexLess(a, b) && LexLess(b, c)
    ensures LexLess(a, c)
  {
    if a != [] && a[0] == b[0] && b[0] == c[0] {
      LexTransitive(a[1..], b[1..], c[1..]);
    }
  }

  /** The sort order of the validators: more stake first, then the smaller id. */
  predicate Precedes(a: Validator, b: Validator) {
    a.stake > b.stake || (a.stake == b.stake && LexLess(a.id, b.id))
  }

  lemma PrecedesTransitive(a: Validator, b: Validator, c: Validator)
    requires Precedes(a, b) && Precedes(b, c)
    ensures Precedes(a, c)
  {
    if a.stake == b.stake == c.stake { LexTransitive(a.id, b.id, c.id); }
  }

  /** `v` comes before every other validator. */
  ghost predicate IsTop(vs: map<Bytes, Validator>, v: Validator) {
    v.id in vs && vs[v.id] == v && forall id | id in vs && id != v.id :: Precedes(v, vs[id])
  }

  lemma TopIsUnique(vs: map<Bytes, Validator>, v: Validator, w: Validator)
    requires Keyed(vs) && IsTop(vs, v) && IsTop(vs, w)
    ensures v == w
  {
    LexTotal(v.id, w.id);
  }

  /** The head of the sorted validators does not depend on the order of the map. */
  method Leader(vs: map<Bytes, Validator>, order: seq<Bytes>) returns (top: Option<Validator>)
    requires Keyed(vs) && Enumerates(order, vs)
    ensures top.None? <==> vs == map[]
    ensures top.Some? ==> IsTop(vs, top.value)
    ensures top.Some? ==> top.value.id in vs && vs[top.value.id] == top.value
    ensures top.Some? ==> forall id | id in vs && id != top.value.id ::
                            || vs[id].stake < top.value.stake
                            || (vs[id].stake == top.value.stake && LexLess(top.value.id, id))
  {
    if order == [] {
      assert vs.Keys == {};
      return None;
    }
    var best := vs[order[0]];
    for i := 1 to |order|
      invariant best.id in vs && vs[best.id] == best
      invariant forall j | 0 <= j < i :: order[j] == best.id || Precedes(best, vs[order[j]])
    {
      var v := vs[order[i]];
      LexTotal(v.id, best.id);
      if Precedes(v, best) {
        forall j | 0 <= j < i && order[j] != best.id
          ensures Precedes(v, vs[order[j]])
        {
          PrecedesTransitive(v, best, vs[order[j]]);
        }
        best := v;
      }
    }
    top := Some(best);
  }

  ghost predicate Eligible(vs: map<Bytes, Validator>) {
    exists v :: IsTop(vs, v) && v.active && v.reputation > 0.8
  }

  /** In terms of the validators: the one with the most stake, and among equals the smallest id, is active
      with a reputation above 0.8. */
  lemma EligibleMeans(vs: map<Bytes, Validator>)
    requires Keyed(vs)
    ensures Eligible(vs) <==>
              exists id | id in vs ::
                && vs[id].active && vs[id].reputation > 0.8
                && forall x | x in vs && x != id ::
                     vs[x].stake < vs[id].stake || (vs[x].stake == vs[id].stake && LexLess(id, x))
  {
    hide LexLess;
    if Eligible(vs) {
      var v :| IsTop(vs, v) && v.active && v.reputation > 0.8;
      assert v.id in vs && vs[v.id] == v;
    }
    if id :| id in vs && vs[id].active && vs[id].reputation > 0.8
             && forall x | x in vs && x != id ::
                  vs[x].stake < vs[id].stake || (vs[x].stake == vs[id].stake && LexLess(id, x)) {
      assert IsTop(vs, vs[id]);
    }
  }

  // ---------------------------------------------------------------------------
  // Mining
  // ---------------------------------------------------------------------------

  const MAX_NONCE := 10000000

  function Attempt(sha: Bytes -> Bytes, commitment: Bytes, nonce: nat): Bytes {
    Hex(sha(commitment + LittleEndian(nonce, 8)))
  }

  /** At least `n` leading zero digits. */
  predicate LeadingZeros(digits: Bytes, n: nat) {
    n <= |digits| && forall i | 0 <= i < n :: digits[i] == 48
  }

  ghost predicate Minable(sha: Bytes -> Bytes, block: Block, difficulty: nat) {
    block.commitment.Some?
    && exists nonce: nat :: nonce < MAX_NONCE && LeadingZeros(Attempt(sha, block.commitment.value, nonce), difficulty)
  }

  /** The digest of the commitment and the nonce begins with `difficulty` zeros in hexadecimal. */
  ghost predicate Solves(sha: Bytes -> Bytes, commitment: Bytes, nonce: nat, difficulty: nat) {
    var digits := Hex(sha(commitment + LittleEndian(nonce, 8)));
    difficulty <= |digits| && digits[..difficulty] == Repeat(48, difficulty)
  }

  method Mine(sha: Bytes -> Bytes, block: Block, difficulty: nat) returns (found: bool)
    ensures found <==> Minable(sha, block, difficulty)
    ensures found <==> && block.commitment.Some?
                       && exists nonce: nat ::
                            nonce < 10_000_000 && Solves(sha, block.commitment.value, nonce, difficulty)
  {
    forall nonce: nat, digest
      ensures LeadingZeros(Attempt(sha, digest, nonce), difficulty) <==> Solves(sha, digest, nonce, difficulty)
    {
    }
    hide LeadingZeros, Attempt;
    if block.commitment.None? {
      return false;
    }
    for nonce := 0 to MAX_NONCE
      invariant forall n: nat | n < nonce :: !LeadingZeros(Attempt(sha, block.commitment.value, n), difficulty)
    {
      if LeadingZeros(Attempt(sha, block.commitment.value, nonce), difficulty) {
        return true;
      }
    }
    found := false;
  }

  // ---------------------------------------------------------------------------
  // Specification of the calls
  // ---------------------------------------------------------------------------

  datatype Op =
    | Switch(load: nat, latency: nat)
    | Finalize(block: Block, first: Round, second: Round)
    | Monitor

  function Reliability(load: nat, latency: nat): real {
    if load > 90 || latency > 500 then 0.60
    else if load > 70 || latency > 200 then 0.75
    else 0.90
  }

  function Predicted(reliability: real): Mode {
    if reliability < 0.6 then PoW else if reliability < 0.8 then PBFT else PoS
  }

  function Switched(s: State, load: nat, latency: nat): State {
    var reliability := Reliability(load, latency);
    if s.mode != Predicted(reliability) then s.(mode := Predicted(reliability), reliability := reliability) else s
  }

  function Adjusted(difficulty: nat, hashrate: nat): nat {
    if hashrate > 500 then difficulty + 1 else if difficulty > 2 then difficulty - 1 else difficulty
  }

  ghost predicate Accepts(sha: Bytes -> Bytes, s: State, block: Block) {
    match s.mode
    case PoS => Eligible(s.validators)
    case PBFT => false
    case PoW => Minable(sha, block, s.difficulty)
  }

  ghost function Attempted(sha: Bytes -> Bytes, s: State, block: Block, r: Round): State {
    if !Accepts(sha, s, block) then s
    else if s.mode == PoS then s.(chain := s.chain + [block])
    else s.(difficulty := Adjusted(s.difficulty, r.hashrate))
  }

  const SUSPECT := 0.30

  function Monitored(vs: map<Bytes, Validator>): map<Bytes, Validator> {
    map id | id in vs :: if vs[id].reputation < SUSPECT then vs[id].(active := false) else vs[id]
  }

  ghost predicate Finalizes(sha: Bytes -> Bytes, s: State, op: Op)
    requires op.Finalize?
  {
    Accepts(sha, s, op.block) || Accepts(sha, Switched(s, 50, 40), op.block)
  }

  ghost function Apply(sha: Bytes -> Bytes, s: State, op: Op): State {
    match op
    case Switch(load, latency) => Switched(s, load, latency)
    case Monitor => s.(validators := Monitored(s.validators))
    case Finalize(b, r1, r2) =>
      if Accepts(sha, s, b) then Attempted(sha, s, b, r1) else Attempted(sha, Switched(s, 50, 40), b, r2)
  }

  /** The chain that the caller hands to the driver; adding to it always succeeds. */
  class BlockchainState {
    var blocks: seq<Block>

    constructor ()
      ensures blocks == []
    {
      blocks := [];
    }

    method AddBlock(block: Block) returns (ok: bool)
      modifies this
      ensures ok && blocks == old(blocks) + [block]
    {
      blocks := blocks + [block];
      ok := true;
    }
  }

  class AdaptiveConsensus {
    const sha: Bytes -> Bytes
    var mode: Mode
    var reliability: real
    var validators: map<Bytes, Validator>
    var difficulty: nat

    ghost function Abs(chain: BlockchainState): State
      reads this, chain
    {
      State(mode, reliability, validators, difficulty, chain.blocks)
    }

    constructor (sha: Bytes -> Bytes, vs: map<Bytes, Validator>)
      ensures mode == PoS && reliability == 0.95 && validators == vs && difficulty == 4 && this.sha == sha
    {
      this.sha := sha;
      mode, reliability, validators, difficulty := PoS, 0.95, vs, 4;
    }

    method SwitchConsensusMode(load: nat, latency: nat, ghost chain: BlockchainState)
      modifies this
      ensures Abs(chain) == Apply(sha, old(Abs(chain)), Switch(load, latency))
      ensures mode == if load > 70 || latency > 200 then PBFT else PoS
      ensures reliability == if mode == old(mode) then old(reliability)
                             else if load > 90 || latency > 500 then 0.60
                             else if load > 70 || latency > 200 then 0.75 else 0.90
    {
      var r := Reliability(load, latency);
      var predicted := Predicted(r);
      if mode != predicted {
        mode := predicted;
        reliability := r;
      }
    }

    method RunConsensus(block: Block, chain: BlockchainState, r: Round) returns (ok: bool)
      requires Keyed(validators) && Enumerates(r.order, validators)
      modifies this, chain
      ensures ok <==> Accepts(sha, old(Abs(chain)), block)
      ensures Abs(chain) == Attempted(sha, old(Abs(chain)), block, r)
      ensures ok ==> old(mode) != PBFT
      ensures chain.blocks == if ok && old(mode) == PoS then old(chain.blocks) + [block] else old(chain.blocks)
      ensures difficulty == if !ok || old(mode) != PoW then old(difficulty)
                            else if r.hashrate > 500 then old(difficulty) + 1
                            else if old(difficulty) > 2 then old(difficulty) - 1 else old(difficulty)
    {
      match mode
      case PoS =>
        var top := Leader(validators, r.order);
        if top.Some? {
          if top.value.active && top.value.reputation > 0.8 {
            ok := chain.AddBlock(block);
            return;
          }
          forall v | IsTop(validators, v) ensures v == top.value {
            TopIsUnique(validators, v, top.value);
          }
        }
        ok := false;
      case PBFT =>
        ok := false;
      case PoW =>
        ok := Mine(sha, block, difficulty);
        if ok {
          difficulty := Adjusted(difficulty, r.hashrate);
        }
    }

    method FinalizeBlock(block: Block, chain: BlockchainState, first: Round, second: Round) returns (ok: bool)
      requires Keyed(validators) && Enumerates(first.order, validators) && Enumerates(second.order, validators)
      modifies this, chain
      ensures ok <==> Finalizes(sha, old(Abs(chain)), Finalize(block, first, second))
      ensures Abs(chain) == Apply(sha, old(Abs(chain)), Finalize(block, first, second))
    {
      ok := RunConsensus(block, chain, first);
      if ok {
        return;
      }
      SwitchConsensusMode(50, 40, chain);
      ok := RunConsensus(block, chain, second);
    }

    /** The suspects are collected first and deactivated one by one, in any order. */
    method MonitorValidators(order: seq<Bytes>, ghost chain: BlockchainState)
      requires Enumerates(order, validators)
      modifies this
      ensures Abs(chain) == Apply(sha, old(Abs(chain)), Monitor)
      ensures validators.Keys == old(validators).Keys
      ensures forall id | id in validators ::
                validators[id] == old(validators)[id].(active := old(validators)[id].active
                                                                 && old(validators)[id].reputation >= 0.30)
    {
      ghost var before := validators;
      for i := 0 to |order|
        invariant mode == old(mode) && reliability == old(reliability) && difficulty == old(difficulty)
        invariant validators.Keys == before.Keys
        invariant forall id | id in before ::
                    validators[id] == if id in order[..i] && before[id].reputation < SUSPECT
                                      then before[id].(active := false) else before[id]
      {
        assert order[..i + 1] == order[..i] + [order[i]];
        var v := validators[order[i]];
        if v.reputation < SUSPECT {
          validators := validators[order[i] := v.(active := false)];
        }
      }
      assert order[..|order|] == order;
      assert validators == Monitored(before);
    }
  }

  // ---------------------------------------------------------------------------
  // Runs
  // ---------------------------------------------------------------------------

  function Start(vs: map<Bytes, Validator>, chain: seq<Block>): State {
    State(PoS, 0.95, vs, 4, chain)
  }

  ghost function Run(sha: Bytes -> Bytes, s: State, ops: seq<Op>): State {
    if ops == [] then s else Apply(sha, Run(sha, s, ops[..|ops| - 1]), ops[|ops| - 1])
  }

  /** The blocks handed to `finalize_block`, in order. */
  function Submitted(ops: seq<Op>): seq<Block> {
    if ops == [] then []
    else Submitted(ops[..|ops| - 1]) + if ops[|ops| - 1].Finalize? then [ops[|ops| - 1].block] else []
  }

  /** Proof-of-work is out of reach: the worst reliability is not below the threshold. */
  lemma SwitchAvoidsPoW(load: nat, latency: nat)
    ensures Predicted(Reliability(load, latency)) != PoW
    ensures Predicted(Reliability(50, 40)) == PoS
  {
  }

  lemma MonitorMoves(vs: map<Bytes, Validator>, v: Validator)
    requires Keyed(vs) && IsTop(vs, v)
    ensures IsTop(Monitored(vs), if v.reputation < SUSPECT then v.(active := false) else v)
  {
  }

  /** Monitoring never changes whether blocks can be finalized. */
  lemma MonitorKeepsEligibility(vs: map<Bytes, Validator>)
    requires Keyed(vs)
    ensures Keyed(Monitored(vs)) && (Eligible(Monitored(vs)) <==> Eligible(vs))
  {
    hide IsTop;
    if Eligible(vs) {
      var v :| IsTop(vs, v) && v.active && v.reputation > 0.8;
      MonitorMoves(vs, v);
    }
    if Eligible(Monitored(vs)) {
      var w :| IsTop(Monitored(vs), w) && w.active && w.reputation > 0.8;
      MonitoredTop(vs, w);
    }
  }

  lemma MonitoredTop(vs: map<Bytes, Validator>, w: Validator)
    requires Keyed(vs) && IsTop(Monitored(vs), w) && w.active
    ensures IsTop(vs, w)
  {
    forall id | id in vs && id != w.id
      ensures Precedes(w, vs[id])
    {
      assert Precedes(w, Monitored(vs)[id]);
    }
  }

  ghost predicate Reached(s: State, vs: map<Bytes, Validator>, chain: seq<Block>) {
    && s.mode != PoW && s.difficulty == 4 && Keyed(s.validators)
    && (Eligible(s.validators) <==> Eligible(vs))
    && s.chain == chain
  }

  lemma StepReached(sha: Bytes -> Bytes, s: State, op: Op, vs: map<Bytes, Validator>, chain: seq<Block>)
    requires Reached(s, vs, chain)
    ensures op.Finalize? ==> (Finalizes(sha, s, op) <==> Eligible(vs))
    ensures Reached(Apply(sha, s, op), vs, chain + if op.Finalize? && Eligible(vs) then [op.block] else [])
  {
    hide Eligible, Keyed, Monitored;
    assert chain + [] == chain;
    match op
    case Switch(load, latency) => SwitchAvoidsPoW(load, latency);
    case Monitor => MonitorKeepsEligibility(s.validators);
    case Finalize(_, _, _) =>
  }

  /** The validators at construction decide everything: over any run of switches, finalizations and
      monitoring, either every block submitted is appended once and in order, or none is; no switch
      of mode ever makes a difference, and proof-of-work is never reached. */
  lemma {:induction false} FateIsFixed(sha: Bytes -> Bytes, vs: map<Bytes, Validator>, chain: seq<Block>, ops: seq<Op>)
    requires Keyed(vs)
    ensures Reached(Run(sha, Start(vs, chain), ops), vs, chain + if Eligible(vs) then Submitted(ops) else [])
  {
    hide Eligible, Keyed, Apply;
    if ops == [] {
      assert chain + [] == chain;
    } else {
      var n := |ops| - 1;
      FateIsFixed(sha, vs, chain, ops[..n]);
      var so := chain + if Eligible(vs) then Submitted(ops[..n]) else [];
      StepReached(sha, Run(sha, Start(vs, chain), ops[..n]), ops[n], vs, so);
      assert so + (if ops[n].Finalize? && Eligible(vs) then [ops[n].block] else [])
          == chain + if Eligible(vs) then Submitted(ops) else [];
    }
  }

  /** A finalization anywhere in a run succeeds exactly when the first validators made it possible. */
  lemma OutcomeIsFixed(sha: Bytes -> Bytes, vs: map<Bytes, Validator>, chain: seq<Block>, ops: seq<Op>, op: Op)
    requires Keyed(vs) && op.Finalize?
    ensures Finalizes(sha, Run(sha, Start(vs, chain), ops), op) <==> Eligible(vs)
  {
    hide Eligible, Keyed, Run;
    FateIsFixed(sha, vs, chain, ops);
    StepReached(sha, Run(sha, Start(vs, chain), ops), op, vs, chain + if Eligible(vs) then Submitted(ops) else []);
  }
}
