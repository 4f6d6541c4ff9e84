/** The Layer 3 bridge (crates/bleep-interop/layer3_bridge.rs): intents, the batch queue of the
    prover, and the life of an intent. Proof generation and verification are verdicts given from
    outside. */
module Bridge {
  import opened Arithmetic
  import opened Encoding

  datatype Chain = Bleep | EthereumSepolia | EthereumMainnet | Solana

  datatype Transfer = Transfer(source: Chain, dest: Chain, sender: string, recipient: string,
                               amount: nat, token: string, nonce: nat)

  datatype L3State = Initiated | ProofGenerating | ProofReady | Submitted | Verified | Finalized | Failed(why: string)

  datatype Proof = Proof(batchIds: seq<Bytes>, bytes: Bytes)

  datatype Intent = Intent(id: Bytes, transfer: Transfer, state: L3State, proof: Option<Proof>)

  datatype State = State(pending: seq<Bytes>, intents: map<Bytes, Intent>, nextId: nat)

  const START := State([], map[], 1)

  // ---------------------------------------------------------------------------
  // Intent ids
  // ---------------------------------------------------------------------------

  /** Byte `i` of the id of intent number `n`: the little-endian counter repeated four times. */
  function IdByte(n: nat, i: nat): Byte {
    (n / Pow256(i % 8)) % 256
  }

  function IdOf(n: nat): (id: Bytes)
    ensures |id| == 32
  {
    seq(32, i requires 0 <= i < 32 => IdByte(n, i))
  }

  lemma {:induction false} LittleEndianAt(n: nat, width: nat, k: nat)
    requires k < width
    ensures LittleEndian(n, width)[k] == (n / Pow256(k)) % 256
  {
    if k > 0 {
      LittleEndianAt(n / 256, width - 1, k - 1);
      DivideTwice(n, 256, Pow256(k - 1));
    }
  }

  /** An id is the little-endian counter four times over. */
  lemma IdRepeatsCounter(n: nat)
    ensures var word := LittleEndian(n, 8); IdOf(n) == word + word + word + word
  {
    hide LittleEndian, Pow256, IdByte, IdOf;
    var word := LittleEndian(n, 8);
    forall i: nat | i < 32
      ensures IdOf(n)[i] == (word + word + word + word)[i]
    {
      IdStarts(n, i % 8);
      IdPeriod(n, i);
      FourTimes(word, i);
    }
  }

  lemma IdPeriod(n: nat, i: nat)
    requires i < 32
    ensures IdOf(n)[i] == IdOf(n)[i % 8]
  {
    hide Pow256;
    assert i % 8 % 8 == i % 8;
  }

  lemma FourTimes(word: Bytes, i: nat)
    requires |word| == 8 && i < 32
    ensures (word + word + word + word)[i] == word[i % 8]
  {
  }

  /** Different counters give different ids. */
  lemma IdInjective(m: nat, n: nat)
    requires m < U64 && n < U64 && IdOf(m) == IdOf(n)
    ensures m == n
  {
    forall k: nat | k < 8
      ensures LittleEndian(m, 8)[k] == LittleEndian(n, 8)[k]
    {
      IdStarts(m, k);
      IdStarts(n, k);
    }
    hide LittleEndian, IdOf, Pow256;
    assert LittleEndian(m, 8) == LittleEndian(n, 8);
    WordSizes();
    LittleEndianInjective(m, n, 8);
  }

  lemma IdStarts(n: nat, k: nat)
    requires k < 8
    ensures LittleEndian(n, 8)[k] == IdOf(n)[k]
  {
    hide LittleEndian, Pow256;
    LittleEndianAt(n, 8, k);
  }

  // ---------------------------------------------------------------------------
  // Specification of the calls
  // ---------------------------------------------------------------------------

  datatype Op =
    | Initiate(transfer: Transfer)
    | Flush(generated: bool, bytes: Bytes)
    | Submit(id: Bytes, proof: Proof, verifies: bool)
    | Finalize(id: Bytes)

  function MarkReady(intents: map<Bytes, Intent>, ids: seq<Bytes>): map<Bytes, Intent> {
    map id | id in intents :: if id in ids then intents[id].(state := ProofReady) else intents[id]
  }

  function Apply(s: State, op: Op): State {
    match op
    case Initiate(t) =>
      var id := IdOf(s.nextId);
      State(s.pending + [id], s.intents[id := Intent(id, t, Initiated, None)], (s.nextId + 1) % U64)
    case Flush(generated, _) =>
      if s.pending == [] then s
      else if !generated then s.(pending := [])
      else s.(pending := [], intents := MarkReady(s.intents, s.pending))
    case Submit(id, proof, verifies) =>
      if id !in s.intents || !s.intents[id].state.ProofReady? then s
      else if verifies then s.(intents := s.intents[id := s.intents[id].(state := Verified, proof := Some(proof))])
      else s.(intents := s.intents[id := s.intents[id].(state := Failed("proof verification failed"))])
    case Finalize(id) =>
      if id in s.intents && s.intents[id].state.Verified?
      then s.(intents := s.intents[id := s.intents[id].(state := Finalized)]) else s
  }

  /** The batch a call turns into a proof, if any. */
  function BatchOf(s: State, op: Op): seq<Bytes> {
    if op.Flush? && op.generated then s.pending else []
  }

  class Layer3Bridge {
    var pendingBatch: seq<Bytes>
    var intents: map<Bytes, Intent>
    var nextId: nat

    ghost function Abs(): State
      reads this
    {
      State(pendingBatch, intents, nextId)
    }

    constructor ()
      ensures Abs() == START
    {
      pendingBatch, intents, nextId := [], map[], 1;
    }

    method InitiateIntent(t: Transfer) returns (id: Bytes)
      modifies this
      ensures id == IdOf(old(nextId))
      ensures Abs() == Apply(old(Abs()), Initiate(t))
    {
      var n := nextId;
      nextId := (nextId + 1) % U64;
      id := [];
      for i := 0 to 32
        invariant |id| == i && forall j | 0 <= j < i :: id[j] == IdByte(n, j)
      {
        id := id + [(n / Pow256(i % 8)) % 256];
      }
      assert id == IdOf(n);
      var intent := Intent(id, t, Initiated, None);
      pendingBatch := pendingBatch + [id];
      intents := intents[id := intent];
    }

    /** The queue is emptied before the proof is generated, and stays empty if that fails. */
    method FlushBatch(generated: bool, bytes: Bytes) returns (proof: Option<Proof>)
      modifies this
      ensures Abs() == Apply(old(Abs()), Flush(generated, bytes))
      ensures proof == if old(pendingBatch) != [] && generated then Some(Proof(old(pendingBatch), bytes)) else None
    {
      if pendingBatch == [] {
        return None;
      }
      var batchIds := pendingBatch;
      pendingBatch := [];
      if !generated {
        return None;
      }
      ghost var before := intents;
      for i := 0 to |batchIds|
        invariant pendingBatch == [] && nextId == old(nextId)
        invariant intents == MarkReady(before, batchIds[..i])
      {
        assert batchIds[..i + 1] == batchIds[..i] + [batchIds[i]];
        if batchIds[i] in intents {
          intents := intents[batchIds[i] := intents[batchIds[i]].(state := ProofReady)];
        }
      }
      assert batchIds[..|batchIds|] == batchIds;
      proof := Some(Proof(batchIds, bytes));
    }

    method SubmitProof(id: Bytes, proof: Proof, verifies: bool) returns (ok: bool)
      modifies this
      ensures Abs() == Apply(old(Abs()), Submit(id, proof, verifies))
      ensures ok <==> old(id in intents && intents[id].state.ProofReady?) && verifies
      ensures old(id in intents && intents[id].state.ProofReady?) ==>
                intents == old(intents)[id := if verifies
                                              then old(intents)[id].(state := Verified, proof := Some(proof))
                                              else old(intents)[id].(state := Failed("proof verification failed"))]
    {
      if id !in intents || intents[id].state != ProofReady {
        return false;
      }
      if verifies {
        intents := intents[id := intents[id].(state := Verified, proof := Some(proof))];
        ok := true;
      } else {
        intents := intents[id := intents[id].(state := Failed("proof verification failed"))];
        ok := false;
      }
    }

    method FinalizeIntent(id: Bytes) returns (ok: bool)
      modifies this
      ensures Abs() == Apply(old(Abs()), Finalize(id))
      ensures ok <==> old(id in intents && intents[id].state.Verified?)
      ensures ok ==> intents == old(intents)[id := old(intents)[id].(state := Finalized)]
    {
      if id in intents && intents[id].state == Verified {
        intents := intents[id := intents[id].(state := Finalized)];
        return true;
      }
      ok := false;
    }
  }

  // ---------------------------------------------------------------------------
  // Runs
  // ---------------------------------------------------------------------------

  function After(ops: seq<Op>): State {
    if ops == [] then START else Apply(After(ops[..|ops| - 1]), ops[|ops| - 1])
  }

  function Initiations(ops: seq<Op>): nat {
    if ops == [] then 0 else Initiations(ops[..|ops| - 1]) + if ops[|ops| - 1].Initiate? then 1 else 0
  }

  /** The ids handed out, in order. */
  function Issued(ops: seq<Op>): seq<Bytes> {
    if ops == [] then []
    else
      var n := |ops| - 1;
      Issued(ops[..n]) + if ops[n].Initiate? then [IdOf(After(ops[..n]).nextId)] else []
  }

  /** All ids that entered a successful batch, in order. */
  function Batched(ops: seq<Op>): seq<Bytes> {
    if ops == [] then []
    else
      var n := |ops| - 1;
      Batched(ops[..n]) + BatchOf(After(ops[..n]), ops[n])
  }

  predicate NoDup(ids: seq<Bytes>) {
    forall i, j | 0 <= i < j < |ids| :: ids[i] != ids[j]
  }

  lemma NoDupConcat(a: seq<Bytes>, b: seq<Bytes>)
    requires NoDup(a) && NoDup(b) && forall x | x in a :: x !in b
    ensures NoDup(a + b)
  {
    var ab := a + b;
    forall i, j | 0 <= i < j < |ab|
      ensures ab[i] != ab[j]
    {
      if i < |a| <= j { assert ab[i] in a && ab[j] in b; }
    }
  }

  ghost predicate QueueInv(s: State) {
    NoDup(s.pending) && forall id | id in s.pending :: id in s.intents && s.intents[id].state.Initiated?
  }

  /** `id` belongs to one of the first `n` intents. */
  ghost predicate Named(id: Bytes, n: nat) {
    exists k :: 1 <= k <= n && id == IdOf(k)
  }

  ghost predicate Numbered(s: State, n: nat) {
    && n + 1 < U64 && s.nextId == n + 1
    && |s.intents| == n
    && forall id | id in s.intents :: s.intents[id].id == id && Named(id, n)
  }

  /** No call ever enters the two states that the code never assigns. */
  ghost predicate Reachable(s: State) {
    forall id | id in s.intents :: !s.intents[id].state.ProofGenerating? && !s.intents[id].state.Submitted?
  }

  lemma FreshId(s: State, n: nat)
    requires Numbered(s, n)
    ensures IdOf(s.nextId) !in s.intents
  {
    if IdOf(s.nextId) in s.intents {
      assert Named(IdOf(s.nextId), n);
      var k :| 1 <= k <= n && IdOf(s.nextId) == IdOf(k);
      IdInjective(s.nextId, k);
    }
  }

  lemma StepQueue(s: State, op: Op, n: nat)
    requires QueueInv(s) && Numbered(s, n) && Reachable(s)
    ensures QueueInv(Apply(s, op)) && Reachable(Apply(s, op))
  {
    hide IdOf, Numbered;
    FreshId(s, n);
    if op.Initiate? {
      NoDupConcat(s.pending, [IdOf(s.nextId)]);
    }
  }

  lemma StepNumbered(s: State, op: Op, n: nat)
    requires QueueInv(s) && Numbered(s, n) && (op.Initiate? ==> n + 2 < U64)
    ensures Numbered(Apply(s, op), if op.Initiate? then n + 1 else n)
  {
    hide IdOf, QueueInv, NoDup;
    if op.Initiate? {
      InitiateNumbered(s, op, n);
    } else {
      OthersKeepIds(s, op);
      hide Named, Apply;
      KeyCount(s.intents, Apply(s, op).intents);
    }
  }

  lemma KeyCount(a: map<Bytes, Intent>, b: map<Bytes, Intent>)
    requires a.Keys == b.Keys
    ensures |a| == |b|
  {
    assert |a| == |a.Keys| && |b| == |b.Keys|;
  }

  lemma KeyAdded(a: map<Bytes, Intent>, id: Bytes, intent: Intent)
    requires id !in a
    ensures |a[id := intent]| == |a| + 1
  {
  }

  lemma InitiateNumbered(s: State, op: Op, n: nat)
    requires Numbered(s, n) && op.Initiate? && n + 2 < U64
    ensures Numbered(Apply(s, op), n + 1)
  {
    hide IdOf;
    var id := IdOf(s.nextId);
    FreshId(s, n);
    KeyAdded(s.intents, id, Intent(id, op.transfer, Initiated, None));
    assert Named(id, n + 1);
    forall x | x in s.intents
      ensures Named(x, n + 1)
    {
      assert Named(x, n);
    }
    hide Named;
  }

  lemma OthersKeepIds(s: State, op: Op)
    requires !op.Initiate?
    ensures var t := Apply(s, op);
            && t.nextId == s.nextId && t.intents.Keys == s.intents.Keys
            && forall id | id in s.intents :: t.intents[id].id == s.intents[id].id
  {
  }

  lemma {:induction false} RunInv(ops: seq<Op>)
    requires Initiations(ops) + 1 < U64
    ensures var s := After(ops); QueueInv(s) && Reachable(s) && Numbered(s, Initiations(ops))
  {
    if ops != [] {
      var n := |ops| - 1;
      RunInv(ops[..n]);
      StepQueue(After(ops[..n]), ops[n], Initiations(ops[..n]));
      StepNumbered(After(ops[..n]), ops[n], Initiations(ops[..n]));
    }
  }

  // ---------------------------------------------------------------------------
  // Ids and batches
  // ---------------------------------------------------------------------------

  /** Every id handed out in a run is new. */
  lemma {:induction false} IdsAreDistinct(ops: seq<Op>)
    requires Initiations(ops) + 1 < U64
    ensures NoDup(Issued(ops)) && |Issued(ops)| == Initiations(ops)
    ensures forall id | id in Issued(ops) :: id in After(ops).intents
  {
    if ops != [] {
      var n := |ops| - 1;
      var s := After(ops[..n]);
      IdsAreDistinct(ops[..n]);
      RunInv(ops[..n]);
      assert forall id | id in s.intents :: id in After(ops).intents;
      if ops[n].Initiate? {
        FreshId(s, Initiations(ops[..n]));
        NoDupConcat(Issued(ops[..n]), [IdOf(s.nextId)]);
      } else {
        assert Issued(ops) == Issued(ops[..n]);
      }
    }
  }

  /** Each intent enters at most one successful batch over a whole run. */
  lemma {:induction false} BatchedOnce(ops: seq<Op>)
    requires Initiations(ops) + 1 < U64
    ensures NoDup(Batched(ops))
    ensures forall id | id in Batched(ops) :: id in After(ops).intents && !After(ops).intents[id].state.Initiated?
  {
    if ops != [] {
      var n := |ops| - 1;
      BatchedOnce(ops[..n]);
      RunInv(ops[..n]);
      BatchStep(After(ops[..n]), ops[n], Batched(ops[..n]), Initiations(ops[..n]));
    }
  }

  lemma BatchStep(s: State, op: Op, batched: seq<Bytes>, n: nat)
    requires QueueInv(s) && Numbered(s, n) && NoDup(batched)
    requires forall id | id in batched :: id in s.intents && !s.intents[id].state.Initiated?
    ensures NoDup(batched + BatchOf(s, op))
    ensures forall id | id in batched + BatchOf(s, op) ::
              id in Apply(s, op).intents && !Apply(s, op).intents[id].state.Initiated?
  {
    hide IdOf, Numbered;
    FreshId(s, n);
    NoDupConcat(batched, BatchOf(s, op));
  }

  // ---------------------------------------------------------------------------
  // The life of an intent
  // ---------------------------------------------------------------------------

  /** How far along an intent is; the two final states share the last place. */
  function Stage(st: L3State): nat {
    match st
    case Initiated => 0
    case ProofGenerating => 1
    case ProofReady => 2
    case Submitted => 3
    case Verified => 4
    case Finalized => 5
    case Failed(_) => 5
  }

  ghost predicate Progresses(s: State, t: State, id: Bytes)
    requires id in s.intents
  {
    && id in t.intents && Stage(s.intents[id].state) <= Stage(t.intents[id].state)
    && t.intents[id].transfer == s.intents[id].transfer
    && (s.intents[id].state.Finalized? || s.intents[id].state.Failed? ==> t.intents[id] == s.intents[id])
  }

  lemma StepProgresses(s: State, op: Op, n: nat, id: Bytes)
    requires QueueInv(s) && Numbered(s, n) && id in s.intents
    ensures Progresses(s, Apply(s, op), id)
  {
    hide IdOf, Numbered;
    FreshId(s, n);
  }

  /** From any point of any run, intents only move forward, keep their transfer, and never leave
      Finalized or Failed. */
  lemma {:induction false} OnlyForward(ops: seq<Op>, i: nat, id: Bytes)
    requires Initiations(ops) + 1 < U64 && i <= |ops| && id in After(ops[..i]).intents
    ensures Progresses(After(ops[..i]), After(ops), id)
  {
    if i == |ops| {
      assert ops[..i] == ops;
    } else {
      var n := |ops| - 1;
      assert ops[..n][..i] == ops[..i];
      OnlyForward(ops[..n], i, id);
      RunInv(ops[..n]);
      StepProgresses(After(ops[..n]), ops[n], Initiations(ops[..n]), id);
    }
  }

  ghost predicate Stranded(s: State, id: Bytes) {
    id in s.intents && s.intents[id].state.Initiated? && id !in s.pending
  }

  /** The batch of flush `i` holds `id` and its proof failed. */
  ghost predicate DroppedAt(ops: seq<Op>, i: nat, id: Bytes) {
    i < |ops| && ops[i].Flush? && !ops[i].generated && id in After(ops[..i]).pending
  }

  lemma DroppedEarlier(ops: seq<Op>, n: nat, i: nat, id: Bytes)
    requires i < n <= |ops|
    ensures DroppedAt(ops[..n], i, id) <==> DroppedAt(ops, i, id)
  {
    assert ops[..n][..i] == ops[..i];
  }

  /** A failed proof strands its whole batch, in every continuation of the run, and nothing else ever
      strands an intent: any other initiated intent is still queued. */
  lemma {:induction false} StrandedIffProofFailed(ops: seq<Op>, id: Bytes)
    requires Initiations(ops) + 1 < U64
    ensures Stranded(After(ops), id) <==> exists i: nat :: DroppedAt(ops, i, id)
  {
    hide DroppedAt, Stranded;
    if ops == [] {
      NothingStranded(id);
    } else {
      var n := |ops| - 1;
      StrandedIffProofFailed(ops[..n], id);
      RunInv(ops[..n]);
      StrandedStep(After(ops[..n]), ops[n], Initiations(ops[..n]), id);
      DroppedLast(ops, id);
      if i: nat :| DroppedAt(ops[..n], i, id) {
        DroppedWithin(ops[..n], i, id);
        DroppedEarlier(ops, n, i, id);
      }
      if i: nat :| DroppedAt(ops, i, id) {
        DroppedWithin(ops, i, id);
        if i < n { DroppedEarlier(ops, n, i, id); }
      }
    }
  }

  lemma NothingStranded(id: Bytes)
    ensures !Stranded(After([]), id) && forall i: nat :: !DroppedAt([], i, id)
  {
  }

  lemma DroppedWithin(ops: seq<Op>, i: nat, id: Bytes)
    requires DroppedAt(ops, i, id)
    ensures i < |ops|
  {
  }

  lemma DroppedLast(ops: seq<Op>, id: Bytes)
    requires ops != []
    ensures var n := |ops| - 1;
            DroppedAt(ops, n, id) <==> ops[n].Flush? && !ops[n].generated && id in After(ops[..n]).pending
  {
  }

  lemma StrandedStep(s: State, op: Op, n: nat, id: Bytes)
    requires QueueInv(s) && Numbered(s, n)
    ensures Stranded(Apply(s, op), id)
            <==> Stranded(s, id) || (op.Flush? && !op.generated && id in s.pending)
  {
    hide IdOf, Numbered;
    FreshId(s, n);
  }

  // ---------------------------------------------------------------------------
  // The fate of an intent, in terms of the calls alone
  // ---------------------------------------------------------------------------

  /** Where in a run the intent was initiated, its proof generated, and a proof submitted for it. */
  datatype Fate =
    | Unknown
    | Queued(issued: nat)
    | Dropped(issued: nat, flushed: nat)
    | Ready(issued: nat, flushed: nat)
    | Checked(issued: nat, flushed: nat, submitted: nat)
    | Settled(issued: nat, flushed: nat, submitted: nat, finalized: nat)

  /** Call `i` hands out `id`: ids count the initiations. */
  ghost predicate IssuedAt(ops: seq<Op>, id: Bytes, i: nat) {
    i < |ops| && ops[i].Initiate? && id == IdOf(1 + Initiations(ops[..i]))
  }

  /** The first flush after call `i`. */
  ghost predicate FlushedAt(ops: seq<Op>, i: nat, j: nat) {
    i < j < |ops| && ops[j].Flush? && forall x | i < x < j :: !ops[x].Flush?
  }

  /** The first proof submitted for `id` after call `j`. */
  ghost predicate SubmittedAt(ops: seq<Op>, id: Bytes, j: nat, k: nat) {
    && j < k < |ops| && ops[k].Submit? && ops[k].id == id
    && forall x | j < x < k :: !(ops[x].Submit? && ops[x].id == id)
  }

  /** The first attempt to finalize `id` after call `k`. */
  ghost predicate FinalizedAt(ops: seq<Op>, id: Bytes, k: nat, m: nat) {
    && k < m < |ops| && ops[m] == Finalize(id)
    && forall x | k < x < m :: ops[x] != Finalize(id)
  }

  ghost predicate Met(ops: seq<Op>, id: Bytes, fate: Fate) {
    match fate
    case Unknown => forall i: nat :: !IssuedAt(ops, id, i)
    case Queued(i) => IssuedAt(ops, id, i) && forall x | i < x < |ops| :: !ops[x].Flush?
    case Dropped(i, j) => IssuedAt(ops, id, i) && FlushedAt(ops, i, j) && !ops[j].generated
    case Ready(i, j) =>
      && IssuedAt(ops, id, i) && FlushedAt(ops, i, j) && ops[j].generated
      && forall x | j < x < |ops| :: !(ops[x].Submit? && ops[x].id == id)
    case Checked(i, j, k) =>
      && IssuedAt(ops, id, i) && FlushedAt(ops, i, j) && ops[j].generated && SubmittedAt(ops, id, j, k)
      && (ops[k].verifies ==> forall x | k < x < |ops| :: ops[x] != Finalize(id))
    case Settled(i, j, k, m) =>
      && IssuedAt(ops, id, i) && FlushedAt(ops, i, j) && ops[j].generated && SubmittedAt(ops, id, j, k)
      && ops[k].verifies && FinalizedAt(ops, id, k, m)
  }

  /** What the bridge holds for an intent with this fate. */
  ghost predicate Shows(s: State, ops: seq<Op>, id: Bytes, fate: Fate)
    requires Met(ops, id, fate)
  {
    match fate
    case Unknown => id !in s.intents && id !in s.pending
    case Queued(i) => Holds(s, Intent(id, ops[i].transfer, Initiated, None)) && id in s.pending
    case Dropped(i, _) => Holds(s, Intent(id, ops[i].transfer, Initiated, None)) && id !in s.pending
    case Ready(i, _) => Holds(s, Intent(id, ops[i].transfer, ProofReady, None)) && id !in s.pending
    case Checked(i, _, k) =>
      && id !in s.pending
      && Holds(s, if ops[k].verifies then Intent(id, ops[i].transfer, Verified, Some(ops[k].proof))
                  else Intent(id, ops[i].transfer, Failed("proof verification failed"), None))
    case Settled(i, _, k, _) => Holds(s, Intent(id, ops[i].transfer, Finalized, Some(ops[k].proof))) && id !in s.pending
  }

  ghost predicate Holds(s: State, intent: Intent) {
    intent.id in s.intents && s.intents[intent.id] == intent
  }

  lemma IssuedPrefix(ops: seq<Op>, id: Bytes, n: nat, i: nat)
    requires i < n <= |ops|
    ensures IssuedAt(ops[..n], id, i) <==> IssuedAt(ops, id, i)
  {
    assert ops[..n][..i] == ops[..i];
  }

  lemma {:induction false} InitiationsGrow(ops: seq<Op>, i: nat, j: nat)
    requires i < j <= |ops| && ops[i].Initiate?
    ensures Initiations(ops[..i]) < Initiations(ops[..j]) <= Initiations(ops)
    decreases |ops| - i, j - i
  {
    InitiationsMonotone(ops, j);
    assert ops[..j] == ops[..j][..j];
    InitiationsMonotone(ops[..j], i + 1);
    assert ops[..j][..i + 1] == ops[..i + 1] && ops[..i + 1][..i] == ops[..i];
  }

  lemma {:induction false} InitiationsMonotone(ops: seq<Op>, j: nat)
    requires j <= |ops|
    ensures Initiations(ops[..j]) <= Initiations(ops)
  {
    if j < |ops| {
      InitiationsMonotone(ops[..|ops| - 1], j);
      assert ops[..|ops| - 1][..j] == ops[..j];
    } else {
      assert ops[..j] == ops;
    }
  }

  /** No id is handed out twice. */
  lemma IssuedOnce(ops: seq<Op>, id: Bytes, i: nat, j: nat)
    requires Initiations(ops) + 1 < U64 && IssuedAt(ops, id, i) && IssuedAt(ops, id, j)
    ensures i == j
  {
    hide IdOf;
    IdsApart(ops, i, j);
    IdsApart(ops, j, i);
  }

  lemma IdsApart(ops: seq<Op>, i: nat, j: nat)
    requires Initiations(ops) + 1 < U64 && i < |ops| && j < |ops| && ops[i].Initiate? && ops[j].Initiate?
    ensures i < j ==> IdOf(1 + Initiations(ops[..i])) != IdOf(1 + Initiations(ops[..j]))
  {
    hide IdOf, Initiations;
    if i < j && IdOf(1 + Initiations(ops[..i])) == IdOf(1 + Initiations(ops[..j])) {
      InitiationsGrow(ops, i, j);
      IdInjective(1 + Initiations(ops[..i]), 1 + Initiations(ops[..j]));
    }
  }

  /** An intent has one fate. */
  lemma OneFate(ops: seq<Op>, id: Bytes, f: Fate, g: Fate)
    requires Initiations(ops) + 1 < U64 && Met(ops, id, f) && Met(ops, id, g)
    ensures f == g
  {
    hide IssuedAt;
    if !f.Unknown? && !g.Unknown? { IssuedOnce(ops, id, f.issued, g.issued); }
  }

  /** The fate after one more call. */
  ghost function Next(ops: seq<Op>, id: Bytes, fate: Fate): Fate
    requires ops != []
  {
    var n := |ops| - 1;
    match fate
    case Unknown => if IssuedAt(ops, id, n) then Queued(n) else Unknown
    case Queued(i) =>
      if ops[n].Flush? then if ops[n].generated then Ready(i, n) else Dropped(i, n) else fate
    case Dropped(_, _) => fate
    case Ready(i, j) => if ops[n].Submit? && ops[n].id == id then Checked(i, j, n) else fate
    case Checked(i, j, k) =>
      if k < n && ops[k].Submit? && ops[k].verifies && ops[n] == Finalize(id) then Settled(i, j, k, n) else fate
    case Settled(_, _, _, _) => fate
  }

  lemma PointsPrefix(ops: seq<Op>, id: Bytes, n: nat, i: nat, j: nat)
    requires n <= |ops|
    ensures FlushedAt(ops[..n], i, j) ==> FlushedAt(ops, i, j)
    ensures SubmittedAt(ops[..n], id, i, j) ==> SubmittedAt(ops, id, i, j)
    ensures FinalizedAt(ops[..n], id, i, j) ==> FinalizedAt(ops, id, i, j)
  {
  }

  lemma FatePrefix(ops: seq<Op>, id: Bytes, fate: Fate)
    requires ops != [] && Met(ops[..|ops| - 1], id, fate) && !fate.Unknown?
    ensures IssuedAt(ops, id, fate.issued)
    ensures fate.issued < |ops| - 1
    ensures fate.Queued? || FlushedAt(ops, fate.issued, fate.flushed)
    ensures fate.Checked? || fate.Settled? ==> SubmittedAt(ops, id, fate.flushed, fate.submitted)
    ensures fate.Settled? ==> FinalizedAt(ops, id, fate.submitted, fate.finalized)
  {
    var n := |ops| - 1;
    IssuedPrefix(ops, id, n, fate.issued);
    hide IssuedAt;
    if !fate.Queued? { PointsPrefix(ops, id, n, fate.issued, fate.flushed); }
    if fate.Checked? || fate.Settled? { PointsPrefix(ops, id, n, fate.flushed, fate.submitted); }
    if fate.Settled? { PointsPrefix(ops, id, n, fate.submitted, fate.finalized); }
  }

  lemma NextMet(ops: seq<Op>, id: Bytes, fate: Fate)
    requires ops != [] && Met(ops[..|ops| - 1], id, fate)
    ensures Met(ops, id, Next(ops, id, fate))
  {
    var n := |ops| - 1;
    if fate.Unknown? {
      forall i: nat
        ensures !IssuedAt(ops, id, i) || i == n
      {
        if i < n { IssuedPrefix(ops, id, n, i); }
      }
    } else {
      FatePrefix(ops, id, fate);
      hide IssuedAt;
    }
  }

  lemma NewShows(s: State, ops: seq<Op>, id: Bytes)
    requires ops != [] && Met(ops[..|ops| - 1], id, Unknown) && Met(ops, id, Next(ops, id, Unknown))
    requires Shows(s, ops[..|ops| - 1], id, Unknown) && Numbered(s, Initiations(ops[..|ops| - 1]))
    ensures Shows(Apply(s, ops[|ops| - 1]), ops, id, Next(ops, id, Unknown))
  {
    hide IdOf, Named;
  }

  lemma NextShows(s: State, ops: seq<Op>, id: Bytes, fate: Fate)
    requires ops != [] && Met(ops[..|ops| - 1], id, fate) && Met(ops, id, Next(ops, id, fate))
    requires Shows(s, ops[..|ops| - 1], id, fate)
    requires Numbered(s, Initiations(ops[..|ops| - 1]))
    ensures Shows(Apply(s, ops[|ops| - 1]), ops, id, Next(ops, id, fate))
  {
    hide IdOf;
    if fate.Unknown? {
      NewShows(s, ops, id);
    } else {
      FreshId(s, Initiations(ops[..|ops| - 1]));
      FatePrefix(ops, id, fate);
      hide Numbered, IssuedAt, Initiations;
    }
  }

  /** Over every run the calls alone decide what the bridge holds for an intent. It has exactly one fate;
      it is Verified, with the submitted proof, or later Finalized exactly when the first proof submitted
      after a successful flush of its batch verified, and Failed exactly when that proof did not. */
  lemma {:induction false} FateDecides(ops: seq<Op>, id: Bytes) returns (fate: Fate)
    requires Initiations(ops) + 1 < U64
    ensures Met(ops, id, fate) && Shows(After(ops), ops, id, fate)
    ensures forall f | Met(ops, id, f) :: f == fate
  {
    if ops == [] {
      fate := Unknown;
    } else {
      var n := |ops| - 1;
      var f := FateDecides(ops[..n], id);
      RunInv(ops[..n]);
      fate := Next(ops, id, f);
      NextMet(ops, id, f);
      hide Met, Shows;
      NextShows(After(ops[..n]), ops, id, f);
    }
    forall f | Met(ops, id, f)
      ensures f == fate
    {
      OneFate(ops, id, f, fate);
    }
  }

  /** Proof `k` is the first one submitted for the intent after the successful flush of its batch. */
  ghost predicate Judged(ops: seq<Op>, id: Bytes, k: nat) {
    exists i: nat, j: nat ::
      IssuedAt(ops, id, i) && FlushedAt(ops, i, j) && ops[j].generated && SubmittedAt(ops, id, j, k)
  }

  /** Exactly when an intent gets each of its outcomes. */
  lemma OutcomeIff(ops: seq<Op>, id: Bytes)
    requires Initiations(ops) + 1 < U64
    ensures var s := After(ops); var known := id in s.intents;
            && (known && (s.intents[id].state.Verified? || s.intents[id].state.Finalized?) <==>
                exists k: nat :: Judged(ops, id, k) && ops[k].verifies)
            && (known && s.intents[id].state.Failed? <==> exists k: nat :: Judged(ops, id, k) && !ops[k].verifies)
            && (known && s.intents[id].state.Finalized? <==>
                exists k: nat :: && Judged(ops, id, k) && ops[k].verifies
                                 && exists m :: k < m < |ops| && ops[m] == Finalize(id))
  {
    hide IssuedAt, After, Initiations;
    var fate := FateDecides(ops, id);
    forall k: nat | Judged(ops, id, k)
      ensures (fate.Checked? || fate.Settled?) && fate.submitted == k
      ensures fate.Settled? <==> ops[k].verifies && exists m :: k < m < |ops| && ops[m] == Finalize(id)
    {
      JudgedFate(ops, id, k, fate);
    }
    if fate.Checked? || fate.Settled? {
      assert Judged(ops, id, fate.submitted);
    }
  }

  lemma {:induction false} FirstFinalize(ops: seq<Op>, id: Bytes, k: nat, m: nat) returns (first: nat)
    requires k < m < |ops| && ops[m] == Finalize(id)
    ensures FinalizedAt(ops, id, k, first)
    decreases m
  {
    if x: nat :| k < x < m && ops[x] == Finalize(id) {
      first := FirstFinalize(ops, id, k, x);
    } else {
      first := m;
    }
  }

  lemma JudgedFate(ops: seq<Op>, id: Bytes, k: nat, fate: Fate)
    requires Initiations(ops) + 1 < U64 && Met(ops, id, fate) && Judged(ops, id, k)
    ensures (fate.Checked? || fate.Settled?) && fate.submitted == k
    ensures fate.Settled? <==> ops[k].verifies && exists m :: k < m < |ops| && ops[m] == Finalize(id)
  {
    hide IssuedAt, Initiations;
    var i: nat, j: nat :|
      IssuedAt(ops, id, i) && FlushedAt(ops, i, j) && ops[j].generated && SubmittedAt(ops, id, j, k);
    if m: nat :| ops[k].verifies && k < m < |ops| && ops[m] == Finalize(id) {
      var first := FirstFinalize(ops, id, k, m);
      OneFate(ops, id, fate, Settled(i, j, k, first));
    } else {
      OneFate(ops, id, fate, Checked(i, j, k));
    }
  }

  // ---------------------------------------------------------------------------
  // Counting
  // ---------------------------------------------------------------------------

  /** The intents whose stage is `k`. */
  function AtStage(s: State, k: nat): set<Bytes> {
    set id | id in s.intents && Stage(s.intents[id].state) == k
  }

  function PendingCount(s: State): nat {
    |set id | id in s.intents && (s.intents[id].state.Initiated? || s.intents[id].state.ProofGenerating?
                                  || s.intents[id].state.ProofReady?)|
  }

  /** Intents are conserved: those pending, verified, and finalized or failed add up to the number
      of initiations, in every run. */
  lemma CountsAddUp(ops: seq<Op>)
    requires Initiations(ops) + 1 < U64
    ensures var s := After(ops);
            PendingCount(s) + |AtStage(s, 4)| + |AtStage(s, 5)| == Initiations(ops)
  {
    hide IdOf, After, Initiations;
    RunInv(ops);
    var s := After(ops);
    var waiting := set id | id in s.intents && (s.intents[id].state.Initiated? || s.intents[id].state.ProofGenerating?
                                                || s.intents[id].state.ProofReady?);
    assert s.intents.Keys == waiting + AtStage(s, 4) + AtStage(s, 5);
    assert |s.intents.Keys| == |waiting| + |AtStage(s, 4)| + |AtStage(s, 5)|;
  }
}
