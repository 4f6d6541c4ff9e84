/** The durable audit log (crates/bleep-auth/src/audit_store.rs): an ordered key store holding
    every entry, and a bounded cache of the most recent ones. */
module AuditStore {
  import opened Arithmetic
  import opened Encoding
  import opened HashChain

  const CACHE_SIZE: nat := 10_000
  const ZERO_HASH: Bytes := Repeat(0, 32)
  const NUL: Bytes := [0]

  datatype Record = Record(actor: Bytes, action: Bytes, result: Bytes, detail: Bytes)

  datatype Stored = Stored(sequence: nat, entryHash: Bytes, prevHash: Bytes, timestampMs: nat, record: Record)

  // ---------------------------------------------------------------------------
  // Entry hashing
  // ---------------------------------------------------------------------------

  function RecordBytes(r: Record): Bytes {
    r.actor + (NUL + (r.action + (NUL + (r.result + (NUL + r.detail)))))
  }

  function Payload(sequence: nat, r: Record): Bytes {
    LittleEndian(sequence, 8) + RecordBytes(r)
  }

  predicate NulFree(r: Record) {
    0 !in r.actor && 0 !in r.action && 0 !in r.result && 0 !in r.detail
  }

  lemma NulInside(a: Bytes, restA: Bytes, b: Bytes, restB: Bytes)
    requires a + (NUL + restA) == b + (NUL + restB) && |a| < |b|
    ensures 0 in b
  {
    assert b[|a|] == (b + (NUL + restB))[|a|];
    assert 0 == (a + (NUL + restA))[|a|];
  }

  lemma NulSplit(a: Bytes, restA: Bytes, b: Bytes, restB: Bytes)
    requires 0 !in a && 0 !in b && a + (NUL + restA) == b + (NUL + restB)
    ensures a == b && restA == restB
  {
    if |a| < |b| {
      NulInside(a, restA, b, restB);
    } else if |b| < |a| {
      NulInside(b, restB, a, restA);
    } else {
      SplitEqual(a, b, NUL + restA, NUL + restB);
      SplitEqual(NUL, NUL, restA, restB);
    }
  }

  lemma NulCount(r: Record)
    ensures multiset(RecordBytes(r))[0] == 3 + multiset(r.actor)[0] + multiset(r.action)[0]
                                           + multiset(r.result)[0] + multiset(r.detail)[0]
  {
  }

  lemma NulFreeBytes(q: Record, r: Record)
    requires NulFree(r) && RecordBytes(q) == RecordBytes(r)
    ensures NulFree(q)
  {
    NulCount(q);
    NulCount(r);
    hide RecordBytes;
  }

  /** The separator is sound for exactly the records without a NUL byte: such a record is the only
      one with its encoding, and every other record shares its encoding with a different one. */
  lemma RecordBytesUnique(r: Record)
    ensures (forall q :: RecordBytes(q) == RecordBytes(r) ==> q == r) <==> NulFree(r)
  {
    hide RecordBytes, NulFree;
    if NulFree(r) {
      forall q | RecordBytes(q) == RecordBytes(r)
        ensures q == r
      {
        NulFreeBytes(q, r);
        SameNulFreeRecord(q, r);
      }
    } else {
      var q := OtherReading(r);
      assert RecordBytes(q) == RecordBytes(r) && q != r;
    }
  }

  lemma SameNulFreeRecord(q: Record, r: Record)
    requires NulFree(q) && NulFree(r) && RecordBytes(q) == RecordBytes(r)
    ensures q == r
  {
    NulSplit(q.actor, q.action + (NUL + (q.result + (NUL + q.detail))),
             r.actor, r.action + (NUL + (r.result + (NUL + r.detail))));
    NulSplit(q.action, q.result + (NUL + q.detail), r.action, r.result + (NUL + r.detail));
    NulSplit(q.result, q.detail, r.result, r.detail);
  }

  lemma SplitAtNul(s: Bytes) returns (x: Bytes, y: Bytes)
    requires 0 in s
    ensures s == x + (NUL + y) && |x| < |s|
  {
    var k :| 0 <= k < |s| && s[k] == 0;
    x, y := s[..k], s[k + 1..];
  }

  /** A second record with the same bytes, found by moving a separator onto an embedded NUL. */
  lemma OtherReading(r: Record) returns (q: Record)
    requires !NulFree(r)
    ensures RecordBytes(q) == RecordBytes(r) && q != r
  {
    if 0 in r.actor {
      var x, y := SplitAtNul(r.actor);
      q := Record(x, y, r.action, r.result + (NUL + r.detail));
    } else if 0 in r.action {
      var x, y := SplitAtNul(r.action);
      q := Record(r.actor, x, y, r.result + (NUL + r.detail));
    } else if 0 in r.result {
      var x, y := SplitAtNul(r.result);
      q := Record(r.actor, r.action, x, y + (NUL + r.detail));
    } else {
      var x, y := SplitAtNul(r.detail);
      q := Record(r.actor + (NUL + r.action), r.result, x, y);
    }
  }

  // ---------------------------------------------------------------------------
  // History
  // ---------------------------------------------------------------------------

  function LinkOf(e: Stored): Link {
    Link(e.prevHash, Payload(e.sequence, e.record), e.entryHash)
  }

  function Links(entries: seq<Stored>): (links: seq<Link>)
    ensures |links| == |entries|
  {
    seq(|entries|, i requires 0 <= i < |entries| => LinkOf(entries[i]))
  }

  /** A complete log: numbered from zero and chained from the zero digest. */
  ghost predicate History(hash: Bytes -> Bytes, h: seq<Stored>) {
    Numbered(h) && Chained(hash, ZERO_HASH, Links(h))
  }

  function TipOf(h: seq<Stored>): Bytes {
    if h == [] then ZERO_HASH else h[|h| - 1].entryHash
  }

  function NextEntry(hash: Bytes -> Bytes, sequence: nat, prev: Bytes, timestampMs: nat, r: Record): Stored {
    Stored(sequence, hash(prev + Payload(sequence, r)), prev, timestampMs, r)
  }

  lemma HistoryGrows(hash: Bytes -> Bytes, h: seq<Stored>, timestampMs: nat, r: Record)
    requires History(hash, h) && |h| + 1 < U64
    ensures History(hash, h + [NextEntry(hash, |h|, TipOf(h), timestampMs, r)])
  {
    var e := NextEntry(hash, |h|, TipOf(h), timestampMs, r);
    assert Tip(ZERO_HASH, Links(h)) == TipOf(h);
    ChainedExtend(hash, ZERO_HASH, Links(h), LinkOf(e));
    assert Links(h + [e]) == Links(h) + [LinkOf(e)];
  }

  /** The tip fixes every record of a complete log, as long as no record embeds a NUL. */
  lemma TipDeterminesRecords(hash: Bytes -> Bytes, a: seq<Stored>, b: seq<Stored>)
    requires History(hash, a) && History(hash, b) && TipOf(a) == TipOf(b)
    requires SoundDigests(hash, ZERO_HASH, Preimages(Links(a)) + Preimages(Links(b)))
    requires forall e :: e in a || e in b ==> NulFree(e.record)
    ensures |a| == |b| && forall i | 0 <= i < |a| :: a[i].record == b[i].record && a[i].entryHash == b[i].entryHash
  {
    assert Tip(ZERO_HASH, Links(a)) == TipOf(a) && Tip(ZERO_HASH, Links(b)) == TipOf(b);
    TipDeterminesChain(hash, ZERO_HASH, Links(a), Links(b));
    assert |a| == |Links(a)| == |b|;
    forall i | 0 <= i < |a|
      ensures a[i].record == b[i].record && a[i].entryHash == b[i].entryHash
    {
      assert Links(a)[i] == Links(b)[i] && a[i] in a && b[i] in b;
      SplitEqual(LittleEndian(i, 8), LittleEndian(i, 8), RecordBytes(a[i].record), RecordBytes(b[i].record));
      SameNulFreeRecord(a[i].record, b[i].record);
    }
  }

  // ---------------------------------------------------------------------------
  // Disk and process state
  // ---------------------------------------------------------------------------

  datatype Disk = Disk(log: map<Bytes, Stored>, nextSeq: nat, chainTip: Bytes)
  datatype State = State(disk: Disk, cache: map<nat, Stored>, nextSeq: nat, chainTip: Bytes)

  const EMPTY_DISK := Disk(map[], 0, ZERO_HASH)

  function Key(sequence: nat): Bytes {
    BigEndian(sequence, 8)
  }

  /** `persist_entry`: the entry and both counters in one atomic batch. */
  function Persist(d: Disk, e: Stored): Disk {
    Disk(d.log[Key(e.sequence) := e], e.sequence + 1, e.entryHash)
  }

  /** `next_seq.saturating_sub(AUDIT_CACHE_SIZE)`. */
  function WindowStart(nextSeq: nat): (start: nat)
    ensures start == 0 || start + 10_000 == nextSeq
    ensures nextSeq >= 10_000 ==> start == nextSeq - 10_000
  {
    if nextSeq < CACHE_SIZE then 0 else nextSeq - CACHE_SIZE
  }

  predicate WellKeyed(d: Disk) {
    forall k :: k in d.log ==> d.log[k].sequence < U64 && k == Key(d.log[k].sequence)
  }

  /** What a cursor opened at `Key(WindowStart(nextSeq))` yields, indexed by sequence number. */
  ghost predicate CacheFrom(d: Disk, nextSeq: nat, cache: map<nat, Stored>) {
    && (forall i: nat :: i in cache <==> WindowStart(nextSeq) <= i < U64 && Key(i) in d.log)
    && (forall i | i in cache :: cache[i] == d.log[Key(i)])
  }

  ghost predicate Opened(d: Disk, s: State) {
    && s.disk == d && s.nextSeq == d.nextSeq && s.chainTip == d.chainTip
    && CacheFrom(d, d.nextSeq, s.cache)
  }

  /** The entries a process holds in memory for history `h`: the last min(|h|, CACHE_SIZE). */
  function Window(h: seq<Stored>): map<nat, Stored> {
    map i: nat | WindowStart(|h|) <= i < |h| :: h[i]
  }

  /** One past the last entry that reached the disk. */
  function HighWater(saved: seq<bool>): (m: nat)
    ensures m <= |saved| && (m > 0 ==> saved[m - 1])
    ensures forall i | m <= i < |saved| :: !saved[i]
  {
    if saved == [] then 0
    else if saved[|saved| - 1] then |saved|
    else HighWater(saved[..|saved| - 1])
  }

  function AllSaved(n: nat): (saved: seq<bool>)
    ensures |saved| == n && forall i | 0 <= i < n :: saved[i]
  {
    seq(n, _ => true)
  }

  /** The disk after appending `h` when `saved` tells which writes reached it. */
  function DiskOf(h: seq<Stored>, saved: seq<bool>): Disk
    requires |h| == |saved|
  {
    if h == [] then EMPTY_DISK
    else
      var n := |h| - 1;
      var d := DiskOf(h[..n], saved[..n]);
      if saved[n] then Persist(d, h[n]) else d
  }

  predicate Numbered(h: seq<Stored>) {
    |h| < U64 && forall i | 0 <= i < |h| :: h[i].sequence == i
  }

  /** The state of a process that has appended `h`, where `saved[i]` tells whether entry `i`
      reached the disk. */
  ghost predicate Holds(s: State, h: seq<Stored>, saved: seq<bool>)
    requires |h| == |saved|
  {
    s.disk == DiskOf(h, saved) && s.cache == Window(h) && s.nextSeq == |h| && s.chainTip == TipOf(h)
  }

  // ---------------------------------------------------------------------------
  // Append
  // ---------------------------------------------------------------------------

  ghost predicate IsOldest(cache: map<nat, Stored>, k: nat) {
    k in cache && forall i :: i in cache ==> k <= i
  }

  /** The cache after one append: the smallest key makes room when the cache is full. */
  ghost predicate CacheAppended(before: map<nat, Stored>, e: Stored, after: map<nat, Stored>) {
    if |before| >= CACHE_SIZE
    then exists k: nat :: IsOldest(before, k) && after == (before - {k})[e.sequence := e]
    else after == before[e.sequence := e]
  }

  function Appended(hash: Bytes -> Bytes, s: State, cache: map<nat, Stored>, persisted: bool,
                    timestampMs: nat, r: Record): State {
    var e := NextEntry(hash, s.nextSeq, s.chainTip, timestampMs, r);
    State(if persisted then Persist(s.disk, e) else s.disk, cache, s.nextSeq + 1, e.entryHash)
  }

  ghost function Range(lo: nat, hi: nat): (r: set<nat>)
    requires lo <= hi
    ensures |r| == hi - lo
    ensures forall i: nat :: i in r <==> lo <= i < hi
    decreases hi - lo
  {
    if lo == hi then {} else {lo} + Range(lo + 1, hi)
  }

  lemma WindowSize(h: seq<Stored>)
    ensures |Window(h)| == |h| - WindowStart(|h|)
  {
    assert Window(h).Keys == Range(WindowStart(|h|), |h|);
  }

  lemma WindowSlides(h: seq<Stored>, e: Stored, after: map<nat, Stored>)
    requires e.sequence == |h| && CacheAppended(Window(h), e, after)
    ensures after == Window(h + [e])
  {
    WindowSize(h);
    if |h| >= CACHE_SIZE {
      var k: nat :| IsOldest(Window(h), k) && after == (Window(h) - {k})[e.sequence := e];
      assert |h| - CACHE_SIZE in Window(h);
      assert k == |h| - CACHE_SIZE;
    }
    assert after.Keys == Window(h + [e]).Keys;
  }

  lemma DiskAdvances(h: seq<Stored>, saved: seq<bool>, e: Stored, persisted: bool)
    requires |h| == |saved|
    ensures DiskOf(h + [e], saved + [persisted])
            == if persisted then Persist(DiskOf(h, saved), e) else DiskOf(h, saved)
  {
  }

  /** Reading the disk back: where its counters stand, which keys it holds, and what they hold. */
  lemma {:induction false} DiskContents(h: seq<Stored>, saved: seq<bool>, i: nat)
    requires |h| == |saved| && Numbered(h) && i < U64
    ensures var d := DiskOf(h, saved);
            && (Key(i) in d.log <==> i < |h| && saved[i])
            && (Key(i) in d.log ==> d.log[Key(i)] == h[i])
            && d.nextSeq == HighWater(saved) && d.chainTip == TipOf(h[..HighWater(saved)])
  {
    DiskCounters(h, saved);
    hide Key, TipOf, HighWater;
    if h != [] {
      var n := |h| - 1;
      DiskContents(h[..n], saved[..n], i);
      KeysDiffer(i, n);
    }
  }

  lemma {:induction false} DiskCounters(h: seq<Stored>, saved: seq<bool>)
    requires |h| == |saved| && Numbered(h)
    ensures var d := DiskOf(h, saved);
            d.nextSeq == HighWater(saved) && d.chainTip == TipOf(h[..HighWater(saved)])
  {
    hide Key;
    if h != [] {
      var n := |h| - 1;
      DiskCounters(h[..n], saved[..n]);
      assert h[..|h|] == h;
      assert !saved[n] ==> h[..n][..HighWater(saved[..n])] == h[..HighWater(saved)];
    }
  }

  lemma {:induction false} DiskWellKeyed(h: seq<Stored>, saved: seq<bool>)
    requires |h| == |saved| && Numbered(h)
    ensures WellKeyed(DiskOf(h, saved)) && DiskOf(h, saved).nextSeq <= |h|
  {
    if h != [] { DiskWellKeyed(h[..|h| - 1], saved[..|h| - 1]); }
  }

  lemma KeysDiffer(i: nat, j: nat)
    requires i < U64 && j < U64
    ensures Key(i) == Key(j) <==> i == j
    ensures LexLess(Key(i), Key(j)) <==> i < j
  {
    WordSizes();
    BigEndianOrder(i, j, 8);
  }

  /** Every append, persisted or not, extends the history and keeps the cache at its last entries. */
  lemma AppendHolds(hash: Bytes -> Bytes, s: State, h: seq<Stored>, saved: seq<bool>, cache: map<nat, Stored>,
                    persisted: bool, timestampMs: nat, r: Record)
    requires |h| == |saved| && |h| + 1 < U64 && History(hash, h) && Holds(s, h, saved)
    requires CacheAppended(s.cache, NextEntry(hash, s.nextSeq, s.chainTip, timestampMs, r), cache)
    ensures var e := NextEntry(hash, |h|, TipOf(h), timestampMs, r);
            && History(hash, h + [e])
            && Holds(Appended(hash, s, cache, persisted, timestampMs, r), h + [e], saved + [persisted])
  {
    var e := NextEntry(hash, |h|, TipOf(h), timestampMs, r);
    HistoryGrows(hash, h, timestampMs, r);
    WindowSlides(h, e, cache);
    DiskAdvances(h, saved, e, persisted);
  }

  // ---------------------------------------------------------------------------
  // Restart
  // ---------------------------------------------------------------------------

  predicate WindowSaved(saved: seq<bool>) {
    forall i | WindowStart(|saved|) <= i < |saved| :: saved[i]
  }

  /** One entry of the cache after a restart. */
  lemma ReopenedEntry(h: seq<Stored>, saved: seq<bool>, t: State, i: nat)
    requires |h| == |saved| && Numbered(h) && Opened(DiskOf(h, saved), t)
    ensures t.nextSeq == HighWater(saved) && t.chainTip == TipOf(h[..HighWater(saved)])
    ensures i in t.cache <==> WindowStart(HighWater(saved)) <= i < HighWater(saved) && saved[i]
    ensures i in t.cache ==> t.cache[i] == h[i]
  {
    hide DiskOf;
    DiskContents(h, saved, 0);
    if i < U64 { DiskContents(h, saved, i); }
  }

  /** Reopening gives back exactly the state before the restart if and only if every entry still
      in the cache window had reached the disk. */
  lemma RestartRestoresExactly(s: State, h: seq<Stored>, saved: seq<bool>, t: State)
    requires |h| == |saved| && Numbered(h) && Holds(s, h, saved) && Opened(s.disk, t)
    ensures t == s <==> WindowSaved(saved)
  {
    ReopenTruncates(h, saved, t);
    hide DiskOf, Opened;
    var kept := HighWater(saved);
    if WindowSaved(saved) {
      assert |h| > 0 ==> saved[|h| - 1];
      assert h[..|h|] == h;
    } else if kept == |h| {
      assert h[..|h|] == h;
    }
  }

  /** What a restart finds after any pattern of lost writes: the log cut off after the last write that
      reached the disk, with its whole window exactly when no write within the window was lost. */
  lemma ReopenTruncates(h: seq<Stored>, saved: seq<bool>, t: State)
    requires |h| == |saved| && Numbered(h) && Opened(DiskOf(h, saved), t)
    ensures var kept := HighWater(saved);
            && t.nextSeq == kept && t.chainTip == TipOf(h[..kept])
            && (t.cache == Window(h[..kept]) <==> forall i | WindowStart(kept) <= i < kept :: saved[i])
  {
    hide DiskOf, Opened;
    var kept := HighWater(saved);
    ReopenedEntry(h, saved, t, 0);
    forall i: nat
      ensures i in t.cache <==> WindowStart(kept) <= i < kept && saved[i]
      ensures i in t.cache ==> t.cache[i] == h[i]
    {
      ReopenedEntry(h, saved, t, i);
    }
    if forall i | WindowStart(kept) <= i < kept :: saved[i] {
      assert t.cache == Window(h[..kept]);
    } else {
      var i :| WindowStart(kept) <= i < kept && !saved[i];
      assert i in Window(h[..kept]) && i !in t.cache;
    }
  }

  // ---------------------------------------------------------------------------
  // Runs
  // ---------------------------------------------------------------------------

  datatype Op = Append(timestampMs: nat, record: Record, persisted: bool) | Reopen

  ghost predicate Step(hash: Bytes -> Bytes, s: State, op: Op, t: State) {
    match op
    case Append(ts, r, persisted) =>
      && CacheAppended(s.cache, NextEntry(hash, s.nextSeq, s.chainTip, ts, r), t.cache)
      && t == Appended(hash, s, t.cache, persisted, ts, r)
    case Reopen => Opened(s.disk, t)
  }

  ghost predicate Run(hash: Bytes -> Bytes, states: seq<State>, ops: seq<Op>) {
    && |states| == |ops| + 1 && |states| < U64
    && Opened(EMPTY_DISK, states[0])
    && forall i | 0 <= i < |ops| :: Step(hash, states[i], ops[i], states[i + 1])
  }

  function AppendCount(ops: seq<Op>): nat {
    if ops == [] then 0
    else AppendCount(ops[..|ops| - 1]) + if ops[|ops| - 1].Append? then 1 else 0
  }

  /** Every write reaches the disk. */
  ghost predicate Reliable(ops: seq<Op>) {
    forall i | 0 <= i < |ops| && ops[i].Append? :: ops[i].persisted
  }

  /** What one append asks for, and whether its write reached the disk. */
  datatype Note = Note(timestampMs: nat, record: Record, persisted: bool)

  /** All appends of a run, in order. */
  function Notes(ops: seq<Op>): seq<Note> {
    if ops == [] then []
    else
      Notes(ops[..|ops| - 1]) + match ops[|ops| - 1]
                                case Append(ts, r, persisted) => [Note(ts, r, persisted)]
                                case Reopen => []
  }

  /** Up to the last one written. */
  function Written(notes: seq<Note>): seq<Note> {
    if notes == [] || notes[|notes| - 1].persisted then notes else Written(notes[..|notes| - 1])
  }

  /** The appends that are still in the log: a restart drops those after the last one written. */
  function Kept(ops: seq<Op>): seq<Note> {
    if ops == [] then []
    else
      var before := Kept(ops[..|ops| - 1]);
      match ops[|ops| - 1]
      case Append(ts, r, persisted) => before + [Note(ts, r, persisted)]
      case Reopen => Written(before)
  }

  /** The log holds exactly what these appends asked for. */
  ghost predicate Files(h: seq<Stored>, saved: seq<bool>, notes: seq<Note>) {
    && |h| == |saved| == |notes|
    && forall i | 0 <= i < |h| ::
         h[i].record == notes[i].record && h[i].timestampMs == notes[i].timestampMs && saved[i] == notes[i].persisted
  }

  lemma FilesSnoc(g: seq<Stored>, was: seq<bool>, notes: seq<Note>, h: seq<Stored>, note: Note)
    requires Files(g, was, notes) && |h| == |g| + 1 && h[..|g|] == g
    requires h[|g|].record == note.record && h[|g|].timestampMs == note.timestampMs
    ensures Files(h, was + [note.persisted], notes + [note])
  {
    forall i | 0 <= i < |g|
      ensures h[i] == g[i]
    {
      assert h[..|g|][i] == h[i];
    }
  }

  lemma {:induction false} FilesWritten(h: seq<Stored>, saved: seq<bool>, notes: seq<Note>)
    requires Files(h, saved, notes)
    ensures var kept := HighWater(saved); Files(h[..kept], saved[..kept], Written(notes))
  {
    if notes == [] || notes[|notes| - 1].persisted {
      assert h[..|h|] == h && saved[..|h|] == saved;
    } else {
      var n := |notes| - 1;
      FilesWritten(h[..n], saved[..n], notes[..n]);
      var kept := HighWater(saved[..n]);
      assert h[..n][..kept] == h[..kept] && saved[..n][..kept] == saved[..kept];
    }
  }

  /** When every write reaches the disk nothing is dropped. */
  lemma {:induction false} ReliableKeepsAll(ops: seq<Op>)
    requires Reliable(ops)
    ensures Kept(ops) == Notes(ops) && forall i | 0 <= i < |Notes(ops)| :: Notes(ops)[i].persisted
    ensures |Notes(ops)| == AppendCount(ops)
  {
    if ops != [] { ReliableKeepsAll(ops[..|ops| - 1]); }
  }

  ghost predicate Synced(hash: Bytes -> Bytes, s: State, h: seq<Stored>) {
    History(hash, h) && Holds(s, h, AllSaved(|h|))
  }

  lemma {:induction false} AppendCountBound(ops: seq<Op>)
    ensures AppendCount(ops) <= |ops|
  {
    if ops != [] { AppendCountBound(ops[..|ops| - 1]); }
  }

  // ---------------------------------------------------------------------------
  // Runs with lost writes
  // ---------------------------------------------------------------------------

  /** The entries that have entered the cache of a process that opened its disk with `born` entries:
      those it read back from the window of that time, and those it appended. */
  ghost function Entered(saved: seq<bool>, born: nat): set<nat>
    requires born <= |saved|
  {
    set i: nat | WindowStart(born) <= i < |saved| && (i >= born || saved[i])
  }

  /** The newest `CACHE_SIZE` of `all`, or all of it if there are fewer. */
  ghost predicate Newest(keys: set<nat>, all: set<nat>) {
    && keys <= all && |keys| == (if |all| < CACHE_SIZE then |all| else CACHE_SIZE)
    && forall i, j | i in all && i !in keys && j in keys :: i < j
  }

  /** A process with history `h`, of which `saved` reached the disk and `born` entries came from it. */
  ghost predicate Lives(hash: Bytes -> Bytes, s: State, h: seq<Stored>, saved: seq<bool>, born: nat) {
    && |h| == |saved| && born <= |h| && History(hash, h)
    && s.disk == DiskOf(h, saved) && s.nextSeq == |h| && s.chainTip == TipOf(h)
    && Newest(s.cache.Keys, Entered(saved, born)) && forall i | i in s.cache :: s.cache[i] == h[i]
  }

  lemma RemovedSize(all: set<nat>, k: nat)
    requires k in all
    ensures |all - {k}| == |all| - 1
  {
  }

  lemma NewestGrows(keys: set<nat>, all: set<nat>, next: nat)
    requires Newest(keys, all) && |keys| < CACHE_SIZE && forall i | i in all :: i < next
    ensures Newest(keys + {next}, all + {next})
  {
    SameSize(keys, all);
    assert next !in all;
  }

  lemma NewestTurns(keys: set<nat>, all: set<nat>, next: nat, k: nat)
    requires Newest(keys, all) && |keys| >= CACHE_SIZE && (forall i | i in all :: i < next)
    requires k in keys && forall i | i in keys :: k <= i
    ensures Newest(keys - {k} + {next}, all + {next})
  {
    assert next !in all;
    assert |all + {next}| == |all| + 1;
    RemovedSize(keys, k);
    assert |keys - {k} + {next}| == |keys|;
  }

  lemma SameSize(keys: set<nat>, all: set<nat>)
    requires keys <= all && |keys| == |all|
    ensures keys == all
  {
    if keys != all {
      var k :| k in all && k !in keys;
      SubsetSize(keys, all - {k});
      RemovedSize(all, k);
    }
  }

  lemma {:induction false} SubsetSize(keys: set<nat>, all: set<nat>)
    requires keys <= all
    ensures |keys| <= |all|
  {
    if keys != {} {
      var k :| k in keys;
      SubsetSize(keys - {k}, all - {k});
    }
  }

  lemma EnteredGrows(saved: seq<bool>, born: nat, persisted: bool)
    requires born <= |saved|
    ensures Entered(saved + [persisted], born) == Entered(saved, born) + {|saved|}
    ensures forall i | i in Entered(saved, born) :: i < |saved|
  {
  }

  lemma EvictedKeys(before: map<nat, Stored>, k: nat, e: Stored)
    requires k in before
    ensures (before - {k})[e.sequence := e].Keys == before.Keys - {k} + {e.sequence}
  {
  }

  lemma AppendLives(hash: Bytes -> Bytes, s: State, h: seq<Stored>, saved: seq<bool>, born: nat, t: State, op: Op)
    requires Lives(hash, s, h, saved, born) && |h| + 1 < U64 && op.Append? && Step(hash, s, op, t)
    ensures var e := NextEntry(hash, |h|, TipOf(h), op.timestampMs, op.record);
            Lives(hash, t, h + [e], saved + [op.persisted], born)
  {
    hide Newest, Entered, History, DiskOf, CacheAppended, Payload;
    var e := NextEntry(hash, |h|, TipOf(h), op.timestampMs, op.record);
    HistoryGrows(hash, h, op.timestampMs, op.record);
    DiskAdvances(h, saved, e, op.persisted);
    EnteredGrows(saved, born, op.persisted);
    NewestIsPart(s.cache.Keys, Entered(saved, born));
    CacheGrows(s.cache, Entered(saved, born), e, t.cache, |h|);
  }

  lemma CacheGrows(before: map<nat, Stored>, all: set<nat>, e: Stored, after: map<nat, Stored>, next: nat)
    requires Newest(before.Keys, all) && e.sequence == next && (forall i | i in all :: i < next)
    requires CacheAppended(before, e, after)
    ensures Newest(after.Keys, all + {next})
    ensures forall i | i in after :: (i == next && after[i] == e) || (i in before && after[i] == before[i])
  {
    hide Newest;
    MapSize(before);
    if |before| >= CACHE_SIZE {
      var k: nat :| IsOldest(before, k) && after == (before - {k})[e.sequence := e];
      EvictedKeys(before, k, e);
      NewestTurns(before.Keys, all, next, k);
    } else {
      assert after.Keys == before.Keys + {next};
      NewestGrows(before.Keys, all, next);
    }
  }

  lemma MapSize<K, V>(m: map<K, V>)
    ensures |m.Keys| == |m|
  {
  }

  /** Entries that never reached the disk leave no trace on it. */
  lemma {:induction false} DiskIgnoresTail(h: seq<Stored>, saved: seq<bool>, kept: nat)
    requires |h| == |saved| && kept <= |h| && forall i | kept <= i < |h| :: !saved[i]
    ensures DiskOf(h[..kept], saved[..kept]) == DiskOf(h, saved)
  {
    if kept == |h| {
      assert h[..kept] == h && saved[..kept] == saved;
    } else {
      var n := |h| - 1;
      DiskIgnoresTail(h[..n], saved[..n], kept);
      assert h[..n][..kept] == h[..kept] && saved[..n][..kept] == saved[..kept];
    }
  }

  lemma HistoryPrefix(hash: Bytes -> Bytes, h: seq<Stored>, kept: nat)
    requires History(hash, h) && kept <= |h|
    ensures History(hash, h[..kept])
  {
    hide LinkOf;
    forall i | 0 <= i < kept
      ensures IntactAt(hash, ZERO_HASH, Links(h[..kept]), i)
    {
      assert IntactAt(hash, ZERO_HASH, Links(h), i);
      assert Links(h[..kept])[i] == Links(h)[i];
      assert i > 0 ==> Links(h[..kept])[i - 1] == Links(h)[i - 1];
    }
  }

  lemma ReopenLives(hash: Bytes -> Bytes, s: State, h: seq<Stored>, saved: seq<bool>, born: nat, t: State)
    requires Lives(hash, s, h, saved, born) && Opened(s.disk, t)
    ensures var kept := HighWater(saved); Lives(hash, t, h[..kept], saved[..kept], kept)
  {
    hide DiskOf, Opened, Newest;
    var kept := HighWater(saved);
    HistoryPrefix(hash, h, kept);
    DiskIgnoresTail(h, saved, kept);
    ReopenedEntry(h, saved, t, 0);
    forall i: nat
      ensures i in t.cache <==> WindowStart(kept) <= i < kept && saved[i]
      ensures i in t.cache ==> t.cache[i] == h[i]
    {
      ReopenedEntry(h, saved, t, i);
    }
    assert t.cache.Keys == Entered(saved[..kept], kept);
    SmallIsNewest(t.cache.Keys, WindowStart(kept), kept);
    assert s.disk == t.disk by { OpenedDisk(s.disk, t); }
  }

  lemma OpenedDisk(d: Disk, t: State)
    requires Opened(d, t)
    ensures t.disk == d
  {
  }

  lemma SmallIsNewest(all: set<nat>, lo: nat, hi: nat)
    requires lo <= hi <= lo + CACHE_SIZE && forall i | i in all :: lo <= i < hi
    ensures Newest(all, all)
  {
    SubsetSize(all, Range(lo, hi));
  }

  /** Over every run of appends, lost writes and restarts the store has one numbered hash chain, its
      disk holds the entries that were written, and its cache the newest `CACHE_SIZE` of those that
      entered it since the last restart. */
  lemma {:induction false} LossyRuns(hash: Bytes -> Bytes, states: seq<State>, ops: seq<Op>)
    returns (h: seq<Stored>, saved: seq<bool>, born: nat)
    requires Run(hash, states, ops)
    ensures Lives(hash, states[|ops|], h, saved, born) && |h| <= AppendCount(ops)
    ensures Files(h, saved, Kept(ops))
    ensures ops != [] && ops[|ops| - 1].Reopen? ==> born == |h|
  {
    hide Lives, Step, Written, Files;
    var n := |ops|;
    if n == 0 {
      FreshLives(hash, states[0]);
      NothingFiled();
      return [], [], 0;
    }
    var g, was, from := LossyRuns(hash, states[..n], ops[..n - 1]);
    AppendCountBound(ops[..n - 1]);
    assert Step(hash, states[n - 1], ops[n - 1], states[n]);
    h, saved, born := StepLives(hash, states[n - 1], ops[n - 1], states[n], g, was, from);
    match ops[n - 1]
    case Append(ts, r, persisted) => FilesSnoc(g, was, Kept(ops[..n - 1]), h, Note(ts, r, persisted));
    case Reopen => FilesWritten(g, was, Kept(ops[..n - 1]));
  }

  lemma NothingFiled()
    ensures Files([], [], [])
  {
  }

  lemma FreshLives(hash: Bytes -> Bytes, s: State)
    requires Opened(EMPTY_DISK, s)
    ensures Lives(hash, s, [], [], 0)
  {
    assert s.cache == map[];
    assert Entered([], 0) == {};
  }

  lemma StepLives(hash: Bytes -> Bytes, s: State, op: Op, t: State, g: seq<Stored>, was: seq<bool>, from: nat)
    returns (h: seq<Stored>, saved: seq<bool>, born: nat)
    requires Lives(hash, s, g, was, from) && |g| + 1 < U64 && Step(hash, s, op, t)
    ensures Lives(hash, t, h, saved, born) && |h| <= |g| + (if op.Append? then 1 else 0)
    ensures op.Reopen? ==> born == |h| == HighWater(was) && h == g[..born] && saved == was[..born]
    ensures op.Append? ==>
              && h[..|g|] == g && h[|g|].record == op.record && h[|g|].timestampMs == op.timestampMs
              && saved == was + [op.persisted] && |h| == |g| + 1
  {
    match op
    case Append(ts, r, persisted) =>
      h, saved, born := g + [NextEntry(hash, |g|, TipOf(g), ts, r)], was + [persisted], from;
      AppendLives(hash, s, g, was, from, t, op);
    case Reopen =>
      var kept := HighWater(was);
      h, saved, born := g[..kept], was[..kept], kept;
      ReopenLives(hash, s, g, was, from, t);
  }

  /** The cache is the window of the history if and only if every entry of the window that was there at
      the last restart had reached the disk. After a restart with a hole in the window the cache is
      smaller, and goes on to keep entries older than the window. */
  lemma CacheIsWindowIff(hash: Bytes -> Bytes, s: State, h: seq<Stored>, saved: seq<bool>, born: nat)
    requires Lives(hash, s, h, saved, born)
    ensures s.cache == Window(h) <==> forall i | WindowStart(|h|) <= i < born :: saved[i]
  {
    hide History, DiskOf, Newest, TipOf;
    var all, window := Entered(saved, born), Range(WindowStart(|h|), |h|);
    assert Window(h).Keys == window;
    NewestIsPart(s.cache.Keys, all);
    if forall i | WindowStart(|h|) <= i < born :: saved[i] {
      TopIsNewest(s.cache.Keys, all, WindowStart(|h|), |h|);
    } else {
      var i: nat :| WindowStart(|h|) <= i < born && !saved[i];
      assert i in Window(h) && i !in all;
    }
  }

  lemma NewestIsPart(keys: set<nat>, all: set<nat>)
    requires Newest(keys, all)
    ensures keys <= all
  {
  }

  lemma TopIsNewest(keys: set<nat>, all: set<nat>, lo: nat, hi: nat)
    requires Newest(keys, all) && (forall i | i in all :: i < hi)
    requires lo == WindowStart(hi) && Range(lo, hi) <= all
    ensures keys == Range(lo, hi)
  {
    var window := Range(lo, hi);
    SubsetSize(window, all);
    if k :| k in window && k !in keys {
      forall j | j in keys
        ensures j in window - {k}
      {
      }
      SubsetSize(keys, window - {k});
      RemovedSize(window, k);
      if lo == 0 { SubsetSize(all, window); }
    }
    assert window <= keys;
    SubsetSize(window, keys);
    if lo == 0 { SubsetSize(all, window); }
    SameSize(window, keys);
  }

  /** With a reliable disk, every run of appends and restarts keeps the cache at exactly the last
      min(next_seq, 10000) entries of one history, which holds what was appended and nothing else, and no
      restart changes the state. */
  lemma {:induction false} RestartRefinement(hash: Bytes -> Bytes, states: seq<State>, ops: seq<Op>)
    returns (h: seq<Stored>)
    requires Run(hash, states, ops) && Reliable(ops)
    ensures Synced(hash, states[|ops|], h) && |h| == AppendCount(ops)
    ensures Files(h, AllSaved(|h|), Notes(ops))
    ensures ops != [] && ops[|ops| - 1].Reopen? ==> states[|ops|] == states[|ops| - 1]
  {
    hide Lives, Synced, Files, AllSaved, Step;
    var n := |ops|;
    var saved, born;
    h, saved, born := LossyRuns(hash, states, ops);
    ReliableKeepsAll(ops);
    hide Run, Reliable, Notes, Kept;
    AllWereSaved(h, saved, Notes(ops));
    LivesIsSynced(hash, states[n], h, born);
    if n > 0 && ops[n - 1].Reopen? {
      ReopenUnchanged(hash, states, ops);
    }
  }

  lemma AllWereSaved(h: seq<Stored>, saved: seq<bool>, notes: seq<Note>)
    requires Files(h, saved, notes) && forall i | 0 <= i < |notes| :: notes[i].persisted
    ensures saved == AllSaved(|h|) && |h| == |notes|
  {
  }

  lemma LivesIsSynced(hash: Bytes -> Bytes, s: State, h: seq<Stored>, born: nat)
    requires Lives(hash, s, h, AllSaved(|h|), born)
    ensures Synced(hash, s, h)
  {
    CacheIsWindowIff(hash, s, h, AllSaved(|h|), born);
  }

  lemma ReopenUnchanged(hash: Bytes -> Bytes, states: seq<State>, ops: seq<Op>)
    requires Run(hash, states, ops) && Reliable(ops) && ops != [] && ops[|ops| - 1].Reopen?
    ensures states[|ops|] == states[|ops| - 1]
  {
    var n := |ops| - 1;
    assert Step(hash, states[n], ops[n], states[n + 1]);
    var h, saved, born := LossyRuns(hash, states[..n + 1], ops[..n]);
    ReliableKeepsAll(ops[..n]);
    hide Run, Reliable, Notes, Kept;
    AllWereSaved(h, saved, Notes(ops[..n]));
    LivesIsSynced(hash, states[n], h, born);
    RestartRestoresExactly(states[n], h, saved, states[n + 1]);
  }

  /** An entry that reached the disk is never lost or overwritten, whatever happens later. */
  lemma {:induction false} DiskOnlyGrows(hash: Bytes -> Bytes, states: seq<State>, ops: seq<Op>, i: nat, k: Bytes)
    requires Run(hash, states, ops) && i <= |ops| && k in states[i].disk.log
    ensures k in states[|ops|].disk.log && states[|ops|].disk.log[k] == states[i].disk.log[k]
  {
    hide Step, Lives;
    var n := |ops|;
    if i < n {
      DiskOnlyGrows(hash, states[..n], ops[..n - 1], i, k);
      var h, saved, born := LossyRuns(hash, states[..n], ops[..n - 1]);
      assert Step(hash, states[n - 1], ops[n - 1], states[n]);
      StepKeepsDisk(hash, states[n - 1], ops[n - 1], states[n], h, saved, born, k);
    }
  }

  lemma StepKeepsDisk(hash: Bytes -> Bytes, s: State, op: Op, t: State, h: seq<Stored>, saved: seq<bool>, born: nat,
                      k: Bytes)
    requires Lives(hash, s, h, saved, born) && Step(hash, s, op, t) && k in s.disk.log
    ensures k in t.disk.log && t.disk.log[k] == s.disk.log[k]
  {
    hide Newest, Entered, DiskOf, Chained;
    DiskWellKeyed(h, saved);
    DiskContents(h, saved, s.disk.log[k].sequence);
    KeysDiffer(s.disk.log[k].sequence, |h|);
  }

  // ---------------------------------------------------------------------------
  // Chain verification over the cache
  // ---------------------------------------------------------------------------

  /** `verify_chain` on the cached entries in key order. */
  method VerifyEntries(hash: Bytes -> Bytes, entries: seq<Stored>) returns (ok: bool)
    ensures ok <==> Chained(hash, ZERO_HASH, Links(entries))
  {
    hide Payload, Repeat;
    var prev := ZERO_HASH;
    ghost var links := Links(entries);
    for i := 0 to |entries|
      invariant prev == DigestBefore(ZERO_HASH, links, i)
      invariant forall j | 0 <= j < i :: IntactAt(hash, ZERO_HASH, links, j)
    {
      var entry := entries[i];
      if entry.prevHash != prev || entry.entryHash != hash(entry.prevHash + Payload(entry.sequence, entry.record)) {
        assert !IntactAt(hash, ZERO_HASH, links, i);
        return false;
      }
      assert Preimage(links[i]) == entry.prevHash + Payload(entry.sequence, entry.record);
      prev := entry.entryHash;
    }
    return true;
  }

  /** Verification of an untampered store succeeds exactly while nothing has been evicted: once
      entry 0 has left the cache, the walk still expects the zero digest first. */
  lemma WindowVerifies(hash: Bytes -> Bytes, h: seq<Stored>)
    requires History(hash, h)
    ensures Chained(hash, ZERO_HASH, Links(h[WindowStart(|h|)..]))
            <==> |h| <= CACHE_SIZE || h[|h| - CACHE_SIZE - 1].entryHash == ZERO_HASH
  {
    var lo := WindowStart(|h|);
    var tail := h[lo..];
    forall i | 0 <= i < |tail|
      ensures IntactAt(hash, ZERO_HASH, Links(tail), i)
              <==> i > 0 || lo == 0 || h[lo - 1].entryHash == ZERO_HASH
    {
      TailLink(hash, h, lo, i);
    }
    if lo > 0 {
      assert IntactAt(hash, ZERO_HASH, Links(tail), 0)
          <==> h[lo - 1].entryHash == ZERO_HASH;
    }
  }

  lemma TailLink(hash: Bytes -> Bytes, h: seq<Stored>, lo: nat, i: nat)
    requires History(hash, h) && lo + i < |h|
    ensures IntactAt(hash, ZERO_HASH, Links(h[lo..]), i)
            <==> i > 0 || lo == 0 || h[lo - 1].entryHash == ZERO_HASH
  {
    hide LinkOf, Repeat;
    assert IntactAt(hash, ZERO_HASH, Links(h), lo + i);
    hide Chained;
    assert Links(h[lo..])[i] == Links(h)[lo + i];
    assert i > 0 ==> Links(h[lo..])[i - 1] == Links(h)[lo + i - 1];
    if i == 0 && lo > 0 { LinkDigest(h, lo - 1); }
    if lo + i > 0 { LinkDigest(h, lo + i - 1); }
  }

  lemma LinkDigest(h: seq<Stored>, k: nat)
    requires k < |h|
    ensures Links(h)[k].digest == h[k].entryHash
  {
  }

  ghost predicate InKeyOrder(cache: map<nat, Stored>, keys: seq<nat>, entries: seq<Stored>) {
    Ascending(keys, cache.Keys) && |entries| == |keys|
    && forall i | 0 <= i < |keys| :: keys[i] in cache && entries[i] == cache[keys[i]]
  }

  lemma NextInOrder(cache: map<nat, Stored>, rest: map<nat, Stored>, keys: seq<nat>, entries: seq<Stored>, k: nat)
    requires rest.Keys <= cache.Keys && InKeyOrder(cache - rest.Keys, keys, entries)
    requires k in rest && forall i | 0 <= i < |keys| :: keys[i] < k
    ensures InKeyOrder(cache - (rest - {k}).Keys, keys + [k], entries + [cache[k]])
  {
    var before, after := cache - rest.Keys, cache - (rest - {k}).Keys;
    assert after.Keys == before.Keys + {k};
    AscendingSnoc(keys, before.Keys, k);
  }

  lemma AscendingSnoc(order: seq<nat>, keys: set<nat>, k: nat)
    requires Ascending(order, keys) && forall i | 0 <= i < |order| :: order[i] < k
    ensures Ascending(order + [k], keys + {k})
  {
  }

  /** The cached entries in key order. */
  method CachedValues(cache: map<nat, Stored>) returns (keys: seq<nat>, entries: seq<Stored>)
    ensures InKeyOrder(cache, keys, entries)
  {
    keys, entries := [], [];
    var rest := cache;
    while rest != map[]
      invariant rest.Keys <= cache.Keys && forall k | k in rest :: rest[k] == cache[k]
      invariant InKeyOrder(cache - rest.Keys, keys, entries)
      invariant forall i, k | 0 <= i < |keys| && k in rest :: keys[i] < k
      decreases rest.Keys
    {
      OldestExists(rest);
      var oldest: nat :| oldest in rest && forall i :: i in rest ==> oldest <= i;
      NextInOrder(cache, rest, keys, entries, oldest);
      keys, entries := keys + [oldest], entries + [cache[oldest]];
      rest := rest - {oldest};
    }
    assert cache - rest.Keys == cache;
  }

  lemma WindowInOrder(h: seq<Stored>, keys: seq<nat>, entries: seq<Stored>)
    requires InKeyOrder(Window(h), keys, entries)
    ensures entries == h[WindowStart(|h|)..]
  {
    AllCounted(keys, Window(h).Keys, WindowStart(|h|), |h|);
  }

  method InsertEvicting(cache: map<nat, Stored>, entry: Stored) returns (after: map<nat, Stored>)
    ensures CacheAppended(cache, entry, after)
    ensures entry.sequence in after && after[entry.sequence] == entry
    ensures |cache| < 10_000 ==> after == cache[entry.sequence := entry]
    ensures forall k | k in cache && k !in after :: |cache| >= 10_000 && forall i | i in cache :: k <= i
  {
    after := cache;
    if |cache| >= CACHE_SIZE {
      OldestExists(cache);
      var oldest: nat :| oldest in cache && forall i :: i in cache ==> oldest <= i;
      assert IsOldest(cache, oldest);
      after := cache - {oldest};
    }
    after := after[entry.sequence := entry];
  }

  // ---------------------------------------------------------------------------
  // The store object
  // ---------------------------------------------------------------------------

  class Store {
    const hash: Bytes -> Bytes
    var disk: Disk
    var cache: map<nat, Stored>
    var nextSeq: nat
    var chainTip: Bytes

    ghost function Abs(): State
      reads this
    {
      State(disk, cache, nextSeq, chainTip)
    }

    /** Opens any disk that this store has written to, with or without lost writes. */
    constructor Open(hash: Bytes -> Bytes, disk: Disk)
      requires WellKeyed(disk) && disk.nextSeq < U64
      ensures this.hash == hash && Opened(disk, Abs())
    {
      this.hash, this.disk := hash, disk;
      nextSeq, chainTip := disk.nextSeq, disk.chainTip;
      var loaded := LoadCache(disk);
      cache := loaded;
    }

    method Append(actor: Bytes, action: Bytes, result: Bytes, detail: Bytes, timestampMs: nat, persisted: bool)
      returns (sequence: nat)
      requires nextSeq + 1 < U64
      modifies this
      ensures sequence == old(nextSeq) && nextSeq == sequence + 1
      ensures sequence in cache && cache[sequence].sequence == sequence && cache[sequence].timestampMs == timestampMs
      ensures cache[sequence].record == Record(actor, action, result, detail)
      ensures cache[sequence].prevHash == old(chainTip)
      ensures cache[sequence].entryHash == chainTip
              == hash(old(chainTip) + (LittleEndian(sequence, 8)
                                       + (actor + ([0] + (action + ([0] + (result + ([0] + detail))))))))
      ensures disk == if persisted
                      then Disk(old(disk).log[BigEndian(sequence, 8) := cache[sequence]], sequence + 1, chainTip)
                      else old(disk)
      ensures var r := Record(actor, action, result, detail);
              && CacheAppended(old(cache), NextEntry(hash, old(nextSeq), old(chainTip), timestampMs, r), cache)
              && Abs() == Appended(hash, old(Abs()), cache, persisted, timestampMs, r)
    {
      sequence := nextSeq;
      var entry := NextEntry(hash, sequence, chainTip, timestampMs, Record(actor, action, result, detail));
      if persisted {
        disk := Persist(disk, entry);
      }
      chainTip := entry.entryHash;
      nextSeq := sequence + 1;
      var cached := InsertEvicting(cache, entry);
      cache := cached;
    }

    /** The walk over the cached entries, and its exact answer on the window of a history. */
    method VerifyChain() returns (ok: bool)
      ensures exists keys, entries ::
                InKeyOrder(cache, keys, entries) && (ok <==> Chained(hash, ZERO_HASH, Links(entries)))
      ensures forall h: seq<Stored> | History(hash, h) && cache == Window(h) ::
                ok <==> |h| <= CACHE_SIZE || h[|h| - CACHE_SIZE - 1].entryHash == ZERO_HASH
    {
      var keys, entries := CachedValues(cache);
      ok := VerifyEntries(hash, entries);
      forall h: seq<Stored> | History(hash, h) && cache == Window(h)
        ensures ok <==> |h| <= CACHE_SIZE || h[|h| - CACHE_SIZE - 1].entryHash == ZERO_HASH
      {
        WindowInOrder(h, keys, entries);
        WindowVerifies(hash, h);
      }
    }
  }

  lemma {:induction false} OldestExists(cache: map<nat, Stored>)
    requires cache != map[]
    ensures exists k: nat :: IsOldest(cache, k)
  {
    var k: nat :| k in cache;
    OldestBelow(cache, k);
  }

  lemma {:induction false} OldestBelow(cache: map<nat, Stored>, k: nat)
    requires k in cache
    ensures exists j: nat :: IsOldest(cache, j)
    decreases k
  {
    if i: nat :| i in cache && i < k {
      OldestBelow(cache, i);
    } else {
      assert IsOldest(cache, k);
    }
  }

  /** `load_cache`: scans the keys from the window start onward. */
  method LoadCache(d: Disk) returns (cache: map<nat, Stored>)
    requires WellKeyed(d) && d.nextSeq < U64
    ensures CacheFrom(d, d.nextSeq, cache)
  {
    var startKey := Key(WindowStart(d.nextSeq));
    var pending := set k | k in d.log && !LexLess(k, startKey);
    ghost var cursor := pending;
    cache := map[];
    while pending != {}
      invariant pending <= cursor
      invariant forall i: nat :: i in cache <==> i < U64 && Key(i) in cursor - pending
      invariant forall i | i in cache :: cache[i] == d.log[Key(i)]
    {
      var k :| k in pending;
      var entry := d.log[k];
      forall i: nat | i < U64
        ensures Key(i) == k <==> i == entry.sequence
      {
        KeysDiffer(i, entry.sequence);
      }
      cache := cache[entry.sequence := entry];
      pending := pending - {k};
    }
    forall i: nat | i < U64
      ensures !LexLess(Key(i), startKey) <==> WindowStart(d.nextSeq) <= i
    {
      KeysDiffer(i, WindowStart(d.nextSeq));
    }
  }
}
