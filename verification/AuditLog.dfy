/** The in-memory authentication audit log (crates/bleep-auth/src/audit.rs).
    `hash` stands for the hex-encoded SHA3-256 and `serialise` for the JSON encoder. */
module AuditLog {
  import opened Encoding
  import opened HashChain

  datatype EventKind =
    | Registration | Login | Logout | AccessDenied | ValidatorBound | ValidatorUnbound
    | RoleAssigned | RoleRevoked | CredentialRotated | SessionForceRevoked
    | EmergencyAction | RateLimitHit | IdentityDeactivated

  datatype Event = Event(kind: EventKind, actorId: string, resource: string, action: string,
                         outcome: string, details: string, timestamp: int)

  datatype Entry = Entry(index: nat, event: Event, entryHash: Bytes, prevHash: Bytes)

  datatype Verdict =
    | Intact
    | ChainBroken(index: nat, expected: Bytes, got: Bytes)
    | HashMismatch(index: nat, computed: Bytes, stored: Bytes)

  /** 64 ASCII zeros. */
  const GENESIS_HASH: Bytes := Repeat(48, 64)

  function Links(serialise: Event -> Bytes, entries: seq<Entry>): (links: seq<Link>)
    ensures |links| == |entries|
  {
    seq(|entries|, i requires 0 <= i < |entries| => LinkOf(serialise, entries[i]))
  }

  function LinkOf(serialise: Event -> Bytes, e: Entry): Link {
    Link(e.prevHash, serialise(e.event), e.entryHash)
  }

  function Events(entries: seq<Entry>): (events: seq<Event>)
    ensures |events| == |entries|
  {
    seq(|entries|, i requires 0 <= i < |entries| => entries[i].event)
  }

  /** What the walk reports for an entry whose predecessor digest should be `expected`. */
  function Fault(hash: Bytes -> Bytes, serialise: Event -> Bytes, expected: Bytes, e: Entry): Verdict {
    var computed := hash(e.prevHash + serialise(e.event));
    if e.prevHash != expected then ChainBroken(e.index, expected, e.prevHash)
    else if computed != e.entryHash then HashMismatch(e.index, computed, e.entryHash)
    else Intact
  }

  /** Walks any list of entries, tampered or not: it is accepted exactly when it is a hash chain
      from the genesis digest, and otherwise the first offending entry is reported. */
  method VerifyChain(hash: Bytes -> Bytes, serialise: Event -> Bytes, entries: seq<Entry>)
    returns (verdict: Verdict)
    ensures verdict.Intact? <==> Chained(hash, GENESIS_HASH, Links(serialise, entries))
    ensures !verdict.Intact? ==>
              exists k | 0 <= k < |entries| ::
                && Chained(hash, GENESIS_HASH, Links(serialise, entries[..k]))
                && var e, expected := entries[k], Tip(GENESIS_HASH, Links(serialise, entries[..k]));
                   var computed := hash(e.prevHash + serialise(e.event));
                   if e.prevHash != expected then verdict == ChainBroken(e.index, expected, e.prevHash)
                   else computed != e.entryHash && verdict == HashMismatch(e.index, computed, e.entryHash)
  {
    var expectedPrev := GENESIS_HASH;
    ghost var links := Links(serialise, entries);
    for i := 0 to |entries|
      invariant expectedPrev == DigestBefore(GENESIS_HASH, links, i)
      invariant forall j | 0 <= j < i :: IntactAt(hash, GENESIS_HASH, links, j)
    {
      var entry := entries[i];
      verdict := Fault(hash, serialise, expectedPrev, entry);
      if verdict != Intact {
        assert !IntactAt(hash, GENESIS_HASH, links, i);
        assert Links(serialise, entries[..i]) == links[..i];
        assert Chained(hash, GENESIS_HASH, links[..i]) by {
          forall j | 0 <= j < i
            ensures IntactAt(hash, GENESIS_HASH, links[..i], j)
          {
            assert IntactAt(hash, GENESIS_HASH, links, j);
          }
        }
        return;
      }
      assert Preimage(links[i]) == entry.prevHash + serialise(entry.event);
      expectedPrev := entry.entryHash;
    }
    verdict := Intact;
  }

  class Log {
    const hash: Bytes -> Bytes
    const serialise: Event -> Bytes
    var entries: seq<Entry>
    var headHash: Bytes

    ghost predicate Valid()
      reads this
    {
      && headHash == Tip(GENESIS_HASH, Links(serialise, entries))
      && Chained(hash, GENESIS_HASH, Links(serialise, entries))
      && forall i | 0 <= i < |entries| :: entries[i].index == i
    }

    constructor (hash: Bytes -> Bytes, serialise: Event -> Bytes)
      ensures Valid() && entries == []
      ensures this.hash == hash && this.serialise == serialise
    {
      this.hash, this.serialise := hash, serialise;
      entries, headHash := [], GENESIS_HASH;
    }

    /** Appends without touching history, and the extended log still verifies. */
    method Record(event: Event)
      requires Valid()
      modifies this
      ensures Valid()
      ensures |entries| == |old(entries)| + 1 && old(entries) <= entries
      ensures Events(entries) == Events(old(entries)) + [event]
      ensures headHash == hash(old(headHash) + serialise(event))
    {
      var prevHash := headHash;
      var entryHash := hash(prevHash + serialise(event));
      var entry := Entry(|entries|, event, entryHash, prevHash);
      ghost var before := Links(serialise, entries);
      ChainedExtend(hash, GENESIS_HASH, before, LinkOf(serialise, entry));
      headHash := entryHash;
      entries := entries + [entry];
      assert Links(serialise, entries) == before + [LinkOf(serialise, entry)];
    }

    method Verify() returns (verdict: Verdict)
      ensures verdict.Intact? <==> Chained(hash, GENESIS_HASH, Links(serialise, entries))
    {
      verdict := VerifyChain(hash, serialise, entries);
    }
  }

  /** Publishing the tip commits to the whole history: any two logs, of any lengths, that verify
      and end in the same digest hold the same events under the same digests. */
  lemma TipDeterminesHistory(hash: Bytes -> Bytes, serialise: Event -> Bytes, a: seq<Entry>, b: seq<Entry>)
    requires Chained(hash, GENESIS_HASH, Links(serialise, a))
    requires Chained(hash, GENESIS_HASH, Links(serialise, b))
    requires Tip(GENESIS_HASH, Links(serialise, a)) == Tip(GENESIS_HASH, Links(serialise, b))
    requires SoundDigests(hash, GENESIS_HASH, Preimages(Links(serialise, a)) + Preimages(Links(serialise, b)))
    requires forall e, f :: e in Events(a) && f in Events(b) && serialise(e) == serialise(f) ==> e == f
    ensures Events(a) == Events(b)
    ensures forall i | 0 <= i < |a| :: a[i].entryHash == b[i].entryHash && a[i].prevHash == b[i].prevHash
  {
    TipDeterminesChain(hash, GENESIS_HASH, Links(serialise, a), Links(serialise, b));
    assert |a| == |Links(serialise, a)| == |b|;
    forall i | 0 <= i < |a|
      ensures Events(a)[i] == Events(b)[i]
      ensures a[i].entryHash == b[i].entryHash && a[i].prevHash == b[i].prevHash
    {
      assert Links(serialise, a)[i] == Links(serialise, b)[i];
      assert Events(a)[i] in Events(a) && Events(b)[i] in Events(b);
    }
  }

  /** Changing any event of a log that verifies is noticed by whoever kept the tip. */
  lemma TamperingIsDetected(hash: Bytes -> Bytes, serialise: Event -> Bytes, log: seq<Entry>, forged: seq<Entry>)
    requires Chained(hash, GENESIS_HASH, Links(serialise, log)) && Events(forged) != Events(log)
    requires SoundDigests(hash, GENESIS_HASH,
                          Preimages(Links(serialise, log)) + Preimages(Links(serialise, forged)))
    requires forall e, f :: e in Events(log) && f in Events(forged) && serialise(e) == serialise(f) ==> e == f
    ensures !Chained(hash, GENESIS_HASH, Links(serialise, forged))
            || Tip(GENESIS_HASH, Links(serialise, forged)) != Tip(GENESIS_HASH, Links(serialise, log))
  {
    if Chained(hash, GENESIS_HASH, Links(serialise, forged))
       && Tip(GENESIS_HASH, Links(serialise, forged)) == Tip(GENESIS_HASH, Links(serialise, log)) {
      TipDeterminesHistory(hash, serialise, log, forged);
    }
  }
}
