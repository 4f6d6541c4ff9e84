/** The hash chain shared by the two audit logs: every link commits to the digest before it. */
module HashChain {
  import opened Encoding

  datatype Link = Link(prev: Bytes, payload: Bytes, digest: Bytes)

  function Preimage(l: Link): Bytes {
    l.prev + l.payload
  }

  function Preimages(links: seq<Link>): set<Bytes> {
    set i | 0 <= i < |links| :: Preimage(links[i])
  }

  /** The digest that position `i` has to name as its predecessor. */
  function DigestBefore(genesis: Bytes, links: seq<Link>, i: nat): Bytes
    requires i <= |links|
  {
    if i == 0 then genesis else links[i - 1].digest
  }

  function Tip(genesis: Bytes, links: seq<Link>): Bytes {
    DigestBefore(genesis, links, |links|)
  }

  predicate LinkIntact(hash: Bytes -> Bytes, expectedPrev: Bytes, l: Link) {
    l.prev == expectedPrev && l.digest == hash(Preimage(l))
  }

  predicate IntactAt(hash: Bytes -> Bytes, genesis: Bytes, links: seq<Link>, i: nat)
    requires i < |links|
  {
    LinkIntact(hash, DigestBefore(genesis, links, i), links[i])
  }

  predicate Chained(hash: Bytes -> Bytes, genesis: Bytes, links: seq<Link>) {
    forall i | 0 <= i < |links| :: IntactAt(hash, genesis, links, i)
  }

  lemma ChainedPrefix(hash: Bytes -> Bytes, genesis: Bytes, links: seq<Link>, n: nat)
    requires n <= |links| && Chained(hash, genesis, links)
    ensures Chained(hash, genesis, links[..n])
  {
    forall i | 0 <= i < n
      ensures IntactAt(hash, genesis, links[..n], i)
    {
      assert IntactAt(hash, genesis, links, i);
    }
  }

  lemma ChainedExtend(hash: Bytes -> Bytes, genesis: Bytes, links: seq<Link>, l: Link)
    requires Chained(hash, genesis, links)
    requires LinkIntact(hash, Tip(genesis, links), l)
    ensures Chained(hash, genesis, links + [l])
  {
    var all := links + [l];
    forall i | 0 <= i < |all|
      ensures IntactAt(hash, genesis, all, i)
    {
      assert i < |links| ==> IntactAt(hash, genesis, links, i);
    }
  }

  /** What the tip of a chain promises: digests as wide as the genesis digest, none equal to it,
      and no collision among the preimages at hand. */
  ghost predicate SoundDigests(hash: Bytes -> Bytes, genesis: Bytes, preimages: set<Bytes>) {
    && CollisionFreeOn(hash, preimages)
    && forall x :: x in preimages ==> |hash(x)| == |genesis| && hash(x) != genesis
  }

  /** Two intact chains, of any lengths, that end in the same digest are the same chain. */
  lemma {:induction false} TipDeterminesChain(hash: Bytes -> Bytes, genesis: Bytes, a: seq<Link>, b: seq<Link>)
    requires Chained(hash, genesis, a) && Chained(hash, genesis, b)
    requires SoundDigests(hash, genesis, Preimages(a) + Preimages(b))
    requires Tip(genesis, a) == Tip(genesis, b)
    ensures a == b
    decreases |a|
  {
    if a == [] {
      OnlyEmptyChainEndsInGenesis(hash, genesis, b);
    } else if b == [] {
      OnlyEmptyChainEndsInGenesis(hash, genesis, a);
    } else {
      var a', b' := a[..|a| - 1], b[..|b| - 1];
      SameTipSameLast(hash, genesis, a, b);
      DropLast(hash, genesis, a);
      DropLast(hash, genesis, b);
      SoundSubset(hash, genesis, Preimages(a) + Preimages(b), Preimages(a') + Preimages(b'));
      TipDeterminesChain(hash, genesis, a', b');
      SameParts(a, b);
    }
  }

  lemma SameParts<T>(a: seq<T>, b: seq<T>)
    requires a != [] && b != []
    requires a[..|a| - 1] == b[..|b| - 1] && a[|a| - 1] == b[|b| - 1]
    ensures a == b
  {
  }

  lemma SoundSubset(hash: Bytes -> Bytes, genesis: Bytes, preimages: set<Bytes>, fewer: set<Bytes>)
    requires SoundDigests(hash, genesis, preimages) && fewer <= preimages
    ensures SoundDigests(hash, genesis, fewer)
  {
  }

  lemma OnlyEmptyChainEndsInGenesis(hash: Bytes -> Bytes, genesis: Bytes, links: seq<Link>)
    requires Chained(hash, genesis, links)
    requires forall x :: x in Preimages(links) ==> hash(x) != genesis
    ensures Tip(genesis, links) == genesis ==> links == []
  {
    if links != [] {
      var last := LastIsIntact(hash, genesis, links);
    }
  }

  lemma SameTipSameLast(hash: Bytes -> Bytes, genesis: Bytes, a: seq<Link>, b: seq<Link>)
    requires a != [] && b != [] && Chained(hash, genesis, a) && Chained(hash, genesis, b)
    requires SoundDigests(hash, genesis, Preimages(a) + Preimages(b))
    requires Tip(genesis, a) == Tip(genesis, b)
    ensures a[|a| - 1] == b[|b| - 1]
  {
    var la := LastIsIntact(hash, genesis, a);
    var lb := LastIsIntact(hash, genesis, b);
    PrevWidth(hash, genesis, a, |a| - 1);
    PrevWidth(hash, genesis, b, |b| - 1);
    SplitEqual(la.prev, lb.prev, la.payload, lb.payload);
  }

  lemma DropLast(hash: Bytes -> Bytes, genesis: Bytes, links: seq<Link>)
    requires links != [] && Chained(hash, genesis, links)
    ensures Chained(hash, genesis, links[..|links| - 1])
    ensures Preimages(links[..|links| - 1]) <= Preimages(links)
    ensures Tip(genesis, links[..|links| - 1]) == links[|links| - 1].prev
  {
    ChainedPrefix(hash, genesis, links, |links| - 1);
    assert IntactAt(hash, genesis, links, |links| - 1);
    forall x | x in Preimages(links[..|links| - 1])
      ensures x in Preimages(links)
    {
      var i :| 0 <= i < |links| - 1 && x == Preimage(links[..|links| - 1][i]);
      assert x == Preimage(links[i]);
    }
  }

  lemma LastIsIntact(hash: Bytes -> Bytes, genesis: Bytes, links: seq<Link>) returns (l: Link)
    requires links != [] && Chained(hash, genesis, links)
    ensures l == links[|links| - 1] && Preimage(l) in Preimages(links)
    ensures LinkIntact(hash, DigestBefore(genesis, links, |links| - 1), l)
    ensures Tip(genesis, links) == hash(Preimage(l))
  {
    l := links[|links| - 1];
    assert IntactAt(hash, genesis, links, |links| - 1);
  }

  lemma PrevWidth(hash: Bytes -> Bytes, genesis: Bytes, links: seq<Link>, i: nat)
    requires i < |links| && Chained(hash, genesis, links)
    requires forall x :: x in Preimages(links) ==> |hash(x)| == |genesis|
    ensures |links[i].prev| == |genesis|
  {
    assert IntactAt(hash, genesis, links, i);
    if i > 0 {
      assert IntactAt(hash, genesis, links, i - 1);
      assert Preimage(links[i - 1]) in Preimages(links);
    }
  }
}
