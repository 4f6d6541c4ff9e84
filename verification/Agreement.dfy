/** Agreement between any number of nodes that each run a finality manager. */
module Agreement {
  import opened Encoding
  import opened Committee
  import opened BlockHeader
  import opened Finality

  datatype Event =
    | Sign(key: Bytes, cert: Certificate)
    | Finalize(node: nat, cert: Certificate, active: seq<Validator>)
    | Record(node: nat, proof: FinalityProof, active: seq<Validator>)

  /** All managers, and every certificate whose message was signed so far under each key. */
  datatype Network = Network(nodes: map<nat, State>, signed: set<(Bytes, Certificate)>)

  const GENESIS := Network(map[], {})

  function NodeState(n: Network, node: nat): State {
    if node in n.nodes then n.nodes[node] else EMPTY
  }

  ghost function Apply(crypto: Crypto, n: Network, e: Event): Network {
    match e
    case Sign(key, cert) => n.(signed := n.signed + {(key, cert)})
    case Finalize(node, cert, active) =>
      if CanFinalize(crypto, NodeState(n, node), cert, active)
      then n.(nodes := n.nodes[node := Finalized(NodeState(n, node), cert)]) else n
    case Record(node, proof, active) =>
      if CanRecord(crypto, NodeState(n, node), proof, active)
      then n.(nodes := n.nodes[node := Recorded(NodeState(n, node), proof)]) else n
  }

  ghost function After(crypto: Crypto, events: seq<Event>): Network {
    if events == [] then GENESIS
    else Apply(crypto, After(crypto, events[..|events| - 1]), events[|events| - 1])
  }

  /** The message of `c` was signed under `key`, for `c` or for a certificate with the same message. */
  ghost predicate SignedMessage(hash: Bytes -> Bytes, signed: set<(Bytes, Certificate)>, key: Bytes, c: Certificate) {
    exists d :: (key, d) in signed && Message(hash, d) == Message(hash, c)
  }

  /** Signatures cannot be forged: what verifies under a member's key was signed under it. */
  ghost predicate Unforgeable(crypto: Crypto, n: Network, e: Event) {
    e.Finalize? ==>
      forall s, m | s in e.cert.signatures && m in Members(crypto, e.active)
                    && crypto.verify(Message(crypto.hash, e.cert), s.bytes, m.publicKey) ::
        SignedMessage(crypto.hash, n.signed, m.publicKey, e.cert)
  }

  /** A request to finalize a block of this height. */
  predicate At(e: Event, height: nat) {
    e.Finalize? && Height(e.cert) == height
  }

  /** The registries consulted to finalize blocks of one height all have the committee hash
      `committeeHash`. Other heights may have other committees. */
  ghost predicate OneCommittee(crypto: Crypto, events: seq<Event>, height: nat, committeeHash: Bytes) {
    forall i | 0 <= i < |events| && At(events[i], height) ::
      && Bounded(crypto.decodeKey, events[i].active)
      && CommitteeOf(crypto.hash, Members(crypto, events[i].active)).hash == committeeHash
  }

  ghost predicate Run(crypto: Crypto, events: seq<Event>) {
    forall i | 0 <= i < |events| :: Unforgeable(crypto, After(crypto, events[..i]), events[i])
  }

  /** The committee encodings hashed to finalize blocks of one height. */
  ghost function Encodings(crypto: Crypto, events: seq<Event>, height: nat): set<Bytes> {
    set i | 0 <= i < |events| && At(events[i], height) :: EncodeCommittee(Members(crypto, events[i].active))
  }

  /** The certificates signed or presented to a manager during a run. */
  function Certificates(events: seq<Event>): set<Certificate> {
    set i | 0 <= i < |events| && !events[i].Record? :: events[i].cert
  }

  function HashedTexts(certs: set<Certificate>): set<Bytes> {
    set c, x | c in certs && x in HeaderTexts(c.header) :: x
  }

  /** Fields have their machine widths, and no two texts hashed into the messages collide. */
  ghost predicate SoundMessages(hash: Bytes -> Bytes, certs: set<Certificate>) {
    (forall c | c in certs :: RepresentableCertificate(hash, c)) && Digests(hash, HashedTexts(certs))
  }

  /** Among the certificates of a run, the signed message fixes the header. */
  lemma MessageFixesHeader(hash: Bytes -> Bytes, certs: set<Certificate>, c: Certificate, d: Certificate)
    requires SoundMessages(hash, certs) && c in certs && d in certs && Message(hash, c) == Message(hash, d)
    ensures c.header == d.header
  {
    hide Message, RepresentableCertificate;
    assert HeaderTexts(c.header) + HeaderTexts(d.header) <= HashedTexts(certs);
    MessageBinds(hash, c, d);
    assert c.(signatures := []).header == d.(signatures := []).header;
  }

  // ---------------------------------------------------------------------------
  // Equivocation
  // ---------------------------------------------------------------------------

  /** A key under which two certificates of one height with different block hashes were signed. */
  ghost predicate Equivocates(signed: set<(Bytes, Certificate)>, key: Bytes, height: nat) {
    exists c, d :: && (key, c) in signed && (key, d) in signed
                   && Height(c) == Height(d) == height && c.header.blockHash != d.header.blockHash
  }

  ghost function Equivocators(ms: seq<Member>, signed: set<(Bytes, Certificate)>, height: nat): set<Bytes> {
    set m | m in ms && Equivocates(signed, m.publicKey, height) :: m.id
  }

  /** An equivocator signed two different messages, and a key that signed one message is none. */
  lemma EquivocatorsSignedTwice(hash: Bytes -> Bytes, signed: set<(Bytes, Certificate)>, key: Bytes, height: nat)
    requires SoundMessages(hash, set x | x in signed :: x.1) && Equivocates(signed, key, height)
    ensures exists c, d :: (key, c) in signed && (key, d) in signed && Height(c) == Height(d) == height
                           && Message(hash, c) != Message(hash, d)
  {
    hide Message, SoundMessages;
    var certs := set x | x in signed :: x.1;
    var c, d :| (key, c) in signed && (key, d) in signed && Height(c) == Height(d) == height
                && c.header.blockHash != d.header.blockHash;
    assert (key, c).1 in certs && (key, d).1 in certs;
    if Message(hash, c) == Message(hash, d) {
      MessageFixesHeader(hash, certs, c, d);
    }
  }

  // ---------------------------------------------------------------------------
  // What every reachable network satisfies
  // ---------------------------------------------------------------------------

  /** A certificate with this header was signed under `key`. */
  ghost predicate SignedHeader(signed: set<(Bytes, Certificate)>, key: Bytes, header: FinalityHeader) {
    exists d :: (key, d) in signed && d.header == header
  }

  /** A finalized certificate: a quorum of `ms`, each of whose keys has signed its header. */
  ghost predicate Backed(signed: set<(Bytes, Certificate)>, ms: seq<Member>, c: Certificate) {
    && Quorum(ms, Signers(c.signatures))
    && forall m | m in ms && m.id in Signers(c.signatures) :: SignedHeader(signed, m.publicKey, c.header)
  }

  ghost predicate AllBacked(n: Network, ms: seq<Member>, height: nat) {
    forall node | node in n.nodes && height in n.nodes[node].finalized ::
      && Height(n.nodes[node].finalized[height]) == height
      && Backed(n.signed, ms, n.nodes[node].finalized[height])
  }

  ghost predicate Inv(n: Network, ms: seq<Member>, certs: set<Certificate>, height: nat) {
    DistinctIds(ms) && (forall x | x in n.signed :: x.1 in certs) && AllBacked(n, ms, height)
  }

  lemma FinalizedIsBacked(crypto: Crypto, n: Network, e: Event, certs: set<Certificate>)
    requires e.Finalize? && Unforgeable(crypto, n, e) && Finalizes(crypto, e.cert, e.active)
    requires DistinctIds(Members(crypto, e.active))
    requires SoundMessages(crypto.hash, certs) && e.cert in certs && forall x | x in n.signed :: x.1 in certs
    ensures Backed(n.signed, Members(crypto, e.active), e.cert)
  {
    hide SoundMessages, Message;
    var ms, c := Members(crypto, e.active), e.cert;
    forall m | m in ms && m.id in Signers(c.signatures)
      ensures SignedHeader(n.signed, m.publicKey, c.header)
    {
      var i :| 0 <= i < |c.signatures| && c.signatures[i].validatorId == m.id;
      var s := c.signatures[i];
      assert s in c.signatures && SignatureValid(crypto, ms, Message(crypto.hash, c), s);
      MemberMapFinds(ms, m.id);
      SameIdSameMember(ms, m, MemberMap(ms)[m.id]);
      var d :| (m.publicKey, d) in n.signed && Message(crypto.hash, d) == Message(crypto.hash, c);
      assert (m.publicKey, d).1 in certs;
      MessageFixesHeader(crypto.hash, certs, d, c);
    }
  }

  lemma SameIdSameMember(ms: seq<Member>, m: Member, m': Member)
    requires DistinctIds(ms) && m in ms && m' in ms && m.id == m'.id
    ensures m == m'
  {
  }

  lemma SignedMore(signed: set<(Bytes, Certificate)>, x: (Bytes, Certificate), ms: seq<Member>, c: Certificate)
    requires Backed(signed, ms, c)
    ensures Backed(signed + {x}, ms, c)
  {
    hide Quorum, Signers;
    forall m | m in ms && m.id in Signers(c.signatures)
      ensures SignedHeader(signed + {x}, m.publicKey, c.header)
    {
      var d :| (m.publicKey, d) in signed && d.header == c.header;
      assert (m.publicKey, d) in signed + {x};
    }
  }

  lemma StepInv(crypto: Crypto, n: Network, e: Event, ms: seq<Member>, certs: set<Certificate>, height: nat)
    requires Inv(n, ms, certs, height) && Unforgeable(crypto, n, e) && SoundMessages(crypto.hash, certs)
    requires At(e, height) ==> Members(crypto, e.active) == ms
    requires !e.Record? ==> e.cert in certs
    ensures Inv(Apply(crypto, n, e), ms, certs, height)
  {
    hide Message, MembersOf, Finalizes, SoundMessages, Backed;
    match e
    case Sign(key, cert) =>
      forall node | node in n.nodes && height in n.nodes[node].finalized
        ensures Backed(n.signed + {(key, cert)}, ms, n.nodes[node].finalized[height])
      {
        SignedMore(n.signed, (key, cert), ms, n.nodes[node].finalized[height]);
      }
    case Finalize(node, cert, active) =>
      if CanFinalize(crypto, NodeState(n, node), cert, active) && Height(cert) == height {
        FinalizedIsBacked(crypto, n, e, certs);
      }
    case Record(_, _, _) =>
  }

  lemma {:induction false} RunInv(crypto: Crypto, events: seq<Event>, ms: seq<Member>, certs: set<Certificate>,
                                  height: nat)
    requires Run(crypto, events) && DistinctIds(ms)
    requires SoundMessages(crypto.hash, certs) && Certificates(events) <= certs
    requires forall i | 0 <= i < |events| && At(events[i], height) :: Members(crypto, events[i].active) == ms
    ensures Inv(After(crypto, events), ms, certs, height)
  {
    hide Inv, Unforgeable, Apply, SoundMessages;
    if events == [] {
      GenesisInv(ms, certs, height);
    } else {
      var n := |events| - 1;
      RunPrefix(crypto, events);
      assert !events[n].Record? ==> events[n].cert in Certificates(events);
      forall c | c in Certificates(events[..n])
        ensures c in Certificates(events)
      {
        var i :| 0 <= i < n && !events[..n][i].Record? && events[..n][i].cert == c;
        assert events[i].cert == c;
      }
      RunInv(crypto, events[..n], ms, certs, height);
      StepInv(crypto, After(crypto, events[..n]), events[n], ms, certs, height);
    }
  }

  lemma GenesisInv(ms: seq<Member>, certs: set<Certificate>, height: nat)
    requires DistinctIds(ms)
    ensures Inv(GENESIS, ms, certs, height)
  {
  }

  lemma RunPrefix(crypto: Crypto, events: seq<Event>)
    requires events != [] && Run(crypto, events)
    ensures Run(crypto, events[..|events| - 1])
    ensures Unforgeable(crypto, After(crypto, events[..|events| - 1]), events[|events| - 1])
  {
    hide Unforgeable, After;
    var before := events[..|events| - 1];
    forall i | 0 <= i < |before|
      ensures Unforgeable(crypto, After(crypto, before[..i]), before[i])
    {
      assert before[..i] == events[..i];
      assert Unforgeable(crypto, After(crypto, events[..i]), events[i]);
    }
  }

  lemma OneMemberList(crypto: Crypto, events: seq<Event>, height: nat, committeeHash: Bytes, i: nat, k: nat)
    requires OneCommittee(crypto, events, height, committeeHash)
    requires CollisionFreeOn(crypto.hash, Encodings(crypto, events, height))
    requires i < |events| && At(events[i], height) && k < |events| && At(events[k], height)
    ensures Members(crypto, events[i].active) == Members(crypto, events[k].active)
  {
    hide MembersOf, EncodeCommittee, Bounded;
    var a, b := events[i].active, events[k].active;
    assert EncodeCommittee(Members(crypto, a)) in Encodings(crypto, events, height);
    assert EncodeCommittee(Members(crypto, b)) in Encodings(crypto, events, height);
    CommitteeHashBinds(crypto.hash, crypto.decodeKey, a, b);
  }

  /** Two backed certificates for different block hashes at one height expose equivocators holding
      more than a third of the voting power. */
  lemma ConflictExposesThird(signed: set<(Bytes, Certificate)>, ms: seq<Member>, c: Certificate, d: Certificate)
    requires Backed(signed, ms, c) && Backed(signed, ms, d)
    requires Height(c) == Height(d) && c.header.blockHash != d.header.blockHash
    ensures 3 * PowerOf(ms, Equivocators(ms, signed, Height(c))) > TotalPower(ms)
  {
    hide PowerOf, TotalPower, Signers;
    var both := Signers(c.signatures) * Signers(d.signatures);
    QuorumIntersection(ms, Signers(c.signatures), Signers(d.signatures));
    forall m | m in ms && m.id in both
      ensures m.id in Equivocators(ms, signed, Height(c))
    {
      assert SignedHeader(signed, m.publicKey, c.header) && SignedHeader(signed, m.publicKey, d.header);
      assert Equivocates(signed, m.publicKey, Height(c));
    }
    PowerOfMonotone(ms, both, Equivocators(ms, signed, Height(c)));
  }

  /** Agreement. In every run of any number of nodes whose registries name one committee for a height, if
      the members of it that signed two block hashes at that height hold at most a third of its voting
      power, no two managers have finalized different block hashes there. The validator set is free to
      change between heights. */
  lemma NodesAgree(crypto: Crypto, events: seq<Event>, committeeHash: Bytes, k: nat, p: nat, q: nat, height: nat)
    requires Run(crypto, events) && OneCommittee(crypto, events, height, committeeHash)
    requires CollisionFreeOn(crypto.hash, Encodings(crypto, events, height))
    requires SoundMessages(crypto.hash, Certificates(events))
    requires k < |events| && At(events[k], height)
    requires var n := After(crypto, events);
             && height in NodeState(n, p).finalized && height in NodeState(n, q).finalized
             && var ms := Members(crypto, events[k].active);
                3 * PowerOf(ms, Equivocators(ms, n.signed, height)) <= TotalPower(ms)
    ensures var n := After(crypto, events);
            NodeState(n, p).finalized[height].header.blockHash == NodeState(n, q).finalized[height].header.blockHash
  {
    hide PowerOf, TotalPower, MembersOf, Equivocators, After, Backed, Run, Encodings, SoundMessages, Certificates;
    var n, ms := After(crypto, events), Members(crypto, events[k].active);
    forall i | 0 <= i < |events| && At(events[i], height)
      ensures Members(crypto, events[i].active) == ms
    {
      OneMemberList(crypto, events, height, committeeHash, i, k);
    }
    MembersAreActive(crypto.decodeKey, events[k].active);
    RunInv(crypto, events, ms, Certificates(events), height);
    var c, d := NodeState(n, p).finalized[height], NodeState(n, q).finalized[height];
    if c.header.blockHash != d.header.blockHash {
      ConflictExposesThird(n.signed, ms, c, d);
    }
  }

  // ---------------------------------------------------------------------------
  // Each manager over time
  // ---------------------------------------------------------------------------

  /** Recorded proofs speak about the block that was finalized, and the highest height is one of the
      finalized heights. */
  ghost predicate Consistent(crypto: Crypto, s: State) {
    && s.proofs.Keys <= s.finalized.Keys
    && (forall h | h in s.finalized :: Height(s.finalized[h]) == h <= s.highest)
    && (s.highest == 0 || s.highest in s.finalized)
    && forall h | h in s.proofs ::
         && Height(s.proofs[h].certificate) == h
         && Message(crypto.hash, s.proofs[h].certificate) == Message(crypto.hash, s.finalized[h])
  }

  /** Later states of a manager extend earlier ones: a finalized certificate is never replaced, and a
      proof only by another proof of the same message. */
  ghost predicate Extends(hash: Bytes -> Bytes, s: State, t: State) {
    && s.highest <= t.highest
    && (forall h | h in s.finalized :: h in t.finalized && t.finalized[h] == s.finalized[h])
    && forall h | h in s.proofs ::
         h in t.proofs && Message(hash, t.proofs[h].certificate) == Message(hash, s.proofs[h].certificate)
  }

  lemma FinalizedExtends(crypto: Crypto, s: State, c: Certificate)
    requires Consistent(crypto, s) && Height(c) !in s.finalized
    ensures Consistent(crypto, Finalized(s, c)) && Extends(crypto.hash, s, Finalized(s, c))
  {
    hide Message;
  }

  lemma RecordedExtends(crypto: Crypto, s: State, p: FinalityProof, active: seq<Validator>)
    requires Consistent(crypto, s) && CanRecord(crypto, s, p, active)
    ensures Consistent(crypto, Recorded(s, p)) && Extends(crypto.hash, s, Recorded(s, p))
  {
    hide Message, Finalizes;
  }

  lemma StepExtends(crypto: Crypto, n: Network, e: Event, node: nat)
    requires Consistent(crypto, NodeState(n, node))
    ensures Consistent(crypto, NodeState(Apply(crypto, n, e), node))
    ensures Extends(crypto.hash, NodeState(n, node), NodeState(Apply(crypto, n, e), node))
  {
    hide Consistent, Extends, Finalizes, Message;
    var s := NodeState(n, node);
    ExtendsItself(crypto.hash, s);
    match e
    case Sign(_, _) =>
    case Finalize(_, cert, active) =>
      if e.node == node && CanFinalize(crypto, s, cert, active) { FinalizedExtends(crypto, s, cert); }
    case Record(_, proof, active) =>
      if e.node == node && CanRecord(crypto, s, proof, active) { RecordedExtends(crypto, s, proof, active); }
  }

  /** The one event that changes a recorded proof: another proof of the same height is recorded. */
  lemma ProofReplacedIff(crypto: Crypto, n: Network, e: Event, node: nat, height: nat)
    requires height in NodeState(n, node).proofs
    ensures var before, after := NodeState(n, node).proofs, NodeState(Apply(crypto, n, e), node).proofs;
            && height in after
            && (after[height] != before[height] <==>
                && e.Record? && e.node == node && Height(e.proof.certificate) == height
                && CanRecord(crypto, NodeState(n, node), e.proof, e.active) && e.proof != before[height])
  {
    hide Message, Finalizes;
  }

  /** A proof is replaced: whatever can be recorded can be recorded again with any Merkle path and any
      dependent blocks, and the later one is kept. */
  lemma RecordedAgain(crypto: Crypto, s: State, p: FinalityProof, active: seq<Validator>, path: seq<Bytes>,
                      blocks: seq<nat>)
    requires CanRecord(crypto, s, p, active)
    ensures var q := p.(merklePath := path, dependentBlocks := blocks);
            && CanRecord(crypto, Recorded(s, p), q, active)
            && Recorded(Recorded(s, p), q) == Recorded(s, q)
  {
    hide Message, Finalizes;
    var q := p.(merklePath := path, dependentBlocks := blocks);
    assert s.proofs[Height(p.certificate) := p][Height(p.certificate) := q] == s.proofs[Height(p.certificate) := q];
  }

  lemma {:induction false} FinalityIsPermanent(crypto: Crypto, events: seq<Event>, i: nat, node: nat)
    requires i <= |events|
    ensures Consistent(crypto, NodeState(After(crypto, events), node))
    ensures Extends(crypto.hash, NodeState(After(crypto, events[..i]), node), NodeState(After(crypto, events), node))
  {
    hide Consistent, Extends, Apply, NodeState;
    if events == [] {
      assert events[..i] == events;
      FreshNode(crypto, node);
    } else {
      var n := |events| - 1;
      if i == |events| {
        FinalityIsPermanent(crypto, events[..n], n, node);
        StepExtends(crypto, After(crypto, events[..n]), events[n], node);
        assert events[..i] == events;
        ExtendsItself(crypto.hash, NodeState(After(crypto, events), node));
      } else {
        FinalityIsPermanent(crypto, events[..n], i, node);
        StepExtends(crypto, After(crypto, events[..n]), events[n], node);
        assert events[..n][..i] == events[..i];
        ExtendsChain(crypto.hash, NodeState(After(crypto, events[..i]), node),
                     NodeState(After(crypto, events[..n]), node), NodeState(After(crypto, events), node));
      }
    }
  }

  lemma FreshNode(crypto: Crypto, node: nat)
    ensures Consistent(crypto, NodeState(GENESIS, node))
    ensures Extends(crypto.hash, NodeState(GENESIS, node), NodeState(GENESIS, node))
  {
  }

  lemma ExtendsItself(hash: Bytes -> Bytes, s: State)
    ensures Extends(hash, s, s)
  {
  }

  lemma ExtendsChain(hash: Bytes -> Bytes, s: State, t: State, u: State)
    requires Extends(hash, s, t) && Extends(hash, t, u)
    ensures Extends(hash, s, u)
  {
  }
}
