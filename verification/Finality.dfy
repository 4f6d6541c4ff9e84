/** Finality certificates and the manager of finalized heights
    (crates/bleep-consensus/src/finality.rs). */
module Finality {
  import opened Encoding
  import opened Committee
  import opened BlockHeader

  const FINALITY_DOMAIN: Bytes := Ascii("BLEEP_FINALITY_CERTIFICATE_V1")

  datatype Signature = Signature(validatorId: Bytes, bytes: Bytes)

  datatype Certificate = Certificate(header: FinalityHeader, finalizedEpoch: nat, finalizedTimestamp: nat,
                                     committeeHash: Bytes, signatures: seq<Signature>)

  datatype FinalityProof = FinalityProof(certificate: Certificate, merklePath: seq<Bytes>, dependentBlocks: seq<nat>)

  datatype Error =
    | HeaderHashMismatch | EpochMismatch | NoSignatures | EmptyCommittee | NoCommittee(cause: CommitteeError)
    | CommitteeMismatch | DuplicateSigner(id: Bytes) | NotInCommittee(id: Bytes) | BadSignature(id: Bytes)
    | SignerPowerOverflow | NoQuorum | AlreadyFinalized(height: nat) | NotFinalized(height: nat)
    | ProofMismatch | EmptyValidatorId | AlreadySigned(id: Bytes)

  /** The foreign primitives: SHA3-256, key decoding, and signature verification of
      (message, signature, public key), which also stands for parsing the signature. */
  datatype Crypto = Crypto(hash: Bytes -> Bytes, decodeKey: KeyDecoder, verify: (Bytes, Bytes, Bytes) -> bool)

  function Members(crypto: Crypto, active: seq<Validator>): seq<Member> {
    MembersOf(crypto.decodeKey, active)
  }

  // ---------------------------------------------------------------------------
  // The signed message
  // ---------------------------------------------------------------------------

  function Message(hash: Bytes -> Bytes, c: Certificate): Bytes {
    FINALITY_DOMAIN + (Framed(CanonicalBytes(hash, c.header))
    + (LittleEndian(c.finalizedEpoch, 8) + (LittleEndian(c.finalizedTimestamp, 8) + c.committeeHash)))
  }

  predicate RepresentableCertificate(hash: Bytes -> Bytes, c: Certificate) {
    && Representable(c.header.fields) && |CanonicalBytes(hash, c.header)| < U64
    && c.finalizedEpoch < U64 && c.finalizedTimestamp < U64
  }

  /** A signature over the message vouches for every header field, the finality context and the
      committee: certificates with equal messages differ at most in their signatures. */
  lemma MessageBinds(hash: Bytes -> Bytes, c: Certificate, d: Certificate)
    requires RepresentableCertificate(hash, c) && RepresentableCertificate(hash, d)
    requires Digests(hash, HeaderTexts(c.header) + HeaderTexts(d.header))
    requires Message(hash, c) == Message(hash, d)
    ensures c.(signatures := []) == d.(signatures := [])
  {
    hide CanonicalBytes, LittleEndian, Framed, Digests, Ascii, HeaderTexts;
    var cTail := LittleEndian(c.finalizedTimestamp, 8) + c.committeeHash;
    var dTail := LittleEndian(d.finalizedTimestamp, 8) + d.committeeHash;
    var cRest, dRest := LittleEndian(c.finalizedEpoch, 8) + cTail, LittleEndian(d.finalizedEpoch, 8) + dTail;
    SplitEqual(FINALITY_DOMAIN, FINALITY_DOMAIN,
               Framed(CanonicalBytes(hash, c.header)) + cRest, Framed(CanonicalBytes(hash, d.header)) + dRest);
    FramedPrefixFree(CanonicalBytes(hash, c.header), CanonicalBytes(hash, d.header), cRest, dRest);
    CanonicalBytesInjective(hash, c.header, d.header);
    SplitEqual(LittleEndian(c.finalizedEpoch, 8), LittleEndian(d.finalizedEpoch, 8), cTail, dTail);
    SplitEqual(LittleEndian(c.finalizedTimestamp, 8), LittleEndian(d.finalizedTimestamp, 8),
               c.committeeHash, d.committeeHash);
    WordSizes();
    LittleEndianInjective(c.finalizedEpoch, d.finalizedEpoch, 8);
    LittleEndianInjective(c.finalizedTimestamp, d.finalizedTimestamp, 8);
  }

  // ---------------------------------------------------------------------------
  // Building a certificate
  // ---------------------------------------------------------------------------

  method NewCertificate(crypto: Crypto, header: FinalityHeader, finalizedEpoch: nat, finalizedTimestamp: nat,
                        active: seq<Validator>)
    returns (r: Result<Certificate, Error>)
    ensures r.Ok? <==> VerifyHash(crypto.hash, header) && header.fields.epochId == finalizedEpoch
                       && FormsCommittee(crypto.decodeKey, active) && TotalPower(Members(crypto, active)) > 0
    ensures r.Ok? ==> r.value == Certificate(header, finalizedEpoch, finalizedTimestamp,
                                             CommitteeOf(crypto.hash, Members(crypto, active)).hash, [])
  {
    if !VerifyHash(crypto.hash, header) {
      return Err(HeaderHashMismatch);
    }
    if header.fields.epochId != finalizedEpoch {
      return Err(EpochMismatch);
    }
    var committee := CommitteeFromRegistry(crypto.hash, crypto.decodeKey, active);
    if committee.Err? {
      return Err(NoCommittee(committee.error));
    }
    if committee.value.totalPower == 0 {
      return Err(EmptyCommittee);
    }
    r := Ok(Certificate(header, finalizedEpoch, finalizedTimestamp, committee.value.hash, []));
  }

  predicate DistinctSigners(sigs: seq<Signature>) {
    forall i, j | 0 <= i < j < |sigs| :: sigs[i].validatorId != sigs[j].validatorId
  }

  function Signers(sigs: seq<Signature>): set<Bytes> {
    set i | 0 <= i < |sigs| :: sigs[i].validatorId
  }

  /** Only a new, non-empty id is added; in particular signers stay pairwise distinct. */
  method AddValidatorSignature(c: Certificate, id: Bytes, signature: Bytes) returns (r: Result<Certificate, Error>)
    ensures r.Ok? <==> id != [] && id !in Signers(c.signatures)
    ensures r.Ok? ==> r.value == c.(signatures := c.signatures + [Signature(id, signature)])
    ensures r.Ok? && DistinctSigners(c.signatures) ==> DistinctSigners(r.value.signatures)
    ensures r.Err? ==> r.error == if id == [] then EmptyValidatorId else AlreadySigned(id)
  {
    if id == [] {
      return Err(EmptyValidatorId);
    }
    for i := 0 to |c.signatures|
      invariant forall j | 0 <= j < i :: c.signatures[j].validatorId != id
    {
      if c.signatures[i].validatorId == id {
        return Err(AlreadySigned(id));
      }
    }
    r := Ok(c.(signatures := c.signatures + [Signature(id, signature)]));
  }

  // ---------------------------------------------------------------------------
  // Checking a certificate
  // ---------------------------------------------------------------------------

  /** The error raised at signature `i`, when those before it are in order. */
  function SignerProblem(ms: seq<Member>, sigs: seq<Signature>, i: nat): Option<Error>
    requires i < |sigs|
  {
    var id := sigs[i].validatorId;
    if id in Signers(sigs[..i]) then Some(DuplicateSigner(id))
    else if id !in MemberMap(ms) then Some(NotInCommittee(id))
    else None
  }

  predicate SignersInOrder(ms: seq<Member>, sigs: seq<Signature>) {
    forall i | 0 <= i < |sigs| :: SignerProblem(ms, sigs, i).None?
  }

  /** In order means pairwise distinct and all in the committee. */
  lemma SignersInOrderMeans(ms: seq<Member>, sigs: seq<Signature>)
    ensures SignersInOrder(ms, sigs) <==> DistinctSigners(sigs) && Signers(sigs) <= MemberMap(ms).Keys
  {
    if SignersInOrder(ms, sigs) {
      forall i, j | 0 <= i < j < |sigs|
        ensures sigs[i].validatorId != sigs[j].validatorId
      {
        assert SignerProblem(ms, sigs, j).None?;
        assert sigs[..j][i] == sigs[i];
      }
      forall id | id in Signers(sigs)
        ensures id in MemberMap(ms)
      {
        var i :| 0 <= i < |sigs| && sigs[i].validatorId == id;
        assert SignerProblem(ms, sigs, i).None?;
      }
    } else {
      var i :| 0 <= i < |sigs| && SignerProblem(ms, sigs, i).Some?;
      if sigs[i].validatorId in Signers(sigs[..i]) {
        var k :| 0 <= k < i && sigs[..i][k].validatorId == sigs[i].validatorId;
        assert sigs[k].validatorId == sigs[i].validatorId;
      } else {
        assert sigs[i].validatorId in Signers(sigs);
      }
    }
  }

  lemma {:induction false} MemberMapFinds(ms: seq<Member>, id: Bytes)
    ensures id in MemberMap(ms) ==> MemberMap(ms)[id] in ms && MemberMap(ms)[id].id == id
    ensures (exists m :: m in ms && m.id == id) ==> id in MemberMap(ms)
  {
    if ms != [] {
      MemberMapFinds(ms[..|ms| - 1], id);
      assert ms == ms[..|ms| - 1] + [ms[|ms| - 1]];
    }
  }

  lemma SignersSnoc(sigs: seq<Signature>, i: nat)
    requires i < |sigs|
    ensures Signers(sigs[..i + 1]) == Signers(sigs[..i]) + {sigs[i].validatorId}
  {
  }

  /** Adds up the signers' registered power. The sum of distinct members never exceeds the total
      power of the committee, so its overflow check cannot fail. */
  method SignerVotingPower(ghost ms: seq<Member>, members: map<Bytes, Member>, sigs: seq<Signature>)
    returns (r: Result<nat, Error>)
    requires members == MemberMap(ms) && DistinctIds(ms) && TotalPower(ms) < U128
    ensures r.Ok? <==> SignersInOrder(ms, sigs)
    ensures r.Ok? ==> r.value == PowerOf(ms, Signers(sigs)) <= TotalPower(ms)
    ensures r.Err? ==> exists i | 0 <= i < |sigs| ::
                         SignersInOrder(ms, sigs[..i]) && SignerProblem(ms, sigs, i) == Some(r.error)
  {
    hide MemberMap, PowerOf, TotalPower, Signers;
    var seen: set<Bytes>, total := {}, 0;
    PowerOfNone(ms);
    NoSigners(sigs);
    for i := 0 to |sigs|
      invariant seen == Signers(sigs[..i]) && total == PowerOf(ms, seen)
      invariant forall j | 0 <= j < i :: SignerProblem(ms, sigs, j).None?
    {
      var signer := sigs[i];
      OrderOfPrefix(ms, sigs, i);
      ghost var problem := SignerProblem(ms, sigs, i);
      if signer.validatorId in seen {
        return Err(DuplicateSigner(signer.validatorId));
      }
      if signer.validatorId !in members {
        return Err(NotInCommittee(signer.validatorId));
      }
      var member := members[signer.validatorId];
      MemberMapFinds(ms, signer.validatorId);
      PowerOfInsert(ms, seen, member);
      PowerOfBounded(ms, seen + {member.id});
      SignersSnoc(sigs, i);
      if total + member.power >= U128 {
        return Err(SignerPowerOverflow);
      }
      total := total + member.power;
      seen := seen + {signer.validatorId};
    }
    assert sigs[..|sigs|] == sigs;
    PowerOfBounded(ms, seen);
    r := Ok(total);
  }

  lemma NoSigners(sigs: seq<Signature>)
    ensures Signers(sigs[..0]) == {}
  {
  }

  lemma OrderOfPrefix(ms: seq<Member>, sigs: seq<Signature>, n: nat)
    requires n <= |sigs| && forall j | 0 <= j < n :: SignerProblem(ms, sigs, j).None?
    ensures SignersInOrder(ms, sigs[..n])
  {
    forall j | 0 <= j < n
      ensures SignerProblem(ms, sigs[..n], j).None?
    {
      assert SignerProblem(ms, sigs, j).None?;
      assert sigs[..n][..j] == sigs[..j];
    }
  }

  predicate SignatureValid(crypto: Crypto, ms: seq<Member>, message: Bytes, s: Signature) {
    s.validatorId in MemberMap(ms) && crypto.verify(message, s.bytes, MemberMap(ms)[s.validatorId].publicKey)
  }

  /** The certificate's own consistency and its committee. */
  predicate WellFormed(crypto: Crypto, c: Certificate, active: seq<Validator>) {
    && VerifyHash(crypto.hash, c.header) && c.header.fields.epochId == c.finalizedEpoch
    && c.signatures != [] && FormsCommittee(crypto.decodeKey, active)
    && c.committeeHash == CommitteeOf(crypto.hash, Members(crypto, active)).hash
  }

  ghost predicate SignaturesVerify(crypto: Crypto, c: Certificate, active: seq<Validator>) {
    && WellFormed(crypto, c, active)
    && SignersInOrder(Members(crypto, active), c.signatures)
    && forall s | s in c.signatures :: SignatureValid(crypto, Members(crypto, active), Message(crypto.hash, c), s)
  }

  /** `verify_signatures` accepts exactly the consistent certificates of the registered committee
      whose signatures are pairwise distinct, by members, and valid for the certificate's message. */
  method VerifySignatures(crypto: Crypto, c: Certificate, active: seq<Validator>) returns (r: Result<(), Error>)
    ensures r.Ok? <==> SignaturesVerify(crypto, c, active)
  {
    hide MemberMap, Signers, FormsCommittee, Message, VerifyHash, EncodeCommittee, MembersOf, TotalPower;
    if !VerifyHash(crypto.hash, c.header) {
      return Err(HeaderHashMismatch);
    }
    if c.header.fields.epochId != c.finalizedEpoch {
      return Err(EpochMismatch);
    }
    if c.signatures == [] {
      return Err(NoSignatures);
    }
    var committee := CommitteeFromRegistry(crypto.hash, crypto.decodeKey, active);
    if committee.Err? {
      return Err(NoCommittee(committee.error));
    }
    if c.committeeHash != committee.value.hash {
      return Err(CommitteeMismatch);
    }
    var message := Message(crypto.hash, c);
    ghost var ms := Members(crypto, active);
    var validatorIds: set<Bytes> := {};
    NoSigners(c.signatures);
    for i := 0 to |c.signatures|
      invariant validatorIds == Signers(c.signatures[..i])
      invariant forall j | 0 <= j < i :: SignerProblem(ms, c.signatures, j).None?
      invariant forall j | 0 <= j < i :: SignatureValid(crypto, ms, message, c.signatures[j])
    {
      var signer := c.signatures[i];
      assert signer in c.signatures;
      if signer.validatorId in validatorIds {
        assert SignerProblem(ms, c.signatures, i).Some?;
        return Err(DuplicateSigner(signer.validatorId));
      }
      SignersSnoc(c.signatures, i);
      validatorIds := validatorIds + {signer.validatorId};
      if signer.validatorId !in committee.value.members {
        assert SignerProblem(ms, c.signatures, i).Some?;
        return Err(NotInCommittee(signer.validatorId));
      }
      var member := committee.value.members[signer.validatorId];
      if !crypto.verify(message, signer.bytes, member.publicKey) {
        assert !SignatureValid(crypto, ms, message, signer);
        return Err(BadSignature(signer.validatorId));
      }
    }
    r := Ok(());
  }

  /** `meets_quorum`: more than two thirds of the committee's power signed. */
  method MeetsQuorum(crypto: Crypto, c: Certificate, active: seq<Validator>) returns (r: Result<bool, Error>)
    requires Registry(active)
    ensures r.Ok? <==> FormsCommittee(crypto.decodeKey, active)
                       && c.committeeHash == CommitteeOf(crypto.hash, Members(crypto, active)).hash
                       && SignersInOrder(Members(crypto, active), c.signatures)
    ensures r.Ok? ==> (r.value <==> Quorum(Members(crypto, active), Signers(c.signatures)))
    ensures r.Ok? ==> (r.value <==> 3 * StakeOf(active, Signers(c.signatures)) > 2 * TotalStake(active))
  {
    hide MemberMap, Signers, MembersOf, TotalPower, PowerOf, EncodeCommittee;
    var committee := CommitteeFromRegistry(crypto.hash, crypto.decodeKey, active);
    if committee.Err? {
      return Err(NoCommittee(committee.error));
    }
    if c.committeeHash != committee.value.hash {
      return Err(CommitteeMismatch);
    }
    ghost var ms := Members(crypto, active);
    MembersAreActive(crypto.decodeKey, active);
    var signedPower := SignerVotingPower(ms, committee.value.members, c.signatures);
    if signedPower.Err? {
      return Err(signedPower.error);
    }
    QuorumIsStake(crypto, active, Signers(c.signatures));
    ThresholdIsTwoThirds(committee.value.totalPower, signedPower.value);
    r := Ok(signedPower.value > TwoThirdsThreshold(committee.value.totalPower));
  }

  /** A quorum is more than two thirds of the stake, counted on the registry. */
  lemma QuorumIsStake(crypto: Crypto, active: seq<Validator>, ids: set<Bytes>)
    requires FormsCommittee(crypto.decodeKey, active)
    ensures Quorum(Members(crypto, active), ids) <==> 3 * StakeOf(active, ids) > 2 * TotalStake(active)
  {
    FormedPower(crypto.decodeKey, active, ids);
  }

  /** What it takes for a certificate to finalize a block. */
  ghost predicate Finalizes(crypto: Crypto, c: Certificate, active: seq<Validator>) {
    SignaturesVerify(crypto, c, active) && Quorum(Members(crypto, active), Signers(c.signatures))
  }

  /** The signature is that of a validator in good standing, under the key it has registered. */
  ghost predicate SignedByValidator(crypto: Crypto, message: Bytes, active: seq<Validator>, s: Signature) {
    exists v, key :: && v in active && Staked(v) && v.id == s.validatorId
                     && crypto.decodeKey(v.signingKeyId) == Some(key) && crypto.verify(message, s.bytes, key)
  }

  lemma ValidMeansSigned(crypto: Crypto, active: seq<Validator>, message: Bytes, s: Signature)
    requires DistinctIds(Members(crypto, active))
    ensures SignatureValid(crypto, Members(crypto, active), message, s)
            <==> SignedByValidator(crypto, message, active, s)
  {
    hide MembersOf, MemberMap;
    var ms := Members(crypto, active);
    MemberMapFinds(ms, s.validatorId);
    if SignatureValid(crypto, ms, message, s) {
      MemberIffStaked(crypto.decodeKey, active, MemberMap(ms)[s.validatorId]);
    }
    if v, key :| && v in active && Staked(v) && v.id == s.validatorId && crypto.decodeKey(v.signingKeyId) == Some(key)
                 && crypto.verify(message, s.bytes, key) {
      MemberIffStaked(crypto.decodeKey, active, Member(v.id, key, v.stake));
      assert Member(v.id, key, v.stake) == MemberMap(ms)[s.validatorId];
    }
  }

  lemma ValidSignersAreMembers(crypto: Crypto, ms: seq<Member>, message: Bytes, sigs: seq<Signature>)
    requires forall s | s in sigs :: SignatureValid(crypto, ms, message, s)
    ensures Signers(sigs) <= MemberMap(ms).Keys
  {
    hide MemberMap;
    forall id | id in Signers(sigs)
      ensures id in MemberMap(ms)
    {
      var i :| 0 <= i < |sigs| && sigs[i].validatorId == id;
      assert sigs[i] in sigs;
    }
  }

  lemma {:induction false} NoSignersNoStake(active: seq<Validator>)
    ensures StakeOf(active, {}) == 0
  {
    if active != [] { NoSignersNoStake(active[..|active| - 1]); }
  }

  /** The same in terms of the registry: consistent, for the registered committee, signed by different
      validators in good standing, who have more than two thirds of the stake. */
  lemma FinalizesMeans(crypto: Crypto, c: Certificate, active: seq<Validator>)
    requires Registry(active)
    ensures Finalizes(crypto, c, active) <==>
              && VerifyHash(crypto.hash, c.header) && c.header.fields.epochId == c.finalizedEpoch
              && OwnKeys(crypto.decodeKey, active) && TotalStake(active) < U128
              && c.committeeHash == crypto.hash(EncodeCommittee(Members(crypto, active)))
              && DistinctSigners(c.signatures)
              && (forall s | s in c.signatures ::
                    SignedByValidator(crypto, Message(crypto.hash, c), active, s))
              && 3 * StakeOf(active, Signers(c.signatures)) > 2 * TotalStake(active)
  {
    hide OwnKeys, EncodeCommittee, MembersOf, Message, VerifyHash, StakeOf, TotalStake, Quorum, FormsCommittee;
    hide SignatureValid, SignedByValidator, MemberMap, SignersInOrder;
    var ms, message := Members(crypto, active), Message(crypto.hash, c);
    FormsIffStaked(crypto.decodeKey, active);
    if FormsCommittee(crypto.decodeKey, active) {
      QuorumIsStake(crypto, active, Signers(c.signatures));
      SignersInOrderMeans(ms, c.signatures);
      MembersAreActive(crypto.decodeKey, active);
      forall s
        ensures SignatureValid(crypto, ms, message, s) <==> SignedByValidator(crypto, message, active, s)
      {
        ValidMeansSigned(crypto, active, message, s);
      }
      if forall s | s in c.signatures :: SignatureValid(crypto, ms, message, s) {
        ValidSignersAreMembers(crypto, ms, message, c.signatures);
      }
      NoSignersNoStake(active);
      if c.signatures == [] { assert Signers(c.signatures) == {}; }
    }
  }

  /** The two checks made both when a block is finalized and when a proof is verified. */
  method VerifyCertificate(crypto: Crypto, c: Certificate, active: seq<Validator>) returns (r: Result<(), Error>)
    requires Registry(active)
    ensures r.Ok? <==> Finalizes(crypto, c, active)
  {
    hide SignaturesVerify, Quorum;
    r := VerifySignatures(crypto, c, active);
    if r.Err? {
      return;
    }
    VerifiedIsInOrder(crypto, c, active);
    var quorum := MeetsQuorum(crypto, c, active);
    match quorum
    case Err(e) => r := Err(e);
    case Ok(met) =>
      if !met { r := Err(NoQuorum); }
  }

  lemma VerifiedIsInOrder(crypto: Crypto, c: Certificate, active: seq<Validator>)
    requires SignaturesVerify(crypto, c, active)
    ensures WellFormed(crypto, c, active) && SignersInOrder(Members(crypto, active), c.signatures)
  {
  }

  /** The verdict does not depend on which registry snapshot is consulted: snapshots that both match
      the certificate's committee hash have the same members, and agree on the quorum. */
  lemma QuorumIsSnapshotIndependent(crypto: Crypto, c: Certificate, a: seq<Validator>, b: seq<Validator>)
    requires Bounded(crypto.decodeKey, a) && Bounded(crypto.decodeKey, b)
    requires WellFormed(crypto, c, a) && WellFormed(crypto, c, b)
    requires CollisionFreeOn(crypto.hash, {EncodeCommittee(Members(crypto, a)), EncodeCommittee(Members(crypto, b))})
    ensures Members(crypto, a) == Members(crypto, b)
    ensures Finalizes(crypto, c, a) <==> Finalizes(crypto, c, b)
  {
    CommitteeHashBinds(crypto.hash, crypto.decodeKey, a, b);
  }

  // ---------------------------------------------------------------------------
  // The manager
  // ---------------------------------------------------------------------------

  datatype State = State(finalized: map<nat, Certificate>, proofs: map<nat, FinalityProof>, highest: nat)

  const EMPTY := State(map[], map[], 0)

  function Height(c: Certificate): nat {
    c.header.fields.height
  }

  ghost predicate CanFinalize(crypto: Crypto, s: State, c: Certificate, active: seq<Validator>) {
    Height(c) !in s.finalized && Finalizes(crypto, c, active)
  }

  function Finalized(s: State, c: Certificate): State {
    s.(finalized := s.finalized[Height(c) := c], highest := if s.highest >= Height(c) then s.highest else Height(c))
  }

  ghost predicate CanRecord(crypto: Crypto, s: State, p: FinalityProof, active: seq<Validator>) {
    && Height(p.certificate) in s.finalized
    && Message(crypto.hash, s.finalized[Height(p.certificate)]) == Message(crypto.hash, p.certificate)
    && Finalizes(crypto, p.certificate, active)
  }

  function Recorded(s: State, p: FinalityProof): State {
    s.(proofs := s.proofs[Height(p.certificate) := p])
  }

  class FinalityManager {
    const crypto: Crypto
    var finalizedBlocks: map<nat, Certificate>
    var finalityProofs: map<nat, FinalityProof>
    var highestFinalizedHeight: nat

    ghost function Abs(): State
      reads this
    {
      State(finalizedBlocks, finalityProofs, highestFinalizedHeight)
    }

    constructor (crypto: Crypto)
      ensures Abs() == EMPTY && this.crypto == crypto
    {
      this.crypto := crypto;
      finalizedBlocks, finalityProofs, highestFinalizedHeight := map[], map[], 0;
    }

    method FinalizeBlock(c: Certificate, active: seq<Validator>) returns (r: Result<(), Error>)
      requires Registry(active)
      modifies this
      ensures r.Ok? <==> CanFinalize(crypto, old(Abs()), c, active)
      ensures Abs() == if r.Ok? then Finalized(old(Abs()), c) else old(Abs())
      ensures old(Height(c) in finalizedBlocks) ==> r == Err(AlreadyFinalized(Height(c)))
      ensures r.Ok? <==> Height(c) !in old(finalizedBlocks) && Finalizes(crypto, c, active)
      ensures r.Ok? ==> finalizedBlocks == old(finalizedBlocks)[Height(c) := c]
      ensures r.Ok? ==> 3 * StakeOf(active, Signers(c.signatures)) > 2 * TotalStake(active)
    {
      var height := Height(c);
      if height in finalizedBlocks {
        return Err(AlreadyFinalized(height));
      }
      r := VerifyCertificate(crypto, c, active);
      if r.Err? {
        return;
      }
      QuorumIsStake(crypto, active, Signers(c.signatures));
      finalizedBlocks := finalizedBlocks[height := c];
      highestFinalizedHeight := if highestFinalizedHeight >= height then highestFinalizedHeight else height;
    }

    method RecordProof(p: FinalityProof, active: seq<Validator>) returns (r: Result<(), Error>)
      requires Registry(active)
      modifies this
      ensures r.Ok? <==> CanRecord(crypto, old(Abs()), p, active)
      ensures r.Ok? <==> && Height(p.certificate) in old(finalizedBlocks) && Finalizes(crypto, p.certificate, active)
                         && Message(crypto.hash, old(finalizedBlocks)[Height(p.certificate)])
                            == Message(crypto.hash, p.certificate)
      ensures r.Ok? ==> finalityProofs == old(finalityProofs)[Height(p.certificate) := p]
      ensures Abs() == if r.Ok? then Recorded(old(Abs()), p) else old(Abs())
    {
      var height := Height(p.certificate);
      if height !in finalizedBlocks {
        return Err(NotFinalized(height));
      }
      if Message(crypto.hash, finalizedBlocks[height]) != Message(crypto.hash, p.certificate) {
        return Err(ProofMismatch);
      }
      r := VerifyCertificate(crypto, p.certificate, active);
      if r.Err? {
        return;
      }
      finalityProofs := finalityProofs[height := p];
    }
  }
}
