/** The committee of a finality certificate (crates/bleep-consensus/src/finality.rs): who may sign,
    with how much voting power, and the hash that names the whole of it. */
module Committee {
  import opened Encoding

  // ---------------------------------------------------------------------------
  // Registered validators (crates/bleep-consensus/src/validator_identity.rs)
  // ---------------------------------------------------------------------------

  datatype ValidatorState = Inactive | Active | PendingExit | Exited | Slashed | Ejected

  datatype Validator = Validator(id: Bytes, signingKeyId: Bytes, stake: nat, state: ValidatorState,
                                 reputation: real, doubleSignCount: nat)
  {
    predicate CanParticipate() {
      state.Active? && reputation > 0.0 && stake > 0 && doubleSignCount == 0
    }

    predicate IsEjected() {
      state.Slashed? || state.Ejected? || doubleSignCount > 0
    }

    function EffectiveStake(): nat {
      if IsEjected() then 0 else stake
    }
  }

  /** The active validators, in registry order. Ids are distinct because the registry keys them. */
  predicate Registry(active: seq<Validator>) {
    && (forall i, j | 0 <= i < j < |active| :: active[i].id != active[j].id)
    && (forall i | 0 <= i < |active| :: |active[i].id| < U64 && active[i].stake < U128)
  }

  datatype Member = Member(id: Bytes, publicKey: Bytes, power: nat)

  datatype CommitteeError = InvalidKey(id: Bytes) | DuplicateKey | ZeroPower(id: Bytes) | PowerOverflow

  datatype FinalityCommittee = FinalityCommittee(members: map<Bytes, Member>, totalPower: nat, hash: Bytes)

  /** Hex decoding and key parsing: `None` stands for either failure. */
  type KeyDecoder = Bytes -> Option<Bytes>

  // ---------------------------------------------------------------------------
  // Encoding
  // ---------------------------------------------------------------------------

  const COMMITTEE_DOMAIN: Bytes := Ascii("BLEEP_FINALITY_COMMITTEE_V1")

  function EncodeMember(m: Member): (b: Bytes)
    ensures |b| >= 32
  {
    Framed(m.id) + (Framed(m.publicKey) + LittleEndian(m.power, 16))
  }

  function EncodeMembers(ms: seq<Member>): Bytes {
    if ms == [] then [] else EncodeMember(ms[0]) + EncodeMembers(ms[1..])
  }

  function EncodeCommittee(ms: seq<Member>): Bytes {
    COMMITTEE_DOMAIN + EncodeMembers(ms)
  }

  predicate Encodable(ms: seq<Member>) {
    forall m | m in ms :: |m.id| < U64 && |m.publicKey| < U64 && m.power < U128
  }

  lemma {:induction false} EncodeSnoc(ms: seq<Member>, m: Member)
    ensures EncodeMembers(ms + [m]) == EncodeMembers(ms) + EncodeMember(m)
  {
    hide EncodeMember;
    if ms == [] {
      assert EncodeMembers([m]) == EncodeMember(m) + EncodeMembers([]);
    } else {
      EncodeSnoc(ms[1..], m);
      assert (ms + [m])[1..] == ms[1..] + [m];
    }
  }

  lemma MemberPrefixFree(m: Member, n: Member, restM: Bytes, restN: Bytes)
    requires Encodable([m, n]) && EncodeMember(m) + restM == EncodeMember(n) + restN
    ensures m == n && restM == restN
  {
    assert m in [m, n] && n in [m, n];
    var mTail, nTail := LittleEndian(m.power, 16) + restM, LittleEndian(n.power, 16) + restN;
    assert EncodeMember(m) + restM == Framed(m.id) + (Framed(m.publicKey) + mTail);
    assert EncodeMember(n) + restN == Framed(n.id) + (Framed(n.publicKey) + nTail);
    FramedPrefixFree(m.id, n.id, Framed(m.publicKey) + mTail, Framed(n.publicKey) + nTail);
    FramedPrefixFree(m.publicKey, n.publicKey, mTail, nTail);
    SplitEqual(LittleEndian(m.power, 16), LittleEndian(n.power, 16), restM, restN);
    WordSizes();
    LittleEndianInjective(m.power, n.power, 16);
  }

  /** The member encoding is uniquely decodable: no two member lists share their bytes. */
  lemma {:induction false} EncodeMembersInjective(a: seq<Member>, b: seq<Member>)
    requires Encodable(a) && Encodable(b) && EncodeMembers(a) == EncodeMembers(b)
    ensures a == b
  {
    if a != [] && b != [] {
      MemberPrefixFree(a[0], b[0], EncodeMembers(a[1..]), EncodeMembers(b[1..]));
      EncodeMembersInjective(a[1..], b[1..]);
      assert a == [a[0]] + a[1..] && b == [b[0]] + b[1..];
    }
  }

  // ---------------------------------------------------------------------------
  // Voting power of sets of signers
  // ---------------------------------------------------------------------------

  function TotalPower(ms: seq<Member>): nat {
    if ms == [] then 0 else TotalPower(ms[..|ms| - 1]) + ms[|ms| - 1].power
  }

  /** The power held by those members whose id lies in `ids`. */
  function PowerOf(ms: seq<Member>, ids: set<Bytes>): nat {
    if ms == [] then 0
    else PowerOf(ms[..|ms| - 1], ids) + if ms[|ms| - 1].id in ids then ms[|ms| - 1].power else 0
  }

  lemma {:induction false} PowerOfUnion(ms: seq<Member>, a: set<Bytes>, b: set<Bytes>)
    ensures PowerOf(ms, a + b) + PowerOf(ms, a * b) == PowerOf(ms, a) + PowerOf(ms, b)
  {
    if ms != [] { PowerOfUnion(ms[..|ms| - 1], a, b); }
  }

  lemma {:induction false} PowerOfBounded(ms: seq<Member>, a: set<Bytes>)
    ensures PowerOf(ms, a) <= TotalPower(ms)
  {
    if ms != [] { PowerOfBounded(ms[..|ms| - 1], a); }
  }

  lemma {:induction false} PowerOfMonotone(ms: seq<Member>, a: set<Bytes>, b: set<Bytes>)
    requires forall m | m in ms && m.id in a :: m.id in b
    ensures PowerOf(ms, a) <= PowerOf(ms, b)
  {
    if ms != [] {
      assert ms[|ms| - 1] in ms;
      PowerOfMonotone(ms[..|ms| - 1], a, b);
    }
  }

  predicate DistinctIds(ms: seq<Member>) {
    forall i, j | 0 <= i < j < |ms| :: ms[i].id != ms[j].id
  }

  lemma {:induction false} PowerOfOutsider(ms: seq<Member>, id: Bytes)
    requires forall m | m in ms :: m.id != id
    ensures PowerOf(ms, {id}) == 0
  {
    if ms != [] {
      assert ms[|ms| - 1] in ms;
      PowerOfOutsider(ms[..|ms| - 1], id);
    }
  }

  lemma {:induction false} PowerOfOne(ms: seq<Member>, m: Member)
    requires DistinctIds(ms) && m in ms
    ensures PowerOf(ms, {m.id}) == m.power
  {
    var n := |ms| - 1;
    if ms[n] == m {
      PowerOfOutsider(ms[..n], m.id);
    } else {
      assert m in ms[..n];
      PowerOfOne(ms[..n], m);
      var i :| 0 <= i < n && ms[i] == m;
      assert ms[i].id != ms[n].id;
    }
  }

  /** Counting one more signer adds exactly its power. */
  lemma PowerOfInsert(ms: seq<Member>, ids: set<Bytes>, m: Member)
    requires DistinctIds(ms) && m in ms && m.id !in ids
    ensures PowerOf(ms, ids + {m.id}) == PowerOf(ms, ids) + m.power
  {
    PowerOfOne(ms, m);
    PowerOfUnion(ms, ids, {m.id});
    assert ids * {m.id} == {};
    PowerOfNone(ms);
  }

  lemma {:induction false} PowerOfNone(ms: seq<Member>)
    ensures PowerOf(ms, {}) == 0
  {
    if ms != [] { PowerOfNone(ms[..|ms| - 1]); }
  }

  // ---------------------------------------------------------------------------
  // The two-thirds threshold
  // ---------------------------------------------------------------------------

  function TwoThirdsThreshold(totalPower: nat): nat {
    (totalPower / 3) * 2 + ((totalPower % 3) * 2) / 3
  }

  /** The split formula is floor(2T/3), stays within u128 at every step, and exceeding it means
      holding strictly more than two thirds. */
  lemma ThresholdIsTwoThirds(totalPower: nat, signed: nat)
    requires totalPower < U128
    ensures TwoThirdsThreshold(totalPower) == 2 * totalPower / 3
    ensures (totalPower / 3) * 2 < U128 && TwoThirdsThreshold(totalPower) < U128
    ensures signed > TwoThirdsThreshold(totalPower) <==> 3 * signed > 2 * totalPower
  {
    var q, r := totalPower / 3, totalPower % 3;
    assert totalPower == 3 * q + r;
    assert r == 0 || r == 1 || r == 2;
  }

  predicate Quorum(ms: seq<Member>, ids: set<Bytes>) {
    3 * PowerOf(ms, ids) > 2 * TotalPower(ms)
  }

  /** Two quorums share signers that hold more than a third of the voting power. */
  lemma QuorumIntersection(ms: seq<Member>, a: set<Bytes>, b: set<Bytes>)
    requires Quorum(ms, a) && Quorum(ms, b)
    ensures 3 * PowerOf(ms, a * b) > TotalPower(ms)
  {
    PowerOfUnion(ms, a, b);
    PowerOfBounded(ms, a + b);
  }

  // ---------------------------------------------------------------------------
  // From registry to committee
  // ---------------------------------------------------------------------------

  function MembersOf(decodeKey: KeyDecoder, active: seq<Validator>): seq<Member> {
    if active == [] then []
    else
      var v := active[|active| - 1];
      MembersOf(decodeKey, active[..|active| - 1])
      + if v.CanParticipate() && decodeKey(v.signingKeyId).Some?
        then [Member(v.id, decodeKey(v.signingKeyId).value, v.EffectiveStake())] else []
  }

  function MemberMap(ms: seq<Member>): map<Bytes, Member> {
    if ms == [] then map[] else MemberMap(ms[..|ms| - 1])[ms[|ms| - 1].id := ms[|ms| - 1]]
  }

  predicate DistinctKeys(ms: seq<Member>) {
    forall i, j | 0 <= i < j < |ms| :: ms[i].publicKey != ms[j].publicKey
  }

  predicate KeysDecode(decodeKey: KeyDecoder, active: seq<Validator>) {
    forall v | v in active && v.CanParticipate() :: decodeKey(v.signingKeyId).Some?
  }

  /** The registries that have a committee. */
  predicate FormsCommittee(decodeKey: KeyDecoder, active: seq<Validator>) {
    && KeysDecode(decodeKey, active)
    && DistinctKeys(MembersOf(decodeKey, active))
    && TotalPower(MembersOf(decodeKey, active)) < U128
  }

  /** Why validator `v` cannot join the committee of those before it. */
  function Problem(decodeKey: KeyDecoder, before: seq<Validator>, v: Validator): CommitteeError {
    var key := decodeKey(v.signingKeyId);
    if key.None? then InvalidKey(v.id)
    else if key.value in Owners(MembersOf(decodeKey, before)) then DuplicateKey
    else PowerOverflow
  }

  function CommitteeOf(hash: Bytes -> Bytes, ms: seq<Member>): FinalityCommittee {
    FinalityCommittee(MemberMap(ms), TotalPower(ms), hash(EncodeCommittee(ms)))
  }

  function Owners(ms: seq<Member>): set<Bytes> {
    set k | 0 <= k < |ms| :: ms[k].publicKey
  }

  lemma {:induction false} FormsPrefix(decodeKey: KeyDecoder, active: seq<Validator>, n: nat)
    requires n <= |active| && FormsCommittee(decodeKey, active)
    ensures FormsCommittee(decodeKey, active[..n])
  {
    if n < |active| {
      var before := active[..|active| - 1];
      var ms := MembersOf(decodeKey, before);
      assert MembersOf(decodeKey, active) == ms || MembersOf(decodeKey, active)[..|ms|] == ms;
      assert DistinctKeys(ms);
      assert TotalPower(ms) <= TotalPower(MembersOf(decodeKey, active));
      FormsPrefix(decodeKey, before, n);
      assert before[..n] == active[..n];
    } else {
      assert active[..n] == active;
    }
  }

  /** `committee_from_registry`: a committee exists exactly for the registries whose participating
      validators have valid, pairwise distinct keys and a total power that fits u128, and it then
      lists exactly them; otherwise the first offending validator is reported, never for zero power. */
  method CommitteeFromRegistry(hash: Bytes -> Bytes, decodeKey: KeyDecoder, active: seq<Validator>)
    returns (r: Result<FinalityCommittee, CommitteeError>)
    ensures r.Ok? <==> FormsCommittee(decodeKey, active)
    ensures r.Ok? ==> r.value == CommitteeOf(hash, MembersOf(decodeKey, active))
    ensures r.Ok? <==> OwnKeys(decodeKey, active) && TotalStake(active) < U128
    ensures r.Ok? ==> r.value.totalPower == TotalStake(active)
    ensures r.Err? ==> exists k | 0 <= k < |active| ::
                         && FormsCommittee(decodeKey, active[..k]) && !FormsCommittee(decodeKey, active[..k + 1])
                         && r.error == Problem(decodeKey, active[..k], active[k])
  {
    hide MembersOf, EncodeMembers, EncodeMember, TotalPower, MemberMap, FormsCommittee, Owners, Framed, LittleEndian;
    var members: map<Bytes, Member>, keyOwners: set<Bytes>, totalPower: nat := map[], {}, 0;
    var hasherInput := COMMITTEE_DOMAIN;
    EmptyCommittee(decodeKey, active);
    FormsIffStaked(decodeKey, active);
    if FormsCommittee(decodeKey, active) { FormedPower(decodeKey, active, {}); }
    hide OwnKeys, TotalStake;
    for i := 0 to |active|
      invariant FormsCommittee(decodeKey, active[..i])
      invariant Accumulated(MembersOf(decodeKey, active[..i]), members, keyOwners, totalPower, hasherInput)
    {
      var validator := active[i];
      ghost var ms := MembersOf(decodeKey, active[..i]);
      assert active[..i + 1] == active[..i] + [validator];
      OneMoreValidator(decodeKey, active[..i], validator);
      if !validator.CanParticipate() {
        continue;
      }
      var decoded := decodeKey(validator.signingKeyId);
      if decoded.None? {
        NoCommittee(decodeKey, active, i + 1);
        return Err(InvalidKey(validator.id));
      }
      var publicKey := decoded.value;
      var votingPower := validator.EffectiveStake();
      AccumulateOne(ms, Member(validator.id, publicKey, votingPower), members, keyOwners, totalPower, hasherInput);
      if publicKey in keyOwners {
        NoCommittee(decodeKey, active, i + 1);
        return Err(DuplicateKey);
      }
      keyOwners := keyOwners + {publicKey};
      if votingPower == 0 {
        return Err(ZeroPower(validator.id));
      }
      if totalPower + votingPower >= U128 {
        NoCommittee(decodeKey, active, i + 1);
        return Err(PowerOverflow);
      }
      totalPower := totalPower + votingPower;
      hasherInput := hasherInput + Framed(validator.id);
      hasherInput := hasherInput + Framed(publicKey);
      hasherInput := hasherInput + LittleEndian(votingPower, 16);
      members := members[validator.id := Member(validator.id, publicKey, votingPower)];
    }
    assert active[..|active|] == active;
    r := Ok(FinalityCommittee(members, totalPower, hash(hasherInput)));
  }

  /** What the loop has gathered after the members `ms`. */
  ghost predicate Accumulated(ms: seq<Member>, members: map<Bytes, Member>, keyOwners: set<Bytes>,
                              totalPower: nat, hasherInput: Bytes) {
    && members == MemberMap(ms) && keyOwners == Owners(ms)
    && totalPower == TotalPower(ms) && hasherInput == EncodeCommittee(ms)
  }

  lemma EmptyCommittee(decodeKey: KeyDecoder, active: seq<Validator>)
    ensures FormsCommittee(decodeKey, active[..0])
    ensures Accumulated(MembersOf(decodeKey, active[..0]), map[], {}, 0, COMMITTEE_DOMAIN)
  {
    assert MembersOf(decodeKey, active[..0]) == [];
  }

  /** How one more validator changes the member list and whether a committee still forms. */
  lemma OneMoreValidator(decodeKey: KeyDecoder, active: seq<Validator>, v: Validator)
    requires FormsCommittee(decodeKey, active)
    ensures var ms := MembersOf(decodeKey, active);
            var key := decodeKey(v.signingKeyId);
            if !v.CanParticipate() then
              MembersOf(decodeKey, active + [v]) == ms && FormsCommittee(decodeKey, active + [v])
            else if key.None? then !FormsCommittee(decodeKey, active + [v])
            else
              && MembersOf(decodeKey, active + [v]) == ms + [Member(v.id, key.value, v.EffectiveStake())]
              && (FormsCommittee(decodeKey, active + [v]) <==>
                    key.value !in Owners(ms) && TotalPower(ms) + v.EffectiveStake() < U128)
  {
    var all := active + [v];
    assert all[..|active|] == active && all[|active|] == v && v in all;
    assert KeysDecode(decodeKey, all) <==> !v.CanParticipate() || decodeKey(v.signingKeyId).Some?;
    if v.CanParticipate() && decodeKey(v.signingKeyId).Some? {
      var m := Member(v.id, decodeKey(v.signingKeyId).value, v.EffectiveStake());
      DistinctKeysSnoc(MembersOf(decodeKey, active), m);
      TotalSnoc(MembersOf(decodeKey, active), m);
    }
  }

  lemma DistinctKeysSnoc(ms: seq<Member>, m: Member)
    requires DistinctKeys(ms)
    ensures DistinctKeys(ms + [m]) <==> m.publicKey !in Owners(ms)
  {
    var all := ms + [m];
    if m.publicKey in Owners(ms) {
      var i :| 0 <= i < |ms| && ms[i].publicKey == m.publicKey;
      assert all[i].publicKey == all[|ms|].publicKey;
    }
  }

  lemma AccumulateOne(ms: seq<Member>, m: Member, members: map<Bytes, Member>, keyOwners: set<Bytes>,
                      totalPower: nat, hasherInput: Bytes)
    requires Accumulated(ms, members, keyOwners, totalPower, hasherInput)
    ensures Accumulated(ms + [m], members[m.id := m], keyOwners + {m.publicKey}, totalPower + m.power,
                        hasherInput + Framed(m.id) + Framed(m.publicKey) + LittleEndian(m.power, 16))
  {
    hide MemberMap, Owners, TotalPower, EncodeMembers, Framed, LittleEndian;
    MapAndOwnersSnoc(ms, m);
    TotalSnoc(ms, m);
    EncodeSnoc(ms, m);
    BytesAssociate(COMMITTEE_DOMAIN, EncodeMembers(ms), Framed(m.id), Framed(m.publicKey), LittleEndian(m.power, 16));
  }

  lemma BytesAssociate(a: Bytes, b: Bytes, c: Bytes, d: Bytes, e: Bytes)
    ensures a + b + c + d + e == a + (b + (c + (d + e)))
  {
  }

  lemma MapAndOwnersSnoc(ms: seq<Member>, m: Member)
    ensures MemberMap(ms + [m]) == MemberMap(ms)[m.id := m] && Owners(ms + [m]) == Owners(ms) + {m.publicKey}
  {
    var all := ms + [m];
    assert all[..|ms|] == ms && all[|ms|] == m;
    forall key | key in Owners(ms)
      ensures key in Owners(all)
    {
      var k :| 0 <= k < |ms| && ms[k].publicKey == key;
      assert all[k].publicKey == key;
    }
    assert all[|ms|].publicKey in Owners(all);
  }

  lemma NoCommittee(decodeKey: KeyDecoder, active: seq<Validator>, n: nat)
    requires n <= |active| && !FormsCommittee(decodeKey, active[..n])
    ensures !FormsCommittee(decodeKey, active)
  {
    if FormsCommittee(decodeKey, active) { FormsPrefix(decodeKey, active, n); }
  }

  lemma TotalSnoc(ms: seq<Member>, m: Member)
    ensures TotalPower(ms + [m]) == TotalPower(ms) + m.power
  {
    assert (ms + [m])[..|ms|] == ms;
  }

  lemma {:induction false} MembersAreActive(decodeKey: KeyDecoder, active: seq<Validator>)
    requires Registry(active)
    ensures var ms := MembersOf(decodeKey, active);
            && DistinctIds(ms)
            && forall m | m in ms :: m.power < U128 && |m.id| < U64 && exists v :: v in active && v.id == m.id
  {
    if active != [] {
      var n := |active| - 1;
      MembersAreActive(decodeKey, active[..n]);
      var ms, all := MembersOf(decodeKey, active[..n]), MembersOf(decodeKey, active);
      assert active[n] in active;
      forall i | 0 <= i < |ms|
        ensures ms[i].id != active[n].id
      {
        assert ms[i] in ms;
      }
    }
  }

  // ---------------------------------------------------------------------------
  // The committee in terms of the registry
  // ---------------------------------------------------------------------------

  /** An active validator in good standing with something at stake. */
  predicate Staked(v: Validator) {
    v.state == Active && v.reputation > 0.0 && v.stake > 0 && v.doubleSignCount == 0
  }

  /** What the validators in good standing with an id in `ids` have at stake. */
  function StakeOf(active: seq<Validator>, ids: set<Bytes>): nat {
    if active == [] then 0
    else
      var v := active[|active| - 1];
      StakeOf(active[..|active| - 1], ids) + if Staked(v) && v.id in ids then v.stake else 0
  }

  /** What all validators in good standing have at stake. */
  function TotalStake(active: seq<Validator>): nat {
    if active == [] then 0
    else
      var v := active[|active| - 1];
      TotalStake(active[..|active| - 1]) + if Staked(v) then v.stake else 0
  }

  /** The committee is the validators in good standing whose key decodes, each with its id, that key, and
      its stake as voting power. */
  lemma {:induction false} MemberIffStaked(decodeKey: KeyDecoder, active: seq<Validator>, m: Member)
    ensures m in MembersOf(decodeKey, active)
            <==> exists v :: && v in active && Staked(v) && m.id == v.id
                             && decodeKey(v.signingKeyId) == Some(m.publicKey) && m.power == v.stake
  {
    if active != [] {
      var n := |active| - 1;
      MemberIffStaked(decodeKey, active[..n], m);
      assert active == active[..n] + [active[n]];
    }
  }

  lemma PowerSnoc(ms: seq<Member>, m: Member, ids: set<Bytes>)
    ensures PowerOf(ms + [m], ids) == PowerOf(ms, ids) + (if m.id in ids then m.power else 0)
    ensures TotalPower(ms + [m]) == TotalPower(ms) + m.power
  {
    assert (ms + [m])[..|ms|] == ms;
  }

  /** Voting power is stake, of any set of signers and in total. */
  lemma {:induction false} PowerIsStake(decodeKey: KeyDecoder, active: seq<Validator>, ids: set<Bytes>)
    requires forall v | v in active && Staked(v) :: decodeKey(v.signingKeyId).Some?
    ensures PowerOf(MembersOf(decodeKey, active), ids) == StakeOf(active, ids)
    ensures TotalPower(MembersOf(decodeKey, active)) == TotalStake(active)
  {
    if active != [] {
      hide PowerOf, TotalPower;
      var n := |active| - 1;
      var front, v := active[..n], active[n];
      PowerIsStake(decodeKey, front, ids);
      assert v in active && active == front + [v];
      MembersSnoc(decodeKey, front, v);
      hide MembersOf;
      if Staked(v) {
        PowerSnoc(MembersOf(decodeKey, front), Member(v.id, decodeKey(v.signingKeyId).value, v.stake), ids);
      }
    } else {
      assert MembersOf(decodeKey, active) == [];
    }
  }

  lemma MembersSnoc(decodeKey: KeyDecoder, active: seq<Validator>, v: Validator)
    ensures var ms, key := MembersOf(decodeKey, active), decodeKey(v.signingKeyId);
            MembersOf(decodeKey, active + [v])
            == if Staked(v) && key.Some? then ms + [Member(v.id, key.value, v.stake)] else ms
  {
    assert (active + [v])[..|active|] == active;
  }

  /** The keys of the validators in good standing are valid and pairwise different. */
  ghost predicate OwnKeys(decodeKey: KeyDecoder, active: seq<Validator>) {
    && (forall i | 0 <= i < |active| && Staked(active[i]) :: decodeKey(active[i].signingKeyId).Some?)
    && forall i, j | 0 <= i < j < |active| && Staked(active[i]) && Staked(active[j]) ::
         decodeKey(active[i].signingKeyId) != decodeKey(active[j].signingKeyId)
  }

  /** A key belongs to the committee exactly when a validator in good standing has it. */
  lemma KeyOwned(decodeKey: KeyDecoder, active: seq<Validator>, key: Bytes)
    ensures key in Owners(MembersOf(decodeKey, active))
            <==> exists i | 0 <= i < |active| :: Staked(active[i]) && decodeKey(active[i].signingKeyId) == Some(key)
  {
    hide MembersOf;
    var ms := MembersOf(decodeKey, active);
    if key in Owners(ms) {
      var k :| 0 <= k < |ms| && ms[k].publicKey == key;
      MemberIffStaked(decodeKey, active, ms[k]);
      var v :| v in active && Staked(v) && decodeKey(v.signingKeyId) == Some(key);
      var i :| 0 <= i < |active| && active[i] == v;
    }
    if i :| 0 <= i < |active| && Staked(active[i]) && decodeKey(active[i].signingKeyId) == Some(key) {
      var m := Member(active[i].id, key, active[i].stake);
      assert active[i] in active;
      MemberIffStaked(decodeKey, active, m);
      var k :| 0 <= k < |ms| && ms[k] == m;
    }
  }

  /** A committee exists exactly when the validators in good standing have valid keys of their own and
      their stakes add up within 128 bits. */
  lemma {:induction false} FormsIffStaked(decodeKey: KeyDecoder, active: seq<Validator>)
    ensures FormsCommittee(decodeKey, active) <==> OwnKeys(decodeKey, active) && TotalStake(active) < U128
  {
    hide MembersOf, Owners;
    if active == [] {
      EmptyCommittee(decodeKey, active);
      assert active[..0] == active;
    } else {
      var n := |active| - 1;
      var front, v := active[..n], active[n];
      FormsIffStaked(decodeKey, front);
      assert active == front + [v];
      if FormsCommittee(decodeKey, front) {
        OneMoreValidator(decodeKey, front, v);
        hide FormsCommittee;
        PowerIsStake(decodeKey, front, {});
        if decodeKey(v.signingKeyId).Some? { KeyOwned(decodeKey, front, decodeKey(v.signingKeyId).value); }
      } else {
        NoCommittee(decodeKey, active, n);
      }
    }
  }

  lemma FormedPower(decodeKey: KeyDecoder, active: seq<Validator>, ids: set<Bytes>)
    requires FormsCommittee(decodeKey, active)
    ensures PowerOf(MembersOf(decodeKey, active), ids) == StakeOf(active, ids)
    ensures TotalPower(MembersOf(decodeKey, active)) == TotalStake(active)
  {
    PowerIsStake(decodeKey, active, ids);
  }

  /** Which error is reported for the first validator that spoils the committee. */
  lemma FirstOffender(decodeKey: KeyDecoder, active: seq<Validator>, k: nat)
    requires k < |active| && FormsCommittee(decodeKey, active[..k]) && !FormsCommittee(decodeKey, active[..k + 1])
    ensures var v := active[k]; var key := decodeKey(v.signingKeyId); var e := Problem(decodeKey, active[..k], v);
            var taken := exists i | 0 <= i < k :: Staked(active[i]) && decodeKey(active[i].signingKeyId) == key;
            && Staked(v)
            && (e == InvalidKey(v.id) <==> key.None?)
            && (e == DuplicateKey <==> key.Some? && taken)
            && (e == PowerOverflow <==> key.Some? && !taken)
            && (e == PowerOverflow ==> TotalStake(active[..k + 1]) >= U128)
  {
    hide MembersOf, FormsCommittee, Owners;
    var front, v := active[..k], active[k];
    assert active[..k + 1] == front + [v];
    OneMoreValidator(decodeKey, front, v);
    FormsIffStaked(decodeKey, front);
    FormsIffStaked(decodeKey, active[..k + 1]);
    if decodeKey(v.signingKeyId).Some? {
      KeyOwned(decodeKey, front, decodeKey(v.signingKeyId).value);
      assert forall i | 0 <= i < k :: front[i] == active[i];
    }
  }

  predicate Bounded(decodeKey: KeyDecoder, active: seq<Validator>) {
    Registry(active) && forall m | m in MembersOf(decodeKey, active) :: |m.publicKey| < U64
  }

  /** Equal committee hashes mean the same members in the same order, hence the same keys, powers
      and total, whichever registry snapshots they were computed from. */
  lemma CommitteeHashBinds(hash: Bytes -> Bytes, decodeKey: KeyDecoder, a: seq<Validator>, b: seq<Validator>)
    requires Bounded(decodeKey, a) && Bounded(decodeKey, b)
    requires CollisionFreeOn(hash, {EncodeCommittee(MembersOf(decodeKey, a)), EncodeCommittee(MembersOf(decodeKey, b))})
    requires CommitteeOf(hash, MembersOf(decodeKey, a)).hash == CommitteeOf(hash, MembersOf(decodeKey, b)).hash
    ensures MembersOf(decodeKey, a) == MembersOf(decodeKey, b)
  {
    var ms, ns := MembersOf(decodeKey, a), MembersOf(decodeKey, b);
    MembersAreActive(decodeKey, a);
    MembersAreActive(decodeKey, b);
    SplitEqual(COMMITTEE_DOMAIN, COMMITTEE_DOMAIN, EncodeMembers(ms), EncodeMembers(ns));
    EncodeMembersInjective(ms, ns);
  }
}
