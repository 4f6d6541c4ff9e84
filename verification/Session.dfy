/** Session tokens (crates/bleep-auth/src/session.rs). Each public call is one atomic step.
    Instants are nanoseconds of a clock that never runs backwards; a token is the claims it carries
    and the key it was signed under, so that nobody signs under a key they do not hold. */
module Session {
  import opened Encoding

  const NANOS: nat := 1_000_000_000
  const ROTATION_TTL: nat := 300 * NANOS

  /** Whole seconds, as `DateTime::timestamp` rounds them. */
  function Seconds(t: int): int {
    t / NANOS
  }

  lemma SecondsAreWhole(t: int)
    ensures Seconds(t) * 1_000_000_000 <= t < (Seconds(t) + 1) * 1_000_000_000
  {
  }

  datatype Claims = Claims(sub: string, jti: string, iat: int, exp: int, roles: seq<string>, nonce: string)
  datatype Token = Signed(key: Bytes, claims: Claims) | Garbage
  datatype Error = ExpiredSession | InvalidSession | RevokedSession | NoPendingRotation
  datatype Pending = Pending(secret: Bytes, challenge: string, expiresAt: int)

  datatype State = State(key: Bytes, issued: map<string, Claims>, revoked: map<string, int>,
                         pending: Option<Pending>, rotations: nat)

  // ---------------------------------------------------------------------------
  // Specification of the calls
  // ---------------------------------------------------------------------------

  /** Signature, then expiry (section 4.1.4 of RFC 7519: not accepted on or after `exp`), then the
      exact issued claims, then the deny-list. */
  function Validate(s: State, token: Token, now: int): Result<Claims, Error> {
    if token.Garbage? || token.key != s.key then Err(InvalidSession)
    else
      var claims := token.claims;
      if Seconds(now) >= claims.exp then Err(ExpiredSession)
      else if claims.jti !in s.issued || s.issued[claims.jti] != claims then Err(InvalidSession)
      else if claims.jti in s.revoked then Err(RevokedSession)
      else Ok(claims)
  }

  datatype Op =
    | Issue(identity: string, roles: seq<string>, ttl: int, jti: string, nonce: string, now: int)
    | Revoke(jti: string, now: int)
    | Purge(maxTtl: int, now: int)
    | Prepare(secret: Bytes, challenge: string, now: int)
    | Confirm(challenge: string, now: int)

  function MintedClaims(op: Op): Claims
    requires op.Issue?
  {
    Claims(op.identity, op.jti, Seconds(op.now), Seconds(op.now + op.ttl), op.roles, op.nonce)
  }

  function Purged(s: State, maxTtl: int, now: int): State {
    s.(revoked := map j | j in s.revoked && s.revoked[j] > now - maxTtl :: s.revoked[j],
       issued := map j | j in s.issued && s.issued[j].exp > Seconds(now) :: s.issued[j])
  }

  function Rotated(s: State, secret: Bytes): State {
    State(secret, map[], map[], None, (s.rotations + 1) % U64)
  }

  function Confirmation(s: State, challenge: string, now: int): (State, Result<nat, Error>) {
    if s.pending.None? then (s, Err(NoPendingRotation))
    else if s.pending.value.expiresAt <= now then (s.(pending := None), Err(ExpiredSession))
    else if s.pending.value.challenge != challenge then (s, Err(InvalidSession))
    else (Rotated(s, s.pending.value.secret), Ok((s.rotations + 1) % U64))
  }

  function Apply(s: State, op: Op): State {
    match op
    case Issue(_, _, _, jti, _, _) => s.(issued := s.issued[jti := MintedClaims(op)])
    case Revoke(jti, now) => s.(revoked := s.revoked[jti := now])
    case Purge(maxTtl, now) => Purged(s, maxTtl, now)
    case Prepare(secret, challenge, now) => s.(pending := Some(Pending(secret, challenge, now + ROTATION_TTL)))
    case Confirm(challenge, now) => Confirmation(s, challenge, now).0
  }

  class SessionManager {
    var activeKey: Bytes
    var revoked: map<string, int>
    var issued: map<string, Claims>
    var pendingRotation: Option<Pending>
    var rotationCount: nat

    ghost function Abs(): State
      reads this
    {
      State(activeKey, issued, revoked, pendingRotation, rotationCount)
    }

    constructor (secret: Bytes)
      ensures Abs() == State(secret, map[], map[], None, 0)
    {
      activeKey, revoked, issued, pendingRotation, rotationCount := secret, map[], map[], None, 0;
    }

    method PrepareSecretRotation(secret: Bytes, challenge: string, now: int) returns (expiresAt: int)
      modifies this
      ensures Abs() == Apply(old(Abs()), Prepare(secret, challenge, now))
      ensures expiresAt == now + 300_000_000_000
      ensures pendingRotation == Some(Pending(secret, challenge, expiresAt)) && activeKey == old(activeKey)
    {
      expiresAt := now + ROTATION_TTL;
      pendingRotation := Some(Pending(secret, challenge, expiresAt));
    }

    method ConfirmSecretRotation(challenge: string, now: int) returns (r: Result<nat, Error>)
      modifies this
      ensures Abs() == Apply(old(Abs()), Confirm(challenge, now))
      ensures r == Confirmation(old(Abs()), challenge, now).1
      ensures r.Ok? <==> && old(pendingRotation).Some? && now < old(pendingRotation).value.expiresAt
                         && old(pendingRotation).value.challenge == challenge
      ensures r.Ok? ==> && activeKey == old(pendingRotation).value.secret && pendingRotation == None
                        && issued == map[] && revoked == map[]
                        && r.value == rotationCount == (old(rotationCount) + 1) % U64
      ensures r.Err? ==> && activeKey == old(activeKey) && issued == old(issued) && revoked == old(revoked)
                         && rotationCount == old(rotationCount)
      ensures r == Err(ExpiredSession) <==>
                old(pendingRotation).Some? && old(pendingRotation).value.expiresAt <= now && pendingRotation == None
      ensures r.Err? && r != Err(ExpiredSession) ==> pendingRotation == old(pendingRotation)
    {
      if pendingRotation.None? {
        return Err(NoPendingRotation);
      }
      var pending := pendingRotation.value;
      if pending.expiresAt <= now {
        pendingRotation := None;
        return Err(ExpiredSession);
      }
      if pending.challenge != challenge {
        return Err(InvalidSession);
      }
      pendingRotation := None;
      var count := ApplySecretRotation(pending.secret);
      r := Ok(count);
    }

    method ApplySecretRotation(newSecret: Bytes) returns (count: nat)
      modifies this
      ensures Abs() == Rotated(old(Abs()), newSecret).(pending := old(pendingRotation))
      ensures activeKey == newSecret && issued == map[] && revoked == map[]
      ensures count == rotationCount == (old(rotationCount) + 1) % U64
    {
      activeKey := newSecret;
      issued := map[];
      revoked := map[];
      rotationCount := (rotationCount + 1) % U64;
      count := rotationCount;
    }

    method IssueToken(identity: string, roles: seq<string>, ttl: int, jti: string, nonce: string, now: int)
      returns (token: Token, expiresAt: int)
      modifies this
      ensures Abs() == Apply(old(Abs()), Issue(identity, roles, ttl, jti, nonce, now))
      ensures token == Signed(old(activeKey), Claims(identity, jti, Seconds(now), Seconds(now + ttl), roles, nonce))
      ensures issued == old(issued)[jti := token.claims] && expiresAt == now + ttl
    {
      expiresAt := now + ttl;
      var claims := Claims(identity, jti, Seconds(now), Seconds(expiresAt), roles, nonce);
      token := Signed(activeKey, claims);
      issued := issued[jti := claims];
    }

    method ValidateToken(token: Token, now: int) returns (r: Result<Claims, Error>)
      ensures r == Validate(Abs(), token, now)
    {
      if token.Garbage? || token.key != activeKey {
        return Err(InvalidSession);
      }
      var claims := token.claims;
      if claims.exp <= Seconds(now) {
        return Err(ExpiredSession);
      }
      if !(claims.jti in issued && issued[claims.jti] == claims) {
        return Err(InvalidSession);
      }
      if claims.jti in revoked {
        return Err(RevokedSession);
      }
      r := Ok(claims);
    }

    method RevokeToken(jti: string, now: int)
      modifies this
      ensures Abs() == Apply(old(Abs()), Revoke(jti, now))
      ensures revoked == old(revoked)[jti := now] && issued == old(issued) && activeKey == old(activeKey)
    {
      revoked := revoked[jti := now];
    }

    method PurgeExpiredRevocations(maxTtl: int, now: int)
      modifies this
      ensures Abs() == Apply(old(Abs()), Purge(maxTtl, now))
      ensures forall j :: j in revoked <==> j in old(revoked) && old(revoked)[j] > now - maxTtl
      ensures forall j :: j in issued <==> j in old(issued) && old(issued)[j].exp > Seconds(now)
    {
      var cutoff := now - maxTtl;
      revoked := map j | j in revoked && revoked[j] > cutoff :: revoked[j];
      issued := map j | j in issued && issued[j].exp > Seconds(now) :: issued[j];
    }
  }

  // ---------------------------------------------------------------------------
  // Runs
  // ---------------------------------------------------------------------------

  function Initial(key: Bytes): State {
    State(key, map[], map[], None, 0)
  }

  function After(key: Bytes, ops: seq<Op>): State {
    if ops == [] then Initial(key) else Apply(After(key, ops[..|ops| - 1]), ops[|ops| - 1])
  }

  /** The same calls on a manager that never forgets: purging does nothing. */
  function Unpurged(key: Bytes, ops: seq<Op>): State {
    if ops == [] then Initial(key)
    else
      var s, op := Unpurged(key, ops[..|ops| - 1]), ops[|ops| - 1];
      if op.Purge? then s else Apply(s, op)
  }

  predicate Mentions(op: Op, jti: string) {
    (op.Issue? || op.Revoke?) && op.jti == jti
  }

  /** Identifiers named by the calls so far. */
  predicate Used(ops: seq<Op>, jti: string) {
    exists i | 0 <= i < |ops| :: Mentions(ops[i], jti)
  }

  /** What callers and the environment guarantee: time does not run backwards, token ids are fresh
      (section 4.1.7 of RFC 7519), and every purge is given a TTL at least as long as any issued. */
  predicate Admissible(ops: seq<Op>, bound: int) {
    && (forall i, j | 0 <= i < j < |ops| :: ops[i].now <= ops[j].now)
    && (forall i | 0 <= i < |ops| && ops[i].Issue? :: ops[i].ttl <= bound && !Used(ops[..i], ops[i].jti))
    && (forall i | 0 <= i < |ops| && ops[i].Purge? :: bound <= ops[i].maxTtl)
  }

  lemma AdmissiblePrefix(ops: seq<Op>, bound: int, n: nat)
    requires Admissible(ops, bound) && n <= |ops|
    ensures Admissible(ops[..n], bound)
  {
  }

  // ---------------------------------------------------------------------------
  // Purging refines never forgetting
  // ---------------------------------------------------------------------------

  /** Entries present in both managers agree. */
  ghost predicate SubMap<V>(m: map<string, V>, m': map<string, V>) {
    forall j | j in m :: j in m' && m[j] == m'[j]
  }

  ghost predicate Simulates(s: State, ideal: State, bound: int, now: int) {
    && s.key == ideal.key && s.pending == ideal.pending && s.rotations == ideal.rotations
    && SubMap(s.issued, ideal.issued) && SubMap(s.revoked, ideal.revoked)
    && (forall j | j in ideal.issued && j !in s.issued :: ideal.issued[j].exp <= Seconds(now))
    && (forall j | j in ideal.issued && j in ideal.revoked && j !in s.revoked ::
          ideal.issued[j].exp <= Seconds(now))
    && (forall j | j in ideal.issued :: ideal.issued[j].exp <= Seconds(now + bound))
    && (forall j | j in ideal.issued && j in ideal.revoked ::
          ideal.issued[j].exp <= Seconds(ideal.revoked[j] + bound))
  }

  lemma SimulatesLater(s: State, ideal: State, bound: int, now: int, later: int)
    requires Simulates(s, ideal, bound, now) && now <= later
    ensures Simulates(s, ideal, bound, later)
  {
  }

  lemma PurgeSimulates(s: State, ideal: State, bound: int, maxTtl: int, now: int)
    requires Simulates(s, ideal, bound, now) && bound <= maxTtl
    ensures Simulates(Purged(s, maxTtl, now), ideal, bound, now)
  {
  }

  lemma IssueSimulates(s: State, ideal: State, bound: int, op: Op)
    requires op.Issue? && Simulates(s, ideal, bound, op.now) && op.ttl <= bound
    requires op.jti !in ideal.revoked
    ensures Simulates(Apply(s, op), Apply(ideal, op), bound, op.now)
  {
  }

  lemma RevokeSimulates(s: State, ideal: State, bound: int, op: Op)
    requires op.Revoke? && Simulates(s, ideal, bound, op.now)
    ensures Simulates(Apply(s, op), Apply(ideal, op), bound, op.now)
  {
  }

  lemma StepSimulates(s: State, ideal: State, bound: int, op: Op)
    requires Simulates(s, ideal, bound, op.now)
    requires op.Issue? ==> op.ttl <= bound && op.jti !in ideal.revoked
    requires op.Purge? ==> bound <= op.maxTtl
    ensures Simulates(Apply(s, op), if op.Purge? then ideal else Apply(ideal, op), bound, op.now)
  {
    hide Simulates;
    match op
    case Issue(_, _, _, _, _, _) => IssueSimulates(s, ideal, bound, op);
    case Revoke(_, _) => RevokeSimulates(s, ideal, bound, op);
    case Purge(maxTtl, now) => PurgeSimulates(s, ideal, bound, maxTtl, now);
    case _ => RotationSimulates(s, ideal, bound, op);
  }

  lemma RotationSimulates(s: State, ideal: State, bound: int, op: Op)
    requires Simulates(s, ideal, bound, op.now) && (op.Prepare? || op.Confirm?)
    ensures Simulates(Apply(s, op), Apply(ideal, op), bound, op.now)
  {
  }

  lemma {:induction false} RevokedIsUsed(key: Bytes, ops: seq<Op>, jti: string)
    requires jti in Unpurged(key, ops).revoked
    ensures Used(ops, jti)
  {
    var n := |ops| - 1;
    if Mentions(ops[n], jti) {
    } else {
      RevokedIsUsed(key, ops[..n], jti);
      var i :| 0 <= i < n && Mentions(ops[..n][i], jti);
      assert Mentions(ops[i], jti);
    }
  }

  lemma {:induction false} RunSimulates(key: Bytes, ops: seq<Op>, bound: int, now: int)
    requires Admissible(ops, bound) && (ops != [] ==> ops[|ops| - 1].now <= now)
    ensures Simulates(After(key, ops), Unpurged(key, ops), bound, now)
  {
    if ops != [] {
      var n := |ops| - 1;
      var op := ops[n];
      AdmissiblePrefix(ops, bound, n);
      RunSimulates(key, ops[..n], bound, op.now);
      if op.Issue? && op.jti in Unpurged(key, ops[..n]).revoked {
        RevokedIsUsed(key, ops[..n], op.jti);
      }
      StepSimulates(After(key, ops[..n]), Unpurged(key, ops[..n]), bound, op);
      SimulatesLater(After(key, ops), Unpurged(key, ops), bound, op.now, now);
    }
  }

  /** Purging is invisible: at every later instant and for every token, the manager answers exactly
      as one that kept every issued claim and every revocation. */
  lemma PurgingChangesNoAnswer(key: Bytes, ops: seq<Op>, bound: int, token: Token, now: int)
    requires Admissible(ops, bound) && (ops != [] ==> ops[|ops| - 1].now <= now)
    ensures Validate(After(key, ops), token, now) == Validate(Unpurged(key, ops), token, now)
  {
    RunSimulates(key, ops, bound, now);
  }

  // ---------------------------------------------------------------------------
  // Which tokens are accepted, in terms of the calls alone
  // ---------------------------------------------------------------------------

  /** Rotation `p` is staged and neither replaced, confirmed nor found expired since. */
  ghost predicate Live(ops: seq<Op>, p: nat) {
    && p < |ops| && ops[p].Prepare?
    && forall j | p < j < |ops| ::
         !ops[j].Prepare? && (ops[j].Confirm? ==> ops[j].challenge != ops[p].challenge && !Late(ops[p], ops[j]))
  }

  /** More than five minutes after staging. */
  predicate Late(prepare: Op, confirm: Op) {
    confirm.now >= prepare.now + 300_000_000_000
  }

  /** The last call confirms rotation `p` in time. */
  ghost predicate Confirms(ops: seq<Op>, p: nat) {
    && ops != [] && ops[|ops| - 1].Confirm? && Live(ops[..|ops| - 1], p)
    && ops[|ops| - 1].challenge == ops[p].challenge && !Late(ops[p], ops[|ops| - 1])
  }

  ghost predicate Rotates(ops: seq<Op>) {
    exists p: nat :: Confirms(ops, p)
  }

  /** The secret of the last rotation that was confirmed, or the first key. */
  ghost function KeyOf(key: Bytes, ops: seq<Op>): Bytes {
    if ops == [] then key
    else if Rotates(ops) then var p: nat :| Confirms(ops, p); ops[p].secret
    else KeyOf(key, ops[..|ops| - 1])
  }

  ghost function RotationsOf(ops: seq<Op>): nat {
    if ops == [] then 0 else RotationsOf(ops[..|ops| - 1]) + if Rotates(ops) then 1 else 0
  }

  lemma LiveIsOne(ops: seq<Op>, p: nat, q: nat)
    requires Live(ops, p) && Live(ops, q)
    ensures p == q
  {
  }

  /** What is pending is the rotation that is live. */
  ghost predicate PendingIs(pending: Option<Pending>, ops: seq<Op>) {
    && (pending.Some? <==> exists p: nat :: Live(ops, p))
    && forall p: nat | Live(ops, p) ::
         pending == Some(Pending(ops[p].secret, ops[p].challenge, ops[p].now + 300_000_000_000))
  }

  lemma LiveSnoc(ops: seq<Op>, p: nat)
    requires ops != []
    ensures var n := |ops| - 1; var op := ops[n];
            Live(ops, p) <==>
              if p == n then op.Prepare?
              else Live(ops[..n], p) && !op.Prepare?
                   && (op.Confirm? ==> op.challenge != ops[p].challenge && !Late(ops[p], op))
  {
    var n := |ops| - 1;
    if p < n {
      assert ops[..n][p] == ops[p];
      forall j | p < j < n
        ensures ops[..n][j] == ops[j]
      {
      }
      if Live(ops, p) { assert !ops[n].Prepare?; }
    }
  }

  /** Key, pending rotation and count are those the calls determine. */
  ghost predicate Keyed(s: State, key: Bytes, ops: seq<Op>) {
    s.key == KeyOf(key, ops) && PendingIs(s.pending, ops) && s.rotations == RotationsOf(ops) % U64
  }

  lemma StepKeyed(s: State, key: Bytes, ops: seq<Op>)
    requires ops != [] && Keyed(s, key, ops[..|ops| - 1])
    ensures var op := ops[|ops| - 1];
            && Keyed(Apply(s, op), key, ops) && (op.Purge? ==> Keyed(s, key, ops))
            && (Rotates(ops) <==> op.Confirm? && Confirmation(s, op.challenge, op.now).1.Ok?)
  {
    hide PendingIs, Confirms, Confirmation, Apply;
    StepRotates(s, ops);
    var before := ops[..|ops| - 1];
    if Rotates(ops) {
      NextModulo(RotationsOf(before));
    } else {
      assert RotationsOf(ops) == RotationsOf(before);
    }
  }

  lemma NextModulo(n: nat)
    ensures (n % U64 + 1) % U64 == (n + 1) % U64
  {
  }

  /** Over every run of calls, on clocks of any kind: the signing key is the secret staged by the last
      rotation that was confirmed in time, and rotations are counted. */
  lemma {:induction false} KeyIsLastConfirmed(key: Bytes, ops: seq<Op>)
    ensures Keyed(Unpurged(key, ops), key, ops) && Keyed(After(key, ops), key, ops)
  {
    if ops != [] {
      hide Keyed, Rotates, Confirmation;
      var n := |ops| - 1;
      KeyIsLastConfirmed(key, ops[..n]);
      StepKeyed(Unpurged(key, ops[..n]), key, ops);
      StepKeyed(After(key, ops[..n]), key, ops);
    }
  }

  lemma StepRotates(s: State, ops: seq<Op>)
    requires ops != [] && PendingIs(s.pending, ops[..|ops| - 1])
    ensures var t, op := Apply(s, ops[|ops| - 1]), ops[|ops| - 1];
            && PendingIs(t.pending, ops) && (op.Purge? ==> PendingIs(s.pending, ops))
            && (Rotates(ops) <==> op.Confirm? && Confirmation(s, op.challenge, op.now).1.Ok?)
            && (forall p: nat | Confirms(ops, p) :: t.key == ops[p].secret && t.rotations == (s.rotations + 1) % U64)
            && (!Rotates(ops) ==> t.key == s.key && t.rotations == s.rotations)
  {
    var n := |ops| - 1;
    forall p: nat
      ensures Live(ops, p) <==>
                if p == n then ops[n].Prepare?
                else Live(ops[..n], p) && !ops[n].Prepare?
                     && (ops[n].Confirm? ==> ops[n].challenge != ops[p].challenge && !Late(ops[p], ops[n]))
    {
      LiveSnoc(ops, p);
    }
    forall p: nat | Live(ops[..n], p)
      ensures ops[..n][p] == ops[p] && forall q: nat | Live(ops[..n], q) :: q == p
    {
      forall q: nat | Live(ops[..n], q) ensures q == p { LiveIsOne(ops[..n], p, q); }
    }
    hide Live;
    if s.pending.Some? {
      var p: nat :| Live(ops[..n], p);
      assert Confirms(ops, p) <==> ops[n].Confirm? && ops[n].challenge == ops[p].challenge && !Late(ops[p], ops[n]);
    }
  }

  /** Every token ever handed out, by id. */
  ghost function Minted(key: Bytes, ops: seq<Op>): map<string, Token> {
    if ops == [] then map[]
    else
      var n := |ops| - 1;
      var m := Minted(key, ops[..n]);
      match ops[n]
      case Issue(identity, roles, ttl, jti, nonce, now) =>
        m[jti := Signed(KeyOf(key, ops[..n]), Claims(identity, jti, Seconds(now), Seconds(now + ttl), roles, nonce))]
      case _ => m
  }

  /** Ids withdrawn by a revocation, or by a confirmed rotation after they were issued. */
  ghost function Withdrawn(key: Bytes, ops: seq<Op>): set<string> {
    if ops == [] then {}
    else
      var n := |ops| - 1;
      Withdrawn(key, ops[..n])
      + (if ops[n].Revoke? then {ops[n].jti} else {})
      + (if Rotates(ops) then Minted(key, ops[..n]).Keys else {})
  }

  ghost predicate Explains(ideal: State, minted: map<string, Token>, withdrawn: set<string>) {
    && (forall j | j in ideal.issued :: j in minted && minted[j] == Signed(ideal.key, ideal.issued[j]))
    && (forall j | j in ideal.issued :: j in withdrawn <==> j in ideal.revoked)
    && (forall j | j in minted && j !in withdrawn :: j in ideal.issued)
    && (forall j | j in minted :: minted[j].Signed? && minted[j].claims.jti == j)
  }

  lemma {:induction false} MintedIsUsed(key: Bytes, ops: seq<Op>, jti: string)
    requires jti in Minted(key, ops) || jti in Withdrawn(key, ops)
    ensures Used(ops, jti)
  {
    var n := |ops| - 1;
    if Mentions(ops[n], jti) {
    } else {
      MintedIsUsed(key, ops[..n], jti);
      var i :| 0 <= i < n && Mentions(ops[..n][i], jti);
      assert Mentions(ops[i], jti);
    }
  }

  lemma StepExplained(s: State, op: Op, rotates: bool, minted: map<string, Token>, withdrawn: set<string>)
    requires Explains(s, minted, withdrawn) && !op.Purge?
    requires op.Issue? ==> op.jti !in minted && op.jti !in withdrawn && op.jti !in s.revoked
    requires rotates <==> op.Confirm? && Confirmation(s, op.challenge, op.now).1.Ok?
    ensures Explains(Apply(s, op),
                     if op.Issue? then minted[op.jti := Signed(s.key, MintedClaims(op))] else minted,
                     withdrawn + (if op.Revoke? then {op.jti} else {}) + (if rotates then minted.Keys else {}))
  {
  }

  lemma MintedStep(key: Bytes, ops: seq<Op>)
    requires ops != []
    ensures var before, op := ops[..|ops| - 1], ops[|ops| - 1]; var m := Minted(key, before);
            && Minted(key, ops) == (if op.Issue? then m[op.jti := Signed(KeyOf(key, before), MintedClaims(op))] else m)
            && Withdrawn(key, ops) == Withdrawn(key, before) + (if op.Revoke? then {op.jti} else {})
                                      + (if Rotates(ops) then m.Keys else {})
  {
  }

  lemma FreshlyIssued(key: Bytes, ops: seq<Op>, bound: int)
    requires Admissible(ops, bound) && ops != [] && ops[|ops| - 1].Issue?
    ensures var before, jti := ops[..|ops| - 1], ops[|ops| - 1].jti;
            jti !in Minted(key, before) && jti !in Withdrawn(key, before) && jti !in Unpurged(key, before).revoked
  {
    var before, jti := ops[..|ops| - 1], ops[|ops| - 1].jti;
    hide Minted, Withdrawn, Unpurged;
    if jti in Minted(key, before) || jti in Withdrawn(key, before) { MintedIsUsed(key, before, jti); }
    if jti in Unpurged(key, before).revoked { RevokedIsUsed(key, before, jti); }
  }

  lemma {:induction false} RunExplained(key: Bytes, ops: seq<Op>, bound: int)
    requires Admissible(ops, bound)
    ensures Explains(Unpurged(key, ops), Minted(key, ops), Withdrawn(key, ops))
  {
    if ops != [] {
      var n := |ops| - 1;
      var before, op := ops[..n], ops[n];
      AdmissiblePrefix(ops, bound, n);
      RunExplained(key, before, bound);
      KeyIsLastConfirmed(key, before);
      StepKeyed(Unpurged(key, before), key, ops);
      hide KeyOf, RotationsOf, PendingIs, Explains, Confirmation, Rotates, Used, Admissible, Minted, Withdrawn;
      MintedStep(key, ops);
      if !op.Purge? {
        if op.Issue? { FreshlyIssued(key, ops, bound); }
        StepExplained(Unpurged(key, before), op, Rotates(ops), Minted(key, before), Withdrawn(key, before));
      }
    }
  }

  /** After any admissible run, a token is accepted exactly when it is a token that was handed out,
      its id was neither revoked nor rotated away since, and its expiry lies in the future. */
  lemma AcceptedExactly(key: Bytes, ops: seq<Op>, bound: int, token: Token, now: int)
    requires Admissible(ops, bound) && (ops != [] ==> ops[|ops| - 1].now <= now)
    ensures Validate(After(key, ops), token, now).Ok? <==>
              && token.Signed?
              && token.claims.jti in Minted(key, ops)
              && token == Minted(key, ops)[token.claims.jti]
              && token.claims.jti !in Withdrawn(key, ops)
              && Seconds(now) < token.claims.exp
    ensures Validate(After(key, ops), token, now) == Err(ExpiredSession) <==>
              token.Signed? && token.key == KeyOf(key, ops) && token.claims.exp <= Seconds(now)
    ensures Validate(After(key, ops), token, now) == Err(RevokedSession) ==>
              && token.Signed? && token.claims.jti in Minted(key, ops) && token == Minted(key, ops)[token.claims.jti]
              && token.claims.jti in Withdrawn(key, ops)
  {
    PurgingChangesNoAnswer(key, ops, bound, token, now);
    RunExplained(key, ops, bound);
    KeyIsLastConfirmed(key, ops);
    hide KeyOf, RotationsOf, PendingIs, Minted, Withdrawn, After, Unpurged;
  }

  lemma {:induction false} WithdrawnStays(key: Bytes, ops: seq<Op>, n: nat)
    requires n <= |ops|
    ensures Withdrawn(key, ops[..n]) <= Withdrawn(key, ops)
  {
    if n < |ops| {
      WithdrawnStays(key, ops[..|ops| - 1], n);
      assert ops[..|ops| - 1][..n] == ops[..n];
    } else {
      assert ops[..n] == ops;
    }
  }

  /** Withdrawal is for good: once a call has revoked an id, or has confirmed a rotation after the
      id was issued, no continuation of the run makes any token with that id acceptable again. */
  lemma RevocationIsPermanent(key: Bytes, ops: seq<Op>, bound: int, i: nat, token: Token, now: int)
    requires Admissible(ops, bound) && i < |ops| && ops[|ops| - 1].now <= now && token.Signed?
    requires || (ops[i].Revoke? && ops[i].jti == token.claims.jti)
             || (Rotates(ops[..i + 1]) && token.claims.jti in Minted(key, ops[..i]))
    ensures !Validate(After(key, ops), token, now).Ok?
  {
    assert ops[..i + 1][..i] == ops[..i];
    WithdrawnStays(key, ops, i + 1);
    AcceptedExactly(key, ops, bound, token, now);
  }
}
