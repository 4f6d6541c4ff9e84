/** Binding operators to validators (crates/bleep-auth/src/validator_binding.rs). Key encapsulation,
    the challenge id and the clock are given from outside; strings are their bytes. */
module ValidatorBinding {
  import opened Encoding

  datatype Binding = Binding(id: Bytes, operator: Bytes, validator: Bytes, boundAt: int, active: bool)

  datatype Challenge = Challenge(expected: Bytes, issuedAt: int)

  datatype State = State(bindings: map<Bytes, Binding>, pending: map<Bytes, Challenge>,
                         byValidator: map<Bytes, Bytes>)

  datatype AuthError = InvalidKeyMaterial | ChallengeNotFound | ChallengeExpired | WrongResponse

  const START := State(map[], map[], map[])

  const KEY_LENGTH := 1568

  /** Five minutes, in milliseconds. */
  const TTL := 300000

  // ---------------------------------------------------------------------------
  // Comparing responses
  // ---------------------------------------------------------------------------

  function Pow2(k: nat): nat {
    if k == 0 then 1 else 2 * Pow2(k - 1)
  }

  /** Exclusive or of the low `k` bits. */
  function Xor(x: nat, y: nat, k: nat): nat {
    if k == 0 then 0 else (x + y) % 2 + 2 * Xor(x / 2, y / 2, k - 1)
  }

  /** Inclusive or of the low `k` bits. */
  function Or(x: nat, y: nat, k: nat): nat {
    if k == 0 then 0 else (if x % 2 == 1 || y % 2 == 1 then 1 else 0) + 2 * Or(x / 2, y / 2, k - 1)
  }

  lemma {:induction false} XorZero(x: nat, y: nat, k: nat)
    requires x < Pow2(k) && y < Pow2(k)
    ensures Xor(x, y, k) < Pow2(k) && (Xor(x, y, k) == 0 <==> x == y)
  {
    if k > 0 { XorZero(x / 2, y / 2, k - 1); }
  }

  lemma {:induction false} OrZero(x: nat, y: nat, k: nat)
    requires x < Pow2(k) && y < Pow2(k)
    ensures Or(x, y, k) < Pow2(k) && (Or(x, y, k) == 0 <==> x == 0 && y == 0)
  {
    if k > 0 { OrZero(x / 2, y / 2, k - 1); }
  }

  /** Looks at every byte, and says whether the two are equal. */
  method ConstantTimeEq(a: Bytes, b: Bytes) returns (eq: bool)
    ensures eq <==> a == b
  {
    if |a| != |b| {
      return false;
    }
    var diff := 0;
    for i := 0 to |a|
      invariant diff < 256 && (diff == 0 <==> forall j | 0 <= j < i :: a[j] == b[j])
    {
      assert Pow2(8) == 256 by { assert Pow2(4) == 16; }
      hide Pow2, Xor, Or;
      var bits := Xor(a[i], b[i], 8);
      XorZero(a[i], b[i], 8);
      OrZero(diff, bits, 8);
      diff := Or(diff, bits, 8);
    }
    eq := diff == 0;
  }

  // ---------------------------------------------------------------------------
  // Specification of the calls
  // ---------------------------------------------------------------------------

  function BindingId(sha: Bytes -> Bytes, operator: Bytes, validator: Bytes): Bytes {
    Hex(sha(operator + validator))
  }

  function Expected(sha: Bytes -> Bytes, secret: Bytes, challenge: Bytes): Bytes {
    Hex(sha(secret + challenge))
  }

  datatype Op =
    | Issue(key: Bytes, challenge: Bytes, secret: Bytes, encapsulates: bool, now: int)
    | Bind(operator: Bytes, validator: Bytes, challenge: Bytes, response: Bytes, now: int)

  predicate Issues(op: Op) {
    op.Issue? && |op.key| == KEY_LENGTH && op.encapsulates
  }

  /** Why a bind fails, if it does. */
  function Verdict(s: State, op: Op): Option<AuthError>
    requires op.Bind?
  {
    if op.challenge !in s.pending then Some(ChallengeNotFound)
    else if op.now - s.pending[op.challenge].issuedAt > TTL then Some(ChallengeExpired)
    else if op.response != s.pending[op.challenge].expected then Some(WrongResponse)
    else None
  }

  predicate Binds(s: State, op: Op) {
    op.Bind? && Verdict(s, op).None?
  }

  function NewBinding(sha: Bytes -> Bytes, op: Op): Binding
    requires op.Bind?
  {
    Binding(BindingId(sha, op.operator, op.validator), op.operator, op.validator, op.now, true)
  }

  function Retired(s: State, validator: Bytes): map<Bytes, Binding> {
    if validator in s.byValidator && s.byValidator[validator] in s.bindings then
      var former := s.byValidator[validator];
      s.bindings[former := s.bindings[former].(active := false)]
    else s.bindings
  }

  function Apply(sha: Bytes -> Bytes, s: State, op: Op): State {
    match op
    case Issue(_, c, secret, _, now) =>
      if Issues(op) then s.(pending := s.pending[c := Challenge(Expected(sha, secret, c), now)]) else s
    case Bind(operator, validator, c, _, _) =>
      if Binds(s, op) then
        var b := NewBinding(sha, op);
        State(Retired(s, validator)[b.id := b], s.pending - {c}, s.byValidator[validator := b.id])
      else s.(pending := s.pending - {c})
  }

  function Lookup(s: State, validator: Bytes): Option<Binding> {
    if validator in s.byValidator && s.byValidator[validator] in s.bindings
       && s.bindings[s.byValidator[validator]].active
    then Some(s.bindings[s.byValidator[validator]]) else None
  }

  class Registry {
    const sha: Bytes -> Bytes
    var bindings: map<Bytes, Binding>
    var pending: map<Bytes, Challenge>
    var byValidator: map<Bytes, Bytes>

    ghost function Abs(): State
      reads this
    {
      State(bindings, pending, byValidator)
    }

    constructor (sha: Bytes -> Bytes)
      ensures Abs() == START && this.sha == sha
    {
      this.sha := sha;
      bindings, pending, byValidator := map[], map[], map[];
    }

    method IssueChallenge(key: Bytes, challenge: Bytes, secret: Bytes, encapsulates: bool, now: int)
      returns (r: Result<Bytes, AuthError>)
      modifies this
      ensures Abs() == Apply(sha, old(Abs()), Issue(key, challenge, secret, encapsulates, now))
      ensures r == if |key| == 1568 && encapsulates then Ok(challenge) else Err(InvalidKeyMaterial)
      ensures pending == if r.Ok? then old(pending)[challenge := Challenge(Hex(sha(secret + challenge)), now)]
                         else old(pending)
    {
      if |key| != KEY_LENGTH {
        return Err(InvalidKeyMaterial);
      }
      if !encapsulates {
        return Err(InvalidKeyMaterial);
      }
      pending := pending[challenge := Challenge(Hex(sha(secret + challenge)), now)];
      r := Ok(challenge);
    }

    method BindValidator(operator: Bytes, validator: Bytes, challenge: Bytes, response: Bytes, now: int)
      returns (r: Result<Binding, AuthError>)
      modifies this
      ensures Abs() == Apply(sha, old(Abs()), Bind(operator, validator, challenge, response, now))
      ensures var op := Bind(operator, validator, challenge, response, now);
              r == match Verdict(old(Abs()), op) case None => Ok(NewBinding(sha, op)) case Some(e) => Err(e)
      ensures r.Ok? <==> && challenge in old(pending) && now - old(pending)[challenge].issuedAt <= 300000
                         && response == old(pending)[challenge].expected
      ensures r.Ok? ==> && r.value == Binding(Hex(sha(operator + validator)), operator, validator, now, true)
                        && r.value.id in bindings && bindings[r.value.id] == r.value
                        && byValidator == old(byValidator)[validator := r.value.id]
      ensures r.Err? ==> bindings == old(bindings) && byValidator == old(byValidator)
      ensures pending == old(pending) - {challenge}
    {
      if challenge !in pending {
        assert pending - {challenge} == pending;
        return Err(ChallengeNotFound);
      }
      var ch := pending[challenge];
      pending := pending - {challenge};
      if now - ch.issuedAt > TTL {
        return Err(ChallengeExpired);
      }
      var eq := ConstantTimeEq(response, ch.expected);
      if !eq {
        return Err(WrongResponse);
      }
      var id := Hex(sha(operator + validator));
      if validator in byValidator {
        var former := byValidator[validator];
        if former in bindings {
          bindings := bindings[former := bindings[former].(active := false)];
        }
      }
      var b := Binding(id, operator, validator, now, true);
      bindings := bindings[id := b];
      byValidator := byValidator[validator := id];
      r := Ok(b);
    }
  }

  // ---------------------------------------------------------------------------
  // Runs
  // ---------------------------------------------------------------------------

  function Run(sha: Bytes -> Bytes, ops: seq<Op>): State {
    if ops == [] then START else Apply(sha, Run(sha, ops[..|ops| - 1]), ops[|ops| - 1])
  }

  // ---------------------------------------------------------------------------
  // Challenges and binds, in terms of the calls alone
  // ---------------------------------------------------------------------------

  /** Challenge `c` is handed out for a key of the right length that encapsulates. */
  predicate HandsOut(op: Op, c: Bytes) {
    op.Issue? && |op.key| == 1568 && op.encapsulates && op.challenge == c
  }

  /** Call `i` handed out `c`, and it was neither replaced nor tried since. */
  ghost predicate Open(ops: seq<Op>, c: Bytes, i: nat) {
    && i < |ops| && HandsOut(ops[i], c)
    && forall x | i < x < |ops| :: !HandsOut(ops[x], c) && !(ops[x].Bind? && ops[x].challenge == c)
  }

  ghost predicate NoneOpen(ops: seq<Op>, c: Bytes) {
    forall i: nat :: !Open(ops, c, i)
  }

  /** The right answer to the challenge that call `issue` handed out, within five minutes. */
  predicate InTime(issue: Op, bind: Op) {
    bind.now - issue.now <= 300000
  }

  predicate Correct(sha: Bytes -> Bytes, issue: Op, bind: Op)
    requires issue.Issue? && bind.Bind?
  {
    bind.response == Hex(sha(issue.secret + bind.challenge))
  }

  /** The last call is a bind that answers an open challenge correctly and in time. */
  ghost predicate Answers(sha: Bytes -> Bytes, ops: seq<Op>, i: nat) {
    && ops != [] && ops[|ops| - 1].Bind? && Open(ops[..|ops| - 1], ops[|ops| - 1].challenge, i)
    && InTime(ops[i], ops[|ops| - 1]) && Correct(sha, ops[i], ops[|ops| - 1])
  }

  ghost predicate Successful(sha: Bytes -> Bytes, ops: seq<Op>) {
    exists i: nat :: Answers(sha, ops, i)
  }

  /** What is pending for `c` is what the call that opened it says. */
  ghost predicate PendingIs(sha: Bytes -> Bytes, s: State, ops: seq<Op>, c: Bytes) {
    && (c in s.pending <==> exists i: nat :: Open(ops, c, i))
    && forall i: nat | Open(ops, c, i) ::
         c in s.pending && s.pending[c] == Challenge(Hex(sha(ops[i].secret + c)), ops[i].now)
  }

  lemma OpenSnoc(ops: seq<Op>, c: Bytes, i: nat)
    requires ops != []
    ensures var n := |ops| - 1;
            Open(ops, c, i) <==> if i == n then HandsOut(ops[n], c)
                                 else Open(ops[..n], c, i) && !HandsOut(ops[n], c)
                                      && !(ops[n].Bind? && ops[n].challenge == c)
  {
    var n := |ops| - 1;
    if i < n {
      forall x | i <= x < n
        ensures ops[..n][x] == ops[x]
      {
      }
    }
  }

  lemma StepPending(sha: Bytes -> Bytes, s: State, ops: seq<Op>, c: Bytes)
    requires ops != [] && PendingIs(sha, s, ops[..|ops| - 1], c)
    ensures PendingIs(sha, Apply(sha, s, ops[|ops| - 1]), ops, c)
  {
    hide Hex, HandsOut;
    var n := |ops| - 1;
    IssuesMeans(ops[n]);
    forall i: nat
      ensures Open(ops, c, i) <==> if i == n then HandsOut(ops[n], c)
                                   else Open(ops[..n], c, i) && !HandsOut(ops[n], c)
                                        && !(ops[n].Bind? && ops[n].challenge == c)
      ensures i < n ==> ops[..n][i] == ops[i]
    {
      OpenSnoc(ops, c, i);
    }
    forall i: nat | Open(ops[..n], c, i)
      ensures i < n
    {
    }
    assert forall i: nat | Open(ops, c, i) :: i <= n;
    hide Open, Retired;
  }

  lemma IssuesMeans(op: Op)
    ensures forall c :: HandsOut(op, c) <==> Issues(op) && op.challenge == c
  {
  }

  lemma {:induction false} RunPending(sha: Bytes -> Bytes, ops: seq<Op>, c: Bytes)
    ensures PendingIs(sha, Run(sha, ops), ops, c)
  {
    if ops != [] {
      RunPending(sha, ops[..|ops| - 1], c);
      hide PendingIs, Apply;
      StepPending(sha, Run(sha, ops[..|ops| - 1]), ops, c);
    }
  }

  /** Over every run: a bind succeeds if and only if it answers an open challenge correctly and in time;
      otherwise the error says whether no challenge was open, it came late, or the answer was wrong. */
  lemma BindsIffAnswers(sha: Bytes -> Bytes, ops: seq<Op>)
    requires ops != []
    ensures var before, op := ops[..|ops| - 1], ops[|ops| - 1]; var s := Run(sha, before);
            && (Binds(s, op) <==> Successful(sha, ops))
            && (op.Bind? ==> (Verdict(s, op) == Some(ChallengeNotFound) <==> NoneOpen(before, op.challenge)))
    ensures var op := ops[|ops| - 1];
            op.Bind? ==>
              forall i: nat | Open(ops[..|ops| - 1], op.challenge, i) ::
                Verdict(Run(sha, ops[..|ops| - 1]), op)
                == if !InTime(ops[i], op) then Some(ChallengeExpired)
                   else if !Correct(sha, ops[i], op) then Some(WrongResponse)
                   else None
  {
    hide Hex, Run;
    var n := |ops| - 1;
    if ops[n].Bind? {
      RunPending(sha, ops[..n], ops[n].challenge);
      forall i: nat | Open(ops[..n], ops[n].challenge, i)
        ensures ops[..n][i] == ops[i]
      {
      }
      if c: nat :| Open(ops[..n], ops[n].challenge, c) {
        assert Answers(sha, ops, c) <==> InTime(ops[c], ops[n]) && Correct(sha, ops[c], ops[n]);
      }
    }
  }

  /** The last successful bind of a validator in a run. */
  ghost function Latest(sha: Bytes -> Bytes, ops: seq<Op>, validator: Bytes): Option<Binding> {
    if ops == [] then None
    else
      var op := ops[|ops| - 1];
      if Successful(sha, ops) && op.Bind? && op.validator == validator
      then Some(Binding(Hex(sha(op.operator + op.validator)), op.operator, op.validator, op.now, true))
      else Latest(sha, ops[..|ops| - 1], validator)
  }

  /** All binds of the run are for these operator and validator pairs. */
  predicate Over(ops: seq<Op>, pairs: set<(Bytes, Bytes)>) {
    forall op | op in ops && op.Bind? :: (op.operator, op.validator) in pairs
  }

  /** Pairs of different validators have different binding ids. */
  ghost predicate Separated(sha: Bytes -> Bytes, pairs: set<(Bytes, Bytes)>) {
    forall p, q | p in pairs && q in pairs :: BindingId(sha, p.0, p.1) == BindingId(sha, q.0, q.1) ==> p.1 == q.1
  }

  ghost predicate Filed(sha: Bytes -> Bytes, s: State, pairs: set<(Bytes, Bytes)>) {
    forall id | id in s.bindings ::
      var b := s.bindings[id];
      id == b.id == BindingId(sha, b.operator, b.validator) && (b.operator, b.validator) in pairs
  }

  ghost predicate Current(s: State) {
    forall v | v in s.byValidator ::
      s.byValidator[v] in s.bindings && s.bindings[s.byValidator[v]].validator == v
      && s.bindings[s.byValidator[v]].active
  }

  /** An active binding is the one its validator points to. */
  ghost predicate OneActive(s: State) {
    forall id | id in s.bindings && s.bindings[id].active ::
      s.bindings[id].validator in s.byValidator && s.byValidator[s.bindings[id].validator] == id
  }

  lemma StepBinding(sha: Bytes -> Bytes, s: State, op: Op, pairs: set<(Bytes, Bytes)>)
    requires Separated(sha, pairs) && Filed(sha, s, pairs) && Current(s) && OneActive(s)
    requires op.Bind? ==> (op.operator, op.validator) in pairs
    ensures var t := Apply(sha, s, op); Filed(sha, t, pairs) && Current(t) && OneActive(t)
    ensures forall v :: Lookup(Apply(sha, s, op), v)
                        == if Binds(s, op) && op.validator == v then Some(NewBinding(sha, op)) else Lookup(s, v)
  {
    hide BindingId;
    if Binds(s, op) {
      BindFiles(sha, s, op, pairs);
      OthersUntouched(sha, s, op, pairs);
      hide Filed, Separated;
      BindActivates(sha, s, op);
    }
  }

  /** No other validator points to the binding that is about to be written. */
  ghost predicate Unshared(s: State, validator: Bytes, id: Bytes) {
    forall v | v in s.byValidator && v != validator :: s.byValidator[v] != id
  }

  lemma OthersUntouched(sha: Bytes -> Bytes, s: State, op: Op, pairs: set<(Bytes, Bytes)>)
    requires Separated(sha, pairs) && Filed(sha, s, pairs) && Current(s)
    requires op.Bind? && (op.operator, op.validator) in pairs
    ensures Unshared(s, op.validator, BindingId(sha, op.operator, op.validator))
  {
  }

  lemma BindActivates(sha: Bytes -> Bytes, s: State, op: Op)
    requires Current(s) && OneActive(s) && Binds(s, op)
    requires Unshared(s, op.validator, BindingId(sha, op.operator, op.validator))
    ensures Current(Apply(sha, s, op)) && OneActive(Apply(sha, s, op))
    ensures forall v :: Lookup(Apply(sha, s, op), v)
                        == if op.validator == v then Some(NewBinding(sha, op)) else Lookup(s, v)
  {
  }

  lemma BindFiles(sha: Bytes -> Bytes, s: State, op: Op, pairs: set<(Bytes, Bytes)>)
    requires Filed(sha, s, pairs) && Binds(s, op) && (op.operator, op.validator) in pairs
    ensures Filed(sha, Apply(sha, s, op), pairs)
  {
  }

  lemma {:induction false} RunBinding(sha: Bytes -> Bytes, ops: seq<Op>, pairs: set<(Bytes, Bytes)>)
    requires Separated(sha, pairs) && Over(ops, pairs)
    ensures var s := Run(sha, ops); Filed(sha, s, pairs) && Current(s) && OneActive(s)
    ensures forall v :: Lookup(Run(sha, ops), v) == Latest(sha, ops, v)
  {
    hide Hex, Separated, Filed, Current, OneActive, Lookup, Apply, Binds;
    if ops == [] {
      EmptyRegistry(sha, pairs);
    } else {
      var n := |ops| - 1;
      assert ops[n] in ops;
      BindsIffAnswers(sha, ops);
      hide Successful;
      RunBinding(sha, ops[..n], pairs);
      StepBinding(sha, Run(sha, ops[..n]), ops[n], pairs);
    }
  }

  lemma EmptyRegistry(sha: Bytes -> Bytes, pairs: set<(Bytes, Bytes)>)
    ensures Filed(sha, START, pairs) && Current(START) && OneActive(START)
    ensures forall v :: Lookup(START, v).None?
  {
  }

  /** At most one binding per validator is active, in every run over separated pairs. */
  lemma AtMostOneActive(sha: Bytes -> Bytes, ops: seq<Op>, pairs: set<(Bytes, Bytes)>, id: Bytes, id': Bytes)
    requires Separated(sha, pairs) && Over(ops, pairs)
    requires var bs := Run(sha, ops).bindings;
             id in bs && id' in bs && bs[id].active && bs[id'].active && bs[id].validator == bs[id'].validator
    ensures id == id'
  {
    RunBinding(sha, ops, pairs);
  }

  // ---------------------------------------------------------------------------
  // Exactly which pairs may be bound together
  // ---------------------------------------------------------------------------

  lemma IssueThenBind(sha: Bytes -> Bytes, s: State, o: Bytes, v: Bytes, c: Bytes)
    requires s.pending == map[]
    ensures var issue := Issue(Repeat(0, KEY_LENGTH), c, [], true, 0);
            var bind := Bind(o, v, c, Expected(sha, [], c), 0);
            var mid := Apply(sha, s, issue);
            && Binds(mid, bind)
            && Apply(sha, mid, bind)
               == State(Retired(s, v)[BindingId(sha, o, v) := NewBinding(sha, bind)], map[],
                        s.byValidator[v := BindingId(sha, o, v)])
  {
  }

  function BindBoth(sha: Bytes -> Bytes, p: (Bytes, Bytes), q: (Bytes, Bytes)): seq<Op> {
    var key := Repeat(0, KEY_LENGTH);
    [Issue(key, [1], [], true, 0), Bind(p.0, p.1, [1], Expected(sha, [], [1]), 0),
     Issue(key, [2], [], true, 0), Bind(q.0, q.1, [2], Expected(sha, [], [2]), 0)]
  }

  /** Binding two pairs with one id in a row: the first validator is then answered with the binding
      of the second. */
  lemma ClashMisleads(sha: Bytes -> Bytes, p: (Bytes, Bytes), q: (Bytes, Bytes))
    requires p.1 != q.1 && BindingId(sha, p.0, p.1) == BindingId(sha, q.0, q.1)
    ensures var ops := BindBoth(sha, p, q); Lookup(Run(sha, ops), p.1) != Latest(sha, ops, p.1)
  {
    hide BindingId, Expected, Repeat;
    var ops := BindBoth(sha, p, q);
    var s2 := Run(sha, ops[..2]);
    TwoSteps(sha, [], ops[0], ops[1]);
    assert [] + [ops[0], ops[1]] == ops[..2];
    IssueThenBind(sha, START, p.0, p.1, [1]);
    TwoSteps(sha, ops[..2], ops[2], ops[3]);
    assert ops[..2] + [ops[2], ops[3]] == ops;
    IssueThenBind(sha, s2, q.0, q.1, [2]);
    hide Run, Apply, Latest;
    assert Latest(sha, ops, p.1) == Some(NewBinding(sha, ops[1]));
  }

  lemma TwoSteps(sha: Bytes -> Bytes, ops: seq<Op>, a: Op, b: Op)
    ensures Run(sha, ops + [a, b]) == Apply(sha, Apply(sha, Run(sha, ops), a), b)
    ensures forall v :: Latest(sha, ops + [a, b], v)
              == if Binds(Apply(sha, Run(sha, ops), a), b) && b.validator == v then Some(NewBinding(sha, b))
                 else if Binds(Run(sha, ops), a) && a.validator == v then Some(NewBinding(sha, a))
                 else Latest(sha, ops, v)
  {
    var all := ops + [a, b];
    assert all[..|all| - 1] == ops + [a] && (ops + [a])[..|ops|] == ops;
    BindsIffAnswers(sha, all);
    BindsIffAnswers(sha, ops + [a]);
    hide Apply, Binds, Successful;
  }

  /** Lookup is right in every run over a set of pairs exactly when the pairs are separated. */
  lemma LookupRightIff(sha: Bytes -> Bytes, pairs: set<(Bytes, Bytes)>)
    ensures (forall ops, v | Over(ops, pairs) :: Lookup(Run(sha, ops), v) == Latest(sha, ops, v))
            <==> Separated(sha, pairs)
  {
    hide Lookup, Run, Latest, BindingId;
    if Separated(sha, pairs) {
      forall ops, v | Over(ops, pairs)
        ensures Lookup(Run(sha, ops), v) == Latest(sha, ops, v)
      {
        RunBinding(sha, ops, pairs);
      }
    } else {
      var p, q :| p in pairs && q in pairs && BindingId(sha, p.0, p.1) == BindingId(sha, q.0, q.1) && p.1 != q.1;
      ClashMisleads(sha, p, q);
      assert Over(BindBoth(sha, p, q), pairs);
    }
  }

  /** Operator ids of one length, as the identity registry hands them out, are enough. */
  lemma FixedLengthSeparates(sha: Bytes -> Bytes, pairs: set<(Bytes, Bytes)>, length: nat)
    requires forall p | p in pairs :: |p.0| == length
    requires CollisionFreeOn(sha, set p | p in pairs :: p.0 + p.1)
    ensures Separated(sha, pairs)
  {
    forall p, q | p in pairs && q in pairs && BindingId(sha, p.0, p.1) == BindingId(sha, q.0, q.1)
      ensures p.1 == q.1
    {
      HexInjective(sha(p.0 + p.1), sha(q.0 + q.1));
      SplitEqual(p.0, q.0, p.1, q.1);
    }
  }

  /** Without one length the concatenation alone is ambiguous, whatever the hash. */
  lemma UnevenIdsClash(sha: Bytes -> Bytes, operator: Bytes, x: Bytes, validator: Bytes)
    requires x != []
    ensures !Separated(sha, {(operator + x, validator), (operator, x + validator)})
  {
    var p, q := (operator + x, validator), (operator, x + validator);
    assert p.0 + p.1 == q.0 + q.1;
    assert |p.1| != |q.1|;
    assert BindingId(sha, p.0, p.1) == BindingId(sha, q.0, q.1);
  }

  // ---------------------------------------------------------------------------
  // Challenges are used once
  // ---------------------------------------------------------------------------

  function TimesIssued(ops: seq<Op>, c: Bytes): nat {
    if ops == [] then 0
    else TimesIssued(ops[..|ops| - 1], c) + if HandsOut(ops[|ops| - 1], c) then 1 else 0
  }

  /** Attempts, successful or not, that found the challenge `c`. */
  ghost function TimesTried(sha: Bytes -> Bytes, ops: seq<Op>, c: Bytes): nat {
    if ops == [] then 0
    else
      var n := |ops| - 1;
      TimesTried(sha, ops[..n], c)
      + if ops[n].Bind? && ops[n].challenge == c && exists i: nat :: Open(ops[..n], c, i) then 1 else 0
  }

  /** Every challenge issued is good for one attempt, whether that succeeds or fails; one still
      pending has not been used. */
  lemma {:induction false} ChallengesAreSingleUse(sha: Bytes -> Bytes, ops: seq<Op>, c: Bytes)
    ensures TimesTried(sha, ops, c) + (if c in Run(sha, ops).pending then 1 else 0) <= TimesIssued(ops, c)
  {
    if ops != [] {
      ChallengesAreSingleUse(sha, ops[..|ops| - 1], c);
      RunPending(sha, ops[..|ops| - 1], c);
      hide Open;
    }
  }
}
