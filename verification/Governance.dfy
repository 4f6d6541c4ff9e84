/** Governance over AI assessments (crates/bleep-ai/src/governance_integration.rs). Signature
    verification, the integrity check of an assessment and the hash are given from outside. */
module Governance {
  import opened Encoding

  datatype Vote = Pending | Accepted | Rejected | Executed

  datatype Assessment = Assessment(hash: Bytes, contents: Bytes)

  datatype Signature = Signature(signedHash: Bytes, bytes: Bytes)

  datatype Proposal = Proposal(id: Bytes, assessment: Assessment, signature: Signature,
                               recommendation: string, epoch: nat, status: Vote)

  datatype Feedback = Feedback(id: Bytes, decision: Vote, rationale: string, epoch: nat)

  datatype State = State(key: Bytes, proposals: seq<Proposal>, decisions: seq<Feedback>, executed: seq<Bytes>)

  datatype Crypto = Crypto(sha: Bytes -> Bytes,
                           verifies: (Bytes, Signature) -> bool,
                           integral: Assessment -> bool)

  ghost predicate ShaLength(c: Crypto) {
    forall x :: |c.sha(x)| == 32
  }

  const START := State([], [], [], [])

  // ---------------------------------------------------------------------------
  // Proposals
  // ---------------------------------------------------------------------------

  const SUFFIX: Bytes := Ascii("proposal")

  function ProposalPreimage(a: Assessment, s: Signature, epoch: nat): Bytes {
    a.hash + s.bytes + LittleEndian(epoch, 8)
  }

  function ProposalId(c: Crypto, a: Assessment, s: Signature, epoch: nat): Bytes {
    c.sha(c.sha(ProposalPreimage(a, s, epoch)) + SUFFIX)
  }

  predicate Admissible(c: Crypto, key: Bytes, a: Assessment, s: Signature) {
    c.verifies(key, s) && s.signedHash == a.hash && c.integral(a)
  }

  /** With assessment hashes of one length, an id stands for one assessment hash, one signature and
      one epoch. */
  lemma ProposalIdBinds(c: Crypto, a: Assessment, s: Signature, e: nat, a': Assessment, s': Signature, e': nat)
    requires |a.hash| == |a'.hash| && e < U64 && e' < U64 && ShaLength(c)
    requires ProposalId(c, a, s, e) == ProposalId(c, a', s', e')
    requires CollisionFreeOn(c.sha, {ProposalPreimage(a, s, e), ProposalPreimage(a', s', e'),
                                     c.sha(ProposalPreimage(a, s, e)) + SUFFIX,
                                     c.sha(ProposalPreimage(a', s', e')) + SUFFIX})
    ensures a.hash == a'.hash && s.bytes == s'.bytes && e == e'
  {
    hide LittleEndian;
    var p, p' := ProposalPreimage(a, s, e), ProposalPreimage(a', s', e');
    SplitEqual(c.sha(p), c.sha(p'), SUFFIX, SUFFIX);
    assert p == p';
    assert |LittleEndian(e, 8)| == |LittleEndian(e', 8)| == 8;
    assert a.hash + s.bytes == p[..|p| - 8] && a'.hash + s'.bytes == p'[..|p'| - 8];
    assert LittleEndian(e, 8) == p[|p| - 8..] && LittleEndian(e', 8) == p'[|p'| - 8..];
    SplitEqual(a.hash, a'.hash, s.bytes, s'.bytes);
    WordSizes();
    LittleEndianInjective(e, e', 8);
  }

  /** Position of the first proposal with this id, or the length. */
  function Find(ps: seq<Proposal>, id: Bytes): (i: nat)
    ensures i <= |ps| && (forall j | 0 <= j < i :: ps[j].id != id) && (i < |ps| ==> ps[i].id == id)
  {
    if ps == [] || ps[0].id == id then 0 else 1 + Find(ps[1..], id)
  }

  lemma FindUnique(ps: seq<Proposal>, id: Bytes, i: nat)
    requires i <= |ps| && (forall j | 0 <= j < i :: ps[j].id != id) && (i < |ps| ==> ps[i].id == id)
    ensures Find(ps, id) == i
  {
    hide Find;
    var f := Find(ps, id);
  }

  // ---------------------------------------------------------------------------
  // Specification of the calls
  // ---------------------------------------------------------------------------

  datatype Op =
    | SetKey(key: Bytes)
    | Register(assessment: Assessment, signature: Signature, recommendation: string, epoch: nat)
    | Accept(id: Bytes, epoch: nat)
    | Reject(id: Bytes, rationale: string, epoch: nat)
    | Execute(id: Bytes, epoch: nat)
    | Fallback(target: Option<Bytes>, decision: Vote, rationale: string, epoch: nat)

  function Mark(ps: seq<Proposal>, id: Bytes, v: Vote): seq<Proposal> {
    var i := Find(ps, id);
    if i < |ps| && v != Pending then ps[i := ps[i].(status := v)] else ps
  }

  predicate Known(s: State, id: Bytes) {
    Find(s.proposals, id) < |s.proposals|
  }

  predicate IsAccepted(s: State, id: Bytes) {
    Known(s, id) && s.proposals[Find(s.proposals, id)].status == Accepted
  }

  predicate Succeeds(c: Crypto, s: State, op: Op) {
    match op
    case SetKey(_) => true
    case Register(a, sig, _, _) => Admissible(c, s.key, a, sig)
    case Accept(id, _) => Known(s, id)
    case Reject(id, _, _) => Known(s, id)
    case Execute(id, _) => IsAccepted(s, id)
    case Fallback(target, _, _, _) => target.None? || Known(s, target.value)
  }

  const ACCEPTED_NOTE := "Governance accepted AI recommendation"
  const EXECUTED_NOTE := "Governance executed recommendation"

  function Decide(s: State, id: Bytes, v: Vote, note: string, epoch: nat): State {
    s.(proposals := Mark(s.proposals, id, v), decisions := s.decisions + [Feedback(id, v, note, epoch)])
  }

  function Apply(c: Crypto, s: State, op: Op): State {
    if !Succeeds(c, s, op) then s
    else
      match op
      case SetKey(key) => s.(key := key)
      case Register(a, sig, rec, e) =>
        s.(proposals := s.proposals + [Proposal(ProposalId(c, a, sig, e), a, sig, rec, e, Pending)])
      case Accept(id, e) => Decide(s, id, Accepted, ACCEPTED_NOTE, e)
      case Reject(id, why, e) => Decide(s, id, Rejected, why, e)
      case Execute(id, e) => Decide(s, id, Executed, EXECUTED_NOTE, e).(executed := s.executed + [id])
      case Fallback(None, v, why, e) => s.(decisions := s.decisions + [Feedback([], v, why, e)])
      case Fallback(Some(id), v, why, e) => Decide(s, id, v, why, e)
  }

  class GovernanceIntegration {
    const crypto: Crypto
    var trustedKey: Bytes
    var proposals: seq<Proposal>
    var decisions: seq<Feedback>
    var executed: seq<Bytes>

    ghost function Abs(): State
      reads this
    {
      State(trustedKey, proposals, decisions, executed)
    }

    constructor (c: Crypto)
      ensures Abs() == START && crypto == c
    {
      crypto := c;
      trustedKey, proposals, decisions, executed := [], [], [], [];
    }

    method SetTrustedAiKey(key: Bytes)
      modifies this
      ensures Abs() == Apply(crypto, old(Abs()), SetKey(key))
    {
      trustedKey := key;
    }

    method RegisterAssessment(a: Assessment, sig: Signature, rec: string, epoch: nat) returns (r: Result<Bytes, string>)
      modifies this
      ensures Abs() == Apply(crypto, old(Abs()), Register(a, sig, rec, epoch))
      ensures r.Ok? <==> crypto.verifies(old(trustedKey), sig) && sig.signedHash == a.hash && crypto.integral(a)
      ensures proposals == if r.Ok? then old(proposals) + [Proposal(r.value, a, sig, rec, epoch, Pending)]
                           else old(proposals)
      ensures r.Ok? ==> r.value == ProposalId(crypto, a, sig, epoch)
    {
      if !crypto.verifies(trustedKey, sig) {
        return Err("AI signature invalid");
      }
      if sig.signedHash != a.hash {
        return Err("Assessment hash mismatch");
      }
      if !crypto.integral(a) {
        return Err("Assessment contents do not match its hash");
      }
      var proposalHash := crypto.sha(a.hash + sig.bytes + LittleEndian(epoch, 8));
      var id := crypto.sha(proposalHash + SUFFIX);
      proposals := proposals + [Proposal(id, a, sig, rec, epoch, Pending)];
      r := Ok(id);
    }

    method Position(id: Bytes) returns (i: nat)
      ensures i == Find(proposals, id)
    {
      i := 0;
      while i < |proposals| && proposals[i].id != id
        invariant i <= |proposals| && forall j | 0 <= j < i :: proposals[j].id != id
      {
        i := i + 1;
      }
      FindUnique(proposals, id, i);
    }

    method AcceptRecommendation(id: Bytes, epoch: nat) returns (ok: bool)
      modifies this
      ensures Abs() == Apply(crypto, old(Abs()), Accept(id, epoch))
      ensures ok <==> Succeeds(crypto, old(Abs()), Accept(id, epoch))
    {
      var i := Position(id);
      if i == |proposals| {
        return false;
      }
      proposals := proposals[i := proposals[i].(status := Accepted)];
      decisions := decisions + [Feedback(id, Accepted, ACCEPTED_NOTE, epoch)];
      ok := true;
    }

    method RejectRecommendation(id: Bytes, rationale: string, epoch: nat) returns (ok: bool)
      modifies this
      ensures Abs() == Apply(crypto, old(Abs()), Reject(id, rationale, epoch))
      ensures ok <==> Succeeds(crypto, old(Abs()), Reject(id, rationale, epoch))
    {
      var i := Position(id);
      if i == |proposals| {
        return false;
      }
      proposals := proposals[i := proposals[i].(status := Rejected)];
      decisions := decisions + [Feedback(id, Rejected, rationale, epoch)];
      ok := true;
    }

    method ExecuteRecommendation(id: Bytes, epoch: nat) returns (ok: bool)
      modifies this
      ensures Abs() == Apply(crypto, old(Abs()), Execute(id, epoch))
      ensures ok <==> Succeeds(crypto, old(Abs()), Execute(id, epoch))
    {
      var i := Position(id);
      if i == |proposals| {
        return false;
      }
      if proposals[i].status != Accepted {
        return false;
      }
      proposals := proposals[i := proposals[i].(status := Executed)];
      executed := executed + [id];
      decisions := decisions + [Feedback(id, Executed, EXECUTED_NOTE, epoch)];
      ok := true;
    }

    method GovernanceFallback(target: Option<Bytes>, decision: Vote, rationale: string, epoch: nat) returns (ok: bool)
      modifies this
      ensures Abs() == Apply(crypto, old(Abs()), Fallback(target, decision, rationale, epoch))
      ensures ok <==> Succeeds(crypto, old(Abs()), Fallback(target, decision, rationale, epoch))
    {
      if target.Some? {
        var i := Position(target.value);
        if i == |proposals| {
          return false;
        }
        if decision != Pending {
          proposals := proposals[i := proposals[i].(status := decision)];
        }
      }
      var id := if target.Some? then target.value else [];
      decisions := decisions + [Feedback(id, decision, rationale, epoch)];
      ok := true;
    }

    /** The three registration checks are repeated on the stored proposal. */
    method VerifyProposal(id: Bytes) returns (r: Option<bool>)
      ensures r.Some? <==> Known(Abs(), id)
      ensures r.Some? ==>
                var p := proposals[Find(proposals, id)];
                r.value == (&& crypto.verifies(trustedKey, p.signature) && crypto.integral(p.assessment)
                            && p.signature.signedHash == p.assessment.hash)
    {
      var i := Position(id);
      if i == |proposals| {
        return None;
      }
      var p := proposals[i];
      if !crypto.verifies(trustedKey, p.signature) {
        return Some(false);
      }
      if p.signature.signedHash != p.assessment.hash {
        return Some(false);
      }
      if !crypto.integral(p.assessment) {
        return Some(false);
      }
      r := Some(true);
    }
  }

  // ---------------------------------------------------------------------------
  // Runs
  // ---------------------------------------------------------------------------

  function Run(c: Crypto, s: State, ops: seq<Op>): State {
    if ops == [] then s else Apply(c, Run(c, s, ops[..|ops| - 1]), ops[|ops| - 1])
  }

  /** The last decision on `id` that says something, as the log shows it. */
  function LastDecision(ds: seq<Feedback>, id: Bytes): Vote {
    if ds == [] then Pending
    else
      var d := ds[|ds| - 1];
      if d.id == id && d.decision != Pending then d.decision else LastDecision(ds[..|ds| - 1], id)
  }

  /** The stored status of a proposal is what the log says. */
  ghost predicate Tracks(s: State, id: Bytes) {
    LastDecision(s.decisions, id)
    == if Known(s, id) then s.proposals[Find(s.proposals, id)].status else Pending
  }

  lemma LastDecisionSnoc(ds: seq<Feedback>, d: Feedback, id: Bytes)
    ensures LastDecision(ds + [d], id)
            == if d.id == id && d.decision != Pending then d.decision else LastDecision(ds, id)
  {
    assert (ds + [d])[..|ds|] == ds;
  }

  lemma MarkFinds(ps: seq<Proposal>, marked: Bytes, v: Vote, id: Bytes)
    ensures var qs := Mark(ps, marked, v);
            && Find(qs, id) == Find(ps, id) && |qs| == |ps|
            && (Find(ps, id) < |ps| ==>
                  qs[Find(qs, id)].status
                  == if marked == id && v != Pending then v else ps[Find(ps, id)].status)
  {
    hide Find;
    var qs := Mark(ps, marked, v);
    FindUnique(qs, id, Find(ps, id));
  }

  lemma DecideTracks(s: State, marked: Bytes, v: Vote, note: string, epoch: nat, id: Bytes)
    requires Tracks(s, id) && Known(s, marked)
    ensures Tracks(Decide(s, marked, v, note, epoch), id)
  {
    hide Find, Mark;
    MarkFinds(s.proposals, marked, v, id);
    LastDecisionSnoc(s.decisions, Feedback(marked, v, note, epoch), id);
  }

  lemma StepTracks(c: Crypto, s: State, op: Op, id: Bytes)
    requires id != [] && Tracks(s, id)
    ensures Tracks(Apply(c, s, op), id)
  {
    hide Find, Mark, LastDecision;
    if Succeeds(c, s, op) {
      match op
      case SetKey(_) =>
      case Register(_, _, _, _) =>
        var t := Apply(c, s, op);
        var i := Find(s.proposals, id);
        if i < |s.proposals| {
          FindUnique(t.proposals, id, i);
        } else {
          FindUnique(t.proposals, id, if t.proposals[i].id == id then i else i + 1);
        }
      case Accept(x, e) => DecideTracks(s, x, Accepted, ACCEPTED_NOTE, e, id);
      case Reject(x, why, e) => DecideTracks(s, x, Rejected, why, e, id);
      case Execute(x, e) => DecideTracks(s, x, Executed, EXECUTED_NOTE, e, id);
      case Fallback(None, v, why, e) => LastDecisionSnoc(s.decisions, Feedback([], v, why, e), id);
      case Fallback(Some(x), v, why, e) => DecideTracks(s, x, v, why, e, id);
    }
  }

  /** In every run, the status of a proposal is the last decision logged for it. */
  lemma {:induction false} StatusIsLastDecision(c: Crypto, ops: seq<Op>, id: Bytes)
    requires id != []
    ensures Tracks(Run(c, START, ops), id)
  {
    if ops != [] {
      StatusIsLastDecision(c, ops[..|ops| - 1], id);
      StepTracks(c, Run(c, START, ops[..|ops| - 1]), ops[|ops| - 1], id);
    }
  }

  /** An execution succeeds exactly when the last word on the proposal in the log is an acceptance. */
  lemma ExecutesIffLastAccepted(c: Crypto, ops: seq<Op>, id: Bytes, epoch: nat)
    requires id != []
    ensures Succeeds(c, Run(c, START, ops), Execute(id, epoch))
            <==> LastDecision(Run(c, START, ops).decisions, id) == Accepted
  {
    StatusIsLastDecision(c, ops, id);
  }

  function CountId(ids: seq<Bytes>, id: Bytes): nat {
    if ids == [] then 0 else CountId(ids[..|ids| - 1], id) + if ids[|ids| - 1] == id then 1 else 0
  }

  function Acceptances(ds: seq<Feedback>, id: Bytes): nat {
    if ds == [] then 0
    else Acceptances(ds[..|ds| - 1], id)
         + if ds[|ds| - 1].id == id && ds[|ds| - 1].decision == Accepted then 1 else 0
  }

  function Credit(s: State, id: Bytes): nat {
    if LastDecision(s.decisions, id) == Accepted then 1 else 0
  }

  /** Executions so far, plus one for an acceptance not yet used, less the acceptances so far. */
  function Balance(s: State, id: Bytes): int {
    CountId(s.executed, id) + Credit(s, id) - Acceptances(s.decisions, id)
  }

  lemma BalanceStep(s: State, d: Feedback, ran: bool, id: Bytes)
    requires ran ==> d.decision == Executed && LastDecision(s.decisions, d.id) == Accepted
    ensures var t := s.(decisions := s.decisions + [d], executed := s.executed + if ran then [d.id] else []);
            Balance(t, id) <= Balance(s, id)
  {
    LastDecisionSnoc(s.decisions, d, id);
    hide LastDecision;
    assert (s.decisions + [d])[..|s.decisions|] == s.decisions;
    assert (s.executed + [d.id])[..|s.executed|] == s.executed;
    assert s.executed + [] == s.executed;
  }

  lemma StepBalance(c: Crypto, s: State, op: Op, id: Bytes)
    requires id != [] && Tracks(s, id)
    ensures Balance(Apply(c, s, op), id) <= Balance(s, id)
  {
    hide Find, Mark, LastDecision, CountId, Acceptances;
    if Succeeds(c, s, op) {
      assert s.executed + [] == s.executed;
      match op
      case SetKey(_) =>
      case Register(_, _, _, _) =>
      case Accept(x, e) => BalanceStep(s, Feedback(x, Accepted, ACCEPTED_NOTE, e), false, id);
      case Reject(x, why, e) => BalanceStep(s, Feedback(x, Rejected, why, e), false, id);
      case Execute(x, e) =>
        if x == id {
          BalanceStep(s, Feedback(x, Executed, EXECUTED_NOTE, e), true, id);
        } else {
          BalanceStep(s, Feedback(x, Executed, EXECUTED_NOTE, e), false, id);
          CountOther(s.executed, x, id);
        }
      case Fallback(None, v, why, e) => BalanceStep(s, Feedback([], v, why, e), false, id);
      case Fallback(Some(x), v, why, e) => BalanceStep(s, Feedback(x, v, why, e), false, id);
    }
  }

  lemma CountOther(ids: seq<Bytes>, x: Bytes, id: Bytes)
    requires x != id
    ensures CountId(ids + [x], id) == CountId(ids, id)
  {
    assert (ids + [x])[..|ids|] == ids;
  }

  /** Over every stretch of every run, a proposal is executed at most once for each acceptance
      logged in that stretch, plus one if the stretch starts on an unused acceptance. */
  lemma {:induction false} OneExecutionPerAcceptance(c: Crypto, ops: seq<Op>, i: nat, id: Bytes)
    requires id != [] && i <= |ops|
    ensures var s, t := Run(c, START, ops[..i]), Run(c, START, ops);
            && Balance(t, id) <= Balance(s, id) <= 0
            && CountId(t.executed, id) - CountId(s.executed, id)
               <= Acceptances(t.decisions, id) - Acceptances(s.decisions, id) + Credit(s, id)
  {
    hide CountId, Acceptances, LastDecision;
    if i == |ops| {
      assert ops[..i] == ops;
      if i > 0 {
        OneExecutionPerAcceptance(c, ops[..i - 1], i - 1, id);
        assert ops[..i - 1][..i - 1] == ops[..i - 1];
        StatusIsLastDecision(c, ops[..i - 1], id);
        StepBalance(c, Run(c, START, ops[..i - 1]), ops[i - 1], id);
      } else {
        StartBalance(id);
      }
    } else {
      var n := |ops| - 1;
      assert ops[..n][..i] == ops[..i];
      OneExecutionPerAcceptance(c, ops[..n], i, id);
      StatusIsLastDecision(c, ops[..n], id);
      StepBalance(c, Run(c, START, ops[..n]), ops[n], id);
    }
  }

  lemma StartBalance(id: Bytes)
    ensures Balance(START, id) == 0
  {
  }

  // ---------------------------------------------------------------------------
  // The state in terms of the calls alone
  // ---------------------------------------------------------------------------

  /** The key set last. */
  function KeyOf(ops: seq<Op>): Bytes {
    if ops == [] then []
    else match ops[|ops| - 1] case SetKey(key) => key case _ => KeyOf(ops[..|ops| - 1])
  }

  /** The ids of the assessments that passed the three checks under the key of their time. */
  function Proposed(c: Crypto, ops: seq<Op>): seq<Bytes> {
    if ops == [] then []
    else
      var before := ops[..|ops| - 1];
      match ops[|ops| - 1]
      case Register(a, sig, _, epoch) =>
        if c.verifies(KeyOf(before), sig) && sig.signedHash == a.hash && c.integral(a)
        then Proposed(c, before) + [c.sha(c.sha(a.hash + sig.bytes + LittleEndian(epoch, 8)) + SUFFIX)]
        else Proposed(c, before)
      case _ => Proposed(c, before)
  }

  /** What governance said last about a proposal. */
  function LastWord(c: Crypto, ops: seq<Op>, id: Bytes): Vote {
    if ops == [] then Pending
    else
      var before := ops[..|ops| - 1];
      var known, word := id in Proposed(c, before), LastWord(c, before, id);
      match ops[|ops| - 1]
      case Accept(x, _) => if x == id && known then Accepted else word
      case Reject(x, _, _) => if x == id && known then Rejected else word
      case Execute(x, _) => if x == id && word == Accepted then Executed else word
      case Fallback(target, v, _, _) => if target == Some(id) && known && v != Pending then v else word
      case _ => word
  }

  /** The ids executed: those whose last word was an acceptance when execution was asked for. */
  function Performed(c: Crypto, ops: seq<Op>): seq<Bytes> {
    if ops == [] then []
    else
      var before := ops[..|ops| - 1];
      match ops[|ops| - 1]
      case Execute(id, _) =>
        if LastWord(c, before, id) == Accepted then Performed(c, before) + [id] else Performed(c, before)
      case _ => Performed(c, before)
  }

  /** The log: one line for each decision on a known proposal, each execution, and each fallback. */
  function LogOf(c: Crypto, ops: seq<Op>): seq<Feedback> {
    if ops == [] then []
    else
      var before := ops[..|ops| - 1];
      LogOf(c, before)
      + match ops[|ops| - 1]
        case Accept(id, e) =>
          if id in Proposed(c, before) then [Feedback(id, Accepted, "Governance accepted AI recommendation", e)] else []
        case Reject(id, why, e) => if id in Proposed(c, before) then [Feedback(id, Rejected, why, e)] else []
        case Execute(id, e) =>
          if LastWord(c, before, id) == Accepted
          then [Feedback(id, Executed, "Governance executed recommendation", e)] else []
        case Fallback(None, v, why, e) => [Feedback([], v, why, e)]
        case Fallback(Some(id), v, why, e) => if id in Proposed(c, before) then [Feedback(id, v, why, e)] else []
        case _ => []
  }

  function IdsOf(ps: seq<Proposal>): seq<Bytes> {
    if ps == [] then [] else IdsOf(ps[..|ps| - 1]) + [ps[|ps| - 1].id]
  }

  lemma {:induction false} FindsId(ps: seq<Proposal>, id: Bytes)
    ensures Find(ps, id) < |ps| <==> id in IdsOf(ps)
  {
    hide Find;
    if ps != [] {
      var n := |ps| - 1;
      FindsId(ps[..n], id);
      var f := Find(ps[..n], id);
      if f < n { FindUnique(ps, id, f); } else { FindUnique(ps, id, if ps[n].id == id then n else n + 1); }
    }
  }

  lemma {:induction false} MarkKeepsIds(ps: seq<Proposal>, i: nat, v: Vote)
    requires i < |ps|
    ensures IdsOf(ps[i := ps[i].(status := v)]) == IdsOf(ps)
  {
    var n := |ps| - 1;
    var qs := ps[i := ps[i].(status := v)];
    if i < n {
      MarkKeepsIds(ps[..n], i, v);
      assert qs[..n] == ps[..n][i := ps[i].(status := v)];
    } else {
      assert qs[..n] == ps[..n];
    }
  }

  /** The stored status, or Pending for an id that is not stored. */
  function StatusOf(s: State, id: Bytes): Vote {
    if Known(s, id) then s.proposals[Find(s.proposals, id)].status else Pending
  }

  ghost predicate Reflects(c: Crypto, s: State, ops: seq<Op>) {
    && s.key == KeyOf(ops) && IdsOf(s.proposals) == Proposed(c, ops)
    && s.executed == Performed(c, ops) && s.decisions == LogOf(c, ops)
    && forall id :: StatusOf(s, id) == LastWord(c, ops, id)
  }

  lemma KnownMeans(s: State, id: Bytes)
    ensures Known(s, id) <==> id in IdsOf(s.proposals)
  {
    FindsId(s.proposals, id);
  }

  lemma DecideReflects(s: State, x: Bytes, v: Vote, note: string, epoch: nat, id: Bytes)
    requires Known(s, x)
    ensures var t := Decide(s, x, v, note, epoch);
            && IdsOf(t.proposals) == IdsOf(s.proposals)
            && StatusOf(t, id) == if x == id && v != Pending then v else StatusOf(s, id)
  {
    hide Find, IdsOf;
    MarkFinds(s.proposals, x, v, id);
    MarkKeepsIds(s.proposals, Find(s.proposals, x), v);
  }

  lemma IdsSnoc(ps: seq<Proposal>, p: Proposal)
    ensures IdsOf(ps + [p]) == IdsOf(ps) + [p.id]
  {
    assert (ps + [p])[..|ps|] == ps;
  }

  lemma RegisterReflects(s: State, p: Proposal, id: Bytes)
    requires p.status == Pending
    ensures var t := s.(proposals := s.proposals + [p]);
            IdsOf(t.proposals) == IdsOf(s.proposals) + [p.id] && StatusOf(t, id) == StatusOf(s, id)
  {
    hide Find, IdsOf;
    var t := s.(proposals := s.proposals + [p]);
    IdsSnoc(s.proposals, p);
    var i := Find(s.proposals, id);
    FindUnique(t.proposals, id, if i < |s.proposals| || p.id == id then i else i + 1);
  }

  lemma StepReflects(c: Crypto, s: State, ops: seq<Op>)
    requires ops != [] && Reflects(c, s, ops[..|ops| - 1])
    ensures Reflects(c, Apply(c, s, ops[|ops| - 1]), ops)
  {
    hide Find, Mark, IdsOf, LittleEndian, KeyOf;
    var n := |ops| - 1;
    var op, t := ops[n], Apply(c, s, ops[n]);
    KeyStep(ops);
    forall id
      ensures StatusOf(t, id) == LastWord(c, ops, id) && (Known(s, id) <==> id in Proposed(c, ops[..n]))
    {
      KnownMeans(s, id);
      assert StatusOf(s, id) == LastWord(c, ops[..n], id);
      StatusStep(c, s, op, id);
    }
    IdsStep(c, s, op);
    LogStep(c, s, ops);
  }

  lemma KeyStep(ops: seq<Op>)
    requires ops != []
    ensures KeyOf(ops) == if ops[|ops| - 1].SetKey? then ops[|ops| - 1].key else KeyOf(ops[..|ops| - 1])
  {
  }

  lemma StatusStep(c: Crypto, s: State, op: Op, id: Bytes)
    ensures var t, known, word := Apply(c, s, op), Known(s, id), StatusOf(s, id);
            StatusOf(t, id) == match op
                               case Accept(x, _) => if x == id && known then Accepted else word
                               case Reject(x, _, _) => if x == id && known then Rejected else word
                               case Execute(x, _) => if x == id && word == Accepted then Executed else word
                               case Fallback(target, v, _, _) =>
                                 if target == Some(id) && known && v != Pending then v else word
                               case _ => word
  {
    hide Find, Mark, IdsOf, ProposalId;
    if Succeeds(c, s, op) {
      match op
      case SetKey(_) =>
      case Register(a, sig, rec, e) =>
        RegisterReflects(s, Proposal(ProposalId(c, a, sig, e), a, sig, rec, e, Pending), id);
      case Accept(x, e) => DecideReflects(s, x, Accepted, ACCEPTED_NOTE, e, id);
      case Reject(x, why, e) => DecideReflects(s, x, Rejected, why, e, id);
      case Execute(x, e) => DecideReflects(s, x, Executed, EXECUTED_NOTE, e, id);
      case Fallback(None, _, _, _) =>
      case Fallback(Some(x), v, why, e) => DecideReflects(s, x, v, why, e, id);
    }
  }

  lemma IdsStep(c: Crypto, s: State, op: Op)
    ensures IdsOf(Apply(c, s, op).proposals)
            == IdsOf(s.proposals)
               + match op
                 case Register(a, sig, _, epoch) =>
                   if c.verifies(s.key, sig) && sig.signedHash == a.hash && c.integral(a)
                   then [c.sha(c.sha(a.hash + sig.bytes + LittleEndian(epoch, 8)) + SUFFIX)] else []
                 case _ => []
  {
    hide Find, Mark, IdsOf, LittleEndian;
    if Succeeds(c, s, op) {
      match op
      case SetKey(_) =>
      case Register(a, sig, rec, e) =>
        RegisterReflects(s, Proposal(ProposalId(c, a, sig, e), a, sig, rec, e, Pending), []);
      case Accept(x, e) => DecideReflects(s, x, Accepted, ACCEPTED_NOTE, e, x);
      case Reject(x, why, e) => DecideReflects(s, x, Rejected, why, e, x);
      case Execute(x, e) => DecideReflects(s, x, Executed, EXECUTED_NOTE, e, x);
      case Fallback(None, _, _, _) =>
      case Fallback(Some(x), v, why, e) => DecideReflects(s, x, v, why, e, x);
    }
  }

  lemma LogStep(c: Crypto, s: State, ops: seq<Op>)
    requires ops != [] && s.executed == Performed(c, ops[..|ops| - 1]) && s.decisions == LogOf(c, ops[..|ops| - 1])
    requires var before, id := ops[..|ops| - 1], Subject(ops[|ops| - 1]);
             StatusOf(s, id) == LastWord(c, before, id) && (Known(s, id) <==> id in Proposed(c, before))
    ensures var t := Apply(c, s, ops[|ops| - 1]);
            t.executed == Performed(c, ops) && t.decisions == LogOf(c, ops)
  {
    hide Find, Mark, LastWord, Proposed, LittleEndian;
  }

  /** The proposal a call is about, if any. */
  function Subject(op: Op): Bytes {
    match op
    case Accept(id, _) => id
    case Reject(id, _, _) => id
    case Execute(id, _) => id
    case Fallback(Some(id), _, _, _) => id
    case _ => []
  }

  /** Over every run the calls alone decide the trusted key, the proposals, the status of each, the log
      and the executions. */
  lemma {:induction false} CallsDecide(c: Crypto, ops: seq<Op>)
    ensures Reflects(c, Run(c, START, ops), ops)
    ensures forall id, epoch ::
              Succeeds(c, Run(c, START, ops), Execute(id, epoch)) <==> LastWord(c, ops, id) == Accepted
  {
    if ops != [] {
      CallsDecide(c, ops[..|ops| - 1]);
      hide Reflects;
      StepReflects(c, Run(c, START, ops[..|ops| - 1]), ops);
    }
    forall id, epoch
      ensures Succeeds(c, Run(c, START, ops), Execute(id, epoch)) <==> LastWord(c, ops, id) == Accepted
    {
      ReflectedStatus(c, Run(c, START, ops), ops, id);
    }
  }

  lemma ReflectedStatus(c: Crypto, s: State, ops: seq<Op>, id: Bytes)
    requires Reflects(c, s, ops)
    ensures StatusOf(s, id) == LastWord(c, ops, id)
  {
  }

  // ---------------------------------------------------------------------------
  // What never changes
  // ---------------------------------------------------------------------------

  /** `t` continues `s`: nothing logged or proposed in `s` is lost or altered, except statuses. */
  ghost predicate Continues(s: State, t: State) {
    && s.decisions <= t.decisions && s.executed <= t.executed && |s.proposals| <= |t.proposals|
    && forall i | 0 <= i < |s.proposals| :: t.proposals[i] == s.proposals[i].(status := t.proposals[i].status)
  }

  ghost predicate AllChecked(c: Crypto, s: State) {
    forall p | p in s.proposals :: p.signature.signedHash == p.assessment.hash && c.integral(p.assessment)
                                   && p.id == ProposalId(c, p.assessment, p.signature, p.epoch)
  }

  lemma {:induction false} HistoryOnlyGrows(c: Crypto, s: State, ops: seq<Op>)
    ensures Continues(s, Run(c, s, ops))
  {
    hide Find;
    if ops != [] {
      HistoryOnlyGrows(c, s, ops[..|ops| - 1]);
    }
  }

  lemma StepChecked(c: Crypto, s: State, op: Op)
    requires AllChecked(c, s)
    ensures AllChecked(c, Apply(c, s, op))
  {
    hide Find, ProposalId;
    var t := Apply(c, s, op);
    forall p | p in t.proposals
      ensures p.signature.signedHash == p.assessment.hash && c.integral(p.assessment)
              && p.id == ProposalId(c, p.assessment, p.signature, p.epoch)
    {
      var i :| 0 <= i < |t.proposals| && t.proposals[i] == p;
      if i < |s.proposals| { assert s.proposals[i] in s.proposals; }
    }
  }

  lemma {:induction false} RunChecked(c: Crypto, ops: seq<Op>)
    ensures AllChecked(c, Run(c, START, ops))
  {
    if ops != [] {
      RunChecked(c, ops[..|ops| - 1]);
      StepChecked(c, Run(c, START, ops[..|ops| - 1]), ops[|ops| - 1]);
    }
  }

  /** Re-verifying a stored proposal asks only whether its signature verifies under the key trusted
      now: the other two checks held at registration and can no longer fail. */
  lemma ReverificationIsTheKey(c: Crypto, ops: seq<Op>, id: Bytes)
    requires Known(Run(c, START, ops), id)
    ensures var s := Run(c, START, ops);
            var p := s.proposals[Find(s.proposals, id)];
            Admissible(c, s.key, p.assessment, p.signature) <==> c.verifies(s.key, p.signature)
  {
    hide Find, ProposalId, Run;
    RunChecked(c, ops);
    var s := Run(c, START, ops);
    assert s.proposals[Find(s.proposals, id)] in s.proposals;
  }
}
