// The on-chain gate: an attestation check turned into a single-use authorisation. The
// methods are proved against functions on the gate's state, and the state's laws are
// proved over every run of gate operations.
module Gate {
  import opened Bits
  import opened Abi
  import opened FelicaAuth

  /** What the chain's library makes of packed scalars and proof points; it aborts on its own for undecodable ones. */
  datatype PairingResult = Verifies | Fails | Undecodable

  /** The pairing check with the pinned key. */
  type Pairing = (Bytes, Bytes) -> PairingResult

  datatype GateState = GateState(seen: map<Bytes, bool>, allowlist: seq<Bytes>, allowAny: bool, maxDrift: nat)

  function Create(allowlist: seq<Bytes>, maxDrift: nat): GateState {
    GateState(map[], allowlist, allowlist == [], maxDrift)
  }

  /** Open gates admit everything, closed gates what is listed. */
  predicate Admits(g: GateState, idi: Bytes) {
    g.allowAny || idi in g.allowlist
  }

  ghost function ZkVerify(pairing: Pairing, a: Attestation): Outcome<Bytes>
    requires |a.publicInputs| == 96
  {
    if !EnvelopeConsistent(a) then Aborted(EnvelopeInconsistent)
    else
      match pairing(a.publicInputs, a.proof)
      case Undecodable => Aborted(LibraryAbort)
      case Fails => Aborted(ProofInvalid)
      case Verifies => Done(a.idi)
  }

  /** The checks in their order; the burn is last. */
  ghost function Claim(pairing: Pairing, g: GateState, a: Attestation, r1: Bytes, now: nat): Outcome<(GateState, Bytes)>
    requires |a.publicInputs| == 96
  {
    if Drift(a.attestedAt, now) > g.maxDrift then Aborted(ClockDrift)
    else if !Admits(g, a.idi) then Aborted(NotAllowed)
    else
      match ChallengeMatches(a, r1)
      case Aborted(code) => Aborted(code)
      case Done(_) =>
        if r1 in g.seen then Aborted(Replay)
        else
          match ZkVerify(pairing, a)
          case Aborted(code) => Aborted(code)
          case Done(idi) => Done((g.(seen := g.seen[r1 := true]), idi))
  }

  function Allow(g: GateState, idi: Bytes): GateState {
    g.(allowAny := false, allowlist := g.allowlist + [idi])
  }

  /** The list without its first occurrence of idi. */
  function RemoveFirst(list: seq<Bytes>, idi: Bytes): (rest: seq<Bytes>)
    requires idi in list
    ensures multiset(rest) == multiset(list) - multiset{idi}
  {
    if list[0] == idi then
      assert list == [list[0]] + list[1..];
      list[1..]
    else
      assert list == [list[0]] + list[1..];
      [list[0]] + RemoveFirst(list[1..], idi)
  }

  function Disallow(g: GateState, idi: Bytes): Outcome<GateState> {
    if idi in g.allowlist then Done(g.(allowlist := RemoveFirst(g.allowlist, idi))) else Aborted(UnknownIdi)
  }

  // ---------------------------------------------------------------- the gate object

  lemma Prepended(list: seq<Bytes>, i: nat)
    requires 0 < i < |list|
    ensures list[1..][..i - 1] == list[1..i] && list[1..][i..] == list[i + 1..]
    ensures [list[0]] + (list[1..i] + list[i + 1..]) == list[..i] + list[i + 1..]
  {
  }

  lemma {:induction false} RemoveAt(list: seq<Bytes>, i: nat)
    requires i < |list| && forall j :: 0 <= j < i ==> list[j] != list[i]
    ensures list[i] in list && RemoveFirst(list, list[i]) == list[..i] + list[i + 1..]
  {
    if i > 0 {
      var rest := list[1..];
      assert rest[i - 1] == list[i];
      RemoveAt(rest, i - 1);
      Prepended(list, i);
    } else {
      assert list[..0] + list[1..] == list[1..];
    }
  }

  class Gate {
    const pairing: Pairing
    var seen: map<Bytes, bool>
    var allowlist: seq<Bytes>
    var allowAny: bool
    var maxDrift: nat

    ghost function State(): GateState
      reads this
    {
      GateState(seen, allowlist, allowAny, maxDrift)
    }

    constructor (pairing: Pairing, allowlist: seq<Bytes>, maxDrift: nat)
      ensures this.pairing == pairing && State() == Create(allowlist, maxDrift)
      ensures seen == map[] && this.allowlist == allowlist && this.maxDrift == maxDrift
      ensures allowAny <==> allowlist == []
    {
      this.pairing := pairing;
      this.seen := map[];
      this.allowlist := allowlist;
      this.allowAny := allowlist == [];
      this.maxDrift := maxDrift;
    }

    method CheckAdmits(idi: Bytes) returns (ok: bool)
      ensures ok <==> Admits(State(), idi)
      ensures ok <==> allowAny || idi in allowlist
    {
      if allowAny {
        return true;
      }
      var i := 0;
      while i < |allowlist|
        invariant 0 <= i <= |allowlist| && idi !in allowlist[..i]
      {
        if allowlist[i] == idi {
          return true;
        }
        i := i + 1;
      }
      return false;
    }

    method CheckProof(a: Attestation) returns (out: Outcome<Bytes>)
      requires |a.publicInputs| == 96
      ensures out == ZkVerify(pairing, a)
    {
      var envelope := AssertEnvelopeConsistent(a);
      match envelope {
        case Aborted(code) => return Aborted(code);
        case Done(_) =>
          match pairing(a.publicInputs, a.proof) {
            case Undecodable => return Aborted(LibraryAbort);
            case Fails => return Aborted(ProofInvalid);
            case Verifies => return Done(a.idi);
          }
      }
    }

    /** Returns the verified IDi and burns r1, or aborts and leaves the gate as it was. */
    method VerifyAndClaim(a: Attestation, presented: Bytes, now: nat) returns (out: Outcome<Bytes>)
      requires |a.publicInputs| == 96
      modifies this
      ensures match Claim(pairing, old(State()), a, presented, now)
              case Done((g, idi)) => out == Done(idi) && State() == g
              case Aborted(code) => out == Aborted(code) && State() == old(State())
      ensures seen == if out.Done? then old(seen)[presented := true] else old(seen)
      ensures allowlist == old(allowlist) && allowAny == old(allowAny) && maxDrift == old(maxDrift)
      ensures out.Done? ==> out.value == a.idi && presented !in old(seen)
    {
      hide EnvelopeConsistent, ChallengeMatches;
      if Drift(a.attestedAt, now) > maxDrift {
        return Aborted(ClockDrift);
      }
      var admitted := CheckAdmits(a.idi);
      if !admitted {
        return Aborted(NotAllowed);
      }
      var challenge := AssertChallengeMatches(a, presented);
      if challenge.Aborted? {
        return Aborted(challenge.code);
      }
      if presented in seen {
        return Aborted(Replay);
      }
      var verified := CheckProof(a);
      if verified.Aborted? {
        return Aborted(verified.code);
      }
      seen := seen[presented := true];
      return Done(verified.value);
    }

    method AllowIdi(idi: Bytes)
      modifies this
      ensures State() == Allow(old(State()), idi)
      ensures !allowAny && allowlist == old(allowlist) + [idi] && seen == old(seen) && maxDrift == old(maxDrift)
    {
      allowAny := false;
      allowlist := allowlist + [idi];
    }

    method DisallowIdi(idi: Bytes) returns (out: Outcome<()>)
      modifies this
      ensures match Disallow(old(State()), idi)
              case Done(g) => out == Done(()) && State() == g
              case Aborted(code) => out == Aborted(code) && State() == old(State())
      ensures out == if idi in old(allowlist) then Done(()) else Aborted(UnknownIdi)
      ensures seen == old(seen) && allowAny == old(allowAny) && maxDrift == old(maxDrift)
      ensures out.Aborted? ==> allowlist == old(allowlist)
      ensures out.Done? ==> exists k :: 0 <= k < |old(allowlist)| && old(allowlist)[k] == idi
                              && idi !in old(allowlist)[..k]
                              && allowlist == old(allowlist)[..k] + old(allowlist)[k + 1..]
    {
      var i := 0;
      while i < |allowlist|
        invariant 0 <= i <= |allowlist| && idi !in allowlist[..i]
        invariant State() == old(State())
      {
        if allowlist[i] == idi {
          RemoveAt(allowlist, i);
          allowlist := allowlist[..i] + allowlist[i + 1..];
          return Done(());
        }
        i := i + 1;
      }
      return Aborted(UnknownIdi);
    }

    method SetMaxDrift(seconds: nat)
      modifies this
      ensures maxDrift == seconds && seen == old(seen) && allowlist == old(allowlist) && allowAny == old(allowAny)
    {
      maxDrift := seconds;
    }
  }

  // --------------------------------------------------------------- one claim, exactly

  /** A claim is accepted exactly for the prover's own blob, inside the drift bound, for an admitted IDi,
      with a fresh eight-byte r1 and a proof that verifies; then only r1 is burned. */
  lemma ClaimExactly(pairing: Pairing, g: GateState, a: Attestation, r1: Bytes, now: nat)
    requires a.Valid()
    ensures Claim(pairing, g, a, r1, now).Done? <==>
              && a.attestedAt <= now + g.maxDrift && now <= a.attestedAt + g.maxDrift
              && (g.allowAny || a.idi in g.allowlist)
              && |r1| == 8 && r1 !in g.seen
              && a.publicInputs == Blob(PublicInputs(a.idi, r1, a.attestedAt))
              && pairing(a.publicInputs, a.proof).Verifies?
    ensures Claim(pairing, g, a, r1, now).Done? ==>
              Claim(pairing, g, a, r1, now).value == (g.(seen := g.seen[r1 := true]), a.idi)
  {
    hide Blob, EnvelopeConsistent, ChallengeMatches;
    if |r1| == 8 {
      AcceptedBlobIsUnique(a, r1);
      assert ChallengeMatches(a, r1).Done? ==> ChallengeMatches(a, r1) == Done(()) by {
        if ChallengeMatches(a, r1).Done? { assert ChallengeMatches(a, r1).value == (); }
      }
    } else {
      assert ChallengeMatches(a, r1).Aborted? by { WrongLength(a, r1); }
    }
  }

  lemma WrongLength(a: Attestation, r1: Bytes)
    requires |a.publicInputs| == 96 && |r1| != 8
    ensures ChallengeMatches(a, r1) == Aborted(Malformed)
  {
  }

  /** The order in which a claim is refused, and with what: time, IDi, challenge, replay, envelope, proof. */
  lemma ClaimOrder(pairing: Pairing, g: GateState, a: Attestation, r1: Bytes, now: nat)
    requires |a.publicInputs| == 96
    ensures var blob, res := a.publicInputs, Claim(pairing, g, a, r1, now);
            res == if a.attestedAt > now + g.maxDrift || now > a.attestedAt + g.maxDrift then Aborted(ClockDrift)
                   else if !g.allowAny && a.idi !in g.allowlist then Aborted(NotAllowed)
                   else if |r1| != 8 then Aborted(Malformed)
                   else if exists k :: 40 <= k < 64 && blob[k] != 0 then Aborted(EnvelopeInconsistent)
                   else if blob[32..40] != r1 then Aborted(ChallengeMismatch)
                   else if r1 in g.seen then Aborted(Replay)
                   else if (exists k :: (8 <= k < 32 || 40 <= k < 64 || 72 <= k < 96) && blob[k] != 0)
                           || blob[..8] != a.idi || LeValue(blob[64..72]) != a.attestedAt
                   then Aborted(EnvelopeInconsistent)
                   else if pairing(blob, a.proof).Undecodable? then Aborted(LibraryAbort)
                   else if pairing(blob, a.proof).Fails? then Aborted(ProofInvalid)
                   else Done((GateState(g.seen[r1 := true], g.allowlist, g.allowAny, g.maxDrift), a.idi))
  {
    hide EnvelopeConsistent, ChallengeMatches, LeValue;
    EnvelopeMeans(a);
    ChallengeMeans(a, r1);
  }

  // --------------------------------------------------------------------- whole runs

  datatype Op =
    | ClaimOp(a: Attestation, r1: Bytes, now: nat)
    | AllowOp(idi: Bytes)
    | DisallowOp(idi: Bytes)
    | DriftOp(seconds: nat)
  {
    ghost predicate Ok() { ClaimOp? ==> a.Valid() }
  }

  ghost predicate OpsOk(ops: seq<Op>) {
    forall i :: 0 <= i < |ops| ==> ops[i].Ok()
  }

  /** The state after the operation, and whether it succeeded; an abort changes nothing. */
  ghost function Step(pairing: Pairing, g: GateState, op: Op): (GateState, bool)
    requires op.Ok()
  {
    match op
    case ClaimOp(a, r1, now) =>
      (match Claim(pairing, g, a, r1, now) case Done((g', _)) => (g', true) case Aborted(_) => (g, false))
    case AllowOp(idi) => (Allow(g, idi), true)
    case DisallowOp(idi) => (match Disallow(g, idi) case Done(g') => (g', true) case Aborted(_) => (g, false))
    case DriftOp(seconds) => (g.(maxDrift := seconds), true)
  }

  /** What each operation needs to succeed, and what it does to the gate. */
  lemma StepMeans(pairing: Pairing, g: GateState, op: Op)
    requires op.Ok()
    ensures var (g', ok) := Step(pairing, g, op);
            match op
            case ClaimOp(a, r1, now) =>
              && (ok <==>
                    && a.attestedAt <= now + g.maxDrift && now <= a.attestedAt + g.maxDrift
                    && (g.allowAny || a.idi in g.allowlist)
                    && |r1| == 8 && r1 !in g.seen
                    && a.publicInputs == Blob(PublicInputs(a.idi, r1, a.attestedAt))
                    && pairing(a.publicInputs, a.proof).Verifies?)
              && g' == GateState(if ok then g.seen[r1 := true] else g.seen, g.allowlist, g.allowAny, g.maxDrift)
            case AllowOp(idi) => ok && g' == GateState(g.seen, g.allowlist + [idi], false, g.maxDrift)
            case DisallowOp(idi) =>
              && (ok <==> idi in g.allowlist)
              && g'.seen == g.seen && g'.allowAny == g.allowAny && g'.maxDrift == g.maxDrift
              && multiset(g'.allowlist) == multiset(g.allowlist) - multiset{idi}
            case DriftOp(seconds) => ok && g' == GateState(g.seen, g.allowlist, g.allowAny, seconds)
  {
    hide Blob, Claim, RemoveFirst;
    match op
    case ClaimOp(a, r1, now) =>
      ClaimExactly(pairing, g, a, r1, now);
      if Claim(pairing, g, a, r1, now).Done? {
        assert Claim(pairing, g, a, r1, now).value.0 == g.(seen := g.seen[r1 := true]);
      }
    case DisallowOp(idi) =>
      if idi !in g.allowlist {
        assert multiset(g.allowlist)[idi] == 0;
      }
    case _ =>
  }

  ghost function Run(pairing: Pairing, g: GateState, ops: seq<Op>): GateState
    requires OpsOk(ops)
  {
    if ops == [] then g else Step(pairing, Run(pairing, g, ops[..|ops| - 1]), ops[|ops| - 1]).0
  }

  /** Whether operation i of the run succeeded. */
  ghost predicate Succeeds(pairing: Pairing, g: GateState, ops: seq<Op>, i: nat)
    requires OpsOk(ops) && i < |ops|
  {
    Step(pairing, Run(pairing, g, ops[..i]), ops[i]).1
  }

  /** The r1s of the accepted claims of the run, in order. */
  ghost function Burned(pairing: Pairing, g: GateState, ops: seq<Op>): seq<Bytes>
    requires OpsOk(ops)
  {
    if ops == [] then []
    else
      var n := |ops| - 1;
      Burned(pairing, g, ops[..n])
      + if ops[n].ClaimOp? && Step(pairing, Run(pairing, g, ops[..n]), ops[n]).1 then [ops[n].r1] else []
  }

  ghost predicate NoDuplicates(s: seq<Bytes>) {
    forall i, j :: 0 <= i < j < |s| ==> s[i] != s[j]
  }

  lemma StepSeen(pairing: Pairing, g: GateState, op: Op)
    requires op.Ok()
    ensures var (g', ok) := Step(pairing, g, op);
            g'.seen.Keys == g.seen.Keys + if op.ClaimOp? && ok then {op.r1} else {}
    ensures op.ClaimOp? && Step(pairing, g, op).1 ==> op.r1 !in g.seen
  {
    hide Blob;
    if op.ClaimOp? {
      ClaimExactly(pairing, g, op.a, op.r1, op.now);
    }
  }

  /** The burned set is exactly the r1s of the accepted claims, and none is accepted twice. */
  lemma {:induction false} BurnedExactlyOnce(pairing: Pairing, g: GateState, ops: seq<Op>)
    requires OpsOk(ops)
    ensures NoDuplicates(Burned(pairing, g, ops))
    ensures forall r1 :: r1 in Burned(pairing, g, ops) ==> r1 !in g.seen
    ensures forall r1 :: r1 in Run(pairing, g, ops).seen <==> r1 in g.seen || r1 in Burned(pairing, g, ops)
  {
    if ops != [] {
      var n := |ops| - 1;
      BurnedExactlyOnce(pairing, g, ops[..n]);
      StepSeen(pairing, Run(pairing, g, ops[..n]), ops[n]);
    }
  }

  /** Nothing burned is ever forgotten. */
  lemma {:induction false} SeenOnlyGrows(pairing: Pairing, g: GateState, ops: seq<Op>, m: nat)
    requires OpsOk(ops) && m <= |ops|
    ensures Run(pairing, g, ops[..m]).seen.Keys <= Run(pairing, g, ops).seen.Keys
    decreases |ops|
  {
    if m < |ops| {
      var n := |ops| - 1;
      SeenOnlyGrows(pairing, g, ops[..n], m);
      assert ops[..n][..m] == ops[..m];
      StepSeen(pairing, Run(pairing, g, ops[..n]), ops[n]);
    } else {
      assert ops[..m] == ops;
    }
  }

  /** A second claim of a burned r1 aborts, whatever happened in between. */
  lemma ReplayAborts(pairing: Pairing, g: GateState, ops: seq<Op>, i: nat, j: nat)
    requires OpsOk(ops) && i < j < |ops| && ops[i].ClaimOp? && ops[j].ClaimOp? && ops[i].r1 == ops[j].r1
    requires Succeeds(pairing, g, ops, i)
    ensures !Succeeds(pairing, g, ops, j)
  {
    hide Step;
    assert ops[..i + 1][..i] == ops[..i];
    StepSeen(pairing, Run(pairing, g, ops[..i]), ops[i]);
    assert ops[i].r1 in Run(pairing, g, ops[..i + 1]).seen;
    SeenOnlyGrows(pairing, g, ops[..j], i + 1);
    assert ops[..j][..i + 1] == ops[..i + 1];
    StepSeen(pairing, Run(pairing, g, ops[..j]), ops[j]);
  }

  /** An open gate has an empty list, so opening was decided at creation and never by removals. */
  lemma {:induction false} OpenMeansEmpty(pairing: Pairing, g: GateState, ops: seq<Op>)
    requires OpsOk(ops) && (g.allowAny ==> g.allowlist == [])
    ensures Run(pairing, g, ops).allowAny ==> Run(pairing, g, ops).allowlist == []
  {
    if ops != [] {
      OpenMeansEmpty(pairing, g, ops[..|ops| - 1]);
    }
  }

  lemma ClaimKeepsList(pairing: Pairing, g: GateState, a: Attestation, r1: Bytes, now: nat)
    requires a.Valid() && Claim(pairing, g, a, r1, now).Done?
    ensures var g' := Claim(pairing, g, a, r1, now).value.0; g'.allowlist == g.allowlist && g'.allowAny == g.allowAny
  {
    hide ZkVerify, ChallengeMatches, Drift, Admits;
  }

  lemma StepStaysClosed(pairing: Pairing, g: GateState, op: Op)
    requires op.Ok() && !g.allowAny
    ensures !Step(pairing, g, op).0.allowAny
  {
    hide Claim, RemoveFirst;
    if op.ClaimOp? && Claim(pairing, g, op.a, op.r1, op.now).Done? {
      ClaimKeepsList(pairing, g, op.a, op.r1, op.now);
    }
  }

  /** Once closed, a gate never reopens. */
  lemma {:induction false} ClosedForever(pairing: Pairing, g: GateState, ops: seq<Op>, m: nat)
    requires OpsOk(ops) && m <= |ops| && !Run(pairing, g, ops[..m]).allowAny
    ensures !Run(pairing, g, ops).allowAny
    decreases |ops|
  {
    if m < |ops| {
      hide Step;
      var n := |ops| - 1;
      assert ops[..n][..m] == ops[..m];
      ClosedForever(pairing, g, ops[..n], m);
      StepStaysClosed(pairing, Run(pairing, g, ops[..n]), ops[n]);
    } else {
      assert ops[..m] == ops;
    }
  }

  /** Additions of idi minus successful removals of idi. */
  ghost function NetAllows(pairing: Pairing, g: GateState, ops: seq<Op>, idi: Bytes): int
    requires OpsOk(ops)
  {
    if ops == [] then 0
    else
      var n := |ops| - 1;
      NetAllows(pairing, g, ops[..n], idi)
      + if ops[n] == AllowOp(idi) then 1
        else if ops[n] == DisallowOp(idi) && Step(pairing, Run(pairing, g, ops[..n]), ops[n]).1 then -1
        else 0
  }

  lemma {:induction false} CopiesOnList(pairing: Pairing, g: GateState, ops: seq<Op>, idi: Bytes)
    requires OpsOk(ops)
    ensures multiset(Run(pairing, g, ops).allowlist)[idi] == multiset(g.allowlist)[idi]
            + NetAllows(pairing, g, ops, idi)
  {
    if ops != [] {
      var n := |ops| - 1;
      CopiesOnList(pairing, g, ops[..n], idi);
      StepCopies(pairing, Run(pairing, g, ops[..n]), ops[n], idi);
    }
  }

  lemma DisallowCopies(g: GateState, x: Bytes, idi: Bytes)
    ensures Disallow(g, x).Done? ==>
              multiset(Disallow(g, x).value.allowlist)[idi] == multiset(g.allowlist)[idi] - if x == idi then 1 else 0
  {
    hide RemoveFirst;
    assert x in g.allowlist ==> multiset(g.allowlist)[x] > 0;
  }

  lemma AllowCopies(g: GateState, x: Bytes, idi: Bytes)
    ensures multiset(Allow(g, x).allowlist)[idi] == multiset(g.allowlist)[idi] + if x == idi then 1 else 0
  {
    assert multiset(g.allowlist + [x]) == multiset(g.allowlist) + multiset{x};
  }

  lemma StepCopies(pairing: Pairing, g: GateState, op: Op, idi: Bytes)
    requires op.Ok()
    ensures var (g', ok) := Step(pairing, g, op);
            multiset(g'.allowlist)[idi] == multiset(g.allowlist)[idi]
              + if op == AllowOp(idi) then 1 else if op == DisallowOp(idi) && ok then -1 else 0
  {
    hide Claim, Allow, Disallow;
    match op
    case ClaimOp(a, r1, now) =>
      if Claim(pairing, g, a, r1, now).Done? { ClaimKeepsList(pairing, g, a, r1, now); }
    case AllowOp(x) => AllowCopies(g, x, idi);
    case DisallowOp(x) => DisallowCopies(g, x, idi);
    case DriftOp(_) =>
  }

  /** A closed gate admits an IDi exactly while it was listed or allowed more often than successfully disallowed. */
  lemma ClosedGateAdmits(pairing: Pairing, allowlist: seq<Bytes>, drift: nat, ops: seq<Op>, idi: Bytes)
    requires OpsOk(ops) && !Run(pairing, Create(allowlist, drift), ops).allowAny
    ensures Admits(Run(pairing, Create(allowlist, drift), ops), idi) <==>
            multiset(allowlist)[idi] + NetAllows(pairing, Create(allowlist, drift), ops, idi) > 0
  {
    hide Run, NetAllows;
    CopiesOnList(pairing, Create(allowlist, drift), ops, idi);
  }
}
