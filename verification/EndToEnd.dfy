// The parts put together: what the oracle certifies for a card is what the gate accepts
// and the payment moves, once.
module EndToEnd {
  import opened Bits
  import opened Results
  import opened Modes
  import opened DesLaws
  import opened Field
  import opened Interpolation
  import opened Gadgets
  import opened Abi
  import opened Oracle
  import opened FelicaAuth
  import opened Gate
  import G = Gate
  import opened SuicashGate
  import T = CircuitTheorem
  import Session
  import SessionCircuit
  import opened Facepay
  import Prover

  /** The chain's pairing check decides as the prover's own verifier does, on the packed scalars. */
  ghost predicate Agree(pairing: Pairing, g: Prover.Groth16, r: nat) {
    forall pis: seq<nat>, proof: Bytes :: |pis| == 3 && Below(pis, r) ==>
      (pairing(Pack(pis, 3), proof).Verifies? <==> g.decodes(proof) && g.verify(pis, proof))
  }

  ghost predicate Below(pis: seq<nat>, r: nat) {
    forall i :: 0 <= i < |pis| ==> pis[i] < r
  }

  /** The packed scalars of some satisfiable public inputs. */
  ghost predicate SomeClaim(c: BlockCipher, p: Setup, blob: Bytes, pis: seq<nat>)
    requires p.Shaped() && p.r > 0
  {
    |pis| == 3 && Below(pis, p.r) && Pack(pis, 3) == blob && T.Satisfiable(c, p, pis)
  }

  /**
   * The assumptions can be met together with soundness: in the ideal proof system a proof verifies exactly for
   * satisfiable public inputs, on the chain as for the prover.
   */
  lemma IdealSystem(c: BlockCipher, p: Setup) returns (g: Prover.Groth16, pairing: Pairing)
    requires p.Valid() && IsDes(c, p.t) && IsOrder(p.r)
    ensures g.CompleteFor(c, p) && Agree(pairing, g, p.r)
    ensures forall pis: seq<nat>, proof: Bytes :: g.verify(pis, proof) <==> T.Satisfiable(c, p, pis)
  {
    hide IsDes, IsPrime, Interpolates, T.Satisfiable, T.HintsSatisfy, LeValue, Pack;
    g := Prover.Groth16(_ => Some([]), _ => true, (pis, proof) => T.Satisfiable(c, p, pis));
    pairing := (blob, proof) => if exists pis: seq<nat> :: SomeClaim(c, p, blob, pis) then Verifies else Fails;
    forall f: Session.FelicaCircuit | f.attestedAt < TWO_64 && T.HintsSatisfy(c, p, f)
      ensures T.Satisfiable(c, p, SessionCircuit.PublicInputs(f.idi, f.r1, f.attestedAt))
    {
      T.HintsSatisfyIff(c, p, f);
      assert T.Witnesses(c, f, f.idi, f.r1, f.attestedAt);
      T.SatisfiableIff(c, p, f.idi, f.r1, f.attestedAt);
    }
    forall pis: seq<nat>, proof: Bytes | |pis| == 3 && Below(pis, p.r)
      ensures pairing(Pack(pis, 3), proof).Verifies? <==> T.Satisfiable(c, p, pis)
    {
      if T.Satisfiable(c, p, pis) {
        assert SomeClaim(c, p, Pack(pis, 3), pis);
      }
      if other: seq<nat> :| SomeClaim(c, p, Pack(pis, 3), other) {
        PackedInjective(p.r, pis, other);
      }
    }
  }

  /** What the daemon hands to the payment helper: the attestation with packed scalars, and its own r1. */
  function Present(r: nat, att: Prover.Attestation, r1: Block): Option<Presentation> {
    match PublicInputsBytes(r, att.publicInputs)
    case None => None
    case Some(blob) => Some(Presentation(att.idi, att.attestedAt, att.proof, blob, r1))
  }

  lemma PackedInjective(r: nat, pis: seq<nat>, others: seq<nat>)
    requires IsOrder(r) && |pis| == 3 && |others| == 3 && Below(pis, r) && Below(others, r)
    requires Pack(pis, 3) == Pack(others, 3)
    ensures pis == others
  {
    hide FrBytes;
    forall i | 0 <= i < 3 ensures pis[i] == others[i] {
      PackedScalar(pis, i);
      PackedScalar(others, i);
      FrBytesValue(pis[i]);
      FrBytesValue(others[i]);
    }
  }

  /** The blob of a claim is its packed field elements. */
  lemma BlobIsPacked(r: nat, pi: PublicInputs)
    requires IsOrder(r) && pi.Valid()
    ensures ToFr(r, pi).Some? && |ToFr(r, pi).value| == 3 && Below(ToFr(r, pi).value, r)
    ensures Pack(ToFr(r, pi).value, 3) == Blob(pi)
  {
    hide FrBytes, LeValue, ToFr, ParseFr;
    DecodeEncode(r, pi);
    LimbIsCanonical(r, pi.idi);
    LimbIsCanonical(r, pi.r1);
    var pis := ToFr(r, pi).value;
    var raws := Prover.WireInputs(pis);
    Prover.ParsedEncodings(r, pis);
    ProverEmitsBlob(r, pi, pis, raws);
  }

  /**
   * The gate accepts a presented attestation exactly when its own conditions on time, IDi and r1 hold and the proof is
   * about the attestation's claim with that r1.
   */
  lemma GateAcceptsProofs(pairing: Pairing, g: Prover.Groth16, r: nat, gate: GateState, att: Prover.Attestation,
                          r1: Block, nowMs: nat, sender: Address)
    requires IsOrder(r) && Agree(pairing, g, r) && att.attestedAt < TWO_64
    ensures Present(r, att, r1).Some? && Verify(pairing, gate, Present(r, att, r1).value, nowMs, sender).Done? <==>
              && att.attestedAt <= nowMs / 1000 + gate.maxDrift && nowMs / 1000 <= att.attestedAt + gate.maxDrift
              && (gate.allowAny || att.idi in gate.allowlist) && r1 !in gate.seen
              && g.decodes(att.proof) && Prover.ProvesClaim(g, r, att, r1)
  {
    hide Blob, ToFr, ParsePublicInputs, Claim, FrBytes;
    var pi := PublicInputs(att.idi, r1, att.attestedAt);
    BlobIsPacked(r, pi);
    var claimed := ToFr(r, pi).value;
    Prover.ParsedAreReduced(r, att.publicInputs);
    if Present(r, att, r1).Some? {
      var blob := Present(r, att, r1).value.publicInputs;
      var parsed := ParsePublicInputs(r, att.publicInputs).value;
      ParsedCount(r, att.publicInputs);
      assert blob == Pack(parsed, 3);
      var a := Make(SUPPORTED_ALG, att.idi, att.attestedAt, att.proof, blob).value;
      ClaimExactly(pairing, gate, a, r1, nowMs / 1000);
      if blob == Blob(pi) {
        PackedInjective(r, parsed, claimed);
      }
      assert pairing(Pack(claimed, 3), att.proof).Verifies? <==> g.decodes(att.proof) && g.verify(claimed, att.proof);
    }
  }

  lemma ParsedCount(r: nat, raws: seq<Bytes>)
    requires ParsePublicInputs(r, raws).Some?
    ensures |ParsePublicInputs(r, raws).value| == 3
  {
  }

  /** What the gate accepts, the off-chain verifier accepts. */
  lemma GateMatchesVerifier(pairing: Pairing, g: Prover.Groth16, r: nat, gate: GateState, att: Prover.Attestation,
                            r1: Block, nowMs: nat, sender: Address)
    requires IsOrder(r) && Agree(pairing, g, r) && att.attestedAt < TWO_64 && att.alg == Prover.ALG
    requires Present(r, att, r1).Some? && Verify(pairing, gate, Present(r, att, r1).value, nowMs, sender).Done?
    ensures Prover.VerifyDetailed(g, r, att) == Ok(())
  {
    hide Verify, Prover.VerifyDetailed, Prover.ProvesClaim, Agree;
    GateAcceptsProofs(pairing, g, r, gate, att, r1, nowMs, sender);
    Prover.VerifiedExactly(g, r, att);
  }

  // ------------------------------------------------------------------ from the tap to the payment

  /** The attestation of one reading of a card. */
  function Certify(c: BlockCipher, g: Prover.Groth16, r: nat, cfg: Config, card: Card, r1: Block, r2: Block, now: nat)
    : Option<Prover.Attestation>
    requires r > 0
  {
    match Read(c, cfg, card, r1, r2)
    case None => None
    case Some(t) =>
      match Attest(c, g, r, cfg, card.idm, t.c1b, t.c2a, t.auth2, now)
      case Err(_) => None
      case Ok(att) => Some(att)
  }

  /** A card with the oracle's keys is certified exactly when the configured nodes are the card's and fit one
      command. */
  lemma CertifyExactly(c: BlockCipher, g: Prover.Groth16, p: Setup, cfg: Config, card: Card, r1: Block, r2: Block,
                       now: nat)
    requires p.Valid() && IsDes(c, p.t) && IsOrder(p.r) && g.CompleteFor(c, p) && now < TWO_64
    requires card.gsk == cfg.gsk && card.usk == cfg.usk
    ensures var att := Certify(c, g, p.r, cfg, card, r1, r2, now);
            && (att.Some? <==>
                  && 0 < |cfg.areas| + |cfg.services| <= 117
                  && cfg.areas == card.areas && cfg.services == card.services)
            && (att.Some? ==>
                  && att.value.idi == card.idi && att.value.attestedAt == now
                  && att.value.publicInputs == Prover.ClaimInputs(card.idi, r1, now)
                  && Prover.VerifyDetailed(g, p.r, att.value) == Ok(()))
  {
    hide Read, Attest, VerifySession, Prover.VerifyDetailed, Prover.ClaimInputs, Prover.Groth16.CompleteFor, IsDes,
         IsPrime, Interpolates;
    DesIsInvertible(c, p.t);
    ReadExactly(c, cfg, card, r1, r2);
    if Read(c, cfg, card, r1, r2).Some? {
      HonestRun(c, g, p, cfg, card, r1, r2, now);
    }
  }

  /** A verified attestation with the claim's own scalars proves the claim with that r1. */
  lemma CertifiedClaim(g: Prover.Groth16, r: nat, att: Prover.Attestation, r1: Block)
    requires IsOrder(r) && att.attestedAt < TWO_64 && Prover.VerifyDetailed(g, r, att) == Ok(())
    requires att.publicInputs == Prover.ClaimInputs(att.idi, r1, att.attestedAt)
    ensures g.decodes(att.proof) && Prover.ProvesClaim(g, r, att, r1)
  {
    hide ToFr, FromFr, ParsePublicInputs, LeValue, FrBytes;
    var pi := PublicInputs(att.idi, r1, att.attestedAt);
    DecodeEncode(r, pi);
    LimbIsCanonical(r, pi.idi);
    LimbIsCanonical(r, pi.r1);
    Prover.ParsedEncodings(r, ToFr(r, pi).value);
  }

  /** After any further operations on the gate, and with whatever balances, no payment with this r1 goes through. */
  ghost predicate PaidOnce(env: Env, gate: GateState, r1: Bytes) {
    forall ops: seq<Op>, balances: Balances, again: Presentation, idi: Bytes, later: nat, sum: nat, payee: Address ::
      OpsOk(ops) && again.Ok() && again.r1 == r1 ==>
        Pay(env, Chain(G.Run(env.pairing, gate, ops), balances), idi, sum, payee, again, later).Aborted?
  }

  lemma BurnedForGood(env: Env, gate: GateState, r1: Bytes)
    requires r1 in gate.seen
    ensures PaidOnce(env, gate, r1)
  {
    hide Pay, G.Run;
    forall ops: seq<Op>, balances: Balances, again: Presentation, idi: Bytes, later: nat, sum: nat, payee: Address |
      OpsOk(ops) && again.Ok() && again.r1 == r1
      ensures Pay(env, Chain(G.Run(env.pairing, gate, ops), balances), idi, sum, payee, again, later).Aborted?
    {
      StaysBurned(env, gate, ops, r1);
      BurnedAborts(env, Chain(G.Run(env.pairing, gate, ops), balances), idi, sum, payee, again, later);
    }
  }

  lemma StaysBurned(env: Env, gate: GateState, ops: seq<Op>, r1: Bytes)
    requires OpsOk(ops) && r1 in gate.seen
    ensures r1 in G.Run(env.pairing, gate, ops).seen
  {
    SeenOnlyGrows(env.pairing, gate, ops, 0);
    assert ops[..0] == [];
    assert r1 in G.Run(env.pairing, gate, ops[..0]).seen.Keys;
  }

  /**
   * A card read with a fresh r1 at an admitting gate, within its drift bound, pays: the attestation is accepted, the
   * event names the card, the amount moves from its wallet to the merchant, and whatever the gate is used for
   * afterwards, no later payment with that r1 succeeds.
   */
  lemma TapPaysOnce(c: BlockCipher, g: Prover.Groth16, p: Setup, cfg: Config, card: Card, r1: Block, r2: Block,
                    now: nat, env: Env, chain: Chain, amount: nat, to: Address, nowMs: nat)
    requires p.Valid() && IsDes(c, p.t) && IsOrder(p.r) && g.CompleteFor(c, p) && now < TWO_64
    requires card.gsk == cfg.gsk && card.usk == cfg.usk && 0 < |cfg.areas| + |cfg.services| <= 117
    requires cfg.areas == card.areas && cfg.services == card.services
    requires Agree(env.pairing, g, p.r) && r1 !in chain.gate.seen
    requires now <= nowMs / 1000 + chain.gate.maxDrift && nowMs / 1000 <= now + chain.gate.maxDrift
    requires chain.gate.allowAny || card.idi in chain.gate.allowlist
    ensures var att := Certify(c, g, p.r, cfg, card, r1, r2, now);
            && att.Some?
            && var pr := Present(p.r, att.value, r1);
            && pr.Some? && pr.value.Ok()
            && var from := env.wallet(card.idi);
            && var res := Pay(env, chain, card.idi, amount, to, pr.value, nowMs);
            && (res.Done? <==> amount <= Balance(chain.balances, from))
            && (res.Aborted? ==> res.code == InsufficientBalance)
            && (res.Done? ==>
                  && res.value.1 == Verified(card.idi, r1, now, from)
                  && (forall a :: Balance(res.value.0.balances, a) == Balance(chain.balances, a)
                        - (if a == from then amount else 0) + (if a == to then amount else 0))
                  && forall ops: seq<Op>, balances: Balances, again: Presentation, idi: Bytes, later: nat, sum: nat,
                            payee: Address ::
                       OpsOk(ops) && again.Ok() && again.r1 == r1 ==>
                         Pay(env, Chain(G.Run(env.pairing, res.value.0.gate, ops), balances), idi, sum, payee, again,
                             later).Aborted?)
  {
    hide Certify, Verify, Present, Agree, Prover.VerifyDetailed, Prover.ProvesClaim, Prover.ClaimInputs,
         Balance, Transferred,
         Prover.Groth16.CompleteFor, IsDes, IsPrime, Interpolates;
    CertifyExactly(c, g, p, cfg, card, r1, r2, now);
    var att := Certify(c, g, p.r, cfg, card, r1, r2, now).value;
    CertifiedClaim(g, p.r, att, r1);
    GateAcceptsProofs(env.pairing, g, p.r, chain.gate, att, r1, nowMs, env.wallet(card.idi));
    var pr := Present(p.r, att, r1).value;
    PresentedFields(p.r, att, r1);
    AcceptedPresentation(env.pairing, chain.gate, pr, nowMs, env.wallet(card.idi));
    var res := Pay(env, chain, card.idi, amount, to, pr, nowMs);
    if res.Done? {
      PayBurns(env, chain, card.idi, amount, to, pr, nowMs);
      BurnedForGood(env, res.value.0.gate, r1);
    }
  }

  lemma PresentedFields(r: nat, att: Prover.Attestation, r1: Block)
    requires Present(r, att, r1).Some?
    ensures var pr := Present(r, att, r1).value; pr.idi == att.idi && pr.attestedAt == att.attestedAt && pr.r1 == r1
  {
  }

  lemma BurnedAborts(env: Env, chain: Chain, idi: Bytes, amount: nat, to: Address, att: Presentation, nowMs: nat)
    requires att.Ok() && att.r1 in chain.gate.seen
    ensures Pay(env, chain, idi, amount, to, att, nowMs).Aborted?
  {
    if Pay(env, chain, idi, amount, to, att, nowMs).Done? {
      PayBurns(env, chain, idi, amount, to, att, nowMs);
    }
  }
}
