// The deployment's transaction surface: building the attestation, claiming at the gate
// with the chain's own clock, and the receipt event.
module SuicashGate {
  import opened Bits
  import opened Abi
  import opened FelicaAuth
  import opened Gate

  type Address = nat

  datatype Verified = Verified(idi: Bytes, r1: Bytes, attestedAt: nat, sender: Address)

  /** The arguments of one call of `verify`. */
  datatype Presentation = Presentation(idi: Bytes, attestedAt: nat, proof: Bytes, publicInputs: Bytes, r1: Bytes)
  {
    ghost predicate Ok() { attestedAt < TWO_64 }
  }

  ghost function Verify(pairing: Pairing, g: GateState, p: Presentation, nowMs: nat, sender: Address)
    : Outcome<(GateState, Verified)>
    requires p.Ok()
  {
    match Make(SUPPORTED_ALG, p.idi, p.attestedAt, p.proof, p.publicInputs)
    case Aborted(code) => Aborted(code)
    case Done(a) =>
      match Claim(pairing, g, a, p.r1, nowMs / 1000)
      case Aborted(code) => Aborted(code)
      case Done((g', idi)) => Done((g', Verified(idi, p.r1, p.attestedAt, sender)))
  }

  class Deployment {
    const gate: Gate
    var events: seq<Verified>

    constructor (gate: Gate)
      ensures this.gate == gate && events == []
    {
      this.gate := gate;
      this.events := [];
    }

    /** Emits one event per accepted presentation; an abort leaves gate and events as they were. */
    method VerifyPresentation(p: Presentation, nowMs: nat, sender: Address) returns (out: Outcome<()>)
      requires p.Ok()
      modifies this, gate
      ensures match Verify(gate.pairing, old(gate.State()), p, nowMs, sender)
              case Done((g, event)) => out == Done(()) && gate.State() == g && events == old(events) + [event]
              case Aborted(code) => out == Aborted(code) && gate.State() == old(gate.State()) && events == old(events)
    {
      var made := Make(SUPPORTED_ALG, p.idi, p.attestedAt, p.proof, p.publicInputs);
      match made {
        case Aborted(code) => return Aborted(code);
        case Done(a) =>
          var claimed := gate.VerifyAndClaim(a, p.r1, nowMs / 1000);
          match claimed {
            case Aborted(code) => return Aborted(code);
            case Done(idi) =>
              events := events + [Verified(idi, p.r1, p.attestedAt, sender)];
              return Done(());
          }
      }
    }
  }

  /** An accepted presentation burns a fresh eight-byte r1, and its event names the proved IDi. */
  lemma AcceptedPresentation(pairing: Pairing, g: GateState, p: Presentation, nowMs: nat, sender: Address)
    requires p.Ok() && Verify(pairing, g, p, nowMs, sender).Done?
    ensures var (g', event) := Verify(pairing, g, p, nowMs, sender).value;
            && event == Verified(p.idi, p.r1, p.attestedAt, sender)
            && |p.r1| == 8 && |p.idi| == 8 && p.r1 !in g.seen && g' == g.(seen := g.seen[p.r1 := true])
            && p.publicInputs == Blob(PublicInputs(p.idi, p.r1, p.attestedAt))
            && pairing(p.publicInputs, p.proof).Verifies?
  {
    hide Claim, Blob;
    var a := Make(SUPPORTED_ALG, p.idi, p.attestedAt, p.proof, p.publicInputs).value;
    ClaimExactly(pairing, g, a, p.r1, nowMs / 1000);
  }
}
