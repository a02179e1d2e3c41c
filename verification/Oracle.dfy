// The oracle: the challenge schedule, the session verifier and the three stateless
// service calls, run against a card that holds the same master keys.
module Oracle {
  import opened Bits
  import opened Results
  import opened Modes
  import opened DesLaws
  import opened Field
  import opened Interpolation
  import opened Gadgets
  import opened Session
  import Abi
  import Frames
  import Prover

  type Word = Frames.Word

  // ----------------------------------------------------------- challenge schedule

  function C1a(c: BlockCipher, k: SessionKeys, r1: Block): Block { c.TdesEncrypt(r1, k.alpha, k.l) }
  function C1bExpected(c: BlockCipher, k: SessionKeys, r1: Block): Block { c.TdesEncrypt(r1, k.l, k.beta) }
  function C2b(c: BlockCipher, k: SessionKeys, r2: Block): Block { c.TdesEncrypt(r2, k.alpha, k.l) }
  function R2FromC2a(c: BlockCipher, k: SessionKeys, c2a: Block): Block { c.TdesDecrypt(c2a, k.l, k.beta) }
  function R1FromC1b(c: BlockCipher, k: SessionKeys, c1b: Block): Block { c.TdesDecrypt(c1b, k.l, k.beta) }

  /** The genuine C1B check passes exactly for the r1 that attest later recovers from c1b. */
  lemma CheckIsRecovery(c: BlockCipher, k: SessionKeys, r1: Block, c1b: Block)
    requires c.Invertible()
    ensures C1bExpected(c, k, r1) == c1b <==> R1FromC1b(c, k, c1b) == r1
  {
    TdesInverse(c, r1, k.l, k.beta);
    TdesInverse(c, c1b, k.l, k.beta);
  }

  /** The five functions as equations, with the middle decryption moved to the other side. */
  lemma ScheduleMeans(c: BlockCipher, k: SessionKeys, r: Block, x: Block)
    requires c.Invertible()
    ensures C1a(c, k, r) == x <==> c.enc(c.dec(x, k.alpha), k.l) == c.enc(r, k.alpha)
    ensures C1bExpected(c, k, r) == x <==> c.enc(c.dec(x, k.l), k.beta) == c.enc(r, k.l)
    ensures C2b(c, k, r) == x <==> c.enc(c.dec(x, k.alpha), k.l) == c.enc(r, k.alpha)
    ensures R1FromC1b(c, k, x) == r <==> c.enc(c.dec(x, k.l), k.beta) == c.enc(r, k.l)
    ensures R2FromC2a(c, k, x) == r <==> c.enc(c.dec(x, k.l), k.beta) == c.enc(r, k.l)
  {
    TdesMeans(c, r, x, k.alpha, k.l);
    TdesMeans(c, r, x, k.l, k.beta);
  }

  // --------------------------------------------------------------- session verifier

  datatype AttestError = Malformed | MacMismatch | TidMismatch | UnexpectedTn

  datatype Auth2Data = Auth2Data(tn: nat, tid: Bytes, idi: Block, pmi: Block)

  /** Payload decryption: CBC under r2 with a zero IV, then the MAC with opcode 0x13. */
  function DecryptPayload(c: BlockCipher, r2: Block, ct: Auth2): (payload: Result<Bytes, AttestError>)
    ensures payload.Ok? ==> |payload.value| == 24
  {
    var pt := Plaintext(c, ct, r2);
    if c.CommandMac(MAC_CODE, pt[..24]) != pt[24..32] then Err(MacMismatch) else Ok(pt[..24])
  }

  const EXPECTED_AUTH2_TN: nat := 0

  function VerifyAuth2(c: BlockCipher, r2: Block, ct: Auth2): Result<Auth2Data, AttestError> {
    match DecryptPayload(c, r2, ct)
    case Err(e) => Err(e)
    case Ok(payload) =>
      var tn := U16(payload[0], payload[1]);
      if tn != EXPECTED_AUTH2_TN then Err(UnexpectedTn)
      else Ok(Auth2Data(tn, payload[2..8], payload[8..16], payload[16..24]))
  }

  datatype VerifiedSession = VerifiedSession(r1: Block, r2: Block, idi: Block, tid: Bytes)

  function VerifySession(c: BlockCipher, gsk: Block, usk: Block, idm: Block, c1b: Block, c2a: Block, auth2: Auth2)
    : Result<VerifiedSession, AttestError>
  {
    var k := DeriveKeys(c, gsk, usk, idm);
    var r1, r2 := R1FromC1b(c, k, c1b), R2FromC2a(c, k, c2a);
    match VerifyAuth2(c, r2, auth2)
    case Err(e) => Err(e)
    case Ok(auth) =>
      if auth.tid != r1[2..8] then Err(TidMismatch)
      else Ok(VerifiedSession(r1, r2, auth.idi, auth.tid))
  }

  /** The transaction number of a transcript, under the session key it carries. */
  function TransactionNumber(c: BlockCipher, req: Prover.ProveRequest): nat {
    var k := DeriveKeys(c, req.gsk, req.usk, req.idm);
    var pt := Plaintext(c, req.auth2, R2FromC2a(c, k, req.c2a));
    U16(pt[0], pt[1])
  }

  function SessionOf(c: BlockCipher, req: Prover.ProveRequest): Result<VerifiedSession, AttestError> {
    VerifySession(c, req.gsk, req.usk, req.idm, req.c1b, req.c2a, req.auth2)
  }

  /** The oracle's verifier is the prover's pre-checks plus a zero transaction number, with the same r1, r2, IDi. */
  lemma VerifierMatchesProver(c: BlockCipher, req: Prover.ProveRequest)
    requires c.Invertible()
    ensures SessionOf(c, req).Ok? <==> Prover.PreChecks(c, req).Ok? && TransactionNumber(c, req) == EXPECTED_AUTH2_TN
    ensures SessionOf(c, req).Ok? ==>
              var v, f := SessionOf(c, req).value, Prover.PreChecks(c, req).value;
              v.r1 == f.r1 && v.r2 == f.r2 && v.idi == f.idi
  {
    var k := DeriveKeys(c, req.gsk, req.usk, req.idm);
    TdesInverse(c, req.c1b, k.l, k.beta);
    TdesInverse(c, req.c2a, k.l, k.beta);
    var pt := Plaintext(c, req.auth2, R2FromC2a(c, k, req.c2a));
    assert pt[..24][2..8] == pt[2..8] && pt[..24][8..16] == pt[8..16];
    assert c.CbcDecrypt(req.auth2, R2FromC2a(c, k, req.c2a)) == Some(pt);
  }

  // ----------------------------------------------------------------- the service calls

  /** The oracle's keys and the node path they belong to: 16-bit codes. */
  datatype Config = Config(gsk: Block, usk: Block, systemCode: Word, areas: seq<Word>, services: seq<Word>)

  datatype ServiceError = C1bMismatchError | MacMismatchError | TidMismatchError | InvalidParams | ProveFailedError
                        | NodePathMissing | IdiDisagrees

  datatype ChallengeResponse = ChallengeResponse(
    c1a: Block, systemCode: Word, areas: seq<Word>, services: seq<Word>)

  function Challenge(c: BlockCipher, cfg: Config, idm: Block, r1: Block): Result<ChallengeResponse, ServiceError> {
    if cfg.areas == [] && cfg.services == [] then Err(NodePathMissing)
    else Ok(ChallengeResponse(C1a(c, DeriveKeys(c, cfg.gsk, cfg.usk, idm), r1), cfg.systemCode, cfg.areas,
                              cfg.services))
  }

  function Settle(c: BlockCipher, cfg: Config, idm: Block, r1: Block, c1b: Block, c2a: Block)
    : Result<Block, ServiceError>
  {
    var k := DeriveKeys(c, cfg.gsk, cfg.usk, idm);
    if C1bExpected(c, k, r1) != c1b then Err(C1bMismatchError)
    else Ok(C2b(c, k, R2FromC2a(c, k, c2a)))
  }

  function AttestErrorCode(e: AttestError): ServiceError {
    match e
    case MacMismatch => MacMismatchError
    case TidMismatch => TidMismatchError
    case UnexpectedTn => TidMismatchError
    case Malformed => InvalidParams
  }

  function ProverErrorCode(e: Prover.ProverError): ServiceError {
    match e
    case MacMismatch => MacMismatchError
    case TidMismatch => TidMismatchError
    case C1bMismatch => C1bMismatchError
    case ProveFailed => ProveFailedError
  }

  function Attest(c: BlockCipher, g: Prover.Groth16, r: nat, cfg: Config, idm: Block, c1b: Block, c2a: Block,
                  auth2: Auth2, now: nat): Result<Prover.Attestation, ServiceError>
    requires r > 0
  {
    match VerifySession(c, cfg.gsk, cfg.usk, idm, c1b, c2a, auth2)
    case Err(e) => Err(AttestErrorCode(e))
    case Ok(verified) =>
      match Prover.Prove(c, g, r, Prover.ProveRequest(idm, c1b, c2a, auth2, cfg.gsk, cfg.usk, now))
      case Err(e) => Err(ProverErrorCode(e))
      case Ok(att) => if att.idi != verified.idi then Err(IdiDisagrees) else Ok(att)
  }

  /** The prover never disagrees with the session verifier about the IDi. */
  lemma IdiNeverDisagrees(c: BlockCipher, g: Prover.Groth16, r: nat, cfg: Config, idm: Block, c1b: Block, c2a: Block,
                          auth2: Auth2, now: nat)
    requires r > 0 && c.Invertible()
    ensures Attest(c, g, r, cfg, idm, c1b, c2a, auth2, now) != Err(IdiDisagrees)
    ensures VerifySession(c, cfg.gsk, cfg.usk, idm, c1b, c2a, auth2).Ok? ==>
              Attest(c, g, r, cfg, idm, c1b, c2a, auth2, now).Ok? ||
              Attest(c, g, r, cfg, idm, c1b, c2a, auth2, now) == Err(ProveFailedError)
  {
    var req := Prover.ProveRequest(idm, c1b, c2a, auth2, cfg.gsk, cfg.usk, now);
    VerifierMatchesProver(c, req);
    hide Prover.PreChecks, VerifySession, Abi.ToFr;
  }

  /** With a working key, attest succeeds exactly on the transcripts the session verifier accepts. */
  lemma AttestExactly(c: BlockCipher, g: Prover.Groth16, p: Setup, cfg: Config, idm: Block, c1b: Block, c2a: Block,
                      auth2: Auth2, now: nat)
    requires p.Valid() && IsDes(c, p.t) && Abi.IsOrder(p.r) && g.CompleteFor(c, p) && now < Abi.TWO_64
    ensures var res := Attest(c, g, p.r, cfg, idm, c1b, c2a, auth2, now);
            var v := VerifySession(c, cfg.gsk, cfg.usk, idm, c1b, c2a, auth2);
            && (res.Ok? <==> v.Ok?)
            && (res.Ok? ==> res.value.idi == v.value.idi && res.value.attestedAt == now
                            && res.value.publicInputs == Prover.ClaimInputs(v.value.idi, v.value.r1, now)
                            && Prover.VerifyDetailed(g, p.r, res.value) == Ok(()))
  {
    hide IsDes, IsPrime, Interpolates;
    var req := Prover.ProveRequest(idm, c1b, c2a, auth2, cfg.gsk, cfg.usk, now);
    DesIsInvertible(c, p.t);
    VerifierMatchesProver(c, req);
    Prover.ProveMeansPreChecks(c, g, p, req);
    hide Prover.PreChecks, VerifySession, Prover.Prove, Prover.ClaimInputs, Prover.VerifyDetailed,
         Prover.Groth16.CompleteFor;
  }

  /** The two stateless calls agree: settle accepts (r1, c1b) exactly when r1 is what attest recovers from c1b. */
  lemma SettleAgreesWithAttest(c: BlockCipher, cfg: Config, idm: Block, r1: Block, c1b: Block, c2a: Block)
    requires c.Invertible()
    ensures Settle(c, cfg, idm, r1, c1b, c2a).Ok? <==> R1FromC1b(c, DeriveKeys(c, cfg.gsk, cfg.usk, idm), c1b) == r1
  {
    CheckIsRecovery(c, DeriveKeys(c, cfg.gsk, cfg.usk, idm), r1, c1b);
  }

  // ------------------------------------------------------- the calls, as equations

  /** The challenge carries the configured system code and nodes, and a C1A that is 3DES of r1 under alpha and l. */
  lemma ChallengeMeans(c: BlockCipher, cfg: Config, idm: Block, r1: Block, k: SessionKeys)
    requires c.Invertible()
    requires k.l == XorBytes(cfg.gsk, idm) && c.dec(k.alpha, k.l) == cfg.usk && c.dec(k.beta, k.alpha) == k.l
    ensures cfg.areas == [] && cfg.services == [] ==> Challenge(c, cfg, idm, r1) == Err(NodePathMissing)
    ensures cfg.areas != [] || cfg.services != [] ==>
              var ch := Challenge(c, cfg, idm, r1);
              && ch.Ok? && ch.value.systemCode == cfg.systemCode
              && ch.value.areas == cfg.areas && ch.value.services == cfg.services
              && c.enc(c.dec(ch.value.c1a, k.alpha), k.l) == c.enc(r1, k.alpha)
  {
    KeysMean(c, cfg.gsk, cfg.usk, idm, k);
    hide XorBytes, DeriveKeys;
    ScheduleMeans(c, k, r1, C1a(c, k, r1));
  }

  /** Settle refuses exactly the C1B that is not 3DES of r1 under l and beta; its C2B is that of the r2 behind C2A. */
  lemma SettleMeans(c: BlockCipher, cfg: Config, idm: Block, r1: Block, c1b: Block, c2a: Block, k: SessionKeys,
                    r2: Block)
    requires c.Invertible()
    requires k.l == XorBytes(cfg.gsk, idm) && c.dec(k.alpha, k.l) == cfg.usk && c.dec(k.beta, k.alpha) == k.l
    requires c.enc(c.dec(c2a, k.l), k.beta) == c.enc(r2, k.l)
    ensures var st := Settle(c, cfg, idm, r1, c1b, c2a);
            && (c.enc(c.dec(c1b, k.l), k.beta) != c.enc(r1, k.l) ==> st == Err(C1bMismatchError))
            && (c.enc(c.dec(c1b, k.l), k.beta) == c.enc(r1, k.l) ==>
                  st.Ok? && c.enc(c.dec(st.value, k.alpha), k.l) == c.enc(r2, k.alpha))
  {
    KeysMean(c, cfg.gsk, cfg.usk, idm, k);
    hide XorBytes, DeriveKeys;
    ScheduleMeans(c, k, r1, c1b);
    ScheduleMeans(c, k, r2, c2a);
    ScheduleMeans(c, k, r2, C2b(c, k, r2));
  }

  /** The order of the checks on a transcript: the MAC, then the transaction number, then the TID. */
  lemma VerifySessionMeans(c: BlockCipher, gsk: Block, usk: Block, idm: Block, c1b: Block, c2a: Block, auth2: Auth2,
                           k: SessionKeys, r1: Block, r2: Block, pt: Bytes)
    requires c.Invertible() && |pt| == 32
    requires k.l == XorBytes(gsk, idm) && c.dec(k.alpha, k.l) == usk && c.dec(k.beta, k.alpha) == k.l
    requires c.enc(c.dec(c1b, k.l), k.beta) == c.enc(r1, k.l) && c.enc(c.dec(c2a, k.l), k.beta) == c.enc(r2, k.l)
    requires XorBytes(pt[..8], [0, 0, 0, 0, 0, 0, 0, 0]) == c.dec(auth2[..8], r2)
    requires XorBytes(pt[8..16], auth2[..8]) == c.dec(auth2[8..16], r2)
    requires XorBytes(pt[16..24], auth2[8..16]) == c.dec(auth2[16..24], r2)
    requires XorBytes(pt[24..32], auth2[16..24]) == c.dec(auth2[24..32], r2)
    ensures var mac := c.enc(c.enc(c.enc([34, 0x13, 0, 0, 0, 0, 0, 0], pt[..8]), pt[8..16]), pt[16..24]);
            VerifySession(c, gsk, usk, idm, c1b, c2a, auth2) ==
              if mac != pt[24..32] then Err(MacMismatch)
              else if pt[..2] != [0, 0] then Err(UnexpectedTn)
              else if pt[2..8] != r1[2..8] then Err(TidMismatch)
              else Ok(VerifiedSession(r1, r2, pt[8..16], pt[2..8]))
  {
    hide XorBytes, DeriveKeys, Plaintext, BlockCipher.CommandMac;
    KeysMean(c, gsk, usk, idm, k);
    ScheduleMeans(c, k, r1, c1b);
    ScheduleMeans(c, k, r2, c2a);
    PlaintextMeans(c, auth2, r2, pt);
    MacMeans(c, pt);
    var payload := pt[..24];
    assert payload[2..8] == pt[2..8] && payload[8..16] == pt[8..16] && payload[0] == pt[0] && payload[1] == pt[1];
    assert pt[..2] == [pt[0], pt[1]];
  }

  /** What attest answers when the transcript is refused: a wrong transaction number counts as a wrong TID. */
  lemma AttestRefuses(c: BlockCipher, g: Prover.Groth16, r: nat, cfg: Config, idm: Block, c1b: Block, c2a: Block,
                      auth2: Auth2, now: nat)
    requires r > 0
    ensures var v, res := VerifySession(c, cfg.gsk, cfg.usk, idm, c1b, c2a, auth2),
                          Attest(c, g, r, cfg, idm, c1b, c2a, auth2, now);
            && (v == Err(MacMismatch) ==> res == Err(MacMismatchError))
            && (v == Err(TidMismatch) || v == Err(UnexpectedTn) ==> res == Err(TidMismatchError))
            && v != Err(Malformed)
  {
    hide Prover.Prove;
  }

  // -------------------------------------------------------------------- the card

  /** A card: its keys, identifiers and manufacturer data, and the node path the keys belong to. */
  datatype Card = Card(gsk: Block, usk: Block, idm: Block, idi: Block, pmi: Block, areas: seq<Word>,
                       services: seq<Word>)

  /** The r1 the card recovers from C1A. */
  function CardR1(c: BlockCipher, card: Card, c1a: Block): Block {
    var k := DeriveKeys(c, card.gsk, card.usk, card.idm);
    c.TdesDecrypt(c1a, k.alpha, k.l)
  }

  /**
   * Authentication1: a command addressed to this card with exactly its nodes is answered with C1B, for the r1 that
   * the card recovers, and C2A, for the card's own r2.
   */
  function CardAuth1(c: BlockCipher, card: Card, frame: Bytes, r2: Block): Option<Bytes> {
    match Frames.ReadAuthentication1(frame)
    case None => None
    case Some((idm, areas, services, c1a)) =>
      if idm != card.idm || areas != card.areas || services != card.services then None
      else
        var k := DeriveKeys(c, card.gsk, card.usk, card.idm);
        Some([26, 0x11] + card.idm + c.TdesEncrypt(CardR1(c, card, c1a), k.l, k.beta) + c.TdesEncrypt(r2, k.l, k.beta))
  }

  /** TN 0, the tail of r1 as TID, IDi and PMi, followed by their MAC. */
  function Auth2Plaintext(c: BlockCipher, card: Card, r1: Block): (pt: Bytes)
    ensures |pt| == 32
  {
    var payload := [0, 0] + r1[2..8] + card.idi + card.pmi;
    payload + c.CommandMac(MAC_CODE, payload)
  }

  /** Authentication2: the card answers only if C2B decrypts to the r2 it chose. */
  function CardAuth2(c: BlockCipher, card: Card, r1: Block, r2: Block, frame: Bytes): Option<Bytes> {
    var k := DeriveKeys(c, card.gsk, card.usk, card.idm);
    if |frame| != 18 || frame[..10] != [18, 0x12] + card.idm then None
    else if c.TdesDecrypt(frame[10..], k.alpha, k.l) != r2 then None
    else Some([34, 0x13] + c.CbcEncryptZeroIv(Auth2Plaintext(c, card, r1), r2))
  }

  /** The r1 the card recovers from the oracle's C1A is the holder's. */
  lemma CardRecoversR1(c: BlockCipher, k: SessionKeys, card: Card, r1: Block)
    requires c.Invertible() && k == DeriveKeys(c, card.gsk, card.usk, card.idm)
    ensures CardR1(c, card, C1a(c, k, r1)) == r1
  {
    hide DeriveKeys;
    TdesInverse(c, r1, k.alpha, k.l);
  }

  lemma Auth2Verifies(c: BlockCipher, card: Card, r1: Block, r2: Block)
    requires c.Invertible()
    ensures VerifyAuth2(c, r2, c.CbcEncryptZeroIv(Auth2Plaintext(c, card, r1), r2))
            == Ok(Auth2Data(0, r1[2..8], card.idi, card.pmi))
  {
    hide BlockCipher.CommandMac, BlockCipher.CbcEncryptZeroIv;
    CbcInverse(c, Auth2Plaintext(c, card, r1), r2);
    PlaintextParts(c, card, r1);
  }

  lemma PlaintextParts(c: BlockCipher, card: Card, r1: Block)
    ensures var pt := Auth2Plaintext(c, card, r1);
            && pt[24..32] == c.CommandMac(MAC_CODE, pt[..24])
            && pt[0] == 0 == pt[1] && pt[..24][2..8] == r1[2..8] && pt[..24][8..16] == card.idi
            && pt[..24][16..24] == card.pmi
  {
    hide BlockCipher.CommandMac;
    var payload := [0, 0] + r1[2..8] + card.idi + card.pmi;
    assert Auth2Plaintext(c, card, r1)[..24] == payload;
    assert payload[2..8] == r1[2..8] && payload[8..16] == card.idi && payload[16..24] == card.pmi;
  }

  datatype Transcript = Transcript(c1b: Block, c2a: Block, auth2: Auth2)

  /** The reader's part of the first exchange: C1B and C2A, or nothing if a frame or an answer is refused. */
  function FirstExchange(c: BlockCipher, card: Card, ch: ChallengeResponse, r2: Block): Option<(Block, Block)> {
    match Frames.Frame(Frames.Authentication1Payload(card.idm, ch.areas, ch.services, ch.c1a))
    case Err(_) => None
    case Ok(frame) =>
      match CardAuth1(c, card, frame, r2)
      case None => None
      case Some(rx) =>
        match Frames.Authentication1Response(card.idm, rx)
        case Err(_) => None
        case Ok(answer) => Some(answer)
  }

  function SecondExchange(c: BlockCipher, card: Card, r1: Block, r2: Block, c2b: Block): Option<Auth2> {
    match CardAuth2(c, card, r1, r2, Frames.Authentication2(card.idm, c2b))
    case None => None
    case Some(rx) =>
      match Frames.Authentication2Response(rx)
      case Err(_) => None
      case Ok(auth2) =>
        assert |auth2| == 32;
        Some(auth2)
  }

  /** Challenge, Authentication1, settle, Authentication2: what the reader has when it asks for the attestation. */
  function Read(c: BlockCipher, cfg: Config, card: Card, r1: Block, r2: Block): Option<Transcript> {
    match Challenge(c, cfg, card.idm, r1)
    case Err(_) => None
    case Ok(ch) =>
      match FirstExchange(c, card, ch, r2)
      case None => None
      case Some((c1b, c2a)) =>
        match Settle(c, cfg, card.idm, r1, c1b, c2a)
        case Err(_) => None
        case Ok(c2b) =>
          match SecondExchange(c, card, CardR1(c, card, ch.c1a), r2, c2b)
          case None => None
          case Some(auth2) => Some(Transcript(c1b, c2a, auth2))
  }

  /** The card's answer to a command with other nodes, or with more than 117, is none; with its own it is C1B and
      C2A. */
  lemma FirstExchangeExactly(c: BlockCipher, card: Card, ch: ChallengeResponse, r2: Block)
    ensures var k := DeriveKeys(c, card.gsk, card.usk, card.idm);
            FirstExchange(c, card, ch, r2) ==
              if |ch.areas| + |ch.services| <= 117 && ch.areas == card.areas && ch.services == card.services then
                Some((c.TdesEncrypt(CardR1(c, card, ch.c1a), k.l, k.beta), c.TdesEncrypt(r2, k.l, k.beta)))
              else None
  {
    hide DeriveKeys, CardR1, BlockCipher.TdesEncrypt, Frames.Frame, Frames.Authentication1Payload,
         Frames.ReadAuthentication1, Frames.Authentication1Response;
    Frames.Authentication1Decodes(card.idm, ch.areas, ch.services, ch.c1a);
    var frame := Frames.Frame(Frames.Authentication1Payload(card.idm, ch.areas, ch.services, ch.c1a));
    if frame.Ok? {
      var rx := CardAuth1(c, card, frame.value, r2);
      if rx.Some? {
        var k := DeriveKeys(c, card.gsk, card.usk, card.idm);
        var c1b, c2a := c.TdesEncrypt(CardR1(c, card, ch.c1a), k.l, k.beta), c.TdesEncrypt(r2, k.l, k.beta);
        assert Frames.Authentication1Response(card.idm, rx.value) == Ok((c1b, c2a));
      }
    }
  }

  lemma SecondExchangeWorks(c: BlockCipher, card: Card, r1: Block, r2: Block, k: SessionKeys)
    requires c.Invertible() && k == DeriveKeys(c, card.gsk, card.usk, card.idm)
    ensures SecondExchange(c, card, r1, r2, C2b(c, k, r2)) == Some(c.CbcEncryptZeroIv(Auth2Plaintext(c, card, r1), r2))
  {
    hide DeriveKeys, BlockCipher.CbcEncryptZeroIv, Auth2Plaintext, Frames.Authentication2Response,
         Frames.Authentication2;
    TdesInverse(c, r2, k.alpha, k.l);
    var c2b := C2b(c, k, r2);
    var frame := Frames.Authentication2(card.idm, c2b);
    assert frame[..10] == [18, 0x12] + card.idm && frame[10..] == c2b;
    var auth2 := c.CbcEncryptZeroIv(Auth2Plaintext(c, card, r1), r2);
    assert Frames.Authentication2Response([34, 0x13] + auth2) == Ok(auth2);
  }

  /**
   * A card with the oracle's keys is read exactly when there are nodes, at most 117 of them, and they are the card's;
   * then the session verifier recovers the holder's r1, the card's r2 and the card's IDi.
   */
  lemma ReadExactly(c: BlockCipher, cfg: Config, card: Card, r1: Block, r2: Block)
    requires c.Invertible() && card.gsk == cfg.gsk && card.usk == cfg.usk
    ensures Read(c, cfg, card, r1, r2).Some? <==>
            && 0 < |cfg.areas| + |cfg.services| <= 117
            && cfg.areas == card.areas && cfg.services == card.services
    ensures Read(c, cfg, card, r1, r2).Some? ==>
              var t := Read(c, cfg, card, r1, r2).value;
              VerifySession(c, cfg.gsk, cfg.usk, card.idm, t.c1b, t.c2a, t.auth2)
              == Ok(VerifiedSession(r1, r2, card.idi, r1[2..8]))
  {
    hide VerifyAuth2, Auth2Plaintext, DeriveKeys, FirstExchange, SecondExchange, CardR1;
    var k := DeriveKeys(c, cfg.gsk, cfg.usk, card.idm);
    CardRecoversR1(c, k, card, r1);
    var ch := Challenge(c, cfg, card.idm, r1);
    if ch.Ok? {
      FirstExchangeExactly(c, card, ch.value, r2);
      TdesInverse(c, r1, k.l, k.beta);
      TdesInverse(c, r2, k.l, k.beta);
      SecondExchangeWorks(c, card, r1, r2, k);
      Auth2Verifies(c, card, r1, r2);
    }
  }

  /**
   * The whole honest exchange: the challenge carries the configured system code and nodes, the Authentication1 command
   * that is built from it is read by the card as exactly those nodes, and attest certifies the card's IDi and the
   * holder's r1.
   */
  lemma HonestRun(c: BlockCipher, g: Prover.Groth16, p: Setup, cfg: Config, card: Card, r1: Block, r2: Block, now: nat)
    requires p.Valid() && IsDes(c, p.t) && Abi.IsOrder(p.r) && g.CompleteFor(c, p) && now < Abi.TWO_64
    requires card.gsk == cfg.gsk && card.usk == cfg.usk && 0 < |cfg.areas| + |cfg.services| <= 117
    requires cfg.areas == card.areas && cfg.services == card.services
    ensures var ch := Challenge(c, cfg, card.idm, r1);
            && ch.Ok? && ch.value.systemCode == cfg.systemCode
            && var frame := Frames.Frame(
                 Frames.Authentication1Payload(card.idm, ch.value.areas, ch.value.services, ch.value.c1a));
            && frame.Ok?
            && Frames.ReadAuthentication1(frame.value) == Some((card.idm, cfg.areas, cfg.services, ch.value.c1a))
    ensures var read := Read(c, cfg, card, r1, r2);
            && read.Some?
            && var att := Attest(c, g, p.r, cfg, card.idm, read.value.c1b, read.value.c2a, read.value.auth2, now);
            && att.Ok? && att.value.idi == card.idi && att.value.attestedAt == now
            && att.value.publicInputs == Prover.ClaimInputs(card.idi, r1, now)
            && Prover.VerifyDetailed(g, p.r, att.value) == Ok(())
  {
    hide VerifySession, Attest, Read, Prover.ClaimInputs, Prover.VerifyDetailed, Prover.Groth16.CompleteFor, DeriveKeys,
         Frames.Frame, Frames.Authentication1Payload, Frames.ReadAuthentication1, IsDes, IsPrime, Interpolates;
    DesIsInvertible(c, p.t);
    var ch := Challenge(c, cfg, card.idm, r1);
    Frames.Authentication1Decodes(card.idm, cfg.areas, cfg.services, ch.value.c1a);
    ReadExactly(c, cfg, card, r1, r2);
    var t := Read(c, cfg, card, r1, r2).value;
    AttestExactly(c, g, p, cfg, card.idm, t.c1b, t.c2a, t.auth2, now);
  }
}
