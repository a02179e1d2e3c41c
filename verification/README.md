# SuiCash verification

SuiCash lets a FeliCa transit card pay on Sui. A prover turns one card session into a
Groth16 proof of the card's issuance id (IDi); an on-chain gate accepts each proof once;
a daemon beside the card reader turns accepted proofs into transfers. This project models
the logic of those parts in Dafny and proves what they are for.

* **DES, its circuit and the prover** (`Bits`, `Tables`, `Des`, `DesLaws`, `DesReference`,
  `DesNative`, `Modes`, `Field`, `Polynomials`, `Interpolation`, `R1cs`, `Gadgets`,
  `DesCircuit`, `Session`, `SessionCircuit`, `Shape`, `CircuitTheorem`, `CircuitBuilder`,
  `Prover`). DES is written four times: as functions on bit vectors driven by the tables
  (`Des`), as the loops over buffers of `des.rs` (`DesNative`), as constraints (`Gadgets`
  up to `CircuitTheorem`), and once more with every bit of every permutation named, as a
  reference (`DesReference`). The loops compute the functions, the functions are the
  reference for every block and key, the laws of the cipher are proved about them, and the
  constraints are sound and complete for them. A constraint system is a list of constraints
  over wires; `CircuitBuilder` grows one in place, in the loops of `circuit.rs`, into exactly
  the state the theorems speak about.
* **The oracle** (`Oracle`, `Abi`): the challenge schedule, the session verifier, the
  three stateless calls and the packing of public inputs, run against a card that reads the
  frames of `Frames` and answers only commands with its own nodes.
* **The gate** (`FelicaAuth`, `Gate`, `SuicashGate`): the Move byte decoder and the gate
  object with its burned set and allowlist.
* **The payment daemon** (`Shared`, `Facepay`, `Delivery`, `Settling`, `Receipts`): the
  critical sections of the shared state, and all interleavings of taps, removals, reports,
  payment threads, clients and chain operations as runs of a state machine. `Facepay` is
  about the money, `Delivery` about what the terminals are told, `Settling` about what they
  end up displaying, and `Receipts` about what a reported result means. A call of the
  payment helper can fail before the transaction is submitted, or after it was executed and
  before it is reported.
* **The whole path** (`EndToEnd`): from the reading of a card to the transfer.
* **Independent cores**: the card-face binarizer (`Binarizer`), the printed card number
  (`CardNumber`), the FeliCa frames (`Frames`) and the packet list (`PacketList`).

The tables of FIPS 46-3 are in `Tables`; the laws of the cipher use only the few properties
collected in `RawTables.Valid`, and `Standard` shows that the real tables have them.
`DesReference` says entry by entry what the tables are. The field is any prime field whose
order lies between 2^253 and 2^254.

The main definitions come in pairs. Lemmas named `...Mean` or `...Means` say what a
specification function computes without using it: block equations for the session and its
modes, byte positions for frames and blobs, address by address for the ledger, pixel by
pixel for the window, and the order of the refusals for everything that can refuse.

Check everything with `dafny verify dfyconfig.toml`.

## Results that are not plain confirmations

* `prove_compressed` has two `C1bMismatch` returns and `attest` has an "IDi disagrees"
  return; none of the three can be taken (`Prover.NeverC1bMismatch`,
  `Oracle.IdiNeverDisagrees`). `authentication2` tests the opcode a second time, which
  can never fail (`Frames.Authentication2Response`).
* `cardNumberToIdi(idiToCardNumber(b)) = b` is false in general. It holds exactly when
  the top bit of byte 4 is clear and byte 0 is not `FC` (`CardNumber.RoundTripExactly`):
  the printed year has six bits, and a hexadecimal head that begins with `FC` is read as
  the two-letter prefix of another issuer (`CardNumber.LostIdis` shows one IDi of each kind).
* The clean-up of recognized text and the display format keep 17 characters, so the
  19-character numbers of unknown issuers do not survive either of them
  (`CardNumber.CleanKeepsCardNumbers`, `CardNumber.FormatKeepsSeventeen`).
* Pushing a packet that is already linked drops every packet behind it
  (`PacketList.PushKeepsAll`); only runs that push unlinked packets lose nothing.
* The date check `v > 0xffff` of `cardNumberToIdi` can never fire, because two decimal
  digits of a year need at most seven bits (`CardNumber.DateNeverOverflows`); the model
  keeps it.
* Every connected terminal gets the message about the latest write of the mode, the card
  and the last result (`Delivery.ClientsAreInformed`), but it does not always end up
  displaying what is stored, because sends happen outside the lock and the broadcasts of
  two writers can overtake each other; `Delivery.RacingWritersMislead` is a run in which a
  cancelled payment stays on the display. The exact condition is known at the moment of a
  write: a connected terminal ends up right whatever happens next, short of another write
  of that topic, exactly when no broadcast with another message about the topic is under
  way to it then (`Settling.RiskyWritesExactly`); `Settling.SettlesExactly` is the same for
  every reachable state. Writers that take turns are always right (`Delivery.TurnsDisplay`),
  and the one thread that reads cards does take turns (`Delivery.CardIsDisplayed`).
* A terminal is told of a success only if a transfer was made for that very payment
  (`Receipts.SuccessMeansTransfer`). The reverse fails: whatever the daemon is not told
  succeeded, it reports as failed. `Receipts.LostReportMisleads` is such a run, and the
  result says ok exactly when the transaction went through and the helper's report arrived
  (`Receipts.ExecuteReportsExactly`, and `Receipts.ResultsAreExact` for every run).

Where documentation and code disagree the model follows the code: the list of steps above
`verify_attestation_detailed` (prover/src/lib.rs:206-212) puts the envelope check before
the pairing check, the code runs it after, so a bad proof in a bad envelope is reported as
`ProofInvalid`.

## Model

| member | source | states |
|---|---|---|
| DesLaws.PermuteInverse | prover/src/des.rs:184-189 | the table built by `fp[IP[i]] = i` undoes the permutation, in both orders, for every permutation table |
| DesLaws.RoundsReversed | prover/src/des.rs:166-183 | running the Feistel rounds on swapped halves with the round keys reversed restores the input halves, for any number of keys |
| DesLaws.DesBlockInverse | prover/src/des.rs:159-200 | encryption and decryption under one key undo each other on every block |
| DesLaws.DesIsInvertible | prover/src/des.rs:193-200 | DES as a cipher is invertible in both orders; every law over an invertible cipher applies to it |
| DesLaws.DesComplement | prover/src/des.rs:113-191 | complementing data and key complements the output, both directions |
| DesLaws.TdesComplement | prover/src/des.rs:202-213 | the same for two-key 3DES |
| DesLaws.ParityIsIgnored | prover/src/des.rs:121-137 | keys that differ only in the low bit of each byte give the same round keys and the same output |
| DesReference.DesIsReference | prover/src/des.rs:9-200 | a block is DES of the data and key exactly when it is what a second definition gives, which names every bit of E, P, PC-1, PC-2, IP and the rotations by field and looks S-boxes up by row and column |
| DesReference.MappedByNumber | prover/src/des.rs:56-81 | entry v of the table behind the polynomials is the S-box entry in row 2 * (v / 32) + v % 2 and column v / 2 % 16 |
| DesReference.RowsArePermutations | prover/src/des.rs:44-55 | every row of every S-box holds each of the sixteen values |
| DesReference.NumbersOfS1 | prover/src/des.rs:44-55 | the rows of S1 as four 16-digit hexadecimal numbers; `NumbersOfS2` to `NumbersOfS8` are the other boxes |
| DesReference.Vector | prover/src/des.rs:349-359 | the vector of the repository: 0123456789abcdef under 133457799bbcdff1 is 85e813540f0ab405 |
| Modes.TdesInverse | prover/src/des.rs:202-213 | two-key EDE encryption and decryption are mutual inverses |
| Modes.TdesMeans | prover/src/des.rs:202-213 | y is two-key EDE of x exactly when undoing K1 on y and encrypting under K2 gives x encrypted under K1; the same for decryption |
| Modes.TdesCollapses | prover/src/des.rs:356-358 | with K1 = K2 both directions are single DES |
| Modes.CbcInverse | prover/src/des.rs:215-261 | zero-IV CBC encryption and decryption are mutual inverses for every whole number of blocks |
| Modes.CbcDecryptMeans | prover/src/des.rs:245-261 | for every length: pt is the decryption exactly when each of its blocks, xored with the previous ciphertext block or eight zeros, is the block decryption; misaligned input gives None |
| Modes.CbcEncryptMeans | prover/src/des.rs:215-243 | the same equations characterise encryption |
| Modes.CommandMacMeans | prover/src/des.rs:263-276 | the MAC is the last of any chain that starts at length plus ten and code and encrypts each value under the next block |
| DesNative.BytesToDesBits | prover/src/des.rs:84-93 | the shift-and-mask loop reads the bits in DES order |
| DesNative.DesBitsToBytes | prover/src/des.rs:95-103 | the bit-setting loop gives the only block with those DES-ordered bits |
| DesNative.SetBitSets | prover/src/des.rs:95-103 | or-ing in one bit changes that bit and no other |
| DesNative.PermuteBits | prover/src/des.rs:105-111 | the permutation loop, for every table within range |
| DesNative.Rotl28 | prover/src/des.rs:113-119 | the rotation loop |
| DesNative.RoundKeysOf | prover/src/des.rs:121-137 | the sixteen round keys, with both halves rotated before each key is taken |
| DesNative.FeistelOf | prover/src/des.rs:139-157 | the round function, with the S-box outputs stored bit by bit |
| DesNative.InvertTable | prover/src/des.rs:184-188 | the loop that inverts IP |
| DesNative.DesBlockOf | prover/src/des.rs:159-191 | the whole block, both directions, equals the specification the laws are about |
| DesNative.SBoxMapped | prover/src/des.rs:65-81 | the table by number agrees with the lookup by bits |
| DesNative.CbcEncryptZeroIv | prover/src/des.rs:215-243 | the chunk loop is the CBC that `Modes.CbcInverse` inverts |
| DesNative.CbcDecrypt | prover/src/des.rs:245-261 | the same for decryption; `None` exactly on misaligned input |
| DesNative.CommandMac | prover/src/des.rs:263-276 | the MAC loop, each block used as a key |
| DesNative.StackedTdes | server/src/oracle/schedule.rs:94-123 | 3DES over the K1, K2, K1 buffer is two-key EDE, and the buffer is zero afterwards |
| DesNative.XorBlocks | server/src/oracle/schedule.rs:77-83 | the in-place xor loop |
| Field.PrimeMeans | prover/src/circuit.rs:38-42 | the order has inverses because it is prime: no product of two numbers above one |
| Interpolation.BuildSystem | prover/src/circuit.rs:20-31 | the Vandermonde matrix with the table as last column |
| Interpolation.NormalizePivot | prover/src/circuit.rs:32-42 | the pivot search never runs off the matrix; swapping and scaling keep the solution set |
| Interpolation.EliminateColumn | prover/src/circuit.rs:43-53 | clearing the other rows keeps the solution set and the columns already reduced |
| Interpolation.ScaleRow | prover/src/circuit.rs:39-42 | the scaling loop over the tail of a row in place |
| Interpolation.ClearRow | prover/src/circuit.rs:43-53 | the subtraction loop over the tail of a row in place |
| Interpolation.PivotExists | prover/src/circuit.rs:33-37 | a column without a pivot would give a non-zero polynomial of low degree with too many roots |
| Polynomials.TooManyRoots | prover/src/circuit.rs:33-37 | a polynomial with as many distinct roots as coefficients is zero |
| Interpolation.Interpolate | prover/src/circuit.rs:19-56 | for every table with distinct points the loop ends with reduced coefficients whose sum of c[j] * i^j is table entry i in the field |
| Interpolation.InterpolationIsUnique | prover/src/circuit.rs:19-56 | there are no other coefficients of that length |
| Interpolation.InterpolatesMeans | prover/src/circuit.rs:77-84 | interpolating coefficients are those whose sum of c[j] * i^j is table entry i in the field, for every i |
| Gadgets.PolyExprValue | prover/src/circuit.rs:77-84 | the constraint expression evaluates to the Horner value of the polynomial at the input |
| R1cs.BooleanMeaning | prover/src/circuit.rs:86-96 | the boolean constraint holds exactly for 0 and 1 |
| R1cs.XorMeaning | prover/src/circuit.rs:266-274 | the xor constraint holds exactly when the third wire is the xor of the first two |
| R1cs.PackIsValue | prover/src/circuit.rs:148-162 | the weighted sum of boolean wires is the number they spell, in the field |
| Gadgets.XorBitsSound | prover/src/circuit.rs:266-274 | in every satisfying assignment the output wires are the xor of the input wires |
| Gadgets.SBoxSound | prover/src/circuit.rs:130-166 | in every satisfying assignment the four outputs are the S-box of the six inputs, whatever the hint |
| Gadgets.SBoxComplete | prover/src/circuit.rs:130-166 | with the true hint the new values satisfy the new constraint |
| Gadgets.RoundSound | prover/src/circuit.rs:260-303 | one constrained round computes the native round |
| Gadgets.RoundComplete | prover/src/circuit.rs:260-303 | with true hints a round keeps the system satisfied |
| Gadgets.RoundsSound | prover/src/circuit.rs:260-303 | all rounds together compute the native rounds |
| Gadgets.RoundsComplete | prover/src/circuit.rs:260-303 | with true hints all rounds keep the system satisfied |
| DesCircuit.RoundKeyVals | prover/src/circuit.rs:168-185 | the wired round keys carry the native round keys of the key the wires carry |
| DesCircuit.DesGSound | prover/src/circuit.rs:190-314 | soundness of the DES gadget: outputs are DES of the data and key bits for every hint, both directions |
| DesCircuit.DesGComplete | prover/src/circuit.rs:190-314 | completeness of the DES gadget: true hints satisfy it |
| DesCircuit.DesGCarries | prover/src/circuit.rs:190-314 | wires that carry bytes are turned into wires that carry DES of those bytes |
| DesCircuit.FlipCarries | prover/src/circuit.rs:98-121 | the two reorderings exchange little-endian and DES order of the same bytes |
| DesCircuit.ChainCarries | prover/src/circuit.rs:316-339 | a chain of gadgets computes the chain of native calls |
| DesCircuit.TdesChain | prover/src/circuit.rs:316-339 | the chain E(k1) D(k2) E(k1) is native 3DES |
| SessionCircuit.WitnessStageSound | prover/src/circuit.rs:407-432 | every satisfying assignment carries bytes for all witnesses, and the first two public inputs are the packed idi and r1 |
| SessionCircuit.KeyStageSound | prover/src/circuit.rs:434-471 | D1 to D3: the carried l is gsk xor IDm, alpha decrypts under l to usk, and the carried beta decrypts under alpha to l |
| SessionCircuit.ChallengeStageSound | prover/src/circuit.rs:479-504 | C1 and C2 hold of the carried bytes |
| SessionCircuit.PlainStageSound | prover/src/circuit.rs:506-542 | C3: the plaintext wires carry the CBC decryption |
| SessionCircuit.MacStageSound | prover/src/circuit.rs:544-566 | C4: the carried MAC is the command MAC of the carried plaintext |
| SessionCircuit.BindStageSound | prover/src/circuit.rs:568-575 | C5 and C6: TID is the tail of r1, and the IDi is the public one |
| CircuitTheorem.CircuitSound | prover/src/circuit.rs:403-578 | every satisfying assignment yields session bytes that meet all native relations, D1 to D3 and C1, C2 spelled out as block equations, and the public inputs are the values of idi and r1 and the time, in that order |
| CircuitTheorem.CircuitComplete | prover/src/circuit.rs:403-578 | bytes that meet the relations give satisfying values |
| CircuitTheorem.HintsSatisfyIff | prover/src/circuit.rs:403-578 | the hint-built assignment satisfies the circuit exactly when the given bytes meet the relations |
| CircuitTheorem.ConstraintsAreFixed | prover/src/circuit.rs:377-391 | the constraints do not depend on the session, so the key made from the blank session serves all |
| CircuitTheorem.SatisfiableIff | prover/src/circuit.rs:403-578 | the circuit is satisfiable for (idi, r1, attested_at) exactly when private bytes exist that meet the relations |
| CircuitTheorem.SessionSatisfies | prover/src/circuit.rs:403-578 | the converse without naming a relation: bytes, keys and a plaintext that meet the block equations D1 to D3 and C1 to C6 satisfy the published circuit with the public inputs of the session |
| CircuitBuilder.BuildSetup | prover/src/circuit.rs:58-75 | the eight S-box polynomials interpolate their tables |
| CircuitBuilder.EvalPoly | prover/src/circuit.rs:77-84 | the loop from the top coefficient builds the Horner expression |
| CircuitBuilder.LeToDes | prover/src/circuit.rs:98-109 | the reading loop is the reordering |
| CircuitBuilder.DesToLe | prover/src/circuit.rs:111-121 | the writing loop is the same reordering, which is its own inverse |
| CircuitBuilder.RoundKeyVars | prover/src/circuit.rs:168-185 | the rotating loop wires the scheduled round keys |
| CircuitBuilder.ConstraintSystem.AllocLeBits | prover/src/circuit.rs:86-96 | one boolean witness per bit, in little-endian order |
| CircuitBuilder.ConstraintSystem.XorBits | prover/src/circuit.rs:266-274 | the xor loop adds the wires and constraints of the xor gadget |
| CircuitBuilder.ConstraintSystem.SBoxGadget | prover/src/circuit.rs:127-166 | adds the four hinted bits and the polynomial constraint, and nothing else |
| CircuitBuilder.ConstraintSystem.RoundGadget | prover/src/circuit.rs:260-303 | one pass of the round loop |
| CircuitBuilder.ConstraintSystem.RoundsGadget | prover/src/circuit.rs:260-303 | the sixteen-round loop over wires and native hints ends in the state the soundness theorem is about |
| CircuitBuilder.ConstraintSystem.DesGadget | prover/src/circuit.rs:187-314 | the whole gadget, both directions |
| CircuitBuilder.ConstraintSystem.ChainGadget | prover/src/circuit.rs:316-339 | consecutive gadgets, with native bytes as hints of the next one |
| CircuitBuilder.ConstraintSystem.PlainGadget | prover/src/circuit.rs:522-542 | the four-block CBC loop |
| CircuitBuilder.ConstraintSystem.MacGadget | prover/src/circuit.rs:544-566 | the three-block MAC loop and its comparison |
| CircuitBuilder.ConstraintSystem.GenerateConstraints | prover/src/circuit.rs:403-578 | the circuit as built is the one of `CircuitTheorem` |
| CircuitBuilder.SynthesizeSession | prover/src/circuit.rs:403-578 | a fresh system built from a session is satisfied exactly when its bytes meet D1 to D3 and C1 to C6 |
| Session.PlaintextIsCbc | prover/src/circuit.rs:508-537 | the block-by-block plaintext is the zero-IV CBC decryption |
| Session.KeysMean | prover/src/lib.rs:362-366 | the derived keys are the one triple with l = gsk xor IDm, dec(alpha, l) = usk and dec(beta, alpha) = l |
| Session.PlaintextMeans | prover/src/circuit.rs:508-537 | C3: each plaintext block xored with the previous ciphertext block, or zeros, is the block decryption |
| Session.MacMeans | prover/src/circuit.rs:544-566 | C4: three encryptions under the plaintext blocks, starting at 34, 0x13 and zeros, give the last eight bytes |
| Session.RelationsMean | prover/src/circuit.rs:434-575 | D1 to D3 and C1 to C6 hold exactly when the block equations do, for every key triple and plaintext that meet theirs |
| Abi.Bn254Order | prover/src/abi.rs:91-110 | the scalar field of BN254 lies in the range that is assumed of the order |
| Abi.CanonicalExactly | prover/src/abi.rs:91-110 | accepts exactly the byte strings of at most 32 bytes that spell a number below the order |
| Abi.LimbOfScalar | prover/src/abi.rs:77-89 | a scalar reads back as an 8-byte limb exactly when it is below 2^64 |
| Abi.DecodeEncode | prover/src/abi.rs:127-153 | decoding an encoded claim gives the claim |
| Abi.EncodeDecode | prover/src/abi.rs:127-153 | encoding a decoded vector gives the vector |
| Abi.LeValueMeans | prover/src/abi.rs:91-110 | the value of bytes is that of their base-256 digits, lowest first |
| Abi.ParseInputs | prover/src/lib.rs:284-296 | the decoding loop with its early return: it succeeds exactly for three strings of at least 32 bytes whose first 32 spell numbers below the order, and returns these |
| Abi.PackInputs | prover/src/lib.rs:314-328 | the packing loop: the 96 bytes are the first 32 of each decoded string |
| Prover.NeverC1bMismatch | prover/src/lib.rs:368-377 | the two re-encryption checks never fail |
| Prover.PreChecksMean | prover/src/lib.rs:356-407 | which error comes first: the MAC chain is compared before the TID, and the session returned is read off the plaintext; stated by block equations |
| Prover.PreChecksExact | prover/src/lib.rs:356-407 | the pre-checks pass exactly when some (idi, r1, r2) meets the relations; that triple is unique and is the one used |
| Prover.PreChecksDecideHints | prover/src/lib.rs:356-407 | the same for the circuit with computed hints: they pass exactly when the hint-built values of some session for the request satisfy it |
| Prover.PreChecksDecideCircuit | prover/src/lib.rs:356-407 | they pass exactly when any wire values at all that carry the request's bytes satisfy the published circuit, and every such assignment has the public inputs of the recovered session |
| Prover.ProveMeansPreChecks | prover/src/lib.rs:356-445 | if every satisfied circuit gets a verifying proof, proving succeeds exactly when the pre-checks pass, and its result verifies |
| Prover.VerifiedExactly | prover/src/lib.rs:221-242 | an attestation is accepted exactly when label and points decode and the proof verifies for the claim its envelope shows, with some r1 |
| Prover.VerifyOrder | prover/src/lib.rs:221-242 | the refusals in their order: malformed label, points or scalars, then a proof that fails, then scalars that are no limbs, then an IDi or time other than the envelope's |
| Prover.ClaimInputsMean | prover/src/abi.rs:127-141 | the wire scalars of a claim are IDi, r1 and the time in that order, 32 bytes each, lowest first |
| Prover.OwnAttestationVerifies | prover/src/lib.rs:221-242 | the envelope made by the prover passes the envelope check whenever its proof verifies |
| Oracle.CheckIsRecovery | server/src/oracle/mod.rs:51-60 | the genuine C1B check passes exactly for the r1 recovered from c1b |
| Oracle.ScheduleMeans | server/src/oracle/schedule.rs:53-72 | the five schedule functions as block equations: C1A and C2B under alpha and l, C1B and C2A under l and beta |
| Oracle.ChallengeMeans | server/src/api/service.rs:22-38 | a challenge carries the configured system code, areas and services and the C1A of r1, and is refused exactly when no node is configured |
| Oracle.SettleMeans | server/src/api/service.rs:46-63 | settle refuses exactly a C1B that is not that of r1, and answers the C2B of the r2 behind C2A |
| Oracle.VerifySessionMeans | server/src/oracle/mod.rs:193-225 | the order of the checks on a transcript: MAC, transaction number, TID; stated by block equations |
| Oracle.AttestRefuses | server/src/api/service.rs:79-85 | the error of a refused transcript; a wrong transaction number is reported as a wrong TID |
| Oracle.VerifierMatchesProver | server/src/oracle/mod.rs:193-225 | the session verifier accepts exactly the transcripts with passing pre-checks and transaction number zero, with the same r1, r2 and IDi |
| Oracle.IdiNeverDisagrees | server/src/api/service.rs:119-128 | the disagreement branch is unreachable |
| Oracle.AttestExactly | server/src/api/service.rs:65-142 | if every satisfied circuit gets a verifying proof, attest succeeds exactly on verified transcripts and certifies their claim |
| Oracle.SettleAgreesWithAttest | server/src/api/service.rs:46-63 | settle accepts (r1, c1b) exactly when r1 is what attest recovers from c1b |
| Oracle.FirstExchangeExactly | usb-poc/src/card.rs:280-325 | the card answers a command with its own nodes, at most 117, with its C1B and C2A, and no other command |
| Oracle.ReadExactly | usb-poc/src/bin/facepay.rs:587-609 | a card with the oracle's keys is read exactly when there are nodes, at most 117 of them, and they are the card's; then the session verifier recovers r1, r2 and the IDi |
| Oracle.HonestRun | server/src/api/service.rs:22-142 | challenge, card, settle, card, attest succeeds for all keys, challenges and nodes that fit one command: the Authentication1 frame built from the challenge is read by the card as the configured nodes, and the attestation certifies the card's IDi and the holder's r1 |
| FelicaAuth.CopyScalar | sui/felica_oracle/sources/felica_auth.move:153-168 | the copy loop, with its bound check |
| FelicaAuth.CheckCanonicalLimb | sui/felica_oracle/sources/felica_auth.move:206-220 | true exactly for 32 bytes with 24 zeros at the top |
| FelicaAuth.ReadLimb | sui/felica_oracle/sources/felica_auth.move:170-186 | the limb of a canonical scalar, abort otherwise |
| FelicaAuth.ReadLittleEndian | sui/felica_oracle/sources/felica_auth.move:195-203 | shift-and-or in 64 bits reads the eight base-256 digits, the lowest first |
| FelicaAuth.ReadU64 | sui/felica_oracle/sources/felica_auth.move:188-204 | the number of a canonical scalar, abort otherwise |
| FelicaAuth.AssertEnvelopeConsistent | sui/felica_oracle/sources/felica_auth.move:105-124 | returns exactly for a consistent envelope and aborts otherwise |
| FelicaAuth.AssertChallengeMatches | sui/felica_oracle/sources/felica_auth.move:126-134 | both abort cases and the success case |
| FelicaAuth.EnvelopeMeans | sui/felica_oracle/sources/felica_auth.move:105-124 | consistent exactly when bytes 0 to 7 are the IDi, bytes 64 to 71 spell the time and the padding of all three scalars is zero |
| FelicaAuth.ChallengeMeans | sui/felica_oracle/sources/felica_auth.move:126-134 | the three refusals in their order, by byte position |
| FelicaAuth.ProverEmitsBlob | prover/src/lib.rs:314-328 | the 96 bytes the prover emits are the claim's three scalars |
| FelicaAuth.AcceptedBlobIsUnique | sui/felica_oracle/sources/felica_auth.move:105-134 | the Move checks accept a claim with a blob exactly when the blob is the prover's for that claim |
| FelicaAuth.BlobMeans | prover/src/lib.rs:314-328 | the blob of a claim byte by byte |
| Gate.Gate.constructor | sui/felica_oracle/sources/gate.move:75-89 | a new gate is open exactly when its list is empty |
| Gate.Gate.CheckAdmits | sui/felica_oracle/sources/gate.move:203-213 | the scan decides admission |
| Gate.Gate.CheckProof | sui/felica_oracle/sources/zk_verifier.move:58-88 | envelope first, then the opaque pairing check, with an abort of the library kept apart from a proof that fails |
| Gate.Gate.VerifyAndClaim | sui/felica_oracle/sources/gate.move:91-124 | burns r1 and returns the IDi, or aborts with the first failing check and changes nothing |
| Gate.Gate.AllowIdi | sui/felica_oracle/sources/gate.move:137-148 | appends and closes |
| Gate.Gate.DisallowIdi | sui/felica_oracle/sources/gate.move:150-168 | removes the first copy only, aborts if there is none |
| Gate.Gate.SetMaxDrift | sui/felica_oracle/sources/gate.move:175-186 | changes the bound and nothing else |
| Gate.ClaimExactly | sui/felica_oracle/sources/gate.move:91-124 | a claim is accepted exactly for the prover's own blob, at most the drift before or after the chain's time, for an IDi on the list or an open gate, a fresh r1 and a valid proof; then only r1 is burned |
| Gate.ClaimOrder | sui/felica_oracle/sources/gate.move:102-124 | which abort comes first for every claim: time, IDi, challenge, replay, envelope, proof |
| Gate.StepMeans | sui/felica_oracle/sources/gate.move:91-186 | what each operation of a run needs to succeed and every field it leaves behind |
| Gate.BurnedExactlyOnce | sui/felica_oracle/sources/gate.move:102-124 | over every run the burned set is exactly the r1s of accepted claims, each accepted once |
| Gate.SeenOnlyGrows | sui/felica_oracle/sources/gate.move:102-124 | no operation forgets a burned r1 |
| Gate.ReplayAborts | sui/felica_oracle/sources/gate.move:113-122 | a second claim of a burned r1 aborts, whatever happened in between |
| Gate.OpenMeansEmpty | sui/felica_oracle/sources/gate.move:137-168 | an open gate always has an empty list |
| Gate.ClosedForever | sui/felica_oracle/sources/gate.move:137-168 | a closed gate never reopens |
| Gate.ClosedGateAdmits | sui/felica_oracle/sources/gate.move:137-213 | a closed gate admits an IDi exactly while initial copies plus allows minus successful disallows is positive |
| SuicashGate.Deployment.VerifyPresentation | sui/felica_oracle/sources/suicash_gate.move:144-174 | one event per accepted presentation, nothing on abort |
| SuicashGate.AcceptedPresentation | sui/felica_oracle/sources/suicash_gate.move:144-174 | an accepted presentation burns a fresh r1 and its event names the proved IDi |
| Shared.Shared.SetPayMode | usb-poc/src/bin/facepay.rs:327-332 | the locked write, and the message that follows it |
| Shared.Shared.FaceOk | usb-poc/src/bin/facepay.rs:289-303 | takes the attestation only when a payment starts |
| Shared.Shared.OnCard | usb-poc/src/bin/facepay.rs:639-654 | IDi and attestation are stored together |
| Shared.Shared.OnRemoval | usb-poc/src/bin/facepay.rs:569-578 | both are cleared together |
| Shared.Shared.EmitPayment | usb-poc/src/bin/facepay.rs:395-399 | the result is kept for later clients |
| Shared.Shared.Connect | usb-poc/src/bin/facepay.rs:228-249 | a fresh id joins, and the snapshot is the mode, card and result stored at that moment, in that order |
| Shared.Shared.Disconnect | usb-poc/src/bin/facepay.rs:271-275 | exactly the given id leaves |
| Facepay.TransferConserves | usb-poc/facepay/sui-pay.mjs:158-173 | split and transfer keep the sum of all balances, also when payer and merchant coincide |
| Facepay.TransferMoves | usb-poc/facepay/sui-pay.mjs:158-173 | address by address: the payer has the amount less, the payee the amount more, nobody else notices, and paying oneself changes nothing |
| Facepay.TapShowsExactly | usb-poc/src/bin/facepay.rs:522-568 | a new card is stored with its attestation and announced with its balance, or zero if the lookup is not answered; a card that was not removed is not read again |
| Facepay.RemovalClearsExactly | usb-poc/src/bin/facepay.rs:569-583 | a removal forgets the card and its attestation, keeps mode and last result, and is announced |
| Facepay.ApprovalTakesExactly | usb-poc/src/bin/facepay.rs:281-303 | an approval starts one payment of the asked amount for the card on the reader and takes its attestation |
| Facepay.JobsConsistentStep | usb-poc/src/bin/facepay.rs:289-302 | a stored or taken attestation always names the IDi whose wallet will be debited |
| Facepay.AttestationsCountedStep | usb-poc/src/bin/facepay.rs:289-302 | threads that hold an attestation plus executed transfers never outnumber completed taps |
| Facepay.TransfersBackedStep | usb-poc/src/bin/facepay.rs:339-393 | every transfer has its own burned r1, debits the wallet of the IDi it proves and goes to the configured merchant |
| Facepay.LedgerExactStep | usb-poc/facepay/sui-pay.mjs:158-173 | every step keeps: each address holds what it began with, plus deposits and transfers to it, minus transfers from it, and only deposits change the sum |
| Delivery.ClientsDistinctStep | usb-poc/src/bin/facepay.rs:228-276 | client ids stay distinct and below the next id |
| Delivery.StepsAnnounce | usb-poc/src/bin/facepay.rs:327-399 | a step that writes a topic starts the broadcast about exactly that write; every other step of the threads changes no topic and sends nothing |
| Delivery.KnownStep | usb-poc/src/bin/facepay.rs:158-166 | whatever was sent or is under way is about a write that happened, and there is only one message about the latest one |
| Delivery.NothingLostStep | usb-poc/src/bin/facepay.rs:158-166 | every step keeps: each connected client was sent the message about the latest write, or joined after that write cleared the topic, or the message is still on its way to it |
| Facepay.PaymentsAreSafe | usb-poc/src/bin/facepay.rs:281-399 | over every run: transfers bounded by taps, each from the wallet its proof is about to the merchant with its own burned r1, and every address holds its initial balance plus deposits and transfers to it minus transfers from it |
| Delivery.ClientsAreInformed | usb-poc/src/bin/facepay.rs:158-276 | over every run: unless the message about the latest write of a topic is still on its way to a connected client, the client was sent that very message, or joined after the write that cleared the topic |
| Delivery.DisplayExactly | usb-poc/src/bin/facepay.rs:158-276 | over every run: such a client displays the latest write of a topic exactly when the last message it received about the topic is the newest it received, and then it displays what is stored |
| Delivery.TurnsDisplay | usb-poc/src/bin/facepay.rs:158-332 | over every run in which each write of a topic waits for the previous broadcast about it, such a client displays exactly what is stored |
| Delivery.CardTakesTurns | usb-poc/src/bin/facepay.rs:522-583 | in every run the writes of the card topic wait for the previous broadcast about it |
| Delivery.CardIsDisplayed | usb-poc/src/bin/facepay.rs:522-583 | over every run: an informed client displays exactly the stored card, or none when none is stored |
| Delivery.EveryoneIsTold | usb-poc/src/bin/facepay.rs:158-276 | over every run: with nothing on its way to it, a connected client has the latest mode and the latest result, and its last message about the card is the stored card, or a removal or none when none is stored |
| Delivery.RacingWritersMislead | usb-poc/src/bin/facepay.rs:327-332 | a run of two racing writers after which a terminal displays a cancelled payment, with nothing on its way to it |
| Settling.SettlesExactly | usb-poc/src/bin/facepay.rs:158-276 | in every reachable state: no continuation without writes of the topic leaves a connected client displaying something else than what is stored, exactly when everything under way to it shows what is stored and, if nothing is, its display already does |
| Settling.RiskyWritesExactly | usb-poc/src/bin/facepay.rs:327-332 | after a write of a topic in any run, the same holds exactly when no broadcast with another message about the topic was under way to the client at the moment of the write |
| Settling.StaysSettled | usb-poc/src/bin/facepay.rs:158-276 | what settles stays settled in every continuation without writes of the topic |
| Settling.UnsettledMisleads | usb-poc/src/bin/facepay.rs:158-166 | from any other state a continuation that only sends leaves the client wrong with nothing under way to it |
| Receipts.NumberedStep | usb-poc/src/bin/facepay.rs:339-399 | every step keeps: results are numbered as they are recorded, and each transfer carries the number of the result of its own job, with the IDi, amount and r1 of that job |
| Receipts.SuccessMeansTransfer | usb-poc/src/bin/facepay.rs:339-399 | over every run: each success message, stored, under way or received, has exactly one transfer of its own, made for the job whose result it reports, of the reported amount and with the burned r1 of that job |
| Receipts.HeardMeans | usb-poc/src/bin/facepay.rs:395-399 | which results the rows above and below are about: the stored one, those on their way and those sent to a client |
| Receipts.ResultsAreExact | usb-poc/src/bin/facepay.rs:339-399 | over every run: a payment message says ok exactly when the transfer for its result was made and its success learnt |
| Receipts.ExecuteReportsExactly | usb-poc/src/bin/facepay.rs:366-393 | the payment step records ok, the amount and the balance after it when the transaction goes through and the helper reports it, and otherwise a failure with the balance seen before |
| Receipts.CheckReportsExactly | usb-poc/src/bin/facepay.rs:339-364 | the results recorded before a transfer is tried, in their order: no merchant, no attestation, too little balance |
| Receipts.LostReportMisleads | usb-poc/src/bin/facepay.rs:366-424 | whenever a payment can go through, there is a run in which it does and the only client was told nothing but that it failed |
| EndToEnd.GateAcceptsProofs | sui/felica_oracle/sources/suicash_gate.move:144-174 | the gate accepts what the daemon presents exactly when time, IDi and r1 pass and the proof is about the attestation's claim with that r1 |
| EndToEnd.GateMatchesVerifier | prover/src/lib.rs:221-242 | what the gate accepts the off-chain verifier accepts |
| EndToEnd.IdealSystem | sui/felica_oracle/sources/zk_verifier.move:58-88 | the two assumptions can hold together with soundness: a proof system whose proofs verify exactly for satisfiable public inputs meets them |
| EndToEnd.CertifyExactly | usb-poc/src/bin/facepay.rs:585-613 | a card with the oracle's keys is certified exactly when the configured nodes are the card's and fit one command |
| EndToEnd.TapPaysOnce | usb-poc/src/bin/facepay.rs:585-637 | a genuine card read with a fresh r1 at an admitting gate in time: the payment goes through exactly when the balance suffices, names the card, takes the amount from its wallet and gives it to the merchant and touches no other address, and after any further use of the gate no payment with that r1 succeeds |
| Binarizer.Luminance | regist-web/src/lib/ocr.ts:56-60 | the RGBA loop, within bounds: ten times the result is the weighted sum r + 6g + 3b, rounded down |
| Binarizer.IntegrateRow | regist-web/src/lib/ocr.ts:64-70 | one row of the integral image, every earlier cell kept |
| Binarizer.Integrate | regist-web/src/lib/ocr.ts:62-70 | every cell is the sum of all luminance above and to the left |
| Binarizer.FourCorners | regist-web/src/lib/ocr.ts:84-88 | a rectangle sum is the signed sum of four corner sums |
| Binarizer.Clipping | regist-web/src/lib/ocr.ts:78-82 | clipping the window to the image changes no sum over image pixels |
| Binarizer.WindowHoldsItsCentre | regist-web/src/lib/ocr.ts:83-83 | the area that is divided by is the number of image pixels in the window, and is positive |
| Binarizer.WindowMeans | regist-web/src/lib/ocr.ts:72-83 | the pixels that are summed and counted are those at most ten away, or at most a 32nd of the width, along both axes, whatever the radius is called |
| Binarizer.IdealMeans | regist-web/src/lib/ocr.ts:84-90 | pixel p is white exactly when its luminance plus 8, times the number of near pixels, is at least their sum |
| Binarizer.BlacksMean | regist-web/src/lib/ocr.ts:91-91 | the counted blacks are the number of zero pixels |
| Binarizer.Decide | regist-web/src/lib/ocr.ts:78-89 | the fast decision is the naive one: no darker than the window mean less 8 |
| Binarizer.Threshold | regist-web/src/lib/ocr.ts:72-93 | the image is the naive one for every size and content, and the counter counts its black pixels |
| Binarizer.InvertInPlace | regist-web/src/lib/ocr.ts:97-99 | complements every pixel |
| Binarizer.MostlyWhite | regist-web/src/lib/ocr.ts:95-100 | after the optional inversion at most half of the pixels are black |
| Binarizer.Preprocess | regist-web/src/lib/ocr.ts:49-100 | from RGBA bytes to the naive image, every pixel complemented exactly when more than half are black, so at most half are |
| CardNumber.DigitIs | regist-web/src/lib/cardnumber.ts:37-43 | digit v is character v of 0123456789ABCDEF |
| CardNumber.PaddedIsDigits | regist-web/src/lib/cardnumber.ts:37-43 | a padded number that fits has exactly the digits of its fixed width |
| CardNumber.ParsePrintedBody | regist-web/src/lib/cardnumber.ts:58-115 | the fifteen characters after the head parse back, the date without its top bit |
| CardNumber.DateNeverOverflows | regist-web/src/lib/cardnumber.ts:108-115 | the range check on the packed date never rejects a date that passed the checks before it |
| CardNumber.ParsePrintedHead | regist-web/src/lib/cardnumber.ts:53-94 | a printed head is read back unless it is hexadecimal and begins with FC |
| CardNumber.ParseOfPrint | regist-web/src/lib/cardnumber.ts:49-128 | parsing a printed IDi gives it back exactly when byte 4 is below 128 and byte 0 is not FC |
| CardNumber.LostIdis | regist-web/src/lib/cardnumber.ts:53-94 | two IDis that the round trip does not give back, one for each part of the condition |
| CardNumber.PrintedLength | regist-web/src/lib/cardnumber.ts:14-16 | 17 characters exactly for the issuers of the table, 19 otherwise |
| CardNumber.PrintedFront | regist-web/src/lib/cardnumber.ts:18-57 | the characters before the last fifteen for every IDi: the ten known issuers, and four hexadecimal digits for any other |
| CardNumber.PrintedTail | regist-web/src/lib/cardnumber.ts:53-72 | the last fifteen characters one by one, as digits of the bytes of the IDi |
| CardNumber.RoundTripExactly | regist-web/src/lib/cardnumber.ts:49-158 | the same for the public functions on hex strings |
| CardNumber.SampleCard | regist-web/src/lib/cardnumber.ts:6-6 | the documented card: NR807 E200 1060 0517 is IDi 05d5807e28260205, in both directions and as displayed |
| CardNumber.ConvertibleExactly | regist-web/src/lib/cardnumber.ts:130-136 | convertible numbers and lossless IDis are in bijection |
| CardNumber.ConvertibleGuard | regist-web/src/lib/cardnumber.ts:78-136 | a parsed number is convertible exactly when its year needs six bits and it spells no known issuer in hex |
| CardNumber.IsConvertibleMeans | regist-web/src/lib/cardnumber.ts:130-136 | the public check is the round trip on the normalized number, whatever upper-casing does outside ASCII |
| CardNumber.DroppedMeans | regist-web/src/lib/cardnumber.ts:79-79 | white space is exactly the code points that the pattern \s matches; the hyphen is dropped with it |
| CardNumber.SqueezeMeans | regist-web/src/lib/cardnumber.ts:79-79 | what is dropped goes and the rest stays, in order |
| CardNumber.CasesMean | regist-web/src/lib/cardnumber.ts:79-79 | the two cases of an ASCII letter are 32 apart, and nothing else in ASCII changes |
| CardNumber.HexToBytes | regist-web/src/lib/cardnumber.ts:146-154 | the push loop, and both rejections |
| CardNumber.HexRoundTrip | regist-web/src/lib/cardnumber.ts:146-158 | reading the hex of bytes gives the bytes |
| CardNumber.HexPairsMean | regist-web/src/lib/cardnumber.ts:146-154 | byte i is 16 times the value of character 2i plus that of character 2i + 1 |
| CardNumber.TrimMeans | regist-web/src/lib/cardnumber.ts:147-147 | only white space is trimmed, and none is left at either end |
| CardNumber.FormatKeepsSeventeen | regist-web/src/lib/cardnumber.ts:138-144 | the display form reads back as the first 17 characters, so it is lossless exactly for numbers of at most 17; also for characters that upper-case to several |
| CardNumber.FormatGroups | regist-web/src/lib/cardnumber.ts:138-144 | seventeen characters are displayed in groups of five, four, four and four |
| CardNumber.CleanCardNumber | regist-web/src/lib/ocr.ts:136-148 | the appending loops correct position by position |
| CardNumber.CleanFirstLetters | regist-web/src/lib/ocr.ts:123-127 | what the letters A to I become from position 6 on; `CleanMiddleLetters` and `CleanLastLetters` are J to R and S to Z |
| CardNumber.CleanHead | regist-web/src/lib/ocr.ts:136-143 | the first two characters stay, and the next four differ from the later ones only in keeping A to F |
| CardNumber.CleanIdempotent | regist-web/src/lib/ocr.ts:136-148 | cleaning twice is cleaning once |
| CardNumber.CleanKeepsCardNumbers | regist-web/src/lib/ocr.ts:129-148 | a convertible number survives the clean-up exactly when its issuer is two letters |
| Frames.Authentication1 | usb-poc/src/card.rs:294-305 | the frame pushed piece by piece, with the counts cast to a byte |
| Frames.Authentication1Decodes | usb-poc/src/card.rs:294-305 | it is sent exactly for at most 117 nodes, and then decodes to the same IDm, areas, services and C1A: no count was truncated |
| Frames.Authentication1Layout | usb-poc/src/card.rs:294-305 | the command byte by byte: length, code, IDm, and two counted tables of little-endian words, areas first |
| Frames.Authentication1Response | usb-poc/src/card.rs:307-324 | accepts exactly the 26-byte answer of the addressed card, and tells a changed card apart |
| Frames.Authentication2 | usb-poc/src/card.rs:333-337 | the 18-byte command, which always fits |
| Frames.Authentication2Response | usb-poc/src/card.rs:339-351 | accepts exactly 34-byte answers, returns their ciphertext, and never takes the opcode error |
| Frames.ReadAreas | usb-poc/src/card.rs:200-206 | the chunk loop over the area table |
| Frames.RequestCodeList | usb-poc/src/card.rs:182-225 | never out of bounds on any response, and accepts exactly the encodings of code lists that fit a frame |
| Frames.CodeListLayout | usb-poc/src/card.rs:182-225 | what is accepted, byte by byte: flags and two counted tables of little-endian words |
| PacketList.PacketList.constructor | face-auth-ui/device-shell/src/com/viaembedded/smartetk/PacketList.java:8-12 | an empty list behind the sentinel |
| PacketList.PacketList.Push | face-auth-ui/device-shell/src/com/viaembedded/smartetk/PacketList.java:21-29 | appends; a linked packet becomes the end of the list; the tail pointer is the last node either way |
| PacketList.PacketList.RemoveNext | face-auth-ui/device-shell/src/com/viaembedded/smartetk/PacketList.java:56-76 | unlinks exactly the next node and keeps the tail pointer right |
| PacketList.PacketList.Bypass | face-auth-ui/device-shell/src/com/viaembedded/smartetk/PacketList.java:67-75 | the pointer writes alone |
| PacketList.PacketList.Remove | face-auth-ui/device-shell/src/com/viaembedded/smartetk/PacketList.java:31-41 | deletes exactly its argument, true exactly if it was linked |
| PacketList.PacketList.RemoveFirst | face-auth-ui/device-shell/src/com/viaembedded/smartetk/PacketList.java:43-45 | the head, or null exactly for the empty list |
| PacketList.PacketList.GetPacket | face-auth-ui/device-shell/src/com/viaembedded/smartetk/PacketList.java:47-54 | removes the first packet that matches, null exactly if none does |
| PacketList.PacketList.NotifyErrorFrame | face-auth-ui/device-shell/src/com/viaembedded/smartetk/PacketList.java:78-84 | the first match gets the error and leaves |
| PacketList.PacketList.NotifyPacket | face-auth-ui/device-shell/src/com/viaembedded/smartetk/PacketList.java:86-92 | the first match takes the answer and leaves |
| PacketList.PacketList.NotifyAll | face-auth-ui/device-shell/src/com/viaembedded/smartetk/PacketList.java:94-103 | terminates with the list empty, and every waiting packet has the status |
| PacketList.Node.SetPacket | face-auth-ui/device-shell/src/com/viaembedded/smartetk/Packet.java:21-30 | arms the packet and leaves its link alone |
| PacketList.Node.NotifyError | face-auth-ui/device-shell/src/com/viaembedded/smartetk/Packet.java:45-50 | only a waiting packet takes the status |
| PacketList.Node.NotifyErrorFrame | face-auth-ui/device-shell/src/com/viaembedded/smartetk/Packet.java:52-59 | only a matching frame sets the status |
| PacketList.Node.NotifyPacket | face-auth-ui/device-shell/src/com/viaembedded/smartetk/Packet.java:61-99 | status, data length and receive buffer after an answer, including no buffer and a buffer that is too small, for every frame on which the code does not throw |
| PacketList.DataMeans | face-auth-ui/device-shell/src/com/viaembedded/smartetk/Packet.java:78-90 | where the data of an answer starts and how long it is, with and without the length field |
| PacketList.Node.AnsweredMeans | face-auth-ui/device-shell/src/com/viaembedded/smartetk/Packet.java:61-99 | the negated status byte and the copied data, or -5 and an untouched buffer when there is no room |
| PacketList.PushKeepsAll | face-auth-ui/device-shell/src/com/viaembedded/smartetk/PacketList.java:21-29 | a push keeps every packet exactly when its argument is unlinked or already last |
| PacketList.ListOpsMean | face-auth-ui/device-shell/src/com/viaembedded/smartetk/PacketList.java:21-41 | pushing and removing by the position of the packet: everything behind it is cut off, or it alone is |
| PacketList.ByteToIntMeans | face-auth-ui/device-shell/src/com/viaembedded/smartetk/SmartETK.java:518-530 | the length field as a number, digit by digit, signed with four bytes |
| PacketList.PushLoses | face-auth-ui/device-shell/src/com/viaembedded/smartetk/PacketList.java:21-29 | pushing the first of two linked packets loses the second |
| PacketList.NothingLost | face-auth-ui/device-shell/src/com/viaembedded/smartetk/PacketList.java:21-76 | over every run that pushes unlinked packets the packets stay distinct, and pushed equals taken plus linked |
| PacketList.PushesUnlinkedMeans | face-auth-ui/device-shell/src/com/viaembedded/smartetk/PacketList.java:21-29 | the condition of `NothingLost`, push by push: each packet is unlinked after the operations before it |

## Left out

- Groth16, curve and pairing arithmetic, key setup and point serialization: proof generation, decoding and verification are opaque functions. Completeness of proving for satisfied circuits (`Prover.Groth16.CompleteFor`) and agreement of the chain's pairing check with the prover's verifier (`EndToEnd.Agree`) are stated assumptions; soundness of proofs is never assumed.
- Unforgeability, secrecy and card presence: cryptographic assumptions, not theorems; the repository leaves the question of authority open.
- Prover.ProveRequest: the length of `auth2` is part of its type, so the two length checks after CBC decryption are not modelled.
- Abi.ParseInputs: works on decoded bytes; hex and JSON decoding of requests is not modelled.
- Oracle.CardAuth1: the card is modelled after the schedule in server/src/oracle/schedule.rs and the frames in usb-poc/src/card.rs; what a card does with commands that are not addressed to it or name other nodes is taken to be silence.
- felica-rs and the `des` crate: their DES, CBC, MAC and EDE are taken to be the functions of `prover/src/des.rs`; a response that felica-rs rejects for framing is not modelled, because the frame is built with the right header.
- OpenZeppelin roles: administrative calls are plain operations of the gate; who may call them is not modelled.
- Facepay.ConnectStep: the snapshot is sent in the step that joins the client; in the code it is sent right after the lock is released and before anything queued for the client, so the order at the client is the same.
- Facepay.SendStep: an event counts as sent when it is put on the client's channel; a client that is gone is not told apart.
- Status and "detecting" messages, error texts, LEDs and the command line of the daemon: no stored state depends on them.
- Facepay.Pay: gas fees are not modelled, and the wallet of an IDi is an arbitrary function.
- facepay-host: a near-duplicate of the daemon with a single terminal.
- CardNumber.Normalize: characters are Unicode scalar values; JavaScript counts one outside the basic plane as two, which matters only for lengths of texts that are no card numbers. Upper-casing outside ASCII is a parameter that is only known to be stable.
- Binarizer.Decide: the division is over the reals; double rounding cannot change the comparison at canvas sizes. Painting the padded output canvas is not modelled.
- Request Service, Request Block Information and Request System Code: the same counted-words decoding as the code list, and easier.
- Polling, transceiving and timeouts of the card reader.
- PacketList.Node.NotifyPacket: received bytes are values, so a receive buffer that aliases the socket buffer is not modelled; where the Java code throws, by reading past the frame or because the 32-bit end of the data wraps around, is a precondition.
- Waiting and waking of Java threads: `wait` and `notify` are not modelled, only the fields they communicate through; the `Packet` subclass of `Node` is a flag on one class, and that every unlinked node is a packet is part of the list's invariant.
- ThreadSocket.parsePacket and the array getters of SmartETK: decompiled with damaged control flow.
- CircuitBuilder.ConstraintSystem.ChainGadget: the three calls of the 3DES gadget and the three of the MAC loop are both instances of one chain loop.
- User interfaces, the face engine, wallet derivation, deployment files and all transport.
