// The payment daemon composed with the gate and the ledger: its threads as atomic steps,
// in every interleaving, and what they can do to attestations and balances. What the
// terminals are told is in Delivery.
module Facepay {
  import opened Bits
  import opened Results
  import opened Abi
  import opened FelicaAuth
  import opened Gate
  import opened SuicashGate
  import opened Shared

  // ------------------------------------------------------------------ the ledger

  type Balances = map<Address, nat>

  ghost function Total(b: Balances): nat {
    if b == map[] then 0 else var a :| a in b; b[a] + Total(b - {a})
  }

  lemma {:induction false} TotalWithout(b: Balances, a: Address)
    requires a in b
    ensures Total(b) == b[a] + Total(b - {a})
    decreases |b|
  {
    var x :| x in b && Total(b) == b[x] + Total(b - {x});
    if x != a {
      TotalWithout(b - {x}, a);
      TotalWithout(b - {a}, x);
      assert b - {x} - {a} == b - {a} - {x};
    }
  }

  function Balance(b: Balances, a: Address): nat {
    if a in b then b[a] else 0
  }

  lemma TotalUpdate(b: Balances, a: Address, v: nat)
    ensures Total(b[a := v]) == Total(b) - Balance(b, a) + v
  {
    TotalWithout(b[a := v], a);
    if a in b {
      TotalWithout(b, a);
      assert b[a := v] - {a} == b - {a};
    } else {
      assert b[a := v] - {a} == b;
    }
  }

  function Debit(b: Balances, a: Address, amount: nat): Balances
    requires amount <= Balance(b, a)
  {
    b[a := Balance(b, a) - amount]
  }

  function Credit(b: Balances, a: Address, amount: nat): Balances {
    b[a := Balance(b, a) + amount]
  }

  /** The payer's coin is split and handed to the merchant. */
  function Transferred(b: Balances, from: Address, to: Address, amount: nat): Balances
    requires amount <= Balance(b, from)
  {
    Credit(Debit(b, from, amount), to, amount)
  }

  lemma TransferConserves(b: Balances, from: Address, to: Address, amount: nat)
    requires amount <= Balance(b, from)
    ensures Total(Transferred(b, from, to, amount)) == Total(b)
  {
    TotalUpdate(b, from, Balance(b, from) - amount);
    var d := Debit(b, from, amount);
    TotalUpdate(d, to, Balance(d, to) + amount);
  }

  /** The payer has the amount less, the payee the amount more, nobody else notices; paying oneself changes nothing. */
  lemma TransferMoves(b: Balances, from: Address, to: Address, amount: nat, a: Address)
    requires amount <= Balance(b, from)
    ensures Balance(Transferred(b, from, to, amount), a)
            == Balance(b, a) - (if a == from then amount else 0) + (if a == to then amount else 0)
  {
  }

  datatype Chain = Chain(gate: GateState, balances: Balances)

  /** The fixed parts: the pairing check, the wallet of each IDi and the merchant, if configured. */
  datatype Env = Env(pairing: Pairing, wallet: Bytes -> Address, merchant: Option<Address>)

  /** One payment transaction: verify first, then split and transfer; it takes effect as a whole or not at all. */
  ghost function Pay(env: Env, chain: Chain, idi: Bytes, amount: nat, to: Address, att: Presentation, nowMs: nat)
    : Outcome<(Chain, Verified)>
    requires att.Ok()
  {
    var from := env.wallet(idi);
    match Verify(env.pairing, chain.gate, att, nowMs, from)
    case Aborted(code) => Aborted(code)
    case Done((g, event)) =>
      if Balance(chain.balances, from) < amount then Aborted(InsufficientBalance)
      else Done((Chain(g, Transferred(chain.balances, from, to, amount)), event))
  }

  // ------------------------------------------------------------------- the world

  /** An event on its way to the clients: not yet addressed, or still to be sent to these ids. */
  datatype Broadcast = Broadcast(event: Event, targets: Option<set<nat>>)

  /** A payment thread before or after its balance check, holding its attestation. */
  datatype Payment = Started(job: Job) | Checked(job: Job, balance: nat)

  /** Money that reaches an address other than by a payment. */
  datatype Funding = Funding(to: Address, amount: nat)

  /** An executed transfer, with the number of the payment result that reports it, and whether its success was
      learnt. */
  datatype Transfer = Transfer(
    from: Address, to: Address, amount: nat, idi: Bytes, event: Verified, report: nat, learnt: bool)

  /**
   * The daemon, the chain and, for the proofs, what every client has been sent in order, the shared record at the
   * moment it joined, the jobs in the order in which their results were recorded, and counters.
   */
  datatype World = World(
    shared: SharedState,
    lastIdm: Option<Block>,
    payments: seq<Payment>,
    broadcasts: seq<Broadcast>,
    sent: map<nat, seq<Event>>,
    joined: map<nat, SharedState>,
    finished: seq<Job>,
    chain: Chain,
    taps: nat,
    takes: nat,
    deposits: seq<Funding>,
    transfers: seq<Transfer>)

  /** How a call of the payment helper goes: not submitted, executed but its report lost, or executed and reported. */
  datatype Helper = NotSubmitted | ReportLost | Reported

  /** What can happen next; the choices are the environment's, also whether a balance lookup is answered. */
  datatype Action =
    | Tap(idm: Block, att: Presentation, answered: bool)
    | Removal
    | SetPayMode(mist: Option<nat>)
    | FaceOkReport
    | CheckBalance(p: nat, answered: bool)
    | Execute(p: nat, nowMs: nat, helper: Helper)
    | Connect
    | Disconnect(id: nat)
    | CopySenders(b: nat)
    | Send(b: nat, id: nat)
    | OtherGateOp(op: Op)
    | Deposit(to: Address, amount: nat)
  {
    ghost predicate Ok() {
      && (Tap? ==> att.Ok())
      && (OtherGateOp? ==> op.Ok())
    }
  }

  function RemoveIndex<T>(s: seq<T>, i: nat): seq<T>
    requires i < |s|
  {
    s[..i] + s[i + 1..]
  }

  /** A locked write of a topic, and the message about it that is to be sent to everyone. */
  function Announce(w: World, shared: SharedState, t: Topic, msg: Msg): World {
    w.(shared := shared, broadcasts := w.broadcasts + [Broadcast(Event(t, Writes(shared, t), msg), None)])
  }

  /** No broadcast about the topic is under way. */
  predicate Quiet(w: World, t: Topic) {
    forall i :: 0 <= i < |w.broadcasts| ==> w.broadcasts[i].event.topic != t
  }

  /** A payment thread ends: the result is recorded and broadcast. */
  function Finish(w: World, p: nat, msg: Msg): World
    requires p < |w.payments|
  {
    Announce(w, RecordPayment(w.shared, msg), LastPayment, msg)
      .(payments := RemoveIndex(w.payments, p), finished := w.finished + [w.payments[p].job])
  }

  /** A balance lookup that is not answered reads as zero. */
  function Lookup(env: Env, w: World, idi: Bytes, answered: bool): nat {
    if answered then Balance(w.chain.balances, env.wallet(idi)) else 0
  }

  /**
   * Proof obtained for the card on the reader; the same card is read again only after a removal. The one thread that
   * reads cards sends its message to everyone before it polls again.
   */
  function TapStep(env: Env, w: World, idm: Block, att: Presentation, answered: bool): World {
    if w.lastIdm == Some(idm) || !Quiet(w, OnReader) then w
    else
      var balance := Lookup(env, w, att.idi, answered);
      Announce(w, ShowCard(w.shared, att.idi, att, balance), OnReader, CardMsg(att.idi, balance))
        .(lastIdm := Some(idm), taps := w.taps + 1)
  }

  function RemovalStep(w: World): World {
    if w.lastIdm.None? || !Quiet(w, OnReader) then w
    else Announce(w, ClearCard(w.shared), OnReader, RemovedMsg).(lastIdm := None)
  }

  function FaceOkStep(w: World): World {
    var (s, job) := TakeJob(w.shared);
    match job
    case None => w.(shared := s)
    case Some(j) =>
      w.(shared := s, payments := w.payments + [Started(j)], takes := w.takes + if j.att.Some? then 1 else 0)
  }

  /** No merchant, no attestation or too little balance: the thread reports and ends. */
  function CheckStep(env: Env, w: World, p: nat, answered: bool): World {
    if p >= |w.payments| || !w.payments[p].Started? then w
    else
      var job := w.payments[p].job;
      if env.merchant.None? then Finish(w, p, PaymentMsg(false, 0, 0))
      else if job.att.None? then Finish(w, p, PaymentMsg(false, job.amount, 0))
      else
        var balance := Lookup(env, w, job.idi, answered);
        if balance < job.amount then Finish(w, p, PaymentMsg(false, job.amount, balance))
        else w.(payments := w.payments[p := Checked(job, balance)])
  }

  /** The payment transaction; whatever the daemon is not told succeeded, it reports as failed. */
  ghost function ExecuteStep(env: Env, w: World, p: nat, nowMs: nat, helper: Helper): World {
    if p >= |w.payments| || !w.payments[p].Checked? then w
    else
      var job, balance := w.payments[p].job, w.payments[p].balance;
      var failed := PaymentMsg(false, job.amount, balance);
      if env.merchant.None? || job.att.None? || !job.att.value.Ok() then w
      else if helper.NotSubmitted? then Finish(w, p, failed)
      else
        match Pay(env, w.chain, job.idi, job.amount, env.merchant.value, job.att.value, nowMs)
        case Aborted(_) => Finish(w, p, failed)
        case Done((chain, event)) =>
          var from := env.wallet(job.idi);
          var paid := PaymentMsg(true, job.amount, Balance(chain.balances, from));
          Finish(w, p, if helper.Reported? then paid else failed)
            .(chain := chain,
              transfers := w.transfers + [Transfer(from, env.merchant.value, job.amount, job.idi, event,
                                                   w.shared.paymentWrites + 1, helper.Reported?)])
  }

  function ConnectStep(w: World): World {
    var (s, id, snapshot) := Join(w.shared);
    w.(shared := s, sent := w.sent[id := snapshot], joined := w.joined[id := w.shared])
  }

  function DisconnectStep(w: World, id: nat): World {
    w.(shared := Leave(w.shared, id))
  }

  /** The list of senders is copied under the lock; the sends happen outside it. */
  function CopySendersStep(w: World, b: nat): World {
    if b >= |w.broadcasts| || w.broadcasts[b].targets.Some? then w
    else w.(broadcasts := w.broadcasts[b := Broadcast(w.broadcasts[b].event, Some(set id | id in w.shared.clients))])
  }

  /** One send; the broadcast is over when nobody is left. */
  function SendStep(w: World, b: nat, id: nat): World {
    if b >= |w.broadcasts| || w.broadcasts[b].targets.None? then w
    else
      var bc := w.broadcasts[b];
      if bc.targets.value == {} then w.(broadcasts := RemoveIndex(w.broadcasts, b))
      else if id !in bc.targets.value then w
      else
        w.(broadcasts := w.broadcasts[b := Broadcast(bc.event, Some(bc.targets.value - {id}))],
           sent := w.sent[id := (if id in w.sent then w.sent[id] else []) + [bc.event]])
  }

  ghost function Next(env: Env, w: World, a: Action): World
    requires a.Ok()
  {
    match a
    case Tap(idm, att, answered) => TapStep(env, w, idm, att, answered)
    case Removal => RemovalStep(w)
    case SetPayMode(mist) => Announce(w, SetMode(w.shared, mist), Mode, ModeMsg(mist))
    case FaceOkReport => FaceOkStep(w)
    case CheckBalance(p, answered) => CheckStep(env, w, p, answered)
    case Execute(p, nowMs, helper) => ExecuteStep(env, w, p, nowMs, helper)
    case Connect => ConnectStep(w)
    case Disconnect(id) => DisconnectStep(w, id)
    case CopySenders(b) => CopySendersStep(w, b)
    case Send(b, id) => SendStep(w, b, id)
    case OtherGateOp(op) => w.(chain := w.chain.(gate := Step(env.pairing, w.chain.gate, op).0))
    case Deposit(to, amount) =>
      w.(chain := w.chain.(balances := Credit(w.chain.balances, to, amount)),
        deposits := w.deposits + [Funding(to, amount)])
  }

  ghost predicate ActionsOk(actions: seq<Action>) {
    forall i :: 0 <= i < |actions| ==> actions[i].Ok()
  }

  function Start(chain: Chain): World {
    World(INITIAL, None, [], [], map[], map[], [], chain, 0, 0, [], [])
  }

  ghost function Run(env: Env, chain: Chain, actions: seq<Action>): World
    requires ActionsOk(actions)
  {
    if actions == [] then Start(chain)
    else Next(env, Run(env, chain, actions[..|actions| - 1]), actions[|actions| - 1])
  }

  // ------------------------------------------------------------- single steps, field by field

  /** A new card is shown with its balance, or zero if the lookup is not answered, and told to everyone. */
  lemma TapShowsExactly(env: Env, w: World, idm: Block, att: Presentation, answered: bool)
    ensures var w' := TapStep(env, w, idm, att, answered);
            var balance := if answered then Balance(w.chain.balances, env.wallet(att.idi)) else 0;
            if w.lastIdm == Some(idm) || (exists b :: b in w.broadcasts && b.event.topic == OnReader) then w' == w
            else
              && w'.lastIdm == Some(idm) && w'.taps == w.taps + 1
              && w'.shared.currentIdi == Some(att.idi) && w'.shared.currentAtt == Some(att)
              && w'.shared.lastCard == Some(CardMsg(att.idi, balance))
              && |w'.broadcasts| == |w.broadcasts| + 1
              && w'.broadcasts[|w.broadcasts|].event.msg == CardMsg(att.idi, balance)
  {
    hide Balance;
  }

  /** A removal forgets the card and its attestation, and tells everyone. */
  lemma RemovalClearsExactly(w: World)
    ensures var w' := RemovalStep(w);
            if w.lastIdm.None? || (exists b :: b in w.broadcasts && b.event.topic == OnReader) then w' == w
            else
              && w'.lastIdm.None?
              && w'.shared.currentIdi.None? && w'.shared.currentAtt.None? && w'.shared.lastCard.None?
              && w'.shared.payMode == w.shared.payMode && w'.shared.lastPayment == w.shared.lastPayment
              && |w'.broadcasts| == |w.broadcasts| + 1 && w'.broadcasts[|w.broadcasts|].event.msg == RemovedMsg
  {
  }

  /** An approval starts one payment of the asked amount for the card on the reader and takes its attestation away. */
  lemma ApprovalTakesExactly(w: World)
    ensures var w', s := FaceOkStep(w), w.shared;
            if s.payMode.None? || s.currentIdi.None? then w' == w
            else
              && w'.payments == w.payments + [Started(Job(s.payMode.value, s.currentIdi.value, s.currentAtt))]
              && w'.shared == s.(currentAtt := None) && w'.broadcasts == w.broadcasts && w'.chain == w.chain
  {
  }

  // ------------------------------------------------------------- jobs and attestations

  ghost predicate AttestationNamesCard(s: SharedState) {
    s.currentAtt.Some? ==> s.currentAtt.value.Ok() && s.currentIdi == Some(s.currentAtt.value.idi)
  }

  ghost predicate JobNamesWallet(j: Job) {
    j.att.Some? ==> j.att.value.Ok() && j.att.value.idi == j.idi
  }

  ghost predicate JobsConsistent(w: World) {
    && AttestationNamesCard(w.shared)
    && forall i :: 0 <= i < |w.payments| ==> JobNamesWallet(w.payments[i].job)
  }

  lemma FinishConsistent(w: World, p: nat, msg: Msg)
    requires p < |w.payments| && JobsConsistent(w)
    ensures JobsConsistent(Finish(w, p, msg))
  {
    hide JobNamesWallet;
  }

  lemma ThreadsConsistent(env: Env, w: World, a: Action)
    requires a.CheckBalance? || a.Execute?
    requires a.Ok() && JobsConsistent(w)
    ensures JobsConsistent(Next(env, w, a))
  {
    hide Pay, Balance, Lookup, JobNamesWallet, Finish;
    if a.p < |w.payments| {
      forall msg ensures JobsConsistent(Finish(w, a.p, msg)) {
        FinishConsistent(w, a.p, msg);
      }
    }
  }

  lemma JobsConsistentStep(env: Env, w: World, a: Action)
    requires a.Ok() && JobsConsistent(w)
    ensures JobsConsistent(Next(env, w, a))
  {
    hide CheckStep, ExecuteStep, Step, Lookup;
    if a.CheckBalance? || a.Execute? {
      hide Next, JobsConsistent;
      ThreadsConsistent(env, w, a);
    }
  }

  function Held(o: Option<Presentation>): nat {
    if o.Some? then 1 else 0
  }

  /** The payment threads that hold an attestation. */
  function Holding(payments: seq<Payment>): nat {
    if payments == [] then 0 else Holding(payments[..|payments| - 1]) + Held(payments[|payments| - 1].job.att)
  }

  lemma {:induction false} HoldingWithout(payments: seq<Payment>, p: nat)
    requires p < |payments|
    ensures Holding(payments) == Holding(RemoveIndex(payments, p)) + Held(payments[p].job.att)
  {
    var n := |payments| - 1;
    if p == n {
      assert RemoveIndex(payments, p) == payments[..n];
    } else {
      HoldingWithout(payments[..n], p);
      assert RemoveIndex(payments, p)[..n - 1] == RemoveIndex(payments[..n], p);
    }
  }

  lemma {:induction false} HoldingUpdate(payments: seq<Payment>, p: nat, x: Payment)
    requires p < |payments| && Held(x.job.att) == Held(payments[p].job.att)
    ensures Holding(payments[p := x]) == Holding(payments)
  {
    HoldingWithout(payments[p := x], p);
    HoldingWithout(payments, p);
    assert RemoveIndex(payments[p := x], p) == RemoveIndex(payments, p);
  }

  /** Attestations are spent at most once: taken ones and the stored one never outnumber taps,
      and the threads holding one together with the executed transfers never outnumber takes. */
  ghost predicate AttestationsCounted(w: World) {
    && w.takes + Held(w.shared.currentAtt) <= w.taps
    && Holding(w.payments) + |w.transfers| <= w.takes
  }

  lemma FinishCounted(w: World, p: nat, msg: Msg)
    requires p < |w.payments|
    ensures Holding(Finish(w, p, msg).payments) == Holding(w.payments) - Held(w.payments[p].job.att)
  {
    HoldingWithout(w.payments, p);
  }

  lemma CheckCounted(env: Env, w: World, p: nat, answered: bool)
    requires AttestationsCounted(w)
    ensures AttestationsCounted(CheckStep(env, w, p, answered))
  {
    if p < |w.payments| && w.payments[p].Started? {
      FinishCounted(w, p, PaymentMsg(false, 0, 0));
      HoldingUpdate(w.payments, p, Checked(w.payments[p].job, Lookup(env, w, w.payments[p].job.idi, answered)));
      hide Holding, Balance;
    }
  }

  lemma ExecuteCounted(env: Env, w: World, p: nat, nowMs: nat, helper: Helper)
    requires AttestationsCounted(w)
    ensures AttestationsCounted(ExecuteStep(env, w, p, nowMs, helper))
  {
    hide Verify, Pay, Balance;
    if p < |w.payments| {
      FinishCounted(w, p, PaymentMsg(false, 0, 0));
      hide Holding;
    }
  }

  lemma HoldingSnoc(payments: seq<Payment>, x: Payment)
    ensures Holding(payments + [x]) == Holding(payments) + Held(x.job.att)
  {
    hide Held;
    assert (payments + [x])[..|payments|] == payments;
  }

  lemma FaceOkCounted(w: World)
    requires AttestationsCounted(w)
    ensures AttestationsCounted(FaceOkStep(w))
  {
    hide Holding;
    var (s, job) := TakeJob(w.shared);
    if job.Some? {
      HoldingSnoc(w.payments, Started(job.value));
    }
  }

  lemma AttestationsCountedStep(env: Env, w: World, a: Action)
    requires a.Ok() && AttestationsCounted(w)
    ensures AttestationsCounted(Next(env, w, a))
  {
    hide CheckStep, ExecuteStep, FaceOkStep, Holding, Step, Balance, RemoveIndex;
    match a
    case FaceOkReport => FaceOkCounted(w);
    case CheckBalance(p, answered) => CheckCounted(env, w, p, answered);
    case Execute(p, nowMs, helper) => ExecuteCounted(env, w, p, nowMs, helper);
    case _ =>
  }

  // -------------------------------------------------------------------- transfers

  /** Every transfer debits the wallet of the IDi its proof is about, with an r1 of its own that is burned. */
  ghost predicate TransfersBacked(env: Env, w: World) {
    && (forall i :: 0 <= i < |w.transfers| ==>
          && w.transfers[i].from == env.wallet(w.transfers[i].event.idi)
          && env.merchant == Some(w.transfers[i].to)
          && w.transfers[i].event.idi == w.transfers[i].idi
          && w.transfers[i].event.sender == w.transfers[i].from
          && w.transfers[i].event.r1 in w.chain.gate.seen)
    && (forall i, j :: 0 <= i < j < |w.transfers| ==> w.transfers[i].event.r1 != w.transfers[j].event.r1)
  }

  lemma PayBurns(env: Env, chain: Chain, idi: Bytes, amount: nat, to: Address, att: Presentation, nowMs: nat)
    requires att.Ok() && Pay(env, chain, idi, amount, to, att, nowMs).Done?
    ensures var (chain', event) := Pay(env, chain, idi, amount, to, att, nowMs).value;
            && event == Verified(att.idi, att.r1, att.attestedAt, env.wallet(idi))
            && att.r1 !in chain.gate.seen && chain'.gate.seen == chain.gate.seen[att.r1 := true]
            && amount <= Balance(chain.balances, env.wallet(idi))
            && chain'.balances == Transferred(chain.balances, env.wallet(idi), to, amount)
            && forall a :: Balance(chain'.balances, a) == Balance(chain.balances, a)
                 - (if a == env.wallet(idi) then amount else 0) + (if a == to then amount else 0)
  {
    hide Verify, Balance, Transferred;
    AcceptedPresentation(env.pairing, chain.gate, att, nowMs, env.wallet(idi));
    forall a
      ensures Balance(Transferred(chain.balances, env.wallet(idi), to, amount), a) == Balance(chain.balances, a)
                - (if a == env.wallet(idi) then amount else 0) + (if a == to then amount else 0)
    {
      TransferMoves(chain.balances, env.wallet(idi), to, amount, a);
    }
  }

  lemma ExecuteBacked(env: Env, w: World, p: nat, nowMs: nat, helper: Helper)
    requires JobsConsistent(w) && TransfersBacked(env, w)
    ensures TransfersBacked(env, ExecuteStep(env, w, p, nowMs, helper))
  {
    hide Verify, Pay, Balance, RemoveIndex;
    if p < |w.payments| && w.payments[p].Checked? && env.merchant.Some? && w.payments[p].job.att.Some? {
      var job := w.payments[p].job;
      if Pay(env, w.chain, job.idi, job.amount, env.merchant.value, job.att.value, nowMs).Done? {
        PayBurns(env, w.chain, job.idi, job.amount, env.merchant.value, job.att.value, nowMs);
      }
    }
  }

  /** Only payments move money, only they and gate operations touch the gate, and only deposits add any. */
  lemma OthersKeepChain(env: Env, w: World, a: Action)
    requires a.Ok() && !a.Execute? && !a.OtherGateOp? && !a.Deposit?
    ensures var w' := Next(env, w, a);
            w'.transfers == w.transfers && w'.chain == w.chain && w'.deposits == w.deposits
  {
    hide Lookup, RemoveIndex;
  }

  lemma TransfersBackedStep(env: Env, w: World, a: Action)
    requires a.Ok() && JobsConsistent(w) && TransfersBacked(env, w)
    ensures TransfersBacked(env, Next(env, w, a))
  {
    hide ExecuteStep, Step, Balance;
    match a
    case Execute(p, nowMs, helper) => ExecuteBacked(env, w, p, nowMs, helper);
    case OtherGateOp(op) => StepSeen(env.pairing, w.chain.gate, op);
    case Deposit(_, _) =>
    case _ =>
      OthersKeepChain(env, w, a);
      hide Next;
  }

  // ------------------------------------------------------------------ the ledger over time

  function Funded(deposits: seq<Funding>, a: Address): nat {
    if deposits == [] then 0
    else
      var n := |deposits| - 1;
      Funded(deposits[..n], a) + if deposits[n].to == a then deposits[n].amount else 0
  }

  function Received(transfers: seq<Transfer>, a: Address): nat {
    if transfers == [] then 0
    else
      var n := |transfers| - 1;
      Received(transfers[..n], a) + if transfers[n].to == a then transfers[n].amount else 0
  }

  function Spent(transfers: seq<Transfer>, a: Address): nat {
    if transfers == [] then 0
    else
      var n := |transfers| - 1;
      Spent(transfers[..n], a) + if transfers[n].from == a then transfers[n].amount else 0
  }

  function TotalFunded(deposits: seq<Funding>): nat {
    if deposits == [] then 0
    else TotalFunded(deposits[..|deposits| - 1]) + deposits[|deposits| - 1].amount
  }

  /** Every address holds what it began with, plus deposits and payments to it, minus payments from it. */
  ghost predicate LedgerExact(chain: Chain, w: World) {
    && Total(w.chain.balances) == Total(chain.balances) + TotalFunded(w.deposits)
    && forall a :: Balance(w.chain.balances, a) == Balance(chain.balances, a)
         + Funded(w.deposits, a) + Received(w.transfers, a) - Spent(w.transfers, a)
  }

  lemma OneMoreTransfer(transfers: seq<Transfer>, t: Transfer, a: Address)
    ensures Received(transfers + [t], a) == Received(transfers, a) + if t.to == a then t.amount else 0
    ensures Spent(transfers + [t], a) == Spent(transfers, a) + if t.from == a then t.amount else 0
  {
    assert (transfers + [t])[..|transfers|] == transfers;
  }

  lemma OneMoreDeposit(deposits: seq<Funding>, d: Funding, a: Address)
    ensures Funded(deposits + [d], a) == Funded(deposits, a) + if d.to == a then d.amount else 0
    ensures TotalFunded(deposits + [d]) == TotalFunded(deposits) + d.amount
  {
    assert (deposits + [d])[..|deposits|] == deposits;
  }

  /** What one payment step does to the ledger: nothing, or one transfer that is recorded as it is made. */
  lemma ExecuteMoves(env: Env, w: World, p: nat, nowMs: nat, helper: Helper)
    ensures var w' := ExecuteStep(env, w, p, nowMs, helper);
            && w'.deposits == w.deposits
            && ((w'.transfers == w.transfers && w'.chain == w.chain)
                || (exists t: Transfer :: w'.transfers == w.transfers + [t]
                      && t.amount <= Balance(w.chain.balances, t.from)
                      && w'.chain.balances == Transferred(w.chain.balances, t.from, t.to, t.amount)))
  {
    hide Pay, Balance, RemoveIndex, Transferred;
    if p < |w.payments| && w.payments[p].Checked? && env.merchant.Some? && w.payments[p].job.att.Some?
       && w.payments[p].job.att.value.Ok()
    {
      var job := w.payments[p].job;
      if Pay(env, w.chain, job.idi, job.amount, env.merchant.value, job.att.value, nowMs).Done? {
        PayBurns(env, w.chain, job.idi, job.amount, env.merchant.value, job.att.value, nowMs);
      }
    }
  }

  lemma ExecuteExact(env: Env, chain: Chain, w: World, p: nat, nowMs: nat, helper: Helper)
    requires LedgerExact(chain, w)
    ensures LedgerExact(chain, ExecuteStep(env, w, p, nowMs, helper))
  {
    hide ExecuteStep, Total, Balance, Transferred, Received, Spent;
    ExecuteMoves(env, w, p, nowMs, helper);
    var w' := ExecuteStep(env, w, p, nowMs, helper);
    if t: Transfer :| w'.transfers == w.transfers + [t] && t.amount <= Balance(w.chain.balances, t.from)
                      && w'.chain.balances == Transferred(w.chain.balances, t.from, t.to, t.amount)
    {
      TransferConserves(w.chain.balances, t.from, t.to, t.amount);
      forall a
        ensures Balance(w'.chain.balances, a) == Balance(chain.balances, a) + Funded(w.deposits, a)
                  + Received(w'.transfers, a) - Spent(w'.transfers, a)
      {
        TransferMoves(w.chain.balances, t.from, t.to, t.amount, a);
        OneMoreTransfer(w.transfers, t, a);
      }
    }
  }

  lemma DepositExact(env: Env, chain: Chain, w: World, to: Address, amount: nat)
    requires LedgerExact(chain, w)
    ensures LedgerExact(chain, Next(env, w, Deposit(to, amount)))
  {
    hide Total, Funded, TotalFunded, Received, Spent;
    TotalUpdate(w.chain.balances, to, Balance(w.chain.balances, to) + amount);
    forall a
      ensures Funded(w.deposits + [Funding(to, amount)], a) == Funded(w.deposits, a) + if to == a then amount else 0
      ensures TotalFunded(w.deposits + [Funding(to, amount)]) == TotalFunded(w.deposits) + amount
    {
      OneMoreDeposit(w.deposits, Funding(to, amount), a);
    }
  }

  /** Every step keeps the account of every address exact. */
  lemma LedgerExactStep(env: Env, chain: Chain, w: World, a: Action)
    requires a.Ok() && LedgerExact(chain, w)
    ensures LedgerExact(chain, Next(env, w, a))
  {
    hide ExecuteStep, Step, Total, Balance, Funded, TotalFunded, Received, Spent;
    match a
    case Execute(p, nowMs, helper) => ExecuteExact(env, chain, w, p, nowMs, helper);
    case Deposit(to, amount) => DepositExact(env, chain, w, to, amount);
    case OtherGateOp(_) =>
    case _ =>
      OthersKeepChain(env, w, a);
      hide Next;
  }

  // ------------------------------------------------------------------ every reachable state

  ghost predicate Invariant(env: Env, chain: Chain, w: World) {
    && JobsConsistent(w) && AttestationsCounted(w) && TransfersBacked(env, w)
    && LedgerExact(chain, w)
  }

  lemma {:induction false} InvariantHolds(env: Env, chain: Chain, actions: seq<Action>)
    requires ActionsOk(actions)
    ensures Invariant(env, chain, Run(env, chain, actions))
    decreases |actions|
  {
    hide Next, JobsConsistent, AttestationsCounted, TransfersBacked, LedgerExact;
    if actions == [] {
      StartIsFine(env, chain);
    } else {
      var n := |actions| - 1;
      InvariantHolds(env, chain, actions[..n]);
      var w, a := Run(env, chain, actions[..n]), actions[n];
      JobsConsistentStep(env, w, a);
      AttestationsCountedStep(env, w, a);
      TransfersBackedStep(env, w, a);
      LedgerExactStep(env, chain, w, a);
    }
  }

  lemma StartIsFine(env: Env, chain: Chain)
    ensures Invariant(env, chain, Start(chain))
  {
  }

  /**
   * In every run: no more transfers than taps; each transfer goes from the wallet of the IDi its proof is about to the
   * configured merchant, with a burned r1 of its own; and every address holds what it began with, plus deposits and
   * transfers to it, minus transfers from it, so only deposits change the sum.
   */
  lemma PaymentsAreSafe(env: Env, chain: Chain, actions: seq<Action>)
    requires ActionsOk(actions)
    ensures var w := Run(env, chain, actions);
            && |w.transfers| + Holding(w.payments) <= w.taps
            && (forall t :: t in w.transfers ==>
                  && t.from == env.wallet(t.event.idi) == t.event.sender && env.merchant == Some(t.to)
                  && t.event.idi == t.idi && t.event.r1 in w.chain.gate.seen)
            && (forall i, j :: 0 <= i < j < |w.transfers| ==> w.transfers[i].event.r1 != w.transfers[j].event.r1)
            && (forall a :: Balance(w.chain.balances, a) == Balance(chain.balances, a)
                  + Funded(w.deposits, a) + Received(w.transfers, a) - Spent(w.transfers, a))
            && Total(w.chain.balances) == Total(chain.balances) + TotalFunded(w.deposits)
  {
    hide Run, Total, Balance, Funded, TotalFunded, Received, Spent;
    InvariantHolds(env, chain, actions);
  }
}
