// What a reported payment result means. Every result has the number of the locked write
// that recorded it, and a reported success has an executed transfer of its own.
module Receipts {
  import opened Bits
  import opened Results
  import Gate
  import opened SuicashGate
  import opened Shared
  import opened Facepay
  import opened Delivery

  // ------------------------------------------------------------------- transfers and results

  /** The transfer was made for the job whose result has the number that the transfer carries. */
  ghost predicate FitsJob(finished: seq<Job>, x: Transfer) {
    && 1 <= x.report <= |finished|
    && var job := finished[x.report - 1];
       x.idi == job.idi && x.amount == job.amount && job.att.Some? && x.event.r1 == job.att.value.r1
  }

  /** Results are numbered as they are recorded, and no two transfers share one. */
  ghost predicate Numbered(w: World) {
    && |w.finished| == w.shared.paymentWrites
    && (forall i :: 0 <= i < |w.transfers| ==> FitsJob(w.finished, w.transfers[i]))
    && forall i, j :: 0 <= i < j < |w.transfers| ==> w.transfers[i].report < w.transfers[j].report
  }

  /** What was recorded stays, and a new transfer is about a new result. */
  ghost predicate Grows(w: World, w': World) {
    && w.finished <= w'.finished && w.transfers <= w'.transfers
    && forall i :: |w.transfers| <= i < |w'.transfers| ==> w'.transfers[i].report > |w.finished|
  }

  lemma FitsJobSurvives(finished: seq<Job>, job: Job, x: Transfer)
    requires FitsJob(finished, x)
    ensures FitsJob(finished + [job], x)
  {
  }

  /** A thread ended, with or without a transfer. */
  lemma OneMoreIsNumbered(w: World, w': World, job: Job)
    requires Numbered(w) && w'.finished == w.finished + [job] && w'.shared.paymentWrites == w.shared.paymentWrites + 1
    requires w.transfers <= w'.transfers && |w'.transfers| <= |w.transfers| + 1
    requires forall i :: |w.transfers| <= i < |w'.transfers| ==>
               w'.transfers[i].report == |w.finished| + 1 && FitsJob(w'.finished, w'.transfers[i])
    ensures Numbered(w') && Grows(w, w')
  {
    forall i | 0 <= i < |w'.transfers| ensures FitsJob(w'.finished, w'.transfers[i]) {
      if i < |w.transfers| { FitsJobSurvives(w.finished, job, w.transfers[i]); }
    }
    forall i | 0 <= i < |w.transfers| ensures w'.transfers[i].report <= |w.finished| {
      assert FitsJob(w.finished, w.transfers[i]);
    }
  }

  lemma CheckNumbered(env: Env, w: World, p: nat, answered: bool)
    requires Numbered(w)
    ensures Numbered(CheckStep(env, w, p, answered)) && Grows(w, CheckStep(env, w, p, answered))
  {
    hide Numbered, Grows, FitsJob, Lookup, RemoveIndex;
    var w' := CheckStep(env, w, p, answered);
    if w'.finished != w.finished {
      OneMoreIsNumbered(w, w', w.payments[p].job);
    } else {
      NothingNewIsNumbered(w, w');
    }
  }

  lemma NothingNewIsNumbered(w: World, w': World)
    requires Numbered(w) && w'.finished == w.finished && w'.transfers == w.transfers
    requires w'.shared.paymentWrites == w.shared.paymentWrites
    ensures Numbered(w') && Grows(w, w')
  {
    hide FitsJob;
  }

  lemma NewTransferFits(env: Env, w: World, p: nat, nowMs: nat, helper: Helper)
    requires Numbered(w) && |ExecuteStep(env, w, p, nowMs, helper).transfers| > |w.transfers|
    ensures var w' := ExecuteStep(env, w, p, nowMs, helper);
            && p < |w.payments| && w'.transfers == w.transfers + [w'.transfers[|w.transfers|]]
            && w'.transfers[|w.transfers|].report == |w.finished| + 1
            && FitsJob(w'.finished, w'.transfers[|w.transfers|])
  {
    hide Pay, Balance, RemoveIndex;
    var job := w.payments[p].job;
    PayBurns(env, w.chain, job.idi, job.amount, env.merchant.value, job.att.value, nowMs);
  }

  lemma ExecuteNumbered(env: Env, w: World, p: nat, nowMs: nat, helper: Helper)
    requires Numbered(w)
    ensures var w' := ExecuteStep(env, w, p, nowMs, helper); Numbered(w') && Grows(w, w')
  {
    var w' := ExecuteStep(env, w, p, nowMs, helper);
    if |w'.transfers| > |w.transfers| {
      NewTransferFits(env, w, p, nowMs, helper);
    }
    hide Numbered, Grows, FitsJob, Pay, Balance, RemoveIndex;
    if w'.finished != w.finished {
      OneMoreIsNumbered(w, w', w.payments[p].job);
    } else {
      NothingNewIsNumbered(w, w');
    }
  }

  /** Only the payment threads record results and make transfers. */
  lemma OthersRecordNothing(env: Env, w: World, a: Action)
    requires a.Ok() && !a.CheckBalance? && !a.Execute?
    ensures var w' := Next(env, w, a);
            && w'.finished == w.finished && w'.transfers == w.transfers
            && w'.shared.paymentWrites == w.shared.paymentWrites
  {
    hide Gate.Step, Lookup, RemoveIndex, Quiet;
  }

  lemma NumberedStep(env: Env, w: World, a: Action)
    requires a.Ok() && Numbered(w)
    ensures Numbered(Next(env, w, a)) && Grows(w, Next(env, w, a))
  {
    hide Numbered, Grows, CheckStep, ExecuteStep;
    match a
    case CheckBalance(p, answered) => CheckNumbered(env, w, p, answered);
    case Execute(p, nowMs, helper) => ExecuteNumbered(env, w, p, nowMs, helper);
    case _ =>
      hide Next;
      OthersRecordNothing(env, w, a);
      NothingNewIsNumbered(w, Next(env, w, a));
  }

  // ------------------------------------------------------------------- events about results

  /** Transfer i was made for result number n, and its success was learnt. */
  ghost predicate IsLearnt(transfers: seq<Transfer>, n: nat, i: nat) {
    i < |transfers| && transfers[i].report == n && transfers[i].learnt
  }

  ghost predicate Learnt(transfers: seq<Transfer>, n: nat) {
    exists i: nat :: IsLearnt(transfers, n, i)
  }

  /** An event about a payment says ok exactly when the transfer for its own result was learnt of. */
  ghost predicate IsReceipt(w: World, e: Event) {
    if e.topic != LastPayment then !e.msg.PaymentMsg?
    else
      && e.msg.PaymentMsg? && 1 <= e.write <= |w.finished|
      && (e.msg.ok <==> Learnt(w.transfers, e.write))
      && (e.msg.ok ==> e.msg.amount == w.finished[e.write - 1].amount)
  }

  ghost predicate AreReceipts(w: World, log: seq<Event>) {
    forall k :: 0 <= k < |log| ==> IsReceipt(w, log[k])
  }

  /** Every event that is stored, under way or was sent. */
  ghost predicate AllReceipts(w: World) {
    && (forall t: Topic :: Stored(w.shared, t).Some? ==> IsReceipt(w, Latest(w.shared, t)))
    && (forall i :: 0 <= i < |w.broadcasts| ==> IsReceipt(w, w.broadcasts[i].event))
    && forall id :: id in w.sent ==> AreReceipts(w, w.sent[id])
  }

  lemma LearntSurvives(w: World, w': World, n: nat)
    requires Grows(w, w') && n <= |w.finished|
    ensures Learnt(w'.transfers, n) == Learnt(w.transfers, n)
  {
    if i: nat :| IsLearnt(w.transfers, n, i) { assert IsLearnt(w'.transfers, n, i); }
    if i: nat :| IsLearnt(w'.transfers, n, i) { assert IsLearnt(w.transfers, n, i); }
  }

  lemma ReceiptsSurvive(w: World, w': World, log: seq<Event>)
    requires Grows(w, w') && AreReceipts(w, log)
    ensures AreReceipts(w', log)
  {
    hide Learnt;
    forall k | 0 <= k < |log| ensures IsReceipt(w', log[k]) {
      assert IsReceipt(w, log[k]);
      if log[k].topic == LastPayment { LearntSurvives(w, w', log[k].write); }
    }
  }

  lemma ReceiptSurvives(w: World, w': World, e: Event)
    requires Grows(w, w') && IsReceipt(w, e)
    ensures IsReceipt(w', e)
  {
    hide IsReceipt, Grows;
    ReceiptsSurvive(w, w', [e]);
    assert IsReceipt(w', [e][0]);
  }

  lemma NotYetLearnt(w: World)
    requires Numbered(w)
    ensures !Learnt(w.transfers, |w.finished| + 1)
  {
    forall i | 0 <= i < |w.transfers| ensures w.transfers[i].report <= |w.finished| {
      assert FitsJob(w.finished, w.transfers[i]);
    }
  }

  lemma CheckReceipt(env: Env, w: World, p: nat, answered: bool)
    requires Numbered(w) && CheckStep(env, w, p, answered).finished != w.finished
    ensures var w' := CheckStep(env, w, p, answered); IsReceipt(w', Latest(w'.shared, LastPayment))
  {
    hide Learnt, Lookup, RemoveIndex, Numbered;
    NotYetLearnt(w);
    NumberedCounts(w);
  }

  lemma ExecuteReceipt(env: Env, w: World, p: nat, nowMs: nat, helper: Helper)
    requires Numbered(w) && ExecuteStep(env, w, p, nowMs, helper).finished != w.finished
    ensures var w' := ExecuteStep(env, w, p, nowMs, helper); IsReceipt(w', Latest(w'.shared, LastPayment))
  {
    var w', n := ExecuteStep(env, w, p, nowMs, helper), |w.finished| + 1;
    NotYetLearnt(w);
    if |w'.transfers| > |w.transfers| {
      NewTransferFits(env, w, p, nowMs, helper);
      OneMoreLearnt(w.transfers, w'.transfers[|w.transfers|], n);
    }
    hide Learnt, Numbered, FitsJob, Pay, Balance, RemoveIndex;
    assert w.shared.paymentWrites == |w.finished| by { NumberedCounts(w); }
  }

  lemma NumberedCounts(w: World)
    requires Numbered(w)
    ensures w.shared.paymentWrites == |w.finished|
  {
  }

  lemma OneMoreLearnt(transfers: seq<Transfer>, x: Transfer, n: nat)
    requires !Learnt(transfers, n) && x.report == n
    ensures Learnt(transfers + [x], n) == x.learnt
  {
    if x.learnt { assert IsLearnt(transfers + [x], n, |transfers|); }
    if i: nat :| IsLearnt(transfers + [x], n, i) && i < |transfers| { assert IsLearnt(transfers, n, i); }
  }

  /** The event about what a step writes. */
  lemma NewReceipt(env: Env, w: World, a: Action, u: Topic)
    requires a.Ok() && Numbered(w) && !IsClientStep(a) && Written(w, Next(env, w, a)) == Some(u)
    ensures var w' := Next(env, w, a); IsReceipt(w', Latest(w'.shared, u))
  {
    hide Numbered, CheckStep, ExecuteStep, Gate.Step, Lookup, Quiet, Learnt;
    match a
    case CheckBalance(p, answered) => ThreadWrites(env, w, a, u); CheckReceipt(env, w, p, answered);
    case Execute(p, nowMs, helper) => ThreadWrites(env, w, a, u); ExecuteReceipt(env, w, p, nowMs, helper);
    case _ =>
  }

  lemma ThreadWrites(env: Env, w: World, a: Action, u: Topic)
    requires a.Ok() && (a.CheckBalance? || a.Execute?) && Written(w, Next(env, w, a)) == Some(u)
    ensures u == LastPayment && Next(env, w, a).finished != w.finished
  {
    hide Pay, Lookup, Balance, RemoveIndex;
  }

  lemma OthersReceipts(w: World, w': World)
    requires SilentOrAnnounces(w, w') && AllReceipts(w) && Grows(w, w')
    requires Written(w, w').Some? ==> IsReceipt(w', Latest(w'.shared, Written(w, w').value))
    ensures AllReceipts(w')
  {
    hide IsReceipt, Written, Grows, AreReceipts;
    forall id | id in w'.sent ensures AreReceipts(w', w'.sent[id]) {
      ReceiptsSurvive(w, w', w.sent[id]);
    }
    forall t: Topic | Stored(w'.shared, t).Some? ensures IsReceipt(w', Latest(w'.shared, t)) {
      if Written(w, w') != Some(t) {
        assert SameTopic(w.shared, w'.shared, t);
        ReceiptSurvives(w, w', Latest(w.shared, t));
      }
    }
    hide Stored, Latest;
    forall i | 0 <= i < |w'.broadcasts| ensures IsReceipt(w', w'.broadcasts[i].event) {
      if i < |w.broadcasts| {
        assert w'.broadcasts[i] == w.broadcasts[i];
        ReceiptSurvives(w, w', w.broadcasts[i].event);
      }
    }
  }

  /** A client joined, left or was sent something: at most one log is new. */
  lemma ClientReceipts(w: World, w': World, log: seq<Event>)
    requires AllReceipts(w) && w'.transfers == w.transfers && w'.finished == w.finished && AreReceipts(w, log)
    requires forall t: Topic :: SameTopic(w.shared, w'.shared, t)
    requires forall i :: 0 <= i < |w'.broadcasts| ==> IsReceipt(w, w'.broadcasts[i].event)
    requires forall id :: id in w'.sent ==> w'.sent[id] == log || (id in w.sent && w'.sent[id] == w.sent[id])
    ensures AllReceipts(w')
  {
    hide Learnt, Stored;
    forall e ensures IsReceipt(w', e) == IsReceipt(w, e) {
    }
    hide IsReceipt;
    forall id | id in w'.sent ensures AreReceipts(w', w'.sent[id]) {
      assert w'.sent[id] == log || AreReceipts(w, w.sent[id]);
    }
    forall t: Topic | Stored(w'.shared, t).Some? ensures IsReceipt(w', Latest(w'.shared, t)) {
      assert SameTopic(w.shared, w'.shared, t);
    }
  }

  lemma ConnectReceipts(w: World)
    requires AllReceipts(w)
    ensures AllReceipts(ConnectStep(w))
  {
    var w', log := ConnectStep(w), Snapshot(w.shared);
    SnapshotReports(w.shared);
    hide Snapshot, Learnt, IsReceipt;
    forall k | 0 <= k < |log| ensures IsReceipt(w, log[k]) {
      assert log[k] in log;
    }
    ClientReceipts(w, w', log);
  }

  lemma LongerReceipts(w: World, x: nat, e: Event)
    requires AllReceipts(w) && IsReceipt(w, e)
    ensures AreReceipts(w, (if x in w.sent then w.sent[x] else []) + [e])
  {
    hide IsReceipt, Stored;
    if x in w.sent { assert AreReceipts(w, w.sent[x]); }
  }

  lemma SendReceipts(w: World, b: nat, x: nat)
    requires AllReceipts(w)
    ensures AllReceipts(SendStep(w, b, x))
  {
    hide IsReceipt, AreReceipts, RemoveIndex, Stored;
    var w' := SendStep(w, b, x);
    if b < |w.broadcasts| && w.broadcasts[b].targets.Some? {
      var e := w.broadcasts[b].event;
      RemoveIndexIsPart(w.broadcasts, b);
      LongerReceipts(w, x, e);
      ClientReceipts(w, w', (if x in w.sent then w.sent[x] else []) + [e]);
    }
  }

  lemma AllReceiptsStep(env: Env, w: World, a: Action)
    requires a.Ok() && Numbered(w) && AllReceipts(w)
    ensures AllReceipts(Next(env, w, a))
  {
    hide Numbered, AllReceipts, Grows, IsReceipt, SilentOrAnnounces, Written, ConnectStep, SendStep;
    match a
    case Connect => ConnectReceipts(w);
    case Disconnect(id) => LeaveReceipts(w, id);
    case CopySenders(b) => CopyReceipts(w, b);
    case Send(b, x) => SendReceipts(w, b, x);
    case _ =>
      hide Next;
      var w' := Next(env, w, a);
      StepsAnnounce(env, w, a);
      NumberedStep(env, w, a);
      match Written(w, w') {
        case Some(u) => NewReceipt(env, w, a, u);
        case None =>
      }
      OthersReceipts(w, w');
  }

  lemma LeaveReceipts(w: World, id: nat)
    requires AllReceipts(w)
    ensures AllReceipts(DisconnectStep(w, id))
  {
    hide IsReceipt;
    ClientReceipts(w, DisconnectStep(w, id), []);
  }

  lemma CopyReceipts(w: World, b: nat)
    requires AllReceipts(w)
    ensures AllReceipts(CopySendersStep(w, b))
  {
    hide IsReceipt;
    ClientReceipts(w, CopySendersStep(w, b), []);
  }

  // ------------------------------------------------------------------- every reachable state

  lemma {:induction false} BooksHold(env: Env, chain: Chain, actions: seq<Action>)
    requires ActionsOk(actions)
    ensures var w := Facepay.Run(env, chain, actions); Numbered(w) && AllReceipts(w)
    decreases |actions|
  {
    hide Next;
    if actions != [] {
      hide Numbered, AllReceipts;
      var n := |actions| - 1;
      BooksHold(env, chain, actions[..n]);
      NumberedStep(env, Facepay.Run(env, chain, actions[..n]), actions[n]);
      AllReceiptsStep(env, Facepay.Run(env, chain, actions[..n]), actions[n]);
    }
  }

  /** The event is stored, under way or was sent to some client. */
  ghost predicate Heard(w: World, e: Event) {
    || (exists t: Topic :: Stored(w.shared, t).Some? && e == Latest(w.shared, t))
    || (exists i :: 0 <= i < |w.broadcasts| && w.broadcasts[i].event == e)
    || exists id :: id in w.sent && e in w.sent[id]
  }

  /** A payment result is heard if it is the stored one, is on its way, or was sent to a client. */
  lemma HeardMeans(w: World, e: Event)
    requires e.msg.PaymentMsg? && (w.shared.lastCard.Some? ==> !w.shared.lastCard.value.PaymentMsg?)
    ensures Heard(w, e) <==>
            || (w.shared.lastPayment == Some(e.msg) && e.topic == LastPayment && e.write == w.shared.paymentWrites)
            || (exists i :: 0 <= i < |w.broadcasts| && w.broadcasts[i].event == e)
            || (exists id, k :: id in w.sent && 0 <= k < |w.sent[id]| && w.sent[id][k] == e)
  {
    if w.shared.lastPayment == Some(e.msg) && e.topic == LastPayment && e.write == w.shared.paymentWrites {
      assert Stored(w.shared, LastPayment).Some? && e == Latest(w.shared, LastPayment);
    }
  }

  lemma HeardIsReceipt(w: World, e: Event)
    requires AllReceipts(w) && Heard(w, e)
    ensures IsReceipt(w, e)
  {
    hide IsReceipt, Stored;
    if id :| id in w.sent && e in w.sent[id] {
      assert AreReceipts(w, w.sent[id]);
    }
  }

  /** Transfer i debited the wallet of the job behind result n, by its amount, with the attestation that it held. */
  ghost predicate PaidFor(env: Env, w: World, n: nat, i: nat) {
    && i < |w.transfers| && 1 <= n <= |w.finished|
    && var x, job := w.transfers[i], w.finished[n - 1];
       && x.report == n && x.idi == job.idi && x.amount == job.amount && x.from == env.wallet(job.idi)
       && job.att.Some? && x.event.r1 == job.att.value.r1 && x.event.r1 in w.chain.gate.seen
  }

  lemma ReportIsPaidFor(env: Env, w: World, i: nat)
    requires Numbered(w) && TransfersBacked(env, w) && i < |w.transfers|
    ensures PaidFor(env, w, w.transfers[i].report, i)
  {
    assert FitsJob(w.finished, w.transfers[i]);
  }

  /**
   * In every run: each message that a payment succeeded, stored, under way or received, has exactly one transfer of
   * its own, made for the very job whose result it reports, of the reported amount and with the attestation of that
   * job.
   */
  lemma SuccessMeansTransfer(env: Env, chain: Chain, actions: seq<Action>, e: Event)
    requires ActionsOk(actions)
    ensures var w := Facepay.Run(env, chain, actions);
            Heard(w, e) && e.msg.PaymentMsg? && e.msg.ok ==>
              && 1 <= e.write <= |w.finished|
              && var job := w.finished[e.write - 1];
              && e.msg.amount == job.amount && job.att.Some?
              && exists i: nat ::
                && i < |w.transfers| && w.transfers[i].report == e.write
                && w.transfers[i].amount == job.amount && w.transfers[i].idi == job.idi
                && w.transfers[i].from == env.wallet(job.idi)
                && w.transfers[i].event.r1 == job.att.value.r1 && w.transfers[i].event.r1 in w.chain.gate.seen
                && forall j: nat :: j < |w.transfers| && w.transfers[j].report == e.write ==> j == i
  {
    hide Facepay.Run, Heard, AllReceipts;
    var w := Facepay.Run(env, chain, actions);
    BooksHold(env, chain, actions);
    Facepay.InvariantHolds(env, chain, actions);
    hide LedgerExact, Holding, TransfersBacked, Numbered;
    if Heard(w, e) && e.msg.PaymentMsg? && e.msg.ok {
      HeardIsReceipt(w, e);
      var i: nat :| IsLearnt(w.transfers, e.write, i);
      ReportIsPaidFor(env, w, i);
      OnePerResult(env, w, e.write, i);
    }
  }

  lemma OnePerResult(env: Env, w: World, n: nat, i: nat)
    requires Numbered(w) && PaidFor(env, w, n, i)
    ensures forall j: nat :: j < |w.transfers| && w.transfers[j].report == n ==> j == i
  {
    hide FitsJob;
  }

  /** In every run: a payment message says ok exactly when the transfer for its result was made and learnt of. */
  lemma ResultsAreExact(env: Env, chain: Chain, actions: seq<Action>, e: Event)
    requires ActionsOk(actions)
    ensures var w := Facepay.Run(env, chain, actions);
            Heard(w, e) && e.msg.PaymentMsg? ==> (e.msg.ok <==> Learnt(w.transfers, e.write))
  {
    hide Facepay.Run, Heard, AllReceipts, Numbered, Learnt;
    BooksHold(env, chain, actions);
    if Heard(Facepay.Run(env, chain, actions), e) {
      HeardIsReceipt(Facepay.Run(env, chain, actions), e);
    }
  }

  /** The payment step records ok exactly when the transaction goes through and the helper gets to say so. */
  lemma ExecuteReportsExactly(env: Env, w: World, p: nat, nowMs: nat, helper: Helper)
    requires p < |w.payments| && w.payments[p].Checked? && env.merchant.Some?
    requires w.payments[p].job.att.Some? && w.payments[p].job.att.value.Ok()
    ensures var w', job := ExecuteStep(env, w, p, nowMs, helper), w.payments[p].job;
            var paid := Pay(env, w.chain, job.idi, job.amount, env.merchant.value, job.att.value, nowMs).Done?;
            var from := env.wallet(job.idi);
            && w'.shared.lastPayment == Some(
                 if paid && helper.Reported? then
                   PaymentMsg(true, job.amount, if from == env.merchant.value then Balance(w.chain.balances, from)
                                                else Balance(w.chain.balances, from) - job.amount)
                 else PaymentMsg(false, job.amount, w.payments[p].balance))
            && (|w'.transfers| == |w.transfers| + 1 <==> paid && !helper.NotSubmitted?)
  {
    hide Pay, Balance, RemoveIndex;
    var job := w.payments[p].job;
    if Pay(env, w.chain, job.idi, job.amount, env.merchant.value, job.att.value, nowMs).Done? {
      PayBurns(env, w.chain, job.idi, job.amount, env.merchant.value, job.att.value, nowMs);
    }
  }

  /** Before that, the thread ends with the first of these results that applies, or goes on with the balance it saw. */
  lemma CheckReportsExactly(env: Env, w: World, p: nat, answered: bool)
    requires p < |w.payments| && w.payments[p].Started?
    ensures var w', job := CheckStep(env, w, p, answered), w.payments[p].job;
            var balance := if answered then Balance(w.chain.balances, env.wallet(job.idi)) else 0;
            if env.merchant.Some? && job.att.Some? && job.amount <= balance then
              w'.payments == w.payments[p := Checked(job, balance)] && w'.shared == w.shared
            else
              && |w'.payments| == |w.payments| - 1
              && w'.shared.lastPayment == Some(
                   if env.merchant.None? then PaymentMsg(false, 0, 0)
                   else if job.att.None? then PaymentMsg(false, job.amount, 0)
                   else PaymentMsg(false, job.amount, balance))
  {
    hide Balance;
  }

  // ------------------------------------------------------------------- a report that is lost

  /** A terminal joins, a payment is asked for, a card with this attestation is read and its holder approves. */
  function Approved(idm: Block, att: Presentation, amount: nat): seq<Action> {
    [Connect, SetPayMode(Some(amount)), Tap(idm, att, true), FaceOkReport]
  }

  /** What the first two actions lead to. */
  ghost predicate Asked(w: World, chain: Chain, amount: nat) {
    && w.shared.clients == [0] && w.shared.payMode == Some(amount) && w.lastIdm.None?
    && w.payments == [] && w.transfers == [] && w.chain == chain
    && |w.broadcasts| == 1 && w.broadcasts[0].event.topic == Mode && w.sent == map[0 := Snapshot(INITIAL)]
  }

  lemma AskedWorld(env: Env, chain: Chain, amount: nat)
    ensures ActionsOk([Connect, SetPayMode(Some(amount))])
    ensures Asked(Facepay.Run(env, chain, [Connect, SetPayMode(Some(amount))]), chain, amount)
  {
    var none: seq<Action> := [];
    assert ConnectStep(Start(chain)).shared.clients == [0];
    assert ConnectStep(Start(chain)).sent == map[0 := Snapshot(INITIAL)];
    hide Snapshot;
    RunStep(env, chain, none, Connect);
    RunStep(env, chain, none + [Connect], SetPayMode(Some(amount)));
    assert none + [Connect] + [SetPayMode(Some(amount))] == [Connect, SetPayMode(Some(amount))];
  }

  lemma ApprovedWorld(env: Env, chain: Chain, idm: Block, att: Presentation, amount: nat)
    requires att.Ok()
    ensures ActionsOk(Approved(idm, att, amount))
    ensures var w := Facepay.Run(env, chain, Approved(idm, att, amount));
            && w.payments == [Started(Job(amount, att.idi, Some(att)))] && w.shared.clients == [0]
            && |w.broadcasts| == 2 && w.broadcasts[0].event.topic == Mode && w.broadcasts[1].event.topic == OnReader
            && w.sent == map[0 := Snapshot(INITIAL)] && w.chain == chain && w.transfers == []
  {
    hide Facepay.Run, Balance, Snapshot;
    var two := [Connect, SetPayMode(Some(amount))];
    AskedWorld(env, chain, amount);
    RunStep(env, chain, two, Tap(idm, att, true));
    RunStep(env, chain, two + [Tap(idm, att, true)], FaceOkReport);
    assert two + [Tap(idm, att, true)] + [FaceOkReport] == Approved(idm, att, amount);
  }

  /** The balance suffices, the payment is executed and its report is lost. */
  lemma LostReportSteps(env: Env, w: World, att: Presentation, amount: nat, nowMs: nat)
    requires w.payments == [Started(Job(amount, att.idi, Some(att)))]
    requires w.transfers == [] && att.Ok() && env.merchant.Some?
    requires Pay(env, w.chain, att.idi, amount, env.merchant.value, att, nowMs).Done?
    ensures var w' := ExecuteStep(env, CheckStep(env, w, 0, true), 0, nowMs, ReportLost);
            var failed := PaymentMsg(false, amount, Balance(w.chain.balances, env.wallet(att.idi)));
            && |w'.transfers| == 1 && w'.transfers[0].amount == amount
            && w'.chain == Pay(env, w.chain, att.idi, amount, env.merchant.value, att, nowMs).value.0
            && w'.shared.clients == w.shared.clients && w'.sent == w.sent
            && w'.shared.lastPayment == Some(failed)
            && w'.broadcasts == w.broadcasts + [Broadcast(Latest(w'.shared, LastPayment), None)]
  {
    PayBurns(env, w.chain, att.idi, amount, env.merchant.value, att, nowMs);
    hide Pay, Balance, RemoveIndex;
    var w1 := CheckStep(env, w, 0, true);
    assert w1.payments == [Checked(w.payments[0].job, Balance(w.chain.balances, env.wallet(att.idi)))];
  }

  /** The last broadcast is addressed to the only client and sent. */
  lemma LastBroadcastArrives(w: World, b: nat)
    requires |w.broadcasts| == b + 1 && w.broadcasts[b].targets.None? && w.shared.clients == [0] && 0 in w.sent
    ensures var w' := SendStep(CopySendersStep(w, b), b, 0);
            && w'.shared == w.shared && w'.chain == w.chain && w'.transfers == w.transfers
            && 0 in w'.sent && w'.sent[0] == w.sent[0] + [w.broadcasts[b].event]
            && w'.broadcasts == w.broadcasts[..b] + [Broadcast(w.broadcasts[b].event, Some({}))]
  {
    var w1 := CopySendersStep(w, b);
    assert w1.broadcasts[b].targets.value == {0};
    assert {0} - {0} == {};
  }

  /**
   * The reverse fails: whenever a payment can go through, a run exists in which it does, its report is lost, and the
   * only client, with nothing about it under way, was told nothing but that it failed.
   */
  lemma LostReportMisleads(env: Env, chain: Chain, idm: Block, att: Presentation, amount: nat, nowMs: nat)
    returns (actions: seq<Action>)
    requires att.Ok() && env.merchant.Some?
    requires Pay(env, chain, att.idi, amount, env.merchant.value, att, nowMs).Done?
    ensures ActionsOk(actions)
    ensures var w := Facepay.Run(env, chain, actions);
            && |w.transfers| == 1 && w.transfers[0].amount == amount
            && w.chain == Pay(env, chain, att.idi, amount, env.merchant.value, att, nowMs).value.0
            && w.shared.clients == [0] && 0 in w.sent && !Pending(w, 0, LastPayment)
            && (exists k :: 0 <= k < |w.sent[0]| && w.sent[0][k].msg.PaymentMsg?)
            && forall k :: 0 <= k < |w.sent[0]| && w.sent[0][k].msg.PaymentMsg? ==> !w.sent[0][k].msg.ok
  {
    hide Facepay.Run, Pay, CheckStep, ExecuteStep, CopySendersStep, SendStep, Balance;
    actions := Approved(idm, att, amount);
    ApprovedWorld(env, chain, idm, att, amount);
    var w := Facepay.Run(env, chain, actions);
    LostReportSteps(env, w, att, amount, nowMs);
    RunStep(env, chain, actions, CheckBalance(0, true));
    actions := actions + [CheckBalance(0, true)];
    RunStep(env, chain, actions, Execute(0, nowMs, ReportLost));
    actions := actions + [Execute(0, nowMs, ReportLost)];
    var w1 := Facepay.Run(env, chain, actions);
    LastBroadcastArrives(w1, 2);
    RunStep(env, chain, actions, CopySenders(2));
    actions := actions + [CopySenders(2)];
    RunStep(env, chain, actions, Send(2, 0));
    actions := actions + [Send(2, 0)];
    var log := Facepay.Run(env, chain, actions).sent[0];
    assert Snapshot(INITIAL) == [Event(Mode, 0, ModeMsg(None))];
    assert log[1].msg == w1.shared.lastPayment.value;
  }
}
