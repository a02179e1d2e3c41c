// The payment daemon's shared record and the critical sections that the threads run on
// it while they hold the lock.
module Shared {
  import opened Bits
  import opened Results
  import opened SuicashGate

  /** What the terminals are told, apart from status lines. */
  datatype Msg =
    | ModeMsg(payment: Option<nat>)
    | CardMsg(idi: Bytes, balance: nat)
    | RemovedMsg
    | PaymentMsg(ok: bool, amount: nat, balance: nat)

  /** The three things a terminal displays, each kept up to date by its own messages. */
  datatype Topic = Mode | OnReader | LastPayment

  /** A message with the number of the locked write it reports; the number is for the proofs and is not sent. */
  datatype Event = Event(topic: Topic, write: nat, msg: Msg)

  /** A payment thread's work: the attestation is gone if it was already taken. */
  datatype Job = Job(amount: nat, idi: Bytes, att: Option<Presentation>)

  /** The shared record, and how often each topic was written. */
  datatype SharedState = SharedState(
    payMode: Option<nat>,
    currentIdi: Option<Bytes>,
    currentAtt: Option<Presentation>,
    clients: seq<nat>,
    nextClientId: nat,
    lastCard: Option<Msg>,
    lastPayment: Option<Msg>,
    modeWrites: nat,
    cardWrites: nat,
    paymentWrites: nat)

  const INITIAL: SharedState := SharedState(None, None, None, [], 0, None, None, 0, 0, 0)

  function SetMode(s: SharedState, mist: Option<nat>): SharedState {
    s.(payMode := mist, modeWrites := s.modeWrites + 1)
  }

  /** The job a face approval starts, and the state without the attestation it takes. */
  function TakeJob(s: SharedState): (SharedState, Option<Job>) {
    if s.payMode.Some? && s.currentIdi.Some? then
      (s.(currentAtt := None), Some(Job(s.payMode.value, s.currentIdi.value, s.currentAtt)))
    else (s, None)
  }

  function ShowCard(s: SharedState, idi: Bytes, att: Presentation, balance: nat): SharedState {
    s.(currentIdi := Some(idi), currentAtt := Some(att), lastCard := Some(CardMsg(idi, balance)),
       cardWrites := s.cardWrites + 1)
  }

  function ClearCard(s: SharedState): SharedState {
    s.(currentIdi := None, currentAtt := None, lastCard := None, cardWrites := s.cardWrites + 1)
  }

  function RecordPayment(s: SharedState, msg: Msg): SharedState {
    s.(lastPayment := Some(msg), paymentWrites := s.paymentWrites + 1)
  }

  /** How often the topic was written. */
  function Writes(s: SharedState, t: Topic): nat {
    match t
    case Mode => s.modeWrites
    case OnReader => s.cardWrites
    case LastPayment => s.paymentWrites
  }

  /** What a terminal should display for the topic, if anything. */
  function Stored(s: SharedState, t: Topic): Option<Msg> {
    match t
    case Mode => Some(ModeMsg(s.payMode))
    case OnReader => s.lastCard
    case LastPayment => s.lastPayment
  }

  /** The stored messages of a topic, stamped with its latest write. */
  function StoredEvents(s: SharedState, t: Topic): seq<Event> {
    if Stored(s, t).Some? then [Event(t, Writes(s, t), Stored(s, t).value)] else []
  }

  /** What a connecting client is sent at once: the mode, then the card and the payment result if any. */
  function Snapshot(s: SharedState): seq<Event> {
    StoredEvents(s, Mode) + StoredEvents(s, OnReader) + StoredEvents(s, LastPayment)
  }

  function Messages(events: seq<Event>): (msgs: seq<Msg>)
    ensures |msgs| == |events| && forall i :: 0 <= i < |events| ==> msgs[i] == events[i].msg
  {
    seq(|events|, i requires 0 <= i < |events| => events[i].msg)
  }

  function Join(s: SharedState): (SharedState, nat, seq<Event>) {
    (s.(clients := s.clients + [s.nextClientId], nextClientId := s.nextClientId + 1), s.nextClientId, Snapshot(s))
  }

  function Without(ids: seq<nat>, id: nat): (rest: seq<nat>)
    ensures forall x :: x in rest <==> x in ids && x != id
  {
    if ids == [] then []
    else if ids[0] == id then Without(ids[1..], id)
    else [ids[0]] + Without(ids[1..], id)
  }

  function Leave(s: SharedState, id: nat): SharedState {
    s.(clients := Without(s.clients, id))
  }

  class Shared {
    var payMode: Option<nat>
    var currentIdi: Option<Bytes>
    var currentAtt: Option<Presentation>
    var clients: seq<nat>
    var nextClientId: nat
    var lastCard: Option<Msg>
    var lastPayment: Option<Msg>
    ghost var modeWrites: nat
    ghost var cardWrites: nat
    ghost var paymentWrites: nat

    ghost function State(): SharedState
      reads this
    {
      SharedState(payMode, currentIdi, currentAtt, clients, nextClientId, lastCard, lastPayment,
                  modeWrites, cardWrites, paymentWrites)
    }

    constructor ()
      ensures State() == INITIAL
      ensures payMode.None? && currentIdi.None? && currentAtt.None? && lastCard.None? && lastPayment.None?
      ensures clients == []
    {
      payMode, currentIdi, currentAtt, clients, nextClientId := None, None, None, [], 0;
      lastCard, lastPayment := None, None;
      modeWrites, cardWrites, paymentWrites := 0, 0, 0;
    }

    method SetPayMode(mist: Option<nat>) returns (msg: Msg)
      modifies this
      ensures State() == SetMode(old(State()), mist) && msg == ModeMsg(mist)
      ensures payMode == mist && lastCard == old(lastCard) && lastPayment == old(lastPayment)
      ensures currentIdi == old(currentIdi) && currentAtt == old(currentAtt) && clients == old(clients)
    {
      payMode := mist;
      modeWrites := modeWrites + 1;
      msg := ModeMsg(mist);
    }

    method FaceOk() returns (job: Option<Job>)
      modifies this
      ensures (State(), job) == TakeJob(old(State()))
      ensures job.Some? <==> payMode.Some? && currentIdi.Some?
      ensures job.Some? ==> job == Some(Job(payMode.value, currentIdi.value, old(currentAtt))) && currentAtt == None
      ensures job.None? ==> currentAtt == old(currentAtt)
      ensures payMode == old(payMode) && currentIdi == old(currentIdi) && clients == old(clients)
      ensures lastCard == old(lastCard) && lastPayment == old(lastPayment)
    {
      match (payMode, currentIdi) {
        case (Some(amount), Some(idi)) =>
          var att := currentAtt;
          currentAtt := None;
          job := Some(Job(amount, idi, att));
        case _ =>
          job := None;
      }
    }

    method OnCard(idi: Bytes, att: Presentation, balance: nat) returns (msg: Msg)
      modifies this
      ensures State() == ShowCard(old(State()), idi, att, balance) && msg == CardMsg(idi, balance)
      ensures currentIdi == Some(idi) && currentAtt == Some(att) && lastCard == Some(msg)
      ensures payMode == old(payMode) && clients == old(clients) && lastPayment == old(lastPayment)
    {
      msg := CardMsg(idi, balance);
      currentIdi := Some(idi);
      currentAtt := Some(att);
      lastCard := Some(msg);
      cardWrites := cardWrites + 1;
    }

    method OnRemoval() returns (msg: Msg)
      modifies this
      ensures State() == ClearCard(old(State())) && msg == RemovedMsg
      ensures currentIdi == None && currentAtt == None && lastCard == None
      ensures payMode == old(payMode) && clients == old(clients) && lastPayment == old(lastPayment)
    {
      currentIdi, currentAtt, lastCard := None, None, None;
      cardWrites := cardWrites + 1;
      msg := RemovedMsg;
    }

    method EmitPayment(msg: Msg)
      modifies this
      ensures State() == RecordPayment(old(State()), msg)
      ensures lastPayment == Some(msg) && payMode == old(payMode) && lastCard == old(lastCard)
      ensures currentIdi == old(currentIdi) && currentAtt == old(currentAtt) && clients == old(clients)
    {
      lastPayment := Some(msg);
      paymentWrites := paymentWrites + 1;
    }

    method Connect() returns (id: nat, snapshot: seq<Msg>)
      modifies this
      ensures var (after, id', events) := Join(old(State()));
              State() == after && id == id' && snapshot == Messages(events)
      ensures snapshot == [ModeMsg(payMode)] + (if lastCard.Some? then [lastCard.value] else [])
                          + (if lastPayment.Some? then [lastPayment.value] else [])
      ensures id == old(nextClientId) && nextClientId == id + 1 && clients == old(clients) + [id]
      ensures payMode == old(payMode) && lastCard == old(lastCard) && lastPayment == old(lastPayment)
      ensures currentIdi == old(currentIdi) && currentAtt == old(currentAtt)
    {
      id := nextClientId;
      nextClientId := nextClientId + 1;
      clients := clients + [id];
      snapshot := [ModeMsg(payMode)];
      if lastCard.Some? {
        snapshot := snapshot + [lastCard.value];
      }
      if lastPayment.Some? {
        snapshot := snapshot + [lastPayment.value];
      }
      assert snapshot == Messages(Snapshot(old(State())));
    }

    method Disconnect(id: nat)
      modifies this
      ensures State() == Leave(old(State()), id)
      ensures forall x :: x in clients <==> x in old(clients) && x != id
      ensures payMode == old(payMode) && lastCard == old(lastCard) && lastPayment == old(lastPayment)
      ensures currentIdi == old(currentIdi) && currentAtt == old(currentAtt)
    {
      ghost var all := clients;
      var kept: seq<nat> := [];
      var i := 0;
      while i < |clients|
        invariant 0 <= i <= |clients| && State() == old(State())
        invariant kept + Without(clients[i..], id) == Without(all, id)
      {
        if clients[i] != id {
          kept := kept + [clients[i]];
        }
        i := i + 1;
      }
      clients := kept;
    }
  }
}
