// What the terminals are told. Every write of the shared record under the lock is
// followed by a broadcast outside it, and a joining client is sent a snapshot: no client
// misses the latest write, and if the writers take turns it displays what is stored.
module Delivery {
  import opened Bits
  import opened Results
  import Gate
  import opened SuicashGate
  import opened Shared
  import opened Facepay

  // ------------------------------------------------------------------- client ids

  ghost predicate ClientsDistinct(s: SharedState) {
    && (forall i :: 0 <= i < |s.clients| ==> s.clients[i] < s.nextClientId)
    && forall i, j :: 0 <= i < j < |s.clients| ==> s.clients[i] != s.clients[j]
  }

  lemma {:induction false} WithoutKeepsOrder(ids: seq<nat>, id: nat)
    requires forall i, j :: 0 <= i < j < |ids| ==> ids[i] != ids[j]
    ensures forall i, j :: 0 <= i < j < |Without(ids, id)| ==> Without(ids, id)[i] != Without(ids, id)[j]
  {
    if ids != [] {
      WithoutKeepsOrder(ids[1..], id);
      var rest := Without(ids[1..], id);
      forall k | 0 <= k < |rest| ensures rest[k] != ids[0] {
        assert rest[k] in ids[1..];
      }
    }
  }

  // ------------------------------------------------------------------- kinds of steps

  /** The event about the latest write of a topic; a topic with nothing stored was cleared. */
  function Latest(s: SharedState, t: Topic): Event {
    Event(t, Writes(s, t), if Stored(s, t).Some? then Stored(s, t).value else RemovedMsg)
  }

  /** Neither the topic nor the number of its writes changed. */
  ghost predicate SameTopic(s: SharedState, s': SharedState, t: Topic) {
    Writes(s', t) == Writes(s, t) && Stored(s', t) == Stored(s, t)
  }

  ghost predicate SameClients(w: World, w': World) {
    && w'.shared.clients == w.shared.clients && w'.shared.nextClientId == w.shared.nextClientId
    && w'.sent == w.sent && w'.joined == w.joined
  }

  /** Nothing about messages or clients changed. */
  ghost predicate Inert(w: World, w': World) {
    SameClients(w, w') && w'.broadcasts == w.broadcasts && forall t: Topic :: SameTopic(w.shared, w'.shared, t)
  }

  /** One topic was written, and a broadcast about exactly that write was started. */
  ghost predicate Announces(w: World, w': World, u: Topic) {
    && SameClients(w, w')
    && w'.broadcasts == w.broadcasts + [Broadcast(Latest(w'.shared, u), None)]
    && Writes(w'.shared, u) == Writes(w.shared, u) + 1
    && Stored(w'.shared, u) != Some(RemovedMsg)
    && forall t: Topic :: t != u ==> SameTopic(w.shared, w'.shared, t)
  }

  predicate IsClientStep(a: Action) {
    a.Connect? || a.Disconnect? || a.CopySenders? || a.Send?
  }

  /** The topic that a step writes, if any. */
  function Written(w: World, w': World): Option<Topic> {
    if w'.shared.modeWrites != w.shared.modeWrites then Some(Mode)
    else if w'.shared.cardWrites != w.shared.cardWrites then Some(OnReader)
    else if w'.shared.paymentWrites != w.shared.paymentWrites then Some(LastPayment)
    else None
  }

  ghost predicate SilentOrAnnounces(w: World, w': World) {
    if Written(w, w').Some? then Announces(w, w', Written(w, w').value) else Inert(w, w')
  }

  lemma CheckAnnounces(env: Env, w: World, p: nat, answered: bool)
    ensures SilentOrAnnounces(w, CheckStep(env, w, p, answered))
  {
    hide Lookup, RemoveIndex;
  }

  lemma ExecuteAnnounces(env: Env, w: World, p: nat, nowMs: nat, helper: Helper)
    ensures SilentOrAnnounces(w, ExecuteStep(env, w, p, nowMs, helper))
  {
    hide Pay, Balance, RemoveIndex;
  }

  /** A step that is not about one client is silent, or announces the one topic it writes. */
  lemma StepsAnnounce(env: Env, w: World, a: Action)
    requires a.Ok() && !IsClientStep(a)
    ensures SilentOrAnnounces(w, Next(env, w, a))
  {
    hide Gate.Step, CheckStep, ExecuteStep, Lookup, Quiet;
    match a
    case CheckBalance(p, answered) => CheckAnnounces(env, w, p, answered);
    case Execute(p, nowMs, helper) => ExecuteAnnounces(env, w, p, nowMs, helper);
    case _ =>
  }

  lemma ClientsDistinctStep(env: Env, w: World, a: Action)
    requires a.Ok() && ClientsDistinct(w.shared)
    ensures ClientsDistinct(Next(env, w, a).shared)
  {
    hide Verify, Pay, Gate.Step;
    if !IsClientStep(a) {
      hide Next;
      StepsAnnounce(env, w, a);
    } else if a.Disconnect? {
      WithoutKeepsOrder(w.shared.clients, a.id);
      var rest := Without(w.shared.clients, a.id);
      forall i | 0 <= i < |rest| ensures rest[i] < w.shared.nextClientId {
        assert rest[i] in w.shared.clients;
      }
    }
  }

  // ------------------------------------------------------------------- events in flight

  /** An event reports a write that happened, and it is the only event about the latest one. */
  ghost predicate IsReport(s: SharedState, e: Event) {
    e.write <= Writes(s, e.topic) && (e.write == Writes(s, e.topic) ==> e == Latest(s, e.topic))
  }

  ghost predicate AllReports(s: SharedState, log: seq<Event>) {
    forall i :: 0 <= i < |log| ==> IsReport(s, log[i])
  }

  ghost predicate LogKnown(w: World, id: nat) {
    && id in w.sent && id in w.joined && id < w.shared.nextClientId
    && AllReports(w.shared, w.sent[id])
    && forall t: Topic :: Writes(w.joined[id], t) <= Writes(w.shared, t)
  }

  ghost predicate BroadcastKnown(w: World, bc: Broadcast) {
    IsReport(w.shared, bc.event) && (bc.targets.Some? ==> forall id :: id in bc.targets.value ==> id in w.sent)
  }

  /** What was sent and what is under way are reports; everyone addressed has joined. */
  ghost predicate Known(w: World) {
    && (forall id :: id in w.sent ==> LogKnown(w, id))
    && (forall id :: id in w.shared.clients ==> id in w.sent)
    && (forall i :: 0 <= i < |w.broadcasts| ==> BroadcastKnown(w, w.broadcasts[i]))
  }

  /** Each topic is as it was, or was written once more. */
  ghost predicate Later(s: SharedState, s': SharedState) {
    && s.nextClientId <= s'.nextClientId
    && forall t: Topic :: SameTopic(s, s', t) || Writes(s', t) == Writes(s, t) + 1
  }

  lemma ReportsSurvive(s: SharedState, s': SharedState, log: seq<Event>)
    requires Later(s, s') && AllReports(s, log)
    ensures AllReports(s', log)
  {
    forall i | 0 <= i < |log| ensures IsReport(s', log[i]) {
      assert IsReport(s, log[i]);
      assert SameTopic(s, s', log[i].topic) || Writes(s', log[i].topic) == Writes(s, log[i].topic) + 1;
    }
  }

  lemma LogSurvives(w: World, w': World, id: nat)
    requires LogKnown(w, id) && Later(w.shared, w'.shared)
    requires id in w'.sent && w'.sent[id] == w.sent[id] && id in w'.joined && w'.joined[id] == w.joined[id]
    ensures LogKnown(w', id)
  {
    ReportsSurvive(w.shared, w'.shared, w.sent[id]);
    hide AllReports, Writes, Stored;
    forall t: Topic ensures Writes(w'.joined[id], t) <= Writes(w'.shared, t) {
      assert SameTopic(w.shared, w'.shared, t) || Writes(w'.shared, t) == Writes(w.shared, t) + 1;
    }
  }

  lemma BroadcastSurvives(w: World, w': World, bc: Broadcast)
    requires BroadcastKnown(w, bc) && Later(w.shared, w'.shared) && w.sent.Keys <= w'.sent.Keys
    ensures BroadcastKnown(w', bc)
  {
    ReportsSurvive(w.shared, w'.shared, [bc.event]);
    assert IsReport(w'.shared, [bc.event][0]);
    hide IsReport;
    if bc.targets.Some? {
      forall id | id in bc.targets.value ensures id in w'.sent {
        assert id in w.sent.Keys;
      }
    }
  }

  lemma MemberIsKnown(w: World, id: nat)
    requires Known(w) && id in w.sent
    ensures LogKnown(w, id) && id in w.joined && id != w.shared.nextClientId
  {
  }

  /** Everything known before is known after a step that keeps the logs and only adds broadcasts that are known. */
  lemma KnownSurvives(w: World, w': World)
    requires Known(w) && Later(w.shared, w'.shared) && w'.sent == w.sent && w'.joined == w.joined
    requires forall id :: id in w'.shared.clients ==> id in w.shared.clients
    requires forall i :: 0 <= i < |w'.broadcasts| ==>
               w'.broadcasts[i] in w.broadcasts || BroadcastKnown(w', w'.broadcasts[i])
    ensures Known(w')
  {
    hide LogKnown, BroadcastKnown, Later;
    forall id | id in w'.sent ensures LogKnown(w', id) {
      MemberIsKnown(w, id);
      LogSurvives(w, w', id);
    }
    forall i | 0 <= i < |w'.broadcasts| ensures BroadcastKnown(w', w'.broadcasts[i]) {
      if w'.broadcasts[i] in w.broadcasts {
        BroadcastSurvives(w, w', w'.broadcasts[i]);
      }
    }
  }

  lemma AnnounceIsKnown(w: World, w': World, u: Topic)
    requires Known(w) && Announces(w, w', u)
    ensures Known(w')
  {
    assert Later(w.shared, w'.shared);
    var latest := Broadcast(Latest(w'.shared, u), None);
    assert BroadcastKnown(w', latest);
    hide Known, Later, BroadcastKnown, Latest, Stored, Writes;
    KnownSurvives(w, w');
  }

  lemma InertIsKnown(w: World, w': World)
    requires Known(w) && Inert(w, w')
    ensures Known(w')
  {
    assert Later(w.shared, w'.shared);
    hide Known, Later, BroadcastKnown;
    KnownSurvives(w, w');
  }

  lemma SnapshotReports(s: SharedState)
    ensures AllReports(s, Snapshot(s))
    ensures forall e :: e in Snapshot(s) <==> Stored(s, e.topic).Some? && e == Latest(s, e.topic)
  {
    var a, b, c := StoredEvents(s, Mode), StoredEvents(s, OnReader), StoredEvents(s, LastPayment);
    forall e ensures e in Snapshot(s) <==> Stored(s, e.topic).Some? && e == Latest(s, e.topic) {
      assert e in Snapshot(s) <==> e in a || e in b || e in c;
    }
    forall i | 0 <= i < |Snapshot(s)| ensures IsReport(s, Snapshot(s)[i]) {
      assert Snapshot(s)[i] in Snapshot(s);
    }
  }

  lemma ConnectIsKnown(w: World)
    requires Known(w)
    ensures Known(ConnectStep(w))
  {
    var w', joiner := ConnectStep(w), w.shared.nextClientId;
    SnapshotReports(w.shared);
    assert Later(w.shared, w'.shared);
    ReportsSurvive(w.shared, w'.shared, Snapshot(w.shared));
    assert LogKnown(w', joiner);
    hide AllReports, Snapshot, Later, LogKnown, BroadcastKnown;
    forall id | id in w'.sent && id != joiner ensures LogKnown(w', id) {
      MemberIsKnown(w, id);
      LogSurvives(w, w', id);
    }
    forall i | 0 <= i < |w'.broadcasts| ensures BroadcastKnown(w', w'.broadcasts[i]) {
      BroadcastSurvives(w, w', w'.broadcasts[i]);
    }
  }

  lemma DisconnectIsKnown(w: World, id: nat)
    requires Known(w)
    ensures Known(DisconnectStep(w, id))
  {
    var w' := DisconnectStep(w, id);
    assert Later(w.shared, w'.shared);
    hide Known, Later, BroadcastKnown;
    KnownSurvives(w, w');
  }

  lemma CopySendersIsKnown(w: World, b: nat)
    requires Known(w)
    ensures Known(CopySendersStep(w, b))
  {
    var w' := CopySendersStep(w, b);
    if w' != w {
      assert BroadcastKnown(w, w.broadcasts[b]);
      assert BroadcastKnown(w', w'.broadcasts[b]);
      assert Later(w.shared, w'.shared);
      hide Known, Later, BroadcastKnown;
      forall i | 0 <= i < |w'.broadcasts|
        ensures w'.broadcasts[i] in w.broadcasts || BroadcastKnown(w', w'.broadcasts[i])
      {
        if i != b { assert w'.broadcasts[i] == w.broadcasts[i]; }
      }
      KnownSurvives(w, w');
    }
  }

  lemma RemoveIndexIsPart<T>(s: seq<T>, i: nat)
    requires i < |s|
    ensures |RemoveIndex(s, i)| == |s| - 1
    ensures forall j :: 0 <= j < |RemoveIndex(s, i)| ==> RemoveIndex(s, i)[j] == s[if j < i then j else j + 1]
    ensures forall j :: 0 <= j < |s| && j != i ==> RemoveIndex(s, i)[if j < i then j else j - 1] == s[j]
  {
  }

  lemma SendIsKnown(w: World, b: nat, id: nat)
    requires Known(w)
    ensures Known(SendStep(w, b, id))
  {
    var w' := SendStep(w, b, id);
    if b < |w.broadcasts| && w.broadcasts[b].targets.Some? {
      var bc := w.broadcasts[b];
      assert BroadcastKnown(w, bc);
      assert Later(w.shared, w'.shared);
      if bc.targets.value == {} {
        RemoveIndexIsPart(w.broadcasts, b);
        hide Known, Later, BroadcastKnown, RemoveIndex;
        KnownSurvives(w, w');
      } else if id in bc.targets.value {
        DeliveredIsKnown(w, w', bc, b, id);
      }
    }
  }

  lemma DeliveredIsKnown(w: World, w': World, bc: Broadcast, b: nat, id: nat)
    requires Known(w) && b < |w.broadcasts| && bc == w.broadcasts[b]
    requires bc.targets.Some? && id in bc.targets.value && id in w.sent && w' == SendStep(w, b, id)
    ensures Known(w')
  {
    assert BroadcastKnown(w, bc);
    assert Later(w.shared, w'.shared);
    MemberIsKnown(w, id);
    assert LogKnown(w', id);
    assert BroadcastKnown(w', w'.broadcasts[b]);
    hide AllReports, Later, LogKnown, BroadcastKnown;
    forall x | x in w'.sent && x != id ensures LogKnown(w', x) {
      MemberIsKnown(w, x);
      LogSurvives(w, w', x);
    }
    forall i | 0 <= i < |w'.broadcasts| && i != b ensures BroadcastKnown(w', w'.broadcasts[i]) {
      BroadcastSurvives(w, w', w'.broadcasts[i]);
    }
  }

  lemma OtherIsKnown(w: World, w': World)
    requires SilentOrAnnounces(w, w') && Known(w)
    ensures Known(w')
  {
    hide Announces, Inert, Known;
    match Written(w, w')
    case Some(u) => AnnounceIsKnown(w, w', u);
    case None => InertIsKnown(w, w');
  }

  lemma KnownStep(env: Env, w: World, a: Action)
    requires a.Ok() && Known(w)
    ensures Known(Next(env, w, a))
  {
    hide Known, Announces, Inert, ConnectStep, DisconnectStep, CopySendersStep, SendStep;
    match a
    case Connect => ConnectIsKnown(w);
    case Disconnect(id) => DisconnectIsKnown(w, id);
    case CopySenders(b) => CopySendersIsKnown(w, b);
    case Send(b, id) => SendIsKnown(w, b, id);
    case _ =>
      hide Next;
      StepsAnnounce(env, w, a);
      OtherIsKnown(w, Next(env, w, a));
  }

  // ------------------------------------------------------------------- no write is missed

  /** The client was sent the event about the latest write, or joined after that write cleared the topic. */
  ghost predicate Told(w: World, id: nat, t: Topic) {
    && id in w.sent && id in w.joined
    && (|| Latest(w.shared, t) in w.sent[id]
        || (Stored(w.shared, t).None? && Writes(w.joined[id], t) == Writes(w.shared, t)))
  }

  predicate Carries(bc: Broadcast, e: Event, id: nat) {
    bc.event == e && (bc.targets.Some? ==> id in bc.targets.value)
  }

  /** The event about the latest write is still on its way to the client. */
  ghost predicate Pending(w: World, id: nat, t: Topic) {
    exists i :: 0 <= i < |w.broadcasts| && Carries(w.broadcasts[i], Latest(w.shared, t), id)
  }

  ghost predicate NotLost(w: World, id: nat, t: Topic) {
    id in w.shared.clients ==> Told(w, id, t) || Pending(w, id, t)
  }

  lemma AnnounceLosesNothing(w: World, w': World, u: Topic, id: nat, t: Topic)
    requires Announces(w, w', u) && NotLost(w, id, t)
    ensures NotLost(w', id, t)
  {
    if t == u {
      assert Carries(w'.broadcasts[|w.broadcasts|], Latest(w'.shared, t), id);
    } else {
      assert SameTopic(w.shared, w'.shared, t);
      hide Writes, Stored;
      if i :| 0 <= i < |w.broadcasts| && Carries(w.broadcasts[i], Latest(w.shared, t), id) {
        assert Carries(w'.broadcasts[i], Latest(w'.shared, t), id);
      }
    }
  }

  lemma InertLosesNothing(w: World, w': World, id: nat, t: Topic)
    requires Inert(w, w') && NotLost(w, id, t)
    ensures NotLost(w', id, t)
  {
    assert SameTopic(w.shared, w'.shared, t);
    hide Writes, Stored;
  }

  lemma ConnectLosesNothing(w: World, id: nat, t: Topic)
    requires Known(w) && NotLost(w, id, t)
    ensures NotLost(ConnectStep(w), id, t)
  {
    var w' := ConnectStep(w);
    SnapshotReports(w.shared);
    assert SameTopic(w.shared, w'.shared, t);
    hide Snapshot, LogKnown, BroadcastKnown;
    if id in w.shared.clients {
      MemberIsKnown(w, id);
      hide Known, Writes, Stored;
      assert Told(w, id, t) ==> Told(w', id, t);
      assert Pending(w, id, t) ==> Pending(w', id, t);
    } else if id in w'.shared.clients {
      assert id == w.shared.nextClientId;
      assert Told(w', id, t);
    }
  }

  lemma DisconnectLosesNothing(w: World, x: nat, id: nat, t: Topic)
    requires NotLost(w, id, t)
    ensures NotLost(DisconnectStep(w, x), id, t)
  {
    var w' := DisconnectStep(w, x);
    assert SameTopic(w.shared, w'.shared, t);
    hide Writes, Stored;
    assert Told(w, id, t) ==> Told(w', id, t);
    assert Pending(w, id, t) ==> Pending(w', id, t);
  }

  lemma CopySendersLosesNothing(w: World, b: nat, id: nat, t: Topic)
    requires NotLost(w, id, t)
    ensures NotLost(CopySendersStep(w, b), id, t)
  {
    var w' := CopySendersStep(w, b);
    hide Latest, Writes, Stored;
    if id in w.shared.clients && !Told(w, id, t) {
      var i :| 0 <= i < |w.broadcasts| && Carries(w.broadcasts[i], Latest(w.shared, t), id);
      assert Carries(w'.broadcasts[i], Latest(w'.shared, t), id);
    }
  }

  /** One send moves one copy of an event from its broadcast to one log. */
  lemma SendMoves(w: World, b: nat, x: nat, i: nat, e: Event, id: nat)
    requires i < |w.broadcasts| && Carries(w.broadcasts[i], e, id) && id in w.sent
    ensures var w' := SendStep(w, b, x);
            || (id in w'.sent && e in w'.sent[id])
            || exists j :: 0 <= j < |w'.broadcasts| && Carries(w'.broadcasts[j], e, id)
  {
    hide RemoveIndex;
    var w' := SendStep(w, b, x);
    if b < |w.broadcasts| && w.broadcasts[b].targets.Some? {
      if w.broadcasts[b].targets.value == {} {
        RemoveIndexIsPart(w.broadcasts, b);
        assert Carries(w'.broadcasts[if i < b then i else i - 1], e, id);
      } else if i == b && x == id {
        assert w'.sent[id][|w'.sent[id]| - 1] == e;
      } else {
        assert Carries(w'.broadcasts[i], e, id);
      }
    }
  }

  lemma SendKeeps(w: World, b: nat, x: nat, e: Event, id: nat)
    requires id in w.sent
    ensures var w' := SendStep(w, b, x);
            && w'.shared == w.shared && w'.joined == w.joined && id in w'.sent && w.sent[id] <= w'.sent[id]
            && (e in w.sent[id] ==> e in w'.sent[id])
  {
    hide RemoveIndex;
  }

  lemma SendLosesNothing(w: World, b: nat, x: nat, id: nat, t: Topic)
    requires NotLost(w, id, t) && Known(w)
    ensures NotLost(SendStep(w, b, x), id, t)
  {
    hide SendStep, Known, Latest, Writes, Stored;
    if id in w.shared.clients {
      assert id in w.sent by { ClientsAreMembers(w, id); }
      SendKeeps(w, b, x, Latest(w.shared, t), id);
      if !Told(w, id, t) {
        var i :| 0 <= i < |w.broadcasts| && Carries(w.broadcasts[i], Latest(w.shared, t), id);
        SendMoves(w, b, x, i, Latest(w.shared, t), id);
        assert id in w.joined by { ClientsAreMembers(w, id); }
      }
    } else {
      SendKeepsClients(w, b, x);
    }
  }

  lemma ClientsAreMembers(w: World, id: nat)
    requires Known(w) && id in w.shared.clients
    ensures id in w.sent && id in w.joined
  {
    MemberIsKnown(w, id);
  }

  lemma SendKeepsClients(w: World, b: nat, x: nat)
    ensures SendStep(w, b, x).shared == w.shared
  {
  }

  lemma OtherLosesNothing(w: World, w': World, id: nat, t: Topic)
    requires SilentOrAnnounces(w, w') && NotLost(w, id, t)
    ensures NotLost(w', id, t)
  {
    hide Announces, Inert, NotLost;
    match Written(w, w')
    case Some(u) => AnnounceLosesNothing(w, w', u, id, t);
    case None => InertLosesNothing(w, w', id, t);
  }

  lemma NothingLostStep(env: Env, w: World, a: Action, id: nat, t: Topic)
    requires a.Ok() && Known(w) && NotLost(w, id, t)
    ensures NotLost(Next(env, w, a), id, t)
  {
    hide Known, NotLost, Announces, Inert, ConnectStep, DisconnectStep, CopySendersStep, SendStep;
    match a
    case Connect => ConnectLosesNothing(w, id, t);
    case Disconnect(x) => DisconnectLosesNothing(w, x, id, t);
    case CopySenders(b) => CopySendersLosesNothing(w, b, id, t);
    case Send(b, x) => SendLosesNothing(w, b, x, id, t);
    case _ =>
      hide Next;
      StepsAnnounce(env, w, a);
      OtherLosesNothing(w, Next(env, w, a), id, t);
  }

  // ------------------------------------------------------------------- what a client displays

  /** The last event about a topic that a client was sent: what it displays. */
  function LastOf(log: seq<Event>, t: Topic): (last: Option<Event>)
    ensures last.Some? ==> last.value in log && last.value.topic == t
    ensures last.None? ==> forall e :: e in log ==> e.topic != t
  {
    if log == [] then None
    else if log[|log| - 1].topic == t then Some(log[|log| - 1])
    else
      assert log == log[..|log| - 1] + [log[|log| - 1]];
      LastOf(log[..|log| - 1], t)
  }

  /** What a message puts on the display. */
  function Shown(m: Msg): Option<Msg> {
    if m == RemovedMsg then None else Some(m)
  }

  function Displayed(log: seq<Event>, t: Topic): Option<Msg> {
    match LastOf(log, t)
    case None => None
    case Some(e) => Shown(e.msg)
  }

  /** The client displays the latest write of the topic, or nothing when there is nothing to display. */
  ghost predicate UpToDate(s: SharedState, log: seq<Event>, t: Topic) {
    match LastOf(log, t)
    case None => Stored(s, t).None?
    case Some(e) => e == Latest(s, t)
  }

  /** The last message the client received about the topic is about the newest write it was told of, snapshot
      included. */
  ghost predicate LastIsNewest(joined: SharedState, log: seq<Event>, t: Topic) {
    match LastOf(log, t)
    case None => true
    case Some(last) =>
      && Writes(joined, t) <= last.write
      && forall i :: 0 <= i < |log| && log[i].topic == t ==> log[i].write <= last.write
  }

  lemma UpToDateExactly(w: World, id: nat, t: Topic)
    requires Known(w) && Told(w, id, t)
    ensures UpToDate(w.shared, w.sent[id], t) <==> LastIsNewest(w.joined[id], w.sent[id], t)
  {
    MemberIsKnown(w, id);
    hide Known;
    var log, latest, last := w.sent[id], Latest(w.shared, t), LastOf(w.sent[id], t);
    if last.Some? {
      var k :| 0 <= k < |log| && log[k] == last.value;
      assert IsReport(w.shared, log[k]);
      if latest in log {
        var i :| 0 <= i < |log| && log[i] == latest;
        assert log[i].topic == t;
      }
      forall i | 0 <= i < |log| && log[i].topic == t ensures log[i].write <= Writes(w.shared, t) {
        assert IsReport(w.shared, log[i]);
      }
    }
  }

  ghost predicate NothingRemovedStored(s: SharedState) {
    forall t: Topic :: Stored(s, t) != Some(RemovedMsg)
  }

  lemma NothingRemovedStoredStep(env: Env, w: World, a: Action)
    requires a.Ok() && NothingRemovedStored(w.shared)
    ensures NothingRemovedStored(Next(env, w, a).shared)
  {
    if !IsClientStep(a) {
      var w' := Next(env, w, a);
      StepsAnnounce(env, w, a);
      hide Next;
      forall t: Topic ensures Stored(w'.shared, t) != Some(RemovedMsg) {
        assert Written(w, w') != Some(t) ==> SameTopic(w.shared, w'.shared, t);
        hide Stored;
      }
    } else {
      forall t: Topic ensures Stored(Next(env, w, a).shared, t) == Stored(w.shared, t) {
      }
    }
  }

  lemma UpToDateDisplays(s: SharedState, log: seq<Event>, t: Topic)
    requires NothingRemovedStored(s) && UpToDate(s, log, t)
    ensures Displayed(log, t) == Stored(s, t)
  {
    assert Stored(s, t) != Some(RemovedMsg);
  }

  // ------------------------------------------------------------------- writers that take turns

  ghost predicate InTurn(w: World, t: Topic) {
    && (forall i :: 0 <= i < |w.broadcasts| && w.broadcasts[i].event.topic == t ==>
          w.broadcasts[i].event == Latest(w.shared, t))
    && forall id :: id in w.sent && id in w.joined ==> LastIsNewest(w.joined[id], w.sent[id], t)
  }

  lemma AnnounceInTurn(w: World, w': World, u: Topic, t: Topic)
    requires Announces(w, w', u) && InTurn(w, t) && (u == t ==> Quiet(w, t))
    ensures InTurn(w', t)
  {
    if u != t { assert SameTopic(w.shared, w'.shared, t); }
    hide Writes, Stored, LastIsNewest;
    forall i | 0 <= i < |w'.broadcasts| && w'.broadcasts[i].event.topic == t
      ensures w'.broadcasts[i].event == Latest(w'.shared, t)
    {
      if i < |w.broadcasts| { assert w'.broadcasts[i] == w.broadcasts[i]; }
    }
  }

  lemma InertInTurn(w: World, w': World, t: Topic)
    requires Inert(w, w') && InTurn(w, t)
    ensures InTurn(w', t)
  {
    assert SameTopic(w.shared, w'.shared, t);
    hide Writes, Stored, LastIsNewest;
  }

  lemma ConnectInTurn(w: World, t: Topic)
    requires InTurn(w, t)
    ensures InTurn(ConnectStep(w), t)
  {
    SnapshotReports(w.shared);
    assert SameTopic(w.shared, ConnectStep(w).shared, t);
    hide Snapshot;
    var log := Snapshot(w.shared);
    assert LastIsNewest(w.shared, log, t) by {
      forall i | 0 <= i < |log| && log[i].topic == t ensures log[i].write == Writes(w.shared, t) {
        assert log[i] in log;
      }
    }
    hide LastIsNewest, Writes, Stored;
  }

  lemma DeliveryInTurn(s: SharedState, joined: SharedState, log: seq<Event>, e: Event, t: Topic)
    requires LastIsNewest(joined, log, t) && (e.topic == t ==> e == Latest(s, t))
    requires AllReports(s, log) && Writes(joined, t) <= Writes(s, t)
    ensures LastIsNewest(joined, log + [e], t)
  {
    assert (log + [e])[..|log|] == log;
    forall i | 0 <= i < |log| && log[i].topic == t ensures log[i].write <= Writes(s, t) {
      assert IsReport(s, log[i]);
    }
  }

  lemma SendInTurn(w: World, b: nat, x: nat, t: Topic)
    requires InTurn(w, t) && Known(w)
    ensures InTurn(SendStep(w, b, x), t)
  {
    var w' := SendStep(w, b, x);
    hide LastIsNewest, LogKnown, Latest;
    if b < |w.broadcasts| && w.broadcasts[b].targets.Some? {
      var bc := w.broadcasts[b];
      if bc.targets.value == {} {
        RemoveIndexIsPart(w.broadcasts, b);
        hide RemoveIndex, Known;
      } else if x in bc.targets.value {
        assert BroadcastKnown(w, bc);
        MemberIsKnown(w, x);
        ReceiverInTurn(w, x, bc.event, t);
      }
    }
  }

  lemma ReceiverInTurn(w: World, x: nat, e: Event, t: Topic)
    requires InTurn(w, t) && Known(w) && x in w.sent && x in w.joined && (e.topic == t ==> e == Latest(w.shared, t))
    ensures LastIsNewest(w.joined[x], w.sent[x] + [e], t)
  {
    MemberIsKnown(w, x);
    hide Known, LastIsNewest, Latest, AllReports;
    DeliveryInTurn(w.shared, w.joined[x], w.sent[x], e, t);
  }

  /** Only clients or targets changed. */
  lemma RestInTurn(w: World, w': World, t: Topic)
    requires InTurn(w, t) && w'.sent == w.sent && w'.joined == w.joined && SameTopic(w.shared, w'.shared, t)
    requires |w'.broadcasts| == |w.broadcasts|
    requires forall i :: 0 <= i < |w.broadcasts| ==> w'.broadcasts[i].event == w.broadcasts[i].event
    ensures InTurn(w', t)
  {
    hide LastIsNewest, Writes, Stored;
  }

  lemma OtherInTurn(w: World, w': World, t: Topic)
    requires SilentOrAnnounces(w, w') && InTurn(w, t) && (Written(w, w') == Some(t) ==> Quiet(w, t))
    ensures InTurn(w', t)
  {
    hide Announces, Inert, InTurn, Quiet;
    match Written(w, w')
    case Some(u) => AnnounceInTurn(w, w', u, t);
    case None => InertInTurn(w, w', t);
  }

  lemma InTurnStep(env: Env, w: World, a: Action, t: Topic)
    requires a.Ok() && Known(w) && InTurn(w, t)
    requires Written(w, Next(env, w, a)) == Some(t) ==> Quiet(w, t)
    ensures InTurn(Next(env, w, a), t)
  {
    hide Known, Quiet, InTurn, Announces, Inert, ConnectStep, SendStep;
    match a
    case Connect => ConnectInTurn(w, t);
    case Disconnect(x) => RestInTurn(w, DisconnectStep(w, x), t);
    case CopySenders(b) => RestInTurn(w, CopySendersStep(w, b), t);
    case Send(b, x) => SendInTurn(w, b, x, t);
    case _ =>
      hide Next;
      StepsAnnounce(env, w, a);
      OtherInTurn(w, Next(env, w, a), t);
  }

  // ------------------------------------------------------------------ every reachable state

  ghost predicate Invariant(w: World, t: Topic) {
    && ClientsDistinct(w.shared) && Known(w) && NothingRemovedStored(w.shared)
    && forall id: nat :: NotLost(w, id, t)
  }

  lemma StartIsFine(chain: Chain, t: Topic)
    ensures Invariant(Start(chain), t) && InTurn(Start(chain), t)
  {
  }

  lemma {:induction false} InvariantHolds(env: Env, chain: Chain, actions: seq<Action>, t: Topic)
    requires ActionsOk(actions)
    ensures Invariant(Run(env, chain, actions), t)
    decreases |actions|
  {
    hide Next, ClientsDistinct, Known, NothingRemovedStored, NotLost;
    if actions == [] {
      StartIsFine(chain, t);
    } else {
      var n := |actions| - 1;
      InvariantHolds(env, chain, actions[..n], t);
      var w, a := Run(env, chain, actions[..n]), actions[n];
      ClientsDistinctStep(env, w, a);
      KnownStep(env, w, a);
      NothingRemovedStoredStep(env, w, a);
      forall id: nat ensures NotLost(Next(env, w, a), id, t) {
        NothingLostStep(env, w, a, id, t);
      }
    }
  }

  /**
   * In every run, for every connected client and every topic: unless the event about the latest write is still on its
   * way to the client, the client was sent that very event, or it joined after the write that cleared the topic.
   */
  lemma ClientsAreInformed(env: Env, chain: Chain, actions: seq<Action>, id: nat, t: Topic)
    requires ActionsOk(actions)
    ensures var w := Run(env, chain, actions);
            id in w.shared.clients && !Pending(w, id, t) ==> Told(w, id, t)
  {
    hide Run, Known, Told, Pending;
    InvariantHolds(env, chain, actions, t);
    assert NotLost(Run(env, chain, actions), id, t);
  }

  /**
   * In every run: once informed, a client displays the latest write of a topic exactly when the last message it
   * received about the topic is the newest it received; then it displays what is stored.
   */
  lemma DisplayExactly(env: Env, chain: Chain, actions: seq<Action>, id: nat, t: Topic)
    requires ActionsOk(actions)
    ensures var w := Run(env, chain, actions);
            id in w.shared.clients && !Pending(w, id, t) ==>
              && id in w.sent && id in w.joined
              && (UpToDate(w.shared, w.sent[id], t) <==> LastIsNewest(w.joined[id], w.sent[id], t))
              && (UpToDate(w.shared, w.sent[id], t) ==> Displayed(w.sent[id], t) == Stored(w.shared, t))
  {
    hide Run, Known, Pending, UpToDate, LastIsNewest, Latest, Displayed, Stored, NothingRemovedStored;
    var w := Run(env, chain, actions);
    InvariantHolds(env, chain, actions, t);
    assert NotLost(w, id, t);
    if id in w.shared.clients && !Pending(w, id, t) {
      UpToDateExactly(w, id, t);
      if UpToDate(w.shared, w.sent[id], t) {
        UpToDateDisplays(w.shared, w.sent[id], t);
      }
    }
  }

  /** Every write of the topic waits until no broadcast about it is under way. */
  ghost predicate TakesTurns(env: Env, chain: Chain, actions: seq<Action>, t: Topic)
    requires ActionsOk(actions)
  {
    actions == []
    || var before := actions[..|actions| - 1];
       && TakesTurns(env, chain, before, t)
       && (Written(Run(env, chain, before), Run(env, chain, actions)) == Some(t) ==> Quiet(Run(env, chain, before), t))
  }

  lemma {:induction false} TurnsKeepOrder(env: Env, chain: Chain, actions: seq<Action>, t: Topic)
    requires ActionsOk(actions) && TakesTurns(env, chain, actions, t)
    ensures InTurn(Run(env, chain, actions), t)
    decreases |actions|
  {
    hide Next, InTurn, Known, Quiet, NotLost, ClientsDistinct, NothingRemovedStored;
    if actions == [] {
      StartIsFine(chain, t);
    } else {
      var n := |actions| - 1;
      TurnsKeepOrder(env, chain, actions[..n], t);
      InvariantHolds(env, chain, actions[..n], t);
      InTurnStep(env, Run(env, chain, actions[..n]), actions[n], t);
    }
  }

  /** In every run whose writers of a topic take turns, an informed client displays exactly what is stored. */
  lemma TurnsDisplay(env: Env, chain: Chain, actions: seq<Action>, id: nat, t: Topic)
    requires ActionsOk(actions) && TakesTurns(env, chain, actions, t)
    ensures var w := Run(env, chain, actions);
            id in w.shared.clients && !Pending(w, id, t) ==>
              id in w.sent && Displayed(w.sent[id], t) == Stored(w.shared, t)
  {
    hide Run, TakesTurns, Pending, UpToDate, LastIsNewest, Displayed, Stored;
    DisplayExactly(env, chain, actions, id, t);
    TurnsKeepOrder(env, chain, actions, t);
  }

  // ------------------------------------------------------------------- the card thread

  lemma CardWritesWait(env: Env, w: World, a: Action)
    requires a.Ok() && Written(w, Next(env, w, a)) == Some(OnReader)
    ensures Quiet(w, OnReader)
  {
    hide Gate.Step, Pay, Lookup, Balance, RemoveIndex, Quiet;
  }

  /** One thread reads the cards and sends before it polls again: the card's writes take turns in every run. */
  lemma {:induction false} CardTakesTurns(env: Env, chain: Chain, actions: seq<Action>)
    requires ActionsOk(actions)
    ensures TakesTurns(env, chain, actions, OnReader)
  {
    hide Next, Quiet, Written;
    if actions != [] {
      var n := |actions| - 1;
      CardTakesTurns(env, chain, actions[..n]);
      if Written(Run(env, chain, actions[..n]), Run(env, chain, actions)) == Some(OnReader) {
        CardWritesWait(env, Run(env, chain, actions[..n]), actions[n]);
      }
    }
  }

  /** In every run: an informed client displays exactly the card that is stored, or none when none is. */
  lemma CardIsDisplayed(env: Env, chain: Chain, actions: seq<Action>, id: nat)
    requires ActionsOk(actions)
    ensures var w := Run(env, chain, actions);
            id in w.shared.clients && !Pending(w, id, OnReader) ==>
              id in w.sent && Displayed(w.sent[id], OnReader) == w.shared.lastCard
  {
    hide Run, TakesTurns, Pending, Displayed;
    CardTakesTurns(env, chain, actions);
    TurnsDisplay(env, chain, actions, id, OnReader);
  }

  lemma DisplayedMeans(log: seq<Event>, t: Topic)
    ensures Displayed(log, t).Some? ==>
              exists k :: 0 <= k < |log| && log[k].topic == t && Displayed(log, t) == Some(log[k].msg)
                          && forall j :: k < j < |log| ==> log[j].topic != t
    ensures Displayed(log, t).None? ==>
              || (forall j :: 0 <= j < |log| ==> log[j].topic != t)
              || exists k :: 0 <= k < |log| && log[k].topic == t && log[k].msg == RemovedMsg
                             && forall j :: k < j < |log| ==> log[j].topic != t
  {
    LastOfMeans(log, t);
  }

  lemma {:induction false} LastOfMeans(log: seq<Event>, t: Topic)
    ensures LastOf(log, t).Some? ==>
              exists k :: 0 <= k < |log| && log[k] == LastOf(log, t).value
                          && forall j :: k < j < |log| ==> log[j].topic != t
  {
    if log != [] && log[|log| - 1].topic != t {
      var rest := log[..|log| - 1];
      LastOfMeans(rest, t);
      if LastOf(rest, t).Some? {
        var k :| 0 <= k < |rest| && rest[k] == LastOf(rest, t).value
                 && forall j :: k < j < |rest| ==> rest[j].topic != t;
        assert log[k] == LastOf(log, t).value;
        forall j | k < j < |log| ensures log[j].topic != t {
          if j < |rest| { assert rest[j] == log[j]; }
        }
      }
    }
  }

  /**
   * What a connected client has when nothing is on its way to it, in every run: the latest mode and the latest result,
   * and as its last message about the card the stored card, or none or a removal when none is stored.
   */
  lemma EveryoneIsTold(env: Env, chain: Chain, actions: seq<Action>, id: nat)
    requires ActionsOk(actions)
    ensures var w := Run(env, chain, actions);
            var s := w.shared;
            id in s.clients && (forall b :: b in w.broadcasts ==> b.targets.Some? && id !in b.targets.value) ==>
              && id in w.sent
              && var log := w.sent[id];
              && Event(Mode, s.modeWrites, ModeMsg(s.payMode)) in log
              && (s.lastPayment.Some? ==> Event(LastPayment, s.paymentWrites, s.lastPayment.value) in log)
              && (s.lastCard.Some? ==>
                    exists k :: 0 <= k < |log| && log[k].topic == OnReader && log[k].msg == s.lastCard.value
                                && forall j :: k < j < |log| ==> log[j].topic != OnReader)
              && (s.lastCard.None? ==>
                    || (forall j :: 0 <= j < |log| ==> log[j].topic != OnReader)
                    || exists k :: 0 <= k < |log| && log[k].topic == OnReader && log[k].msg == RemovedMsg
                                   && forall j :: k < j < |log| ==> log[j].topic != OnReader)
  {
    hide Run, Displayed;
    var w := Run(env, chain, actions);
    if id in w.shared.clients && forall b :: b in w.broadcasts ==> b.targets.Some? && id !in b.targets.value {
      ClientsAreInformed(env, chain, actions, id, Mode);
      ClientsAreInformed(env, chain, actions, id, LastPayment);
      CardIsDisplayed(env, chain, actions, id);
      DisplayedMeans(w.sent[id], OnReader);
    }
  }

  // ------------------------------------------------------------------- two racing writers

  lemma RunStep(env: Env, chain: Chain, actions: seq<Action>, a: Action)
    requires ActionsOk(actions) && a.Ok()
    ensures ActionsOk(actions + [a])
    ensures Facepay.Run(env, chain, actions + [a]) == Next(env, Facepay.Run(env, chain, actions), a)
  {
    assert (actions + [a])[..|actions|] == actions;
  }

  const ASKED: Event := Event(Mode, 1, ModeMsg(Some(5)))
  const CANCELLED: Event := Event(Mode, 2, ModeMsg(None))

  /** The terminal has joined, and the broadcasts about a payment request and about its cancellation are under way. */
  function RacingWorld(chain: Chain, first: Option<set<nat>>, second: Option<set<nat>>, log: seq<Event>): World {
    Start(chain).(
      shared := INITIAL.(clients := [0], nextClientId := 1, modeWrites := 2),
      sent := map[0 := log],
      joined := map[0 := INITIAL],
      broadcasts := [Broadcast(ASKED, first), Broadcast(CANCELLED, second)])
  }

  const RACE: seq<Action> := [Connect, SetPayMode(Some(5)), SetPayMode(None)]

  lemma RacingStart(env: Env, chain: Chain)
    ensures ActionsOk(RACE) && Facepay.Run(env, chain, RACE) == RacingWorld(chain, None, None, Snapshot(INITIAL))
  {
    var none: seq<Action> := [];
    var w := ConnectStep(Start(chain));
    assert w.shared.clients == [0];
    assert w.sent == map[0 := Snapshot(INITIAL)];
    assert w.joined == map[0 := INITIAL];
    RunStep(env, chain, none, Connect);
    RunStep(env, chain, none + [Connect], SetPayMode(Some(5)));
    RunStep(env, chain, none + [Connect] + [SetPayMode(Some(5))], SetPayMode(None));
    assert none + [Connect] + [SetPayMode(Some(5))] + [SetPayMode(None)] == RACE;
    var w' := Announce(Announce(w, SetMode(w.shared, Some(5)), Mode, ModeMsg(Some(5))),
                       SetMode(SetMode(w.shared, Some(5)), None), Mode, ModeMsg(None));
    assert w'.broadcasts == [Broadcast(ASKED, None), Broadcast(CANCELLED, None)];
  }

  lemma CopyInRace(chain: Chain, first: Option<set<nat>>, second: Option<set<nat>>, log: seq<Event>)
    ensures var w := RacingWorld(chain, first, second, log);
            && (first.None? ==> CopySendersStep(w, 0) == RacingWorld(chain, Some({0}), second, log))
            && (second.None? ==> CopySendersStep(w, 1) == RacingWorld(chain, first, Some({0}), log))
  {
    var w := RacingWorld(chain, first, second, log);
    if first.None? { assert CopySendersStep(w, 0).broadcasts[0].targets.value == {0}; }
    if second.None? { assert CopySendersStep(w, 1).broadcasts[1].targets.value == {0}; }
    var asked, cancelled := Broadcast(ASKED, Some({0})), Broadcast(CANCELLED, Some({0}));
    assert w.broadcasts[0 := asked] == [asked, Broadcast(CANCELLED, second)];
    assert w.broadcasts[1 := cancelled] == [Broadcast(ASKED, first), cancelled];
  }

  lemma SendInRace(chain: Chain, first: Option<set<nat>>, second: Option<set<nat>>, log: seq<Event>)
    ensures var w := RacingWorld(chain, first, second, log);
            && (first == Some({0}) ==> SendStep(w, 0, 0) == RacingWorld(chain, Some({}), second, log + [ASKED]))
            && (second == Some({0}) ==> SendStep(w, 1, 0) == RacingWorld(chain, first, Some({}), log + [CANCELLED]))
  {
    var w := RacingWorld(chain, first, second, log);
    assert {0} - {0} == {};
    var asked, cancelled := Broadcast(ASKED, Some({})), Broadcast(CANCELLED, Some({}));
    assert w.broadcasts[0 := asked] == [asked, Broadcast(CANCELLED, second)];
    assert w.broadcasts[1 := cancelled] == [Broadcast(ASKED, first), cancelled];
    assert w.sent[0 := log + [ASKED]] == map[0 := log + [ASKED]];
    assert w.sent[0 := log + [CANCELLED]] == map[0 := log + [CANCELLED]];
  }

  const OVERTAKE: seq<Action> := RACE + [CopySenders(1)] + [Send(1, 0)] + [CopySenders(0)] + [Send(0, 0)]

  /** The broadcast about the cancellation overtakes the one about the request: the terminal still asks for the
      payment. */
  lemma RacingWritersMislead(env: Env, chain: Chain)
    ensures ActionsOk(OVERTAKE)
    ensures var w := Facepay.Run(env, chain, OVERTAKE);
            && 0 in w.shared.clients && !Pending(w, 0, Mode) && 0 in w.sent
            && Stored(w.shared, Mode) == Some(ModeMsg(None)) && Displayed(w.sent[0], Mode) == Some(ModeMsg(Some(5)))
  {
    hide Facepay.Run, SendStep, CopySendersStep;
    var log := Snapshot(INITIAL);
    RacingStart(env, chain);
    RunStep(env, chain, RACE, CopySenders(1));
    CopyInRace(chain, None, None, log);
    RunStep(env, chain, RACE + [CopySenders(1)], Send(1, 0));
    SendInRace(chain, None, Some({0}), log);
    RunStep(env, chain, RACE + [CopySenders(1)] + [Send(1, 0)], CopySenders(0));
    CopyInRace(chain, None, Some({}), log + [CANCELLED]);
    RunStep(env, chain, RACE + [CopySenders(1)] + [Send(1, 0)] + [CopySenders(0)], Send(0, 0));
    SendInRace(chain, Some({0}), Some({}), log + [CANCELLED]);
    assert Facepay.Run(env, chain, OVERTAKE) == RacingWorld(chain, Some({}), Some({}), log + [CANCELLED] + [ASKED]);
  }
}
