// What a client ends up displaying once everything about a topic that is under way to it
// has arrived: exactly when that is what is stored, and which writes put it at risk.
module Settling {
  import opened Bits
  import opened Results
  import Gate
  import opened SuicashGate
  import opened Shared
  import opened Facepay
  import opened Delivery

  /** The broadcast is about the topic and still has to reach the client. */
  ghost predicate Reaches(bc: Broadcast, t: Topic, id: nat) {
    bc.event.topic == t && (bc.targets.Some? ==> id in bc.targets.value)
  }

  ghost predicate UnderWay(w: World, t: Topic, id: nat) {
    exists i :: 0 <= i < |w.broadcasts| && Reaches(w.broadcasts[i], t, id)
  }

  /** Whatever is under way shows what is stored. */
  ghost predicate AgreeUnderWay(w: World, t: Topic, id: nat, stored: Option<Msg>) {
    forall i :: 0 <= i < |w.broadcasts| && Reaches(w.broadcasts[i], t, id) ==>
        Shown(w.broadcasts[i].event.msg) == stored
  }

  /** Whatever is still to come shows what is stored, and if nothing is, the display already does. */
  ghost predicate Settles(w: World, t: Topic, id: nat) {
    && id in w.sent
    && AgreeUnderWay(w, t, id, Stored(w.shared, t))
    && (UnderWay(w, t, id) || Displayed(w.sent[id], t) == Stored(w.shared, t))
  }

  /** Nothing about the topic is under way to the client, and it displays something else than what is stored. */
  ghost predicate Misled(w: World, t: Topic, id: nat) {
    id in w.sent && !UnderWay(w, t, id) && Displayed(w.sent[id], t) != Stored(w.shared, t)
  }

  // ------------------------------------------------------------------- continuations

  ghost function From(env: Env, w: World, more: seq<Action>): World
    requires ActionsOk(more)
  {
    if more == [] then w else Next(env, From(env, w, more[..|more| - 1]), more[|more| - 1])
  }

  /** No step writes the topic or disconnects the client. */
  ghost predicate Undisturbed(env: Env, w: World, more: seq<Action>, t: Topic, id: nat)
    requires ActionsOk(more)
  {
    more == []
    || var n := |more| - 1;
       && Undisturbed(env, w, more[..n], t, id)
       && more[n] != Disconnect(id)
       && Written(From(env, w, more[..n]), From(env, w, more)) != Some(t)
  }

  lemma {:induction false} ContinuationsAreRuns(env: Env, chain: Chain, actions: seq<Action>, more: seq<Action>)
    requires ActionsOk(actions) && ActionsOk(more)
    ensures ActionsOk(actions + more)
    ensures Facepay.Run(env, chain, actions + more) == From(env, Facepay.Run(env, chain, actions), more)
    decreases |more|
  {
    hide Next;
    if more == [] {
      assert actions + more == actions;
    } else {
      var n := |more| - 1;
      ContinuationsAreRuns(env, chain, actions, more[..n]);
      RunStep(env, chain, actions + more[..n], more[n]);
      assert actions + more == actions + more[..n] + [more[n]];
    }
  }

  lemma {:induction false} Continued(env: Env, w: World, first: seq<Action>, more: seq<Action>, t: Topic, id: nat)
    requires ActionsOk(first) && ActionsOk(more) && Undisturbed(env, w, first, t, id)
    requires Undisturbed(env, From(env, w, first), more, t, id)
    ensures ActionsOk(first + more) && From(env, w, first + more) == From(env, From(env, w, first), more)
    ensures Undisturbed(env, w, first + more, t, id)
    decreases |more|
  {
    hide Next, Written;
    if more == [] {
      assert first + more == first;
    } else {
      var n := |more| - 1;
      Continued(env, w, first, more[..n], t, id);
      assert (first + more)[..|first| + n] == first + more[..n];
    }
  }

  // ------------------------------------------------------------------- what settles stays settled

  lemma OthersSettle(w: World, w': World, t: Topic, id: nat)
    requires SilentOrAnnounces(w, w') && Written(w, w') != Some(t) && Settles(w, t, id)
    ensures Settles(w', t, id)
  {
    assert SameTopic(w.shared, w'.shared, t);
    hide Stored, Writes, Written, Displayed, Shown;
    assert forall i :: 0 <= i < |w.broadcasts| ==> w'.broadcasts[i] == w.broadcasts[i];
    if i :| 0 <= i < |w.broadcasts| && Reaches(w.broadcasts[i], t, id) {
      assert Reaches(w'.broadcasts[i], t, id);
    }
  }

  /** What is under way to the client is as before. */
  ghost predicate SameUnderWay(w: World, w': World, t: Topic, id: nat) {
    && |w'.broadcasts| == |w.broadcasts|
    && forall i :: 0 <= i < |w.broadcasts| ==>
         && w'.broadcasts[i].event == w.broadcasts[i].event
         && Reaches(w'.broadcasts[i], t, id) == Reaches(w.broadcasts[i], t, id)
  }

  lemma SameSettles(w: World, w': World, t: Topic, id: nat)
    requires Settles(w, t, id) && SameUnderWay(w, w', t, id)
    requires Stored(w'.shared, t) == Stored(w.shared, t)
    requires id in w'.sent && Displayed(w'.sent[id], t) == Displayed(w.sent[id], t)
    ensures Settles(w', t, id)
  {
    hide Stored, Displayed, Shown, Reaches;
    if i :| 0 <= i < |w.broadcasts| && Reaches(w.broadcasts[i], t, id) {
      assert Reaches(w'.broadcasts[i], t, id);
    }
  }

  lemma OneMoreDisplayed(log: seq<Event>, e: Event, t: Topic)
    ensures Displayed(log + [e], t) == if e.topic == t then Shown(e.msg) else Displayed(log, t)
  {
    assert (log + [e])[..|log|] == log;
  }

  lemma OverSettles(w: World, w': World, b: nat, t: Topic, id: nat)
    requires Settles(w, t, id) && b < |w.broadcasts| && w.broadcasts[b].targets == Some({})
    requires w' == w.(broadcasts := RemoveIndex(w.broadcasts, b))
    ensures Settles(w', t, id)
  {
    hide Stored, Displayed, Shown, RemoveIndex;
    RemoveIndexIsPart(w.broadcasts, b);
    if i :| 0 <= i < |w.broadcasts| && Reaches(w.broadcasts[i], t, id) {
      assert Reaches(w'.broadcasts[if i < b then i else i - 1], t, id);
    }
  }

  lemma SendSettles(w: World, b: nat, x: nat, t: Topic, id: nat)
    requires Settles(w, t, id)
    ensures Settles(SendStep(w, b, x), t, id)
  {
    hide Settles, Stored, Displayed, Shown, RemoveIndex;
    var w' := SendStep(w, b, x);
    SettledIsMember(w, t, id);
    if b < |w.broadcasts| && w.broadcasts[b].targets.Some? {
      var bc := w.broadcasts[b];
      if bc.targets.value == {} {
        OverSettles(w, w', b, t, id);
      } else if x in bc.targets.value {
        if x == id {
          OneMoreDisplayed(w.sent[id], bc.event, t);
          DeliverySettles(w, w', b, t, id);
        } else {
          assert SameUnderWay(w, w', t, id);
          SameSettles(w, w', t, id);
        }
      }
    }
  }

  lemma SettledIsMember(w: World, t: Topic, id: nat)
    requires Settles(w, t, id)
    ensures id in w.sent
  {
  }

  lemma DeliverySettles(w: World, w': World, b: nat, t: Topic, id: nat)
    requires Settles(w, t, id) && b < |w.broadcasts| && w.broadcasts[b].targets.Some?
             && id in w.broadcasts[b].targets.value
    requires |w'.broadcasts| == |w.broadcasts| && w'.shared == w.shared && id in w'.sent
    requires forall i :: 0 <= i < |w.broadcasts| && i != b ==> w'.broadcasts[i] == w.broadcasts[i]
    requires !Reaches(w'.broadcasts[b], t, id)
    requires var e := w.broadcasts[b].event;
             Displayed(w'.sent[id], t) == if e.topic == t then Shown(e.msg) else Displayed(w.sent[id], t)
    ensures Settles(w', t, id)
  {
    hide Stored, Displayed, Shown;
    if i :| 0 <= i < |w.broadcasts| && i != b && Reaches(w.broadcasts[i], t, id) {
      assert Reaches(w'.broadcasts[i], t, id);
    }
    if w.broadcasts[b].event.topic == t {
      assert Reaches(w.broadcasts[b], t, id);
    }
  }

  lemma SettlesStep(env: Env, w: World, a: Action, t: Topic, id: nat)
    requires a.Ok() && Known(w) && Settles(w, t, id) && id in w.shared.clients
    requires a != Disconnect(id) && Written(w, Next(env, w, a)) != Some(t)
    ensures Settles(Next(env, w, a), t, id) && id in Next(env, w, a).shared.clients
  {
    hide Known, Settles, SilentOrAnnounces, Written, Reaches, Displayed, Stored, SendStep;
    var w' := Next(env, w, a);
    SettledIsMember(w, t, id);
    match a
    case Connect =>
      MemberIsKnown(w, id);
      TopicsKept(w, w', t);
      SameSettles(w, w', t, id);
    case Disconnect(_) =>
      TopicsKept(w, w', t);
      SameSettles(w, w', t, id);
    case CopySenders(b) =>
      CopyKeeps(w, b, t, id);
      SameSettles(w, w', t, id);
    case Send(b, x) =>
      SendKeepsClients(w, b, x);
      SendSettles(w, b, x, t, id);
    case _ =>
      hide Next;
      StepsAnnounce(env, w, a);
      OthersSettle(w, w', t, id);
      OthersKeepClients(w, w');
  }

  lemma TopicsKept(w: World, w': World, t: Topic)
    requires w'.shared == w.shared.(clients := w'.shared.clients, nextClientId := w'.shared.nextClientId)
    ensures Stored(w'.shared, t) == Stored(w.shared, t)
  {
  }

  lemma CopyKeeps(w: World, b: nat, t: Topic, id: nat)
    requires id in w.shared.clients
    ensures SameUnderWay(w, CopySendersStep(w, b), t, id)
  {
  }

  lemma OthersKeepClients(w: World, w': World)
    requires SilentOrAnnounces(w, w')
    ensures w'.shared.clients == w.shared.clients
  {
  }

  lemma {:induction false} StaysSettled(env: Env, w: World, more: seq<Action>, t: Topic, id: nat)
    requires ActionsOk(more) && Undisturbed(env, w, more, t, id)
    requires Known(w) && Settles(w, t, id) && id in w.shared.clients
    ensures Known(From(env, w, more)) && Settles(From(env, w, more), t, id)
    ensures id in From(env, w, more).shared.clients
    decreases |more|
  {
    hide Next, Known, Settles, Written;
    if more != [] {
      var n := |more| - 1;
      StaysSettled(env, w, more[..n], t, id);
      KnownStep(env, From(env, w, more[..n]), more[n]);
      SettlesStep(env, From(env, w, more[..n]), more[n], t, id);
    }
  }

  // ------------------------------------------------------------------- what does not settle can mislead

  /** The broadcast is sent to the client, whether or not it was addressed yet. */
  function Deliver(b: nat, id: nat): seq<Action> {
    [CopySenders(b), Send(b, id)]
  }

  /** Broadcast b has reached the client; nothing else about broadcasts or writes changed. */
  ghost predicate Delivered(w: World, w': World, b: nat, id: nat)
    requires b < |w.broadcasts| && id in w.sent
  {
    && w'.shared == w.shared && id in w'.sent && w'.sent[id] == w.sent[id] + [w.broadcasts[b].event]
    && |w'.broadcasts| == |w.broadcasts|
    && (forall i :: 0 <= i < |w.broadcasts| && i != b ==> w'.broadcasts[i] == w.broadcasts[i])
    && forall t: Topic :: !Reaches(w'.broadcasts[b], t, id)
  }

  lemma DeliverArrives(env: Env, w: World, b: nat, t: Topic, id: nat)
    requires b < |w.broadcasts| && id in w.sent && id in w.shared.clients
    requires Reaches(w.broadcasts[b], w.broadcasts[b].event.topic, id)
    ensures ActionsOk(Deliver(b, id)) && Undisturbed(env, w, Deliver(b, id), t, id)
    ensures Delivered(w, From(env, w, Deliver(b, id)), b, id)
  {
    hide Undisturbed, From, Written;
    var w1 := CopySendersStep(w, b);
    Nothing(env, w, t, id);
    SilentStep(env, w, [], CopySenders(b), t, id);
    assert [] + [CopySenders(b)] == [CopySenders(b)];
    SilentStep(env, w, [CopySenders(b)], Send(b, id), t, id);
    assert [CopySenders(b)] + [Send(b, id)] == Deliver(b, id);
    assert w1.broadcasts[b].targets.Some? && id in w1.broadcasts[b].targets.value;
  }

  lemma SilentStep(env: Env, w: World, more: seq<Action>, a: Action, t: Topic, id: nat)
    requires ActionsOk(more) && (a.CopySenders? || a.Send?) && Undisturbed(env, w, more, t, id)
    ensures ActionsOk(more + [a]) && From(env, w, more + [a]) == Next(env, From(env, w, more), a)
    ensures Undisturbed(env, w, more + [a], t, id)
  {
    hide Next, Written;
    assert (more + [a])[..|more|] == more;
    SendingWritesNothing(env, From(env, w, more), a);
  }

  lemma SendingWritesNothing(env: Env, w: World, a: Action)
    requires a.CopySenders? || a.Send?
    ensures Written(w, Next(env, w, a)).None?
  {
    hide RemoveIndex;
  }

  /** The first n broadcasts about the topic, but for broadcast j, are sent to the client. */
  lemma {:induction false} DrainOthers(env: Env, w: World, t: Topic, id: nat, j: nat, n: nat)
    returns (more: seq<Action>)
    requires id in w.sent && id in w.shared.clients && n <= |w.broadcasts|
    ensures ActionsOk(more) && Undisturbed(env, w, more, t, id)
    ensures var w' := From(env, w, more);
            && w'.shared == w.shared && id in w'.sent && |w'.broadcasts| == |w.broadcasts|
            && (forall i :: 0 <= i < n && i != j ==> !Reaches(w'.broadcasts[i], t, id))
            && forall i :: 0 <= i < |w.broadcasts| && (i >= n || i == j) ==> w'.broadcasts[i] == w.broadcasts[i]
  {
    hide Next, Reaches, Undisturbed, From;
    if n == 0 {
      more := [];
      Nothing(env, w, t, id);
    } else {
      more := DrainOthers(env, w, t, id, j, n - 1);
      var w1 := From(env, w, more);
      if n - 1 != j && Reaches(w1.broadcasts[n - 1], t, id) {
        ReachesItsTopic(w1.broadcasts[n - 1], t, id);
        DeliverArrives(env, w1, n - 1, t, id);
        Continued(env, w, more, Deliver(n - 1, id), t, id);
        more := more + Deliver(n - 1, id);
      }
    }
  }

  lemma Nothing(env: Env, w: World, t: Topic, id: nat)
    ensures From(env, w, []) == w && Undisturbed(env, w, [], t, id)
  {
  }

  lemma ReachesItsTopic(bc: Broadcast, t: Topic, id: nat)
    requires Reaches(bc, t, id)
    ensures bc.event.topic == t
  {
  }

  /** Broadcast j arrives last. */
  lemma LastOneCounts(env: Env, w: World, t: Topic, id: nat, j: nat) returns (more: seq<Action>)
    requires id in w.sent && id in w.shared.clients && j < |w.broadcasts| && Reaches(w.broadcasts[j], t, id)
    ensures ActionsOk(more) && Undisturbed(env, w, more, t, id)
    ensures var w' := From(env, w, more);
            && w'.shared == w.shared && id in w'.sent && !UnderWay(w', t, id)
            && Displayed(w'.sent[id], t) == Shown(w.broadcasts[j].event.msg)
  {
    hide Next, Reaches, Undisturbed, From, Displayed, Shown;
    more := DrainOthers(env, w, t, id, j, |w.broadcasts|);
    var w1 := From(env, w, more);
    ReachesItsTopic(w1.broadcasts[j], t, id);
    DeliverArrives(env, w1, j, t, id);
    Continued(env, w, more, Deliver(j, id), t, id);
    OneMoreDisplayed(w1.sent[id], w1.broadcasts[j].event, t);
    more := more + Deliver(j, id);
  }

  lemma UnsettledMisleads(env: Env, w: World, t: Topic, id: nat) returns (more: seq<Action>)
    requires id in w.sent && id in w.shared.clients && !Settles(w, t, id)
    ensures ActionsOk(more) && Undisturbed(env, w, more, t, id) && Misled(From(env, w, more), t, id)
  {
    hide Stored, Displayed, Shown, Reaches, Undisturbed, From, Next;
    if !AgreeUnderWay(w, t, id, Stored(w.shared, t)) {
      var j :| 0 <= j < |w.broadcasts| && Reaches(w.broadcasts[j], t, id)
               && Shown(w.broadcasts[j].event.msg) != Stored(w.shared, t);
      more := LastOneCounts(env, w, t, id, j);
    } else {
      more := [];
      Nothing(env, w, t, id);
    }
  }

  /** No continuation without writes of the topic ends with the client misled. */
  ghost predicate NeverMisled(env: Env, w: World, t: Topic, id: nat) {
    forall more :: ActionsOk(more) && Undisturbed(env, w, more, t, id) ==> !Misled(From(env, w, more), t, id)
  }

  lemma SettledIsNotMisled(w: World, t: Topic, id: nat)
    requires Settles(w, t, id)
    ensures !Misled(w, t, id)
  {
  }

  lemma SettlesMeans(env: Env, w: World, t: Topic, id: nat)
    requires Known(w) && id in w.shared.clients
    ensures Settles(w, t, id) <==> NeverMisled(env, w, t, id)
  {
    hide Settles, Misled, Undisturbed, From;
    assert id in w.sent;
    hide Known;
    if Settles(w, t, id) {
      forall more | ActionsOk(more) && Undisturbed(env, w, more, t, id) ensures !Misled(From(env, w, more), t, id) {
        StaysSettled(env, w, more, t, id);
        SettledIsNotMisled(From(env, w, more), t, id);
      }
    } else {
      var more := UnsettledMisleads(env, w, t, id);
    }
  }

  /**
   * In every reachable state, for every connected client: whatever happens, short of another write of the topic, it
   * ends up displaying what is stored, exactly when everything still under way to it shows what is stored and, if
   * nothing is, its display already does.
   */
  lemma SettlesExactly(env: Env, chain: Chain, actions: seq<Action>, t: Topic, id: nat)
    requires ActionsOk(actions) && id in Facepay.Run(env, chain, actions).shared.clients
    ensures var w := Facepay.Run(env, chain, actions);
            && (Settles(w, t, id) <==> NeverMisled(env, w, t, id))
            && forall more :: ActionsOk(more) ==>
                 ActionsOk(actions + more) && From(env, w, more) == Facepay.Run(env, chain, actions + more)
  {
    hide Facepay.Run, From, Settles, NeverMisled, NotLost, ClientsDistinct, NothingRemovedStored, Known;
    forall more | ActionsOk(more)
      ensures ActionsOk(actions + more)
      ensures From(env, Facepay.Run(env, chain, actions), more) == Facepay.Run(env, chain, actions + more)
    {
      ContinuationsAreRuns(env, chain, actions, more);
    }
    Delivery.InvariantHolds(env, chain, actions, t);
    SettlesMeans(env, Facepay.Run(env, chain, actions), t, id);
  }

  lemma WriteSettles(w: World, w': World, t: Topic, id: nat)
    requires Announces(w, w', t) && id in w.sent
    ensures Settles(w', t, id) <==> AgreeUnderWay(w, t, id, Stored(w'.shared, t))
  {
    var stored := Stored(w'.shared, t);
    assert Shown(Latest(w'.shared, t).msg) == stored;
    assert Reaches(w'.broadcasts[|w.broadcasts|], t, id);
    hide Stored, Shown, Displayed, Reaches;
    forall i | 0 <= i < |w.broadcasts| ensures w'.broadcasts[i] == w.broadcasts[i] {
    }
    if Settles(w', t, id) {
      forall i | 0 <= i < |w.broadcasts| && Reaches(w.broadcasts[i], t, id)
        ensures Shown(w.broadcasts[i].event.msg) == stored
      {
        assert Reaches(w'.broadcasts[i], t, id);
      }
    }
  }

  /**
   * Which writes put a client at risk: after a write of the topic in any run, the client ends up displaying what is
   * stored whatever happens, short of another write, exactly when no broadcast with another message about the topic
   * was under way to it at the moment of the write.
   */
  lemma RiskyWritesExactly(env: Env, chain: Chain, actions: seq<Action>, a: Action, t: Topic, id: nat)
    requires ActionsOk(actions) && a.Ok() && id in Facepay.Run(env, chain, actions).shared.clients
    requires Written(Facepay.Run(env, chain, actions), Next(env, Facepay.Run(env, chain, actions), a)) == Some(t)
    ensures var w := Facepay.Run(env, chain, actions);
            var w' := Next(env, w, a);
            NeverMisled(env, w', t, id) <==> AgreeUnderWay(w, t, id, Stored(w'.shared, t))
  {
    hide Facepay.Run, Settles, NeverMisled, NotLost, ClientsDistinct, NothingRemovedStored, AgreeUnderWay, Announces;
    var w, w' := Facepay.Run(env, chain, actions), Next(env, Facepay.Run(env, chain, actions), a);
    Delivery.InvariantHolds(env, chain, actions, t);
    assert id in w.sent;
    hide Known;
    OnlyOthersWrite(env, w, a);
    hide Next;
    StepsAnnounce(env, w, a);
    KnownStep(env, w, a);
    OthersKeepClients(w, w');
    WriteSettles(w, w', t, id);
    SettlesMeans(env, w', t, id);
  }

  lemma OnlyOthersWrite(env: Env, w: World, a: Action)
    requires a.Ok() && Written(w, Next(env, w, a)).Some?
    ensures !IsClientStep(a)
  {
  }
}
