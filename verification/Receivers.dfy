/** The receiver goroutines of a subscription: on which client and context they run, what goes wrong
    when they run late, and that the signals that drive them are always taken. */
module Receivers {
  import opened Wrappers
  import opened Reconnect

  // ---------- receiver goroutines that run late ----------

  ghost predicate SpawnInv(s: State) {
    && (s.sub == Unsubscribed || s.sub == Starting ==> s.spawned == [])
    && (forall i :: 0 <= i < |s.spawned| ==> Tracked(s, s.spawned[i]))
  }

  ghost predicate Tracked(s: State, p: Spawn) {
    && p.epoch <= s.handled && p.client <= s.newest
    && (p.epoch == s.handled ==> s.subClient == Some(p.client) && s.ctx == p.ctx && s.sub != Renewing)
    && (p.epoch < s.handled && s.subClient.Some? ==> p.client < s.subClient.value)
    && (s.conn == Installing || s.conn == Restarting || s.sub == Reading ==> p.client < s.newest)
  }

  lemma StepKeepsTracked(s: State, a: Action, p: Spawn)
    requires Inv(s) && Enabled(s, a) && (a == Subscribe ==> Up(s))
    requires Tracked(s, p) && s.sub != Starting
    ensures Tracked(Do(s, a), p)
  {
  }

  lemma StepKeepsSpawnInv(s: State, a: Action)
    requires Inv(s) && SpawnInv(s) && Enabled(s, a) && (a == Subscribe ==> Up(s))
    ensures SpawnInv(Do(s, a))
  {
    var t := Do(s, a);
    forall i | 0 <= i < |t.spawned| ensures Tracked(t, t.spawned[i]) {
      var p := t.spawned[i];
      if p in s.spawned {
        var j :| 0 <= j < |s.spawned| && s.spawned[j] == p;
        StepKeepsTracked(s, a, s.spawned[j]);
      } else {
        assert a == Loop;
      }
    }
  }

  lemma {:induction false} RunKeepsSpawnInv(actions: seq<Action>)
    requires Run(INIT, actions).Some? && SubscribesUp(INIT, actions)
    ensures SpawnInv(Run(INIT, actions).value)
  {
    if actions != [] {
      var n := |actions| - 1;
      PrefixSubscribesUp(INIT, actions, n);
      RunKeepsSpawnInv(actions[..n]);
      RunKeepsInv(INIT, actions[..n]);
      StepKeepsSpawnInv(Run(INIT, actions[..n]).value, actions[n]);
    }
  }

  /** A receiver goroutine finds the client and context it was created for exactly if the
      subscription goroutine has acted on no signal since; if it runs later, it calls a nil client
      or becomes a second receiver on a newer client. */
  lemma ReceiverRunsOnItsClient(actions: seq<Action>, i: nat)
    requires Run(INIT, actions).Some? && SubscribesUp(INIT, actions)
    requires i < |Run(INIT, actions).value.spawned|
    ensures var s := Run(INIT, actions).value;
      var p := s.spawned[i];
      var t := Do(s, Evaluate(i));
      && (s.subClient == Some(p.client) && s.ctx == p.ctx <==> p.epoch == s.handled)
      && (p.epoch == s.handled ==> t.running == s.running + [Receiver(p.client, p.ctx)] && t.crashed == s.crashed)
      && (p.epoch < s.handled ==> t.crashed || (|t.running| > |s.running| && t.running[|s.running|].client > p.client))
  {
    RunKeepsSpawnInv(actions);
    EvaluateTracked(Run(INIT, actions).value, i);
  }

  lemma EvaluateTracked(s: State, i: nat)
    requires i < |s.spawned| && Tracked(s, s.spawned[i])
    ensures var p := s.spawned[i];
      var t := Do(s, Evaluate(i));
      && (s.subClient == Some(p.client) && s.ctx == p.ctx <==> p.epoch == s.handled)
      && (p.epoch == s.handled ==> t.running == s.running + [Receiver(p.client, p.ctx)] && t.crashed == s.crashed)
      && (p.epoch < s.handled ==> t.crashed || (|t.running| > |s.running| && t.running[|s.running|].client > p.client))
  {
  }

  /** The late case is real: this run calls a nil client. */
  lemma LateReceiverCrashes()
    ensures exists actions ::
      SubscribesUp(INIT, actions) && Run(INIT, actions).Some? && Run(INIT, actions).value.crashed
  {
    var up := [Subscribe, Start, Loop];
    var s := CreatedReceiver();
    var down := [Fail, Deliver, Cancel, Clear, Evaluate(0)];
    StoppedBeforeRunning(s);
    RunConcat(INIT, up, down);
    var more := [Start, Loop] + down;
    assert up + down == [Subscribe] + more;
    SubscribedOnce(INIT, more);
  }

  lemma CreatedReceiver() returns (s: State)
    ensures Run(INIT, [Subscribe, Start, Loop]) == Some(s)
    ensures s.conn == Serving && s.sub == Waiting && |s.spawned| == 1
  {
    var s1 := Do(INIT, Subscribe);
    var s2 := Do(s1, Start);
    s := Do(s2, Loop);
    RunThree(INIT, Subscribe, Start, Loop, s1, s2, s);
  }

  lemma StoppedBeforeRunning(s: State)
    requires s.conn == Serving && s.sub == Waiting && |s.spawned| == 1
    ensures Run(s, [Fail, Deliver, Cancel, Clear, Evaluate(0)]).Some?
    ensures Run(s, [Fail, Deliver, Cancel, Clear, Evaluate(0)]).value.crashed
  {
    var s1 := Do(s, Fail);
    var s2 := Do(s1, Deliver);
    var s3 := Do(s2, Cancel);
    RunThree(s, Fail, Deliver, Cancel, s1, s2, s3);
    RunStep(s, [Fail, Deliver, Cancel], Clear);
    assert [Fail, Deliver, Cancel] + [Clear] == [Fail, Deliver, Cancel, Clear];
    RunStep(s, [Fail, Deliver, Cancel, Clear], Evaluate(0));
    assert [Fail, Deliver, Cancel, Clear] + [Evaluate(0)] == [Fail, Deliver, Cancel, Clear, Evaluate(0)];
  }

  /** The subscription goroutine is about to create a receiver. */
  predicate AboutToCreate(s: State) {
    s.sub == Looping && s.subClient.Some?
  }

  lemma CreatedStep(s: State, a: Action)
    requires SubInv(s) && ConnInv(s) && Enabled(s, a) && (a == Subscribe ==> Up(s)) && !Do(s, a).crashed
    requires |s.spawned| + |s.running| == s.contexts - (if AboutToCreate(s) then 1 else 0)
    ensures var t := Do(s, a);
      |t.spawned| + |t.running| == t.contexts - (if AboutToCreate(t) then 1 else 0)
  {
  }

  /** As long as none has crashed, exactly one receiver is created for each receiver context: signals are
      taken only where the current context has its receiver. */
  lemma {:induction false} EachContextGetsAReceiver(actions: seq<Action>)
    requires Run(INIT, actions).Some? && SubscribesUp(INIT, actions) && !Run(INIT, actions).value.crashed
    ensures var s := Run(INIT, actions).value;
      |s.spawned| + |s.running| == s.contexts - (if AboutToCreate(s) then 1 else 0)
  {
    if actions != [] {
      var n := |actions| - 1;
      PrefixSubscribesUp(INIT, actions, n);
      EachContextGetsAReceiver(actions[..n]);
      RunKeepsInv(INIT, actions[..n]);
      CreatedStep(Run(INIT, actions[..n]).value, actions[n]);
    }
  }

  // ---------- receivers when goroutines start promptly ----------

  /** No receiver goroutine is still to run when the subscription goroutine acts on a signal. */
  ghost predicate Prompt(actions: seq<Action>) {
    forall i :: 0 <= i < |actions| && (actions[i] == Clear || actions[i] == Read) ==>
      Run(INIT, actions[..i]).Some? ==> Run(INIT, actions[..i]).value.spawned == []
  }

  ghost predicate PromptInv(s: State) {
    && !s.crashed
    && (s.spawned != [] ==>
          |s.spawned| == 1 && s.subClient.Some? && (s.sub == Waiting || s.sub == Cancelling || s.sub == Clearing))
    && (forall i :: 0 <= i < |s.running| ==> s.running[i].ctx <= s.ctx && s.contexts > 0)
    && (forall i :: 0 <= i < |s.running| && s.running[i].ctx == s.ctx ==> OfCurrentContext(s, s.running[i]))
    && (forall i, j :: 0 <= i < j < |s.running| ==> s.running[i].ctx < s.running[j].ctx)
  }

  predicate OfCurrentContext(s: State, r: Receiver) {
    s.subClient.Some? && s.sub != Renewing ==> s.spawned == [] && s.sub != Looping && s.subClient == Some(r.client)
  }

  lemma StepKeepsPromptInv(s: State, a: Action)
    requires Inv(s) && PromptInv(s) && Enabled(s, a) && (a == Subscribe ==> Up(s))
    requires a == Clear || a == Read ==> s.spawned == []
    ensures PromptInv(Do(s, a))
  {
    if a.Evaluate? {
      EvaluateKeepsPromptInv(s, a.i);
    } else {
      OtherStepKeepsPromptInv(s, a);
    }
  }

  lemma EvaluateKeepsPromptInv(s: State, i: nat)
    requires SubInv(s) && PromptInv(s) && i < |s.spawned|
    ensures PromptInv(Do(s, Evaluate(i)))
  {
    assert s.spawned[..0] + s.spawned[1..] == [];
  }

  lemma OtherStepKeepsPromptInv(s: State, a: Action)
    requires Inv(s) && PromptInv(s) && Enabled(s, a) && !a.Evaluate? && (a == Subscribe ==> Up(s))
    requires a == Clear || a == Read ==> s.spawned == []
    ensures PromptInv(Do(s, a))
  {
    assert Do(s, a).running == s.running;
  }

  lemma PrefixPrompt(actions: seq<Action>, n: nat)
    requires n <= |actions| && Prompt(actions)
    ensures Prompt(actions[..n])
  {
    forall i | 0 <= i < n && (actions[..n][i] == Clear || actions[..n][i] == Read) && Run(INIT, actions[..n][..i]).Some?
      ensures Run(INIT, actions[..n][..i]).value.spawned == []
    {
      assert actions[..n][..i] == actions[..i] && actions[i] == actions[..n][i];
    }
  }

  lemma {:induction false} RunKeepsPromptInv(actions: seq<Action>)
    requires Run(INIT, actions).Some? && SubscribesUp(INIT, actions) && Prompt(actions)
    ensures PromptInv(Run(INIT, actions).value)
  {
    if actions != [] {
      var n := |actions| - 1;
      PrefixSubscribesUp(INIT, actions, n);
      PrefixPrompt(actions, n);
      RunKeepsPromptInv(actions[..n]);
      RunKeepsInv(INIT, actions[..n]);
      StepKeepsPromptInv(Run(INIT, actions[..n]).value, actions[n]);
    }
  }

  /** If every receiver goroutine runs before the next signal is acted on, no receiver calls a nil
      client, no two receivers share a context, and a receiver whose context is live while the
      connection is up runs on the client of the latest reconnection. */
  lemma PromptReceivers(actions: seq<Action>)
    requires Run(INIT, actions).Some? && SubscribesUp(INIT, actions) && Prompt(actions)
    ensures var s := Run(INIT, actions).value;
      && !s.crashed
      && (forall i, j :: 0 <= i < j < |s.running| ==> s.running[i].ctx != s.running[j].ctx)
      && (forall i :: 0 <= i < |s.running| && s.running[i].ctx in Live(s) && Up(s) ==>
            s.shared == Some(s.running[i].client) && s.running[i].client == s.newest)
  {
    RunKeepsPromptInv(actions);
    RunKeepsInv(INIT, actions);
  }

  // ---------- no deadlock ----------

  /** How many steps of its own the subscription goroutine is away from waiting for a signal. */
  function StepsToWaiting(sub: SubPoint): nat {
    match sub
    case Unsubscribed => 0
    case Waiting => 0
    case Looping => 1
    case Starting => 2
    case Cancelling => 3
    case Clearing => 2
    case Renewing => 2
    case Reading => 3
  }

  function OwnStep(sub: SubPoint): Action
    requires StepsToWaiting(sub) > 0
  {
    match sub
    case Looping => Loop
    case Starting => Start
    case Cancelling => Cancel
    case Clearing => Clear
    case Renewing => Renew
    case Reading => Read
  }

  /** A signal that the connection goroutine wants to send is always taken: from any state the
      subscription goroutine reaches the point where it waits by its own steps alone. */
  lemma {:induction false} SignalIsTaken(s: State) returns (steps: seq<Action>)
    requires s.conn == Stopping || s.conn == Restarting
    ensures |steps| == StepsToWaiting(s.sub) && Run(s, steps).Some?
    ensures var t := Run(s, steps).value;
      && t.conn == s.conn && t.signals == s.signals
      && Enabled(t, if s.sub == Unsubscribed then SkipSignal else Deliver)
    decreases StepsToWaiting(s.sub)
  {
    if StepsToWaiting(s.sub) == 0 {
      steps := [];
    } else {
      var a := OwnStep(s.sub);
      var rest := SignalIsTaken(Do(s, a));
      RunStep(s, [], a);
      assert [] + [a] == [a];
      RunConcat(s, [a], rest);
      steps := [a] + rest;
    }
  }
}
