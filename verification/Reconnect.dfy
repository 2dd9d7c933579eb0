/** The connection goroutine and the subscription goroutine of a cloud events client, as two
    programs whose steps interleave freely. They meet on an unbuffered channel: a signal is handed
    over only when the one is sending and the other is waiting. */
module Reconnect {
  import opened Wrappers

  datatype Signal = Stop | Restart

  /** Where the connection goroutine stands. */
  datatype ConnPoint =
    | Serving     // waiting for a connection error
    | Stopping    // an error came, about to send the stop signal
    | Resetting   // about to set the shared client to nil
    | Dialing     // waiting and reconnecting
    | Installing  // reconnected, about to set the shared client
    | Restarting  // about to send the restart signal

  /** Where the subscription goroutine stands. */
  datatype SubPoint =
    | Unsubscribed  // Subscribe was not called yet, there is no signal channel
    | Starting      // the goroutine exists but has not read the client
    | Looping       // top of the loop, about to start a receiver if there is a client
    | Waiting       // waiting for a signal
    | Cancelling    // got stop, about to cancel the receiver context
    | Clearing      // about to set its client to nil
    | Reading       // got restart, about to read the shared client
    | Renewing      // about to make a new receiver context

  /** A receiver goroutine that was created but has not run yet. It captured the variables of the
      subscription goroutine, not their values; `client` and `ctx` are the values at its creation. */
  datatype Spawn = Spawn(client: nat, ctx: nat, epoch: nat)

  /** A receiver that runs, with the client and context it found when it started to run. */
  datatype Receiver = Receiver(client: nat, ctx: nat)

  datatype State = State(
    conn: ConnPoint,
    newest: nat,               // clients are numbered; this is the last one made
    shared: Option<nat>,       // the client field guarded by the lock
    sub: SubPoint,
    subClient: Option<nat>,    // the subscription goroutine's client variable
    ctx: nat,                  // its current receiver context
    contexts: nat,             // this many contexts were made
    cancelled: set<nat>,
    handled: nat,              // how often a signal changed subClient
    spawned: seq<Spawn>,
    running: seq<Receiver>,
    crashed: bool,             // a receiver goroutine called a method of a nil client
    signals: seq<Signal>       // every signal handed over so far
  )

  const INIT := State(Serving, 0, Some(0), Unsubscribed, None, 0, 0, {}, 0, [], [], false, [])

  datatype Action =
    | Fail | SkipSignal | Reset | Dial | Install
    | Deliver
    | Subscribe | Start | Loop | Cancel | Clear | Read | Renew
    | Evaluate(i: nat)

  predicate Enabled(s: State, a: Action) {
    match a
    case Fail => s.conn == Serving
    case SkipSignal => (s.conn == Stopping || s.conn == Restarting) && s.sub == Unsubscribed
    case Reset => s.conn == Resetting
    case Dial => s.conn == Dialing
    case Install => s.conn == Installing
    case Deliver => (s.conn == Stopping || s.conn == Restarting) && s.sub == Waiting
    case Subscribe => s.sub == Unsubscribed
    case Start => s.sub == Starting
    case Loop => s.sub == Looping
    case Cancel => s.sub == Cancelling
    case Clear => s.sub == Clearing
    case Read => s.sub == Reading
    case Renew => s.sub == Renewing
    case Evaluate(i) => i < |s.spawned|
  }

  function Do(s: State, a: Action): State
    requires Enabled(s, a)
  {
    match a
    case Fail => s.(conn := Stopping)
    case SkipSignal => s.(conn := if s.conn == Stopping then Resetting else Serving)
    case Reset => s.(conn := Dialing, shared := None)
    case Dial => s.(conn := Installing, newest := s.newest + 1)
    case Install => s.(conn := Restarting, shared := Some(s.newest))
    case Deliver =>
      if s.conn == Stopping then s.(conn := Resetting, sub := Cancelling, signals := s.signals + [Stop])
      else s.(conn := Serving, sub := Reading, signals := s.signals + [Restart])
    case Subscribe => s.(sub := Starting)
    case Start => s.(sub := Looping, subClient := s.shared, ctx := s.contexts, contexts := s.contexts + 1)
    case Loop =>
      if s.subClient.Some? then s.(sub := Waiting, spawned := s.spawned + [Spawn(s.subClient.value, s.ctx, s.handled)])
      else s.(sub := Waiting)
    case Cancel => s.(sub := Clearing, cancelled := s.cancelled + {s.ctx})
    case Clear => s.(sub := Looping, subClient := None, handled := s.handled + 1)
    case Read => s.(sub := Renewing, subClient := s.shared, handled := s.handled + 1)
    case Renew => s.(sub := Looping, ctx := s.contexts, contexts := s.contexts + 1)
    case Evaluate(i) =>
      var rest := s.spawned[..i] + s.spawned[i + 1..];
      if s.subClient.None? then s.(spawned := rest, crashed := true)
      else s.(spawned := rest, running := s.running + [Receiver(s.subClient.value, s.ctx)])
  }

  /** The state after a list of actions, if each of them is enabled in its turn. */
  function Run(s: State, actions: seq<Action>): Option<State> {
    if actions == [] then Some(s)
    else
      var n := |actions| - 1;
      var before := Run(s, actions[..n]);
      if before.Some? && Enabled(before.value, actions[n]) then Some(Do(before.value, actions[n])) else None
  }

  /** Contexts that were made and not cancelled. */
  ghost function Live(s: State): set<nat> {
    set c: nat | c < s.contexts && c !in s.cancelled
  }

  // ---------- the connection, whoever is subscribed ----------

  /** How often the connection failed in the run. */
  function Failures(actions: seq<Action>): nat {
    if actions == [] then 0
    else Failures(actions[..|actions| - 1]) + if actions[|actions| - 1] == Fail then 1 else 0
  }

  /** From a failure until the next client is made. */
  predicate Lost(conn: ConnPoint) {
    conn == Stopping || conn == Resetting || conn == Dialing
  }

  /** In every run, subscribed or not: one new client is made for each failure, a failure not made up
      for is being handled, and all but the time between dropping the old client and installing the
      new one the shared client is the newest. So whenever the connection is serving, it serves on a
      client made after the last failure. */
  lemma {:induction false} EachFailureGetsAClient(actions: seq<Action>)
    requires Run(INIT, actions).Some?
    ensures var s := Run(INIT, actions).value;
      && s.newest == Failures(actions) - (if Lost(s.conn) then 1 else 0)
      && s.shared == (if s.conn == Dialing || s.conn == Installing then None else Some(s.newest))
      && (s.conn == Serving ==> s.shared == Some(Failures(actions)))
  {
    if actions != [] {
      EachFailureGetsAClient(actions[..|actions| - 1]);
    }
  }

  /** Where the connection goroutine goes on its own while nobody is subscribed, from serving through
      an outage and back. */
  lemma OutageWithoutSubscriber()
    ensures var s := Run(INIT, [Fail, SkipSignal]);
      s.Some? && s.value.conn == Resetting && s.value.sub == Unsubscribed && s.value.newest == 0
    ensures var s := Run(INIT, [Fail, SkipSignal, Reset, Dial, Install, SkipSignal]);
      s.Some? && s.value.conn == Serving && s.value.sub == Unsubscribed && s.value.shared == Some(1)
  {
    var s1 := Do(INIT, Fail);
    var s2 := Do(s1, SkipSignal);
    RunTwo(INIT, Fail, SkipSignal, s1, s2);
    RunThree(INIT, Fail, SkipSignal, Reset, s1, s2, Do(s2, Reset));
    BackWithoutSubscriber(Do(s2, Reset));
    RunConcat(INIT, [Fail, SkipSignal, Reset], [Dial, Install, SkipSignal]);
    TwoTriples(Fail, SkipSignal, Reset, Dial, Install, SkipSignal);
  }

  lemma TwoTriples(a: Action, b: Action, c: Action, d: Action, e: Action, f: Action)
    ensures [a, b, c] + [d, e, f] == [a, b, c, d, e, f]
  {
  }

  lemma BackWithoutSubscriber(s: State)
    requires s.conn == Dialing && s.sub == Unsubscribed
    ensures var t := Run(s, [Dial, Install, SkipSignal]);
      && t.Some? && t.value.conn == Serving && t.value.sub == Unsubscribed
      && t.value.shared == Some(s.newest + 1)
  {
    var s1 := Do(s, Dial);
    var s2 := Do(s1, Install);
    RunThree(s, Dial, Install, SkipSignal, s1, s2, Do(s2, SkipSignal));
  }

  lemma RunTwo(s: State, a: Action, b: Action, s1: State, s2: State)
    requires Enabled(s, a) && s1 == Do(s, a)
    requires Enabled(s1, b) && s2 == Do(s1, b)
    ensures Run(s, [a, b]) == Some(s2)
  {
    RunCons(s1, b, []);
    assert [b] + [] == [b];
    RunCons(s, a, [b]);
    assert [a] + [b] == [a, b];
  }

  // ---------- runs that subscribe while the connection is up ----------

  /** No outage is being handled: the stop signal for the next outage is still to be sent. */
  predicate Up(s: State) {
    s.conn == Serving || s.conn == Stopping
  }

  /** Every subscription in the run happens while the connection is up. */
  ghost predicate SubscribesUp(s: State, actions: seq<Action>) {
    forall i :: 0 <= i < |actions| && actions[i] == Subscribe ==>
      Run(s, actions[..i]).Some? ==> Up(Run(s, actions[..i]).value)
  }

  function Alternating(n: nat): seq<Signal> {
    seq(n, i => if i % 2 == 0 then Stop else Restart)
  }

  ghost predicate ConnInv(s: State) {
    && (s.conn == Serving || s.conn == Stopping || s.conn == Resetting || s.conn == Restarting ==>
          s.shared == Some(s.newest))
    && (s.conn == Dialing || s.conn == Installing ==> s.shared == None)
  }

  ghost predicate SubInv(s: State) {
    var current := Some(s.newest);
    match s.sub
    case Unsubscribed => s.contexts == 0 && s.handled == 0 && s.cancelled == {} && s.spawned == [] && s.running == []
    case Starting =>
      Up(s) && s.contexts == 0 && s.handled == 0 && s.cancelled == {} && s.spawned == [] && s.running == []
    case Cancelling => !Up(s) && s.ctx == s.contexts - 1 && Live(s) == {s.ctx} && s.subClient.Some?
    case Clearing => !Up(s) && s.ctx == s.contexts - 1 && Live(s) == {} && s.subClient.Some?
    case Reading => Up(s) && Live(s) == {} && s.ctx == s.contexts - 1 && s.subClient == None
    case Renewing => Up(s) && Live(s) == {} && s.ctx == s.contexts - 1 && s.subClient == current
    case _ =>
      && s.contexts >= 1 && s.ctx == s.contexts - 1
      && (if Up(s) then s.subClient == current && Live(s) == {s.ctx} else s.subClient == None && Live(s) == {})
  }

  ghost predicate SignalInv(s: State) {
    && s.signals == Alternating(|s.signals|)
    && (s.sub == Unsubscribed || s.sub == Starting ==> s.signals == [])
    && (s.sub != Unsubscribed && s.sub != Starting ==> (Up(s) <==> |s.signals| % 2 == 0))
  }

  ghost predicate Inv(s: State) {
    ConnInv(s) && SubInv(s) && SignalInv(s) && forall c :: c in s.cancelled ==> c < s.contexts
  }

  lemma StepKeepsConnInv(s: State, a: Action)
    requires ConnInv(s) && Enabled(s, a)
    ensures ConnInv(Do(s, a))
  {
  }

  lemma StepKeepsSubInv(s: State, a: Action)
    requires Inv(s) && Enabled(s, a) && (a == Subscribe ==> Up(s))
    ensures SubInv(Do(s, a))
  {
    var t := Do(s, a);
    if a == Renew || a == Start {
      assert Live(t) == Live(s) + {s.contexts};
    } else if a == Cancel {
      assert Live(t) == Live(s) - {s.ctx};
    } else {
      assert Live(t) == Live(s);
    }
  }

  lemma AlternatingGrows(n: nat)
    ensures Alternating(n + 1) == Alternating(n) + [if n % 2 == 0 then Stop else Restart]
  {
  }

  lemma StepKeepsSignalInv(s: State, a: Action)
    requires Inv(s) && Enabled(s, a) && (a == Subscribe ==> Up(s))
    ensures SignalInv(Do(s, a))
  {
    AlternatingGrows(|s.signals|);
  }

  lemma PrefixSubscribesUp(s: State, actions: seq<Action>, n: nat)
    requires n <= |actions| && SubscribesUp(s, actions)
    ensures SubscribesUp(s, actions[..n])
  {
    forall i | 0 <= i < n && actions[..n][i] == Subscribe && Run(s, actions[..n][..i]).Some?
      ensures Up(Run(s, actions[..n][..i]).value)
    {
      assert actions[..n][..i] == actions[..i] && actions[i] == Subscribe;
    }
  }

  lemma {:induction false} RunKeepsInv(s: State, actions: seq<Action>)
    requires Inv(s) && Run(s, actions).Some? && SubscribesUp(s, actions)
    ensures Inv(Run(s, actions).value)
  {
    if actions != [] {
      var n := |actions| - 1;
      PrefixSubscribesUp(s, actions, n);
      RunKeepsInv(s, actions[..n]);
      var t := Run(s, actions[..n]).value;
      StepKeepsConnInv(t, actions[n]);
      StepKeepsSubInv(t, actions[n]);
      StepKeepsSignalInv(t, actions[n]);
    }
  }

  /** If Subscribe is called while the connection is up, then in every interleaving the signals
      handed over alternate, at most one receiver context is uncancelled, and where a receiver is to be
      started, and then while the next signal is awaited, the client is the newest and its context is live
      as long as the connection is up; during an outage there is no client and no context is live. */
  lemma OneLiveReceiver(actions: seq<Action>)
    requires Run(INIT, actions).Some? && SubscribesUp(INIT, actions)
    ensures var s := Run(INIT, actions).value;
      && s.signals == Alternating(|s.signals|)
      && |Live(s)| <= 1
      && (s.sub == Looping || s.sub == Waiting ==>
            if Up(s) then s.subClient == s.shared == Some(s.newest) && Live(s) == {s.ctx}
            else s.subClient == None && Live(s) == {})
  {
    RunKeepsInv(INIT, actions);
  }

  // ---------- when subscribing is safe ----------

  lemma {:induction false} RunConcat(s: State, xs: seq<Action>, ys: seq<Action>)
    requires Run(s, xs).Some?
    ensures Run(s, xs + ys) == Run(Run(s, xs).value, ys)
  {
    if ys == [] {
      assert xs + ys == xs;
    } else {
      var n := |ys| - 1;
      assert (xs + ys)[..|xs + ys| - 1] == xs + ys[..n];
      RunConcat(s, xs, ys[..n]);
    }
  }

  lemma RunStep(s: State, xs: seq<Action>, a: Action)
    requires Run(s, xs).Some? && Enabled(Run(s, xs).value, a)
    ensures Run(s, xs + [a]) == Some(Do(Run(s, xs).value, a))
  {
    assert (xs + [a])[..|xs|] == xs;
  }

  lemma {:induction false} StaysSubscribed(s: State, actions: seq<Action>)
    requires s.sub != Unsubscribed && Run(s, actions).Some?
    ensures Run(s, actions).value.sub != Unsubscribed
    ensures Subscribe !in actions
  {
    if actions != [] {
      StaysSubscribed(s, actions[..|actions| - 1]);
      assert actions == actions[..|actions| - 1] + [actions[|actions| - 1]];
    }
  }

  lemma RunCons(s: State, a: Action, rest: seq<Action>)
    requires Enabled(s, a)
    ensures Run(s, [a] + rest) == Run(Do(s, a), rest)
  {
    RunStep(s, [], a);
    assert [] + [a] == [a];
    RunConcat(s, [a], rest);
  }

  lemma RunThree(s: State, a: Action, b: Action, c: Action, s1: State, s2: State, s3: State)
    requires Enabled(s, a) && s1 == Do(s, a)
    requires Enabled(s1, b) && s2 == Do(s1, b)
    requires Enabled(s2, c) && s3 == Do(s2, c)
    ensures Run(s, [a, b, c]) == Some(s3)
  {
    RunCons(s2, c, []);
    assert [c] + [] == [c];
    RunCons(s1, b, [c]);
    assert [b] + [c] == [b, c];
    RunCons(s, a, [b, c]);
    assert [a] + [b, c] == [a, b, c];
  }

  /** How many steps of its own the connection goroutine is away from the restart signal. */
  function StepsToRestart(conn: ConnPoint): nat {
    match conn
    case Resetting => 3
    case Dialing => 2
    case Installing => 1
    case _ => 0
  }

  /** The steps that take the connection from an outage to the restart signal. */
  function Recovery(conn: ConnPoint): seq<Action>
    decreases StepsToRestart(conn)
  {
    match conn
    case Resetting => [Reset] + Recovery(Dialing)
    case Dialing => [Dial] + Recovery(Installing)
    case Installing => [Install] + Recovery(Restarting)
    case _ => []
  }

  lemma {:induction false} RecoveryRuns(s: State)
    requires ConnInv(s) && !Up(s)
    ensures Run(s, Recovery(s.conn)).Some?
    ensures var t := Run(s, Recovery(s.conn)).value;
      t == s.(conn := Restarting, newest := t.newest, shared := Some(t.newest))
    decreases StepsToRestart(s.conn)
  {
    if s.conn != Restarting {
      var a := if s.conn == Resetting then Reset else if s.conn == Dialing then Dial else Install;
      RunCons(s, a, Recovery(Do(s, a).conn));
      RecoveryRuns(Do(s, a));
    }
  }

  /** A subscription goroutine that starts just before the restart signal starts a receiver, and
      another one on the same client when the signal comes, without cancelling the first. */
  lemma DoubleReceiver(s: State)
    requires s.conn == Restarting && s.shared.Some? && s.sub == Starting
    requires s.contexts == 0 && s.cancelled == {} && s.spawned == [] && s.handled == 0
    ensures Run(s, [Start, Loop, Deliver, Read, Renew, Loop]).Some?
    ensures var t := Run(s, [Start, Loop, Deliver, Read, Renew, Loop]).value;
      && Live(t) == {0, 1}
      && t.spawned == [Spawn(s.shared.value, 0, 0), Spawn(s.shared.value, 1, 1)]
  {
    var t := FirstReceiver(s);
    SecondReceiver(t);
    RunConcat(s, [Start, Loop, Deliver], [Read, Renew, Loop]);
    TwoTriples(Start, Loop, Deliver, Read, Renew, Loop);
  }

  lemma FirstReceiver(s: State) returns (t: State)
    requires s.conn == Restarting && s.shared.Some? && s.sub == Starting && s.spawned == []
    ensures Run(s, [Start, Loop, Deliver]) == Some(t)
    ensures t.sub == Reading && t.shared == s.shared && t.contexts == s.contexts + 1 && t.cancelled == s.cancelled
    ensures t.handled == s.handled && t.spawned == [Spawn(s.shared.value, s.contexts, s.handled)]
  {
    var s1 := Do(s, Start);
    var s2 := Do(s1, Loop);
    t := Do(s2, Deliver);
    RunThree(s, Start, Loop, Deliver, s1, s2, t);
  }

  lemma SecondReceiver(s: State)
    requires s.sub == Reading && s.shared.Some?
    ensures Run(s, [Read, Renew, Loop]).Some?
    ensures var t := Run(s, [Read, Renew, Loop]).value;
      && t.contexts == s.contexts + 1 && t.cancelled == s.cancelled
      && t.spawned == s.spawned + [Spawn(s.shared.value, s.contexts, s.handled + 1)]
  {
    var s1 := Do(s, Read);
    var s2 := Do(s1, Renew);
    RunThree(s, Read, Renew, Loop, s1, s2, Do(s2, Loop));
  }

  lemma SubscribingInOutageDuplicates(s: State) returns (more: seq<Action>)
    requires Inv(s) && s.sub == Unsubscribed && !Up(s)
    ensures Run(s, [Subscribe] + more).Some?
    ensures Live(Run(s, [Subscribe] + more).value) == {0, 1}
  {
    var recover, doubled := Recovery(s.conn), [Start, Loop, Deliver, Read, Renew, Loop];
    assert [Subscribe][..0] == [];
    var s1 := Do(s, Subscribe);
    assert Run(s, [Subscribe]) == Some(s1);
    RecoveryRuns(s1);
    var s2 := Run(s1, recover).value;
    DoubleReceiver(s2);
    RunConcat(s1, recover, doubled);
    more := recover + doubled;
    RunConcat(s, [Subscribe], more);
  }

  lemma {:induction false} UnsubscribedInv(actions: seq<Action>)
    requires Run(INIT, actions).Some? && Run(INIT, actions).value.sub == Unsubscribed
    ensures Inv(Run(INIT, actions).value)
  {
    if actions != [] {
      var n := |actions| - 1;
      var s := Run(INIT, actions[..n]).value;
      UnsubscribedInv(actions[..n]);
      StepKeepsConnInv(s, actions[n]);
      StepKeepsSubInv(s, actions[n]);
      StepKeepsSignalInv(s, actions[n]);
    }
  }

  /** Calling Subscribe in a reachable state guarantees at most one live receiver context, whatever
      the interleaving, exactly if no outage is being handled in that state. */
  lemma SubscribeIsSafeExactlyWhenUp(actions: seq<Action>)
    requires Run(INIT, actions).Some? && Run(INIT, actions).value.sub == Unsubscribed
    ensures var s := Run(INIT, actions).value;
      Up(s) <==> forall more: seq<Action> :: Run(s, [Subscribe] + more).Some? ==>
                   |Live(Run(s, [Subscribe] + more).value)| <= 1
  {
    var s := Run(INIT, actions).value;
    UnsubscribedInv(actions);
    if Up(s) {
      forall more: seq<Action> | Run(s, [Subscribe] + more).Some?
        ensures |Live(Run(s, [Subscribe] + more).value)| <= 1
      {
        SubscribedOnce(s, more);
        RunKeepsInv(s, [Subscribe] + more);
      }
    } else {
      var more := SubscribingInOutageDuplicates(s);
      assert |{0, 1}| == 2;
    }
  }

  lemma SubscribedOnce(s: State, more: seq<Action>)
    requires Up(s) && s.sub == Unsubscribed && Run(s, [Subscribe] + more).Some?
    ensures SubscribesUp(s, [Subscribe] + more)
  {
    var all := [Subscribe] + more;
    assert [Subscribe][..0] == [] && all[..0] == [];
    assert Run(s, [Subscribe]) == Some(Do(s, Subscribe));
    RunConcat(s, [Subscribe], more);
    StaysSubscribed(Do(s, Subscribe), more);
    assert forall i :: 0 < i < |all| ==> all[i] == more[i - 1] && all[i] != Subscribe;
  }
}
