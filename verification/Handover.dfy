/** The hand-over of messages from the reader thread to receivers through a buffer and an event, one step of one thread
    at a time. */
module Handover {
  import opened Wrappers

  /** Where a receiver is: outside `receive`, at the loop's test, waiting for the event, woken but not yet done with
      clearing it, past the loop, or dead of popping an empty buffer. */
  datatype Receiver = Idle | Testing | Waiting | Clearing | Popping | Crashed

  /** The reader appends a message and only then sets the event. */
  datatype Reader = Ready | Appended

  datatype State<M> = State(buffer: seq<M>, event: bool, connected: bool, reader: Reader, receivers: seq<Receiver>,
                            completed: seq<M>, returned: seq<M>)

  datatype Action<M> = Append(m: M) | SetEvent | Disconnect | Call(i: nat) | Test(i: nat) | Wake(i: nat)
    | TimeOut(i: nat)
    | Clear(i: nat) | Pop(i: nat)

  function Start<M>(receivers: nat): State<M> {
    State([], false, true, Ready, seq(receivers, i => Idle), [], [])
  }

  function Move<M>(s: State<M>, i: nat, from: Receiver, to: Receiver): Option<State<M>> {
    if i < |s.receivers| && s.receivers[i] == from then Some(s.(receivers := s.receivers[i := to])) else None
  }

  /** One step; `None` when the thread is not there. */
  function Next<M>(s: State<M>, a: Action<M>): Option<State<M>> {
    match a
    case Append(m) =>
      if s.reader == Ready && s.connected then
        Some(s.(buffer := s.buffer + [m], completed := s.completed + [m], reader := Appended))
      else None
    case SetEvent => if s.reader == Appended then Some(s.(event := true, reader := Ready)) else None
    case Disconnect => if s.reader == Ready then Some(s.(connected := false, event := true)) else None
    case Call(i) => Move(s, i, Idle, Testing)
    case Test(i) => Move(s, i, Testing, if s.connected && s.buffer == [] then Waiting else Popping)
    case Wake(i) => if s.event then Move(s, i, Waiting, Clearing) else None
    case TimeOut(i) => Move(s, i, Waiting, Idle)
    case Clear(i) => Move(s.(event := false), i, Clearing, Testing)
    case Pop(i) =>
      if !s.connected then Move(s, i, Popping, Idle)
      else if s.buffer == [] then Move(s, i, Popping, Crashed)
      else
        Move(s.(buffer := s.buffer[1..], returned := s.returned + [s.buffer[0]]), i, Popping, Idle)
  }

  function Run<M>(s: State<M>, actions: seq<Action<M>>): Option<State<M>> {
    if actions == [] then Some(s)
    else
      var before := Run(s, actions[..|actions| - 1]);
      if before.None? then None else Next(before.value, actions[|actions| - 1])
  }

  /** Some message is buffered, some receiver waits, and nothing will wake it. */
  ghost predicate LostWakeUp<M>(s: State<M>) {
    && s.buffer != [] && s.connected && !s.event && s.reader == Ready
    && exists i :: 0 <= i < |s.receivers| && s.receivers[i] == Waiting
  }

  /** What holds in every interleaving, with any number of receivers. */
  ghost predicate InOrder<M>(s: State<M>) {
    s.completed == s.returned + s.buffer
  }

  /** What holds with one receiver. */
  ghost predicate Woken<M>(s: State<M>) {
    && |s.receivers| == 1
    && (s.receivers[0] == Waiting && s.buffer != [] ==> s.event || s.reader == Appended || !s.connected)
    && (s.receivers[0] == Popping ==> s.buffer != [] || !s.connected)
    && s.receivers[0] != Crashed
  }

  lemma StepInOrder<M>(s: State<M>, a: Action<M>)
    requires InOrder(s) && Next(s, a).Some?
    ensures InOrder(Next(s, a).value) && |Next(s, a).value.receivers| == |s.receivers|
  {
    if a.Pop? && s.buffer != [] {
      assert s.buffer == [s.buffer[0]] + s.buffer[1..];
    }
  }

  lemma StepWoken<M>(s: State<M>, a: Action<M>)
    requires Woken(s) && Next(s, a).Some?
    ensures Woken(Next(s, a).value)
  {
  }

  /** In every interleaving the messages returned are a prefix of the completed ones, in order and without loss or
      duplication inside it; the rest is still buffered. */
  lemma {:induction false} ReturnedInOrder<M>(receivers: nat, actions: seq<Action<M>>)
    requires Run(Start<M>(receivers), actions).Some?
    ensures var s := Run(Start<M>(receivers), actions).value;
            s.completed == s.returned + s.buffer && s.returned <= s.completed && |s.receivers| == receivers
  {
    if actions != [] {
      ReturnedInOrder(receivers, actions[..|actions| - 1]);
      StepInOrder(Run(Start<M>(receivers), actions[..|actions| - 1]).value, actions[|actions| - 1]);
    }
  }

  /** With one receiver no wake-up is lost: a buffered message and a waiting receiver mean that the event is set or
      that the reader's next step sets it. And the receiver never pops an empty buffer. */
  lemma {:induction false} NoLostWakeUp<M>(actions: seq<Action<M>>)
    requires Run(Start<M>(1), actions).Some?
    ensures var s := Run(Start<M>(1), actions).value;
            && Woken(s) && !LostWakeUp(s)
            && (s.receivers[0] == Waiting && s.buffer != [] && s.connected ==> s.event || Next(s, SetEvent).Some?)
  {
    if actions != [] {
      NoLostWakeUp(actions[..|actions| - 1]);
      StepWoken(Run(Start<M>(1), actions[..|actions| - 1]).value, actions[|actions| - 1]);
    }
  }

  /** States one step apart. */
  ghost predicate Trace<M>(states: seq<State<M>>, actions: seq<Action<M>>) {
    |states| == |actions| + 1 && forall k :: 0 <= k < |actions| ==> Leads(states[k], actions[k], states[k + 1])
  }

  ghost predicate Leads<M>(s: State<M>, a: Action<M>, t: State<M>) {
    Next(s, a) == Some(t)
  }

  lemma {:induction false} TraceRuns<M>(states: seq<State<M>>, actions: seq<Action<M>>)
    requires Trace(states, actions)
    ensures Run(states[0], actions) == Some(states[|actions|])
  {
    if actions != [] {
      var n := |actions| - 1;
      TraceRuns(states[..n + 1], actions[..n]);
      assert Leads(states[n], actions[n], states[n + 1]);
    }
  }

  /** The receivers' part of a step. */
  lemma Steps(s: State<int>, i: nat, to: Receiver, a: Action<int>, receivers: seq<Receiver>)
    requires i < |s.receivers| && receivers == s.receivers[i := to]
    ensures s.receivers[i] == Idle && to == Testing && a == Call(i) ==> Leads(s, a, s.(receivers := receivers))
    ensures s.receivers[i] == Testing && a == Test(i)
            && to == (if s.connected && s.buffer == [] then Waiting else Popping) ==>
      Leads(s, a, s.(receivers := receivers))
    ensures s.receivers[i] == Waiting && s.event && to == Clearing && a == Wake(i) ==>
      Leads(s, a, s.(receivers := receivers))
    ensures s.receivers[i] == Clearing && to == Testing && a == Clear(i) ==>
      Leads(s, a, s.(receivers := receivers, event := false))
  {
  }

  lemma {:induction false} RunConcat<M>(s: State<M>, a: seq<Action<M>>, b: seq<Action<M>>)
    requires Run(s, a).Some?
    ensures Run(s, a + b) == Run(Run(s, a).value, b)
  {
    if b == [] {
      assert a + b == a;
    } else {
      assert (a + b)[..|a| + |b| - 1] == a + b[..|b| - 1];
      RunConcat(s, a, b[..|b| - 1]);
    }
  }

  /** Four steps in a row. */
  lemma FourSteps(s0: State<int>, s1: State<int>, s2: State<int>, s3: State<int>, s4: State<int>,
                  actions: seq<Action<int>>)
    requires |actions| == 4
    requires Leads(s0, actions[0], s1) && Leads(s1, actions[1], s2) && Leads(s2, actions[2], s3)
    requires Leads(s3, actions[3], s4)
    ensures Run(s0, actions) == Some(s4)
  {
    TraceRuns([s0, s1, s2, s3, s4], actions);
  }

  function Two(buffer: seq<int>, event: bool, first: Receiver, second: Receiver, completed: seq<int>,
               returned: seq<int>): State<int>
  {
    State(buffer, event, true, Ready, [first, second], completed, returned)
  }

  /** Both receivers wait. */
  lemma BothWait()
    ensures Run(Two([], false, Idle, Idle, [], []), [Call(0), Test(0), Call(1), Test(1)])
         == Some(Two([], false, Waiting, Waiting, [], []))
  {
    var s0 := Two([], false, Idle, Idle, [], []);
    var s1 := s0.(receivers := [Testing, Idle]);
    var s2 := s0.(receivers := [Waiting, Idle]);
    var s3 := s0.(receivers := [Waiting, Testing]);
    var s4 := s0.(receivers := [Waiting, Waiting]);
    Steps(s0, 0, Testing, Call(0), s1.receivers);
    Steps(s1, 0, Waiting, Test(0), s2.receivers);
    Steps(s2, 1, Testing, Call(1), s3.receivers);
    Steps(s3, 1, Waiting, Test(1), s4.receivers);
    FourSteps(s0, s1, s2, s3, s4, [Call(0), Test(0), Call(1), Test(1)]);
  }

  /** Two messages arrive before either receiver wakes. */
  lemma BothArrive()
    ensures Run(Two([], false, Waiting, Waiting, [], []), [Append(7), SetEvent, Append(8), SetEvent])
         == Some(Two([7, 8], true, Waiting, Waiting, [7, 8], []))
  {
    var s4 := Two([], false, Waiting, Waiting, [], []);
    var s5 := s4.(buffer := [7], completed := [7], reader := Appended);
    var s6 := s5.(event := true, reader := Ready);
    var s7 := s6.(buffer := [7, 8], completed := [7, 8], reader := Appended);
    assert Leads(s4, Append(7), s5) by { assert s4.buffer + [7] == [7]; }
    assert Leads(s6, Append(8), s7) by { assert s6.buffer + [8] == [7, 8]; }
    FourSteps(s4, s5, s6, s7, s7.(event := true, reader := Ready), [Append(7), SetEvent, Append(8), SetEvent]);
  }

  /** The first receiver wakes, clears the event and takes one message. */
  lemma OneTakes()
    ensures Run(Two([7, 8], true, Waiting, Waiting, [7, 8], []), [Wake(0), Clear(0), Test(0), Pop(0)])
         == Some(Two([8], false, Idle, Waiting, [7, 8], [7]))
  {
    var s8 := Two([7, 8], true, Waiting, Waiting, [7, 8], []);
    var s9 := s8.(receivers := [Clearing, Waiting]);
    var s10 := s8.(receivers := [Testing, Waiting], event := false);
    var s11 := s10.(receivers := [Popping, Waiting]);
    var s12 := Two([8], false, Idle, Waiting, [7, 8], [7]);
    Steps(s8, 0, Clearing, Wake(0), s9.receivers);
    Steps(s9, 0, Testing, Clear(0), s10.receivers);
    Steps(s10, 0, Popping, Test(0), s11.receivers);
    assert Leads(s11, Pop(0), s12) by {
      assert s11.buffer[1..] == [8] && s11.returned + [7] == [7] && s11.receivers[0 := Idle] == s12.receivers;
    }
    FourSteps(s8, s9, s10, s11, s12, [Wake(0), Clear(0), Test(0), Pop(0)]);
  }

  /** With two receivers one can be lost: the first one to wake clears the event that two messages set. */
  lemma TwoReceivers()
    ensures exists actions: seq<Action<int>> :: Loses(actions)
  {
    BothWait();
    BothArrive();
    OneTakes();
    StartOfTwo();
    RunThrice(Start<int>(2), [Call(0), Test(0), Call(1), Test(1)], [Append(7), SetEvent, Append(8), SetEvent],
              [Wake(0), Clear(0), Test(0), Pop(0)], Two([8], false, Idle, Waiting, [7, 8], [7]));
  }

  lemma StartOfTwo()
    ensures Start<int>(2) == Two([], false, Idle, Idle, [], [])
  {
    assert seq(2, i => Idle) == [Idle, Idle];
  }

  lemma RunThrice(s: State<int>, a: seq<Action<int>>, b: seq<Action<int>>, c: seq<Action<int>>, t: State<int>)
    requires s == Start<int>(2) && Run(s, a).Some? && Run(Run(s, a).value, b).Some?
    requires Run(Run(Run(s, a).value, b).value, c) == Some(t)
    requires t.buffer != [] && t.connected && !t.event && t.reader == Ready && |t.receivers| == 2
    requires t.receivers[1] == Waiting
    ensures Loses(a + b + c)
  {
    RunConcat(s, a, b);
    RunConcat(s, a + b, c);
  }

  ghost predicate Loses(actions: seq<Action<int>>) {
    Run(Start<int>(2), actions).Some? && LostWakeUp(Run(Start<int>(2), actions).value)
  }
}
