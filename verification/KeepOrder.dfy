/**
  KeepOrderInvoke (client/keeporder_client.go) as a protocol of three parties over two
  channels of capacity one: the caller, the worker that runs Invoke, and the transport
  that reports the write from inside Invoke. Every interleaving is a sequence of actions.
 */
module KeepOrder {
  import opened Outcomes

  /** An error, nil included. */
  datatype Error = Error(id: int)

  /** A response or the error of a call. */
  datatype Answer = Answer(rsp: int, err: Error)

  /** Where the worker stands: in Invoke, before its send on ech, before its send on ch, or finished. */
  datatype Worker = Invoking | Signalling(answer: Answer) | Delivering(answer: Answer) | Finished(answer: Answer)

  /** The caller waits on ech and then returns its value. */
  datatype Caller = Waiting | Returned(err: Error)

  datatype State = State(
    worker: Worker,
    caller: Caller,
    ech: Option<Error>,
    ch: Option<Answer>,
    reported: seq<Error>,    // values that went onto ech, in order
    delivered: seq<Answer>,  // values that went onto ch, in order
    received: seq<Answer>)   // values the user of the returned channel took from ch

  datatype Action =
    | TransportReports(err: Error)
    | InvokeReturns(answer: Answer)
    | WorkerSignals
    | WorkerDelivers
    | CallerReceives
    | UserReceives

  const Start := State(Invoking, Waiting, None, None, [], [], [])

  /** `select { case ech <- err: default: }` */
  function TrySend(s: State, err: Error): State {
    if s.ech == None then s.(ech := Some(err), reported := s.reported + [err]) else s
  }

  /** Whether an action can be taken; a plain send blocks on a full channel, a receive on an empty one. */
  predicate Enabled(s: State, a: Action) {
    match a
    case TransportReports(_) => s.worker.Invoking?
    case InvokeReturns(_) => s.worker.Invoking?
    case WorkerSignals => s.worker.Signalling?
    case WorkerDelivers => s.worker.Delivering? && s.ch == None
    case CallerReceives => s.caller.Waiting? && s.ech.Some?
    case UserReceives => s.caller.Returned? && s.ch.Some?
  }

  function Next(s: State, a: Action): State
    requires Enabled(s, a)
  {
    match a
    case TransportReports(err) => TrySend(s, err)
    case InvokeReturns(answer) => s.(worker := Signalling(answer))
    case WorkerSignals => TrySend(s, s.worker.answer.err).(worker := Delivering(s.worker.answer))
    case WorkerDelivers =>
      s.(worker := Finished(s.worker.answer), ch := Some(s.worker.answer), delivered := s.delivered + [s.worker.answer])
    case CallerReceives => s.(caller := Returned(s.ech.value), ech := None)
    case UserReceives => s.(ch := None, received := s.received + [s.ch.value])
  }

  /** The state after a sequence of actions; None unless every action is enabled where it is taken. */
  function Run(actions: seq<Action>): Option<State> {
    if actions == [] then Some(Start)
    else
      var s := Run(actions[..|actions| - 1]);
      var a := actions[|actions| - 1];
      if s.Some? && Enabled(s.value, a) then Some(Next(s.value, a)) else None
  }

  predicate IsRun(actions: seq<Action>) {
    Run(actions).Some?
  }

  function After(actions: seq<Action>): State
    requires IsRun(actions)
  {
    Run(actions).value
  }

  // ------------------------------------------------------------------ what every run keeps

  ghost predicate Inv(s: State) {
    && (s.caller.Waiting? ==>
          && |s.reported| <= 1
          && s.ech == if s.reported == [] then None else Some(s.reported[0]))
    && (s.caller.Returned? ==> |s.reported| >= 1 && s.caller.err == s.reported[0])
    && (s.worker.Delivering? || s.worker.Finished? ==> s.reported != [])
    && (s.worker.Finished? ==> s.delivered == [s.worker.answer])
    && (!s.worker.Finished? ==> s.delivered == [])
    && s.delivered == s.received + (if s.ch.Some? then [s.ch.value] else [])
  }

  lemma StepKeeps(s: State, a: Action)
    requires Inv(s) && Enabled(s, a)
    ensures Inv(Next(s, a))
  {
    if a.UserReceives? {
      assert s.received + [s.ch.value] + [] == s.received + [s.ch.value];
    }
  }

  lemma {:induction false} RunKeeps(actions: seq<Action>)
    requires IsRun(actions)
    ensures Inv(After(actions))
    decreases |actions|
  {
    if actions != [] {
      RunKeeps(actions[..|actions| - 1]);
      StepKeeps(After(actions[..|actions| - 1]), actions[|actions| - 1]);
    }
  }

  /**
    In every run, however often the transport reports: the worker's send on ch never
    blocks, the caller returns the first value put on ech, and ch carries one answer,
    that of Invoke, never more.
   */
  lemma Safety(actions: seq<Action>)
    requires IsRun(actions)
    ensures var s := After(actions);
            && (s.worker.Delivering? ==> Enabled(s, WorkerDelivers))
            && (s.worker.Signalling? ==> Enabled(s, WorkerSignals))
            && (s.caller.Returned? ==> s.reported != [] && s.caller.err == s.reported[0])
            && |s.delivered| <= 1 && s.received <= s.delivered
            && (s.worker.Finished? ==> s.delivered == [s.worker.answer])
  {
    RunKeeps(actions);
  }

  /** What Invoke has returned, if it has. */
  function Invoked(s: State): Option<Answer> {
    if s.worker.Invoking? then None else Some(s.worker.answer)
  }

  /** Steps that caller, worker and user still have before them once Invoke has returned. */
  function Remaining(s: State): nat {
    (match s.worker case Invoking => 3 case Signalling(_) => 2 case Delivering(_) => 1 case Finished(_) => 0)
    + (if s.caller.Waiting? then 1 else 0)
    + (if s.received == [] then 1 else 0)
  }

  predicate AllDone(s: State) {
    s.worker.Finished? && s.caller.Returned? && s.received == [s.worker.answer]
  }

  /**
    Nobody is stuck once Invoke has returned: until everything is done some action is
    enabled, and every enabled action brings the end nearer and keeps Invoke's answer.
   */
  lemma Progress(actions: seq<Action>)
    requires IsRun(actions) && Invoked(After(actions)).Some?
    ensures var s := After(actions);
            && (AllDone(s) || exists a :: Enabled(s, a))
            && (AllDone(s) <==> Remaining(s) == 0)
            && forall a | Enabled(s, a) ::
                 Remaining(Next(s, a)) < Remaining(s) && Invoked(Next(s, a)) == Invoked(s)
  {
    RunKeeps(actions);
    var s := After(actions);
    if !AllDone(s) {
      if s.worker.Signalling? {
        assert Enabled(s, WorkerSignals);
      } else if s.worker.Delivering? {
        assert Enabled(s, WorkerDelivers);
      } else if s.caller.Waiting? {
        assert Enabled(s, CallerReceives);
      } else {
        assert Enabled(s, UserReceives);
      }
    }
  }

  /** A run continued by further actions. */
  lemma {:induction false} RunExtends(actions: seq<Action>, a: Action)
    requires IsRun(actions) && Enabled(After(actions), a)
    ensures IsRun(actions + [a]) && After(actions + [a]) == Next(After(actions), a)
  {
    assert (actions + [a])[..|actions|] == actions;
  }

  /**
    Every run in which Invoke has returned can be continued until caller, worker and user
    are done; then the user holds exactly the answer of Invoke.
   */
  lemma {:induction false} Completion(actions: seq<Action>) returns (more: seq<Action>)
    requires IsRun(actions) && Invoked(After(actions)).Some?
    ensures |more| <= Remaining(After(actions))
    ensures IsRun(actions + more) && AllDone(After(actions + more))
    ensures After(actions + more).received == [Invoked(After(actions)).value]
    decreases Remaining(After(actions))
  {
    Progress(actions);
    var s := After(actions);
    if AllDone(s) {
      more := [];
      assert actions + more == actions;
    } else {
      var a :| Enabled(s, a);
      RunExtends(actions, a);
      var rest := Completion(actions + [a]);
      more := [a] + rest;
      assert actions + more == actions + [a] + rest;
    }
  }

  /** Action i is the first report of the transport. */
  predicate FirstReport(actions: seq<Action>, i: nat, err: Error) {
    i < |actions| && actions[i] == TransportReports(err) && forall j | 0 <= j < i :: !actions[j].TransportReports?
  }

  ghost predicate Reported(actions: seq<Action>) {
    exists i :: 0 <= i < |actions| && actions[i].TransportReports?
  }

  /** What the worker holds is what Invoke returned in this run, and Invoke returned nothing else. */
  lemma {:induction false} InvokedInRun(actions: seq<Action>, a: Answer)
    requires IsRun(actions)
    ensures Invoked(After(actions)) == Some(a) <==> InvokeReturns(a) in actions
    decreases |actions|
  {
    if actions != [] {
      var n := |actions| - 1;
      InvokedInRun(actions[..n], a);
      assert actions == actions[..n] + [actions[n]];
      if actions[n] == InvokeReturns(a) {
        assert Invoked(After(actions[..n])) == None;
      }
    }
  }

  lemma {:induction false} FirstValueInRun(actions: seq<Action>)
    requires IsRun(actions)
    ensures var s := After(actions);
            && (s.reported != [] && Reported(actions) ==> exists i :: FirstReport(actions, i, s.reported[0]))
            && (Reported(actions) ==> s.reported != [])
            && (s.reported != [] && !Reported(actions) ==>
                  Invoked(s).Some? && s.reported[0] == Invoked(s).value.err)
    decreases |actions|
  {
    if actions != [] {
      var n := |actions| - 1;
      var front := actions[..n];
      FirstValueInRun(front);
      RunKeeps(front);
      assert actions == front + [actions[n]];
      var s, t := After(front), After(actions);
      assert s.reported <= t.reported;
      if Reported(front) {
        var i :| FirstReport(front, i, s.reported[0]);
        assert FirstReport(actions, i, t.reported[0]);
      } else if actions[n].TransportReports? {
        assert s.worker.Invoking? && s.reported == [];
        assert FirstReport(actions, n, t.reported[0]);
      } else {
        assert !Reported(actions);
      }
    }
  }

  /**
    Where the values come from: the caller returns the first value the transport reported
    in the run, or the error Invoke returned if the transport reported none, and what the
    user receives is what Invoke returned.
   */
  lemma ValuesInRun(actions: seq<Action>)
    requires IsRun(actions)
    ensures var s := After(actions);
            && (s.caller.Returned? && Reported(actions) ==> exists i :: FirstReport(actions, i, s.caller.err))
            && (s.caller.Returned? && !Reported(actions) ==>
                  exists a :: InvokeReturns(a) in actions && s.caller.err == a.err)
            && forall a | a in s.received :: InvokeReturns(a) in actions
  {
    var s := After(actions);
    RunKeeps(actions);
    FirstValueInRun(actions);
    if Invoked(s).Some? {
      InvokedInRun(actions, Invoked(s).value);
    }
    assert forall a | a in s.received :: a in s.delivered;
  }

  /**
    If the transport never reports, the caller gets the error of Invoke itself: the case
    of an error before the write.
   */
  lemma {:induction false} SilentTransport(actions: seq<Action>)
    requires IsRun(actions) && forall i | 0 <= i < |actions| :: !actions[i].TransportReports?
    ensures var s := After(actions);
            s.caller.Returned? ==> Invoked(s).Some? && s.caller.err == Invoked(s).value.err
    ensures forall e | e in After(actions).reported ::
              Invoked(After(actions)).Some? && e == Invoked(After(actions)).value.err
    decreases |actions|
  {
    RunKeeps(actions);
    if actions != [] {
      var front := actions[..|actions| - 1];
      SilentTransport(front);
      RunKeeps(front);
    }
    var s := After(actions);
    if s.caller.Returned? {
      assert s.reported[0] in s.reported;
    }
  }
}
