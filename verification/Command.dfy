/** The work item that sends one command and waits for its acknowledgement. */
module Command {

  import opened Wrappers

  const RETRIES: nat := 4

  datatype Result = Success | ConnectionError | Timeout | Cancelled | InProgress

  /** `COMMAND_ACK`: whose command it answers, and with what. */
  datatype Ack = Ack(command: nat, inProgress: bool, code: nat)

  /** One call of the user's callback; no acknowledgement is the default one. */
  datatype Call = Call(result: Result, ack: Option<Ack>)

  /** `COMMAND_LONG`, of which the confirmation counts the transmissions. */
  datatype Transmission<P> = Transmission(command: nat, confirmation: nat, params: P)

  /**
   A send work item as a value. `armed` holds its timers in the timeout handler and
   `cookie` the one it refers to; `sent` and `calls` record the messages that the
   sender took and the calls of the user's callback. `ok` is what the sender answers.
   */
  datatype Sending<P> = Sending(
    command: nat, params: P, started: bool, done: bool, retries: nat, ack: Option<Ack>, callback: bool,
    armed: set<nat>, cookie: nat, sent: seq<Transmission<P>>, calls: seq<Call>)
  {
    function Arm(): Sending<P> {
      this.(cookie := cookie + 1, armed := armed + {cookie + 1})
    }

    function Disarm(): Sending<P> {
      this.(armed := armed - {cookie})
    }

    function Report(result: Result): Sending<P> {
      if callback then this.(calls := calls + [Call(result, ack)]) else this
    }

    function Finish(result: Result): Sending<P> {
      Report(result).(callback := false, done := true)
    }

    /** The confirmation travels in eight bits, like the counter itself. */
    function SendCommand(ok: bool): Sending<P> {
      if ok then
        this.(sent := sent + [Transmission(command, retries % 256, params)], retries := (retries + 1) % 256)
      else Disarm().Finish(ConnectionError)
    }

    function Start(ok: bool): Sending<P> {
      this.(started := true, retries := 0).Arm().SendCommand(ok)
    }

    function Cancel(): Sending<P> {
      Disarm().Finish(Cancelled)
    }

    function OnAck(ack: Ack): Sending<P> {
      if ack.command != command then this
      else if ack.inProgress then Disarm().(ack := Some(ack)).Arm().Report(InProgress)
      else Disarm().(ack := Some(ack)).Finish(Success)
    }

    function OnTimeout(ok: bool): Sending<P> {
      if retries >= RETRIES then Finish(Timeout) else Arm().SendCommand(ok)
    }

    /** The timeout handler drops a timer before it calls back. */
    function Fired(timer: nat, ok: bool): Sending<P> {
      this.(armed := armed - {timer}).OnTimeout(ok)
    }
  }

  function NewSending<P>(command: nat, params: P): Sending<P> {
    Sending(command, params, false, false, 0, None, true, {}, 0, [], [])
  }

  /** `SendWorkItem`, with the timers, messages and calls it causes. */
  class SendWorkItem<P> {
    const command: nat
    const params: P
    var started: bool
    var done: bool
    var retries: nat
    var ack: Option<Ack>
    var callback: bool
    var armed: set<nat>
    var cookie: nat
    var sent: seq<Transmission<P>>
    var calls: seq<Call>

    ghost function View(): Sending<P>
      reads this
    {
      Sending(command, params, started, done, retries, ack, callback, armed, cookie, sent, calls)
    }

    constructor (command: nat, params: P)
      ensures View() == NewSending(command, params)
    {
      this.command, this.params := command, params;
      started, done, retries, ack, callback := false, false, 0, None, true;
      armed, cookie, sent, calls := {}, 0, [], [];
    }

    method Arm()
      modifies this`armed, this`cookie
      ensures View() == old(View()).Arm()
    {
      cookie := cookie + 1;
      armed := armed + {cookie};
    }

    method Callback(result: Result)
      modifies this`calls
      ensures View() == old(View()).Report(result)
    {
      if callback {
        calls := calls + [Call(result, ack)];
      }
    }

    method CallbackAndReset(result: Result)
      modifies this`calls, this`callback, this`done
      ensures View() == old(View()).Finish(result)
    {
      Callback(result);
      callback := false;
      done := true;
    }

    method SendCommand(ok: bool)
      modifies this
      ensures View() == old(View()).SendCommand(ok)
    {
      if !ok {
        armed := armed - {cookie};
        CallbackAndReset(ConnectionError);
        return;
      }
      sent := sent + [Transmission(command, retries % 256, params)];
      retries := (retries + 1) % 256;
    }

    method Start(ok: bool)
      modifies this
      ensures View() == old(View()).Start(ok)
    {
      started := true;
      retries := 0;
      Arm();
      SendCommand(ok);
    }

    method Cancel()
      modifies this
      ensures View() == old(View()).Cancel()
    {
      armed := armed - {cookie};
      CallbackAndReset(Cancelled);
    }

    /** `process_command_ack` */
    method ProcessAck(ack: Ack)
      modifies this
      ensures View() == old(View()).OnAck(ack)
    {
      if command != ack.command {
        return;
      }
      armed := armed - {cookie};
      this.ack := Some(ack);
      if ack.inProgress {
        Arm();
        Callback(InProgress);
      } else {
        CallbackAndReset(Success);
      }
    }

    /** The timeout handler drops the timer, and calls back. */
    method Fire(timer: nat, ok: bool)
      modifies this
      ensures View() == old(View()).Fired(timer, ok)
    {
      armed := armed - {timer};
      ProcessTimeout(ok);
    }

    method ProcessTimeout(ok: bool)
      modifies this
      ensures View() == old(View()).OnTimeout(ok)
    {
      if retries >= RETRIES {
        CallbackAndReset(Timeout);
        return;
      }
      Arm();
      SendCommand(ok);
    }
  }

  // ----- Runs -----

  datatype Event = Start(ok: bool) | Cancel | Receive(ack: Ack) | Fire(timer: nat, ok: bool)

  /** The queue starts an item once; a timer fires only while it is armed. */
  predicate Enabled<P>(s: Sending<P>, e: Event) {
    (e.Start? ==> !s.started) && (e.Fire? ==> e.timer in s.armed)
  }

  function Step<P>(s: Sending<P>, e: Event): (t: Sending<P>)
    ensures t.command == s.command && t.params == s.params
  {
    match e
    case Start(ok) => s.Start(ok)
    case Cancel => s.Cancel()
    case Receive(ack) => s.OnAck(ack)
    case Fire(timer, ok) => s.Fired(timer, ok)
  }

  function Run<P>(s: Sending<P>, events: seq<Event>): (t: Sending<P>)
    ensures t.command == s.command && t.params == s.params
  {
    if events == [] then s else Step(Run(s, events[..|events| - 1]), events[|events| - 1])
  }

  predicate Legal<P>(s: Sending<P>, events: seq<Event>) {
    events == [] ||
    (Legal(s, events[..|events| - 1]) && Enabled(Run(s, events[..|events| - 1]), events[|events| - 1]))
  }

  /** Any number of reports of progress, and then at most one final result. */
  predicate Grammar(calls: seq<Call>) {
    forall i :: 0 <= i < |calls| - 1 ==> calls[i].result == InProgress
  }

  /** Progress and success come with an acknowledgement of this command that says so. */
  predicate Answered(command: nat, calls: seq<Call>) {
    forall i :: 0 <= i < |calls| && calls[i].result in {InProgress, Success} ==>
      && calls[i].ack.Some? && calls[i].ack.value.command == command
      && calls[i].ack.value.inProgress == (calls[i].result == InProgress)
  }

  /** The same command each time, with the number of times it was sent before. */
  ghost predicate Confirmations<P>(command: nat, params: P, sent: seq<Transmission<P>>) {
    forall i :: 0 <= i < |sent| ==> sent[i] == Transmission(command, i, params)
  }

  /** What holds of an item however early its acknowledgements come. */
  ghost predicate Ended<P>(s: Sending<P>) {
    && Grammar(s.calls) && Answered(s.command, s.calls)
    && s.done == !s.callback
    && (!s.done ==> forall i :: 0 <= i < |s.calls| ==> s.calls[i].result == InProgress)
    && (s.done ==> s.calls != [] && s.calls[|s.calls| - 1].result != InProgress)
  }

  ghost predicate Inv<P>(s: Sending<P>) {
    && Ended(s) && s.started
    && s.retries == |s.sent| <= RETRIES && Confirmations(s.command, s.params, s.sent)
    && s.armed <= {s.cookie} && (!s.done ==> s.armed == {s.cookie})
  }

  /** The callback is called with what the acknowledgement says. */
  ghost predicate Fitting<P>(s: Sending<P>, result: Result) {
    result in {InProgress, Success} ==>
      s.ack.Some? && s.ack.value.command == s.command && s.ack.value.inProgress == (result == InProgress)
  }

  lemma ReportEnds<P>(s: Sending<P>)
    requires Ended(s) && Fitting(s, InProgress)
    ensures Ended(s.Report(InProgress))
  {
  }

  lemma FinishEnds<P>(s: Sending<P>, result: Result)
    requires Ended(s) && Fitting(s, result) && result != InProgress
    ensures Ended(s.Finish(result))
  {
  }

  lemma EndedStep<P>(s: Sending<P>, e: Event)
    requires Ended(s) && Enabled(s, e)
    ensures Ended(Step(s, e))
  {
    hide Grammar, Answered, Sending.Report, Sending.Finish;
    match e
    case Start(ok) => FinishEnds(s.(started := true, retries := 0).Arm().Disarm(), ConnectionError);
    case Cancel => FinishEnds(s.Disarm(), Cancelled);
    case Receive(ack) =>
      var t := s.Disarm().(ack := Some(ack));
      if ack.command == s.command {
        if ack.inProgress { ReportEnds(t.Arm()); } else { FinishEnds(t, Success); }
      }
    case Fire(timer, ok) =>
      var t := s.(armed := s.armed - {timer});
      FinishEnds(t, Timeout);
      FinishEnds(t.Arm().Disarm(), ConnectionError);
  }

  lemma StepKeeps<P>(s: Sending<P>, e: Event)
    requires Inv(s) && Enabled(s, e)
    ensures Inv(Step(s, e))
  {
    EndedStep(s, e);
    hide Ended;
  }

  /** The grammar of the callbacks holds even when acknowledgements come before the start. */
  lemma {:induction false} GrammarAlways<P>(command: nat, params: P, events: seq<Event>)
    requires Legal(NewSending(command, params), events)
    ensures Ended(Run(NewSending(command, params), events))
    decreases |events|
  {
    if events != [] {
      GrammarAlways(command, params, events[..|events| - 1]);
      EndedStep(Run(NewSending(command, params), events[..|events| - 1]), events[|events| - 1]);
    }
  }

  // ----- What is reported, and why -----

  /** How often the command has been sent since it was started, or from construction on if it was not. */
  function Sends(events: seq<Event>): nat {
    if events == [] then 0 else
    match events[|events| - 1]
    case Start(ok) => if ok then 1 else 0
    case Fire(_, ok) => Sends(events[..|events| - 1]) + if ok then 1 else 0
    case _ => Sends(events[..|events| - 1])
  }

  /** Whether an event ends the command: a cancellation, its result, a refused sending or the expiry after four. */
  predicate Ends(command: nat, events: seq<Event>, i: nat)
    requires i < |events|
  {
    match events[i]
    case Start(ok) => !ok
    case Cancel => true
    case Receive(ack) => ack.command == command && !ack.inProgress
    case Fire(_, ok) => !ok || Sends(events[..i]) >= 4
  }

  /** The first event that ends the command, or the number of events. */
  function End(command: nat, events: seq<Event>): (k: nat)
    ensures k <= |events| && (k < |events| ==> Ends(command, events, k))
    ensures forall i :: 0 <= i < k ==> !Ends(command, events, i)
    decreases |events|
  {
    if events == [] then 0 else
    var n := |events| - 1;
    assert forall i :: 0 <= i < n ==> events[..n][..i] == events[..i];
    assert forall i :: 0 <= i < n ==> Ends(command, events[..n], i) == Ends(command, events, i);
    if End(command, events[..n]) < n then End(command, events[..n])
    else if Ends(command, events, n) then n else |events|
  }

  /** The last acknowledgement of this command. */
  function LastAck(command: nat, events: seq<Event>): Option<Ack> {
    if events == [] then None else
    var e := events[|events| - 1];
    if e.Receive? && e.ack.command == command then Some(e.ack) else LastAck(command, events[..|events| - 1])
  }

  /** The reports of progress that the acknowledgements of this command make. */
  function Progress(command: nat, events: seq<Event>): seq<Call> {
    if events == [] then [] else
    var e := events[|events| - 1];
    Progress(command, events[..|events| - 1]) +
    if e.Receive? && e.ack.command == command && e.ack.inProgress then [Call(InProgress, Some(e.ack))] else []
  }

  /** The calls of a command that this event ends. */
  function CallsTo(command: nat, events: seq<Event>, k: nat): seq<Call>
    requires k < |events|
  {
    var last := LastAck(command, events[..k]);
    Progress(command, events[..k]) +
    [match events[k]
     case Start(_) => Call(ConnectionError, last)
     case Cancel => Call(Cancelled, last)
     case Receive(ack) => Call(Success, Some(ack))
     case Fire(_, _) => Call(if Sends(events[..k]) >= 4 then Timeout else ConnectionError, last)]
  }

  /**
   The calls of the user's callback: one for each acknowledgement of progress before the
   end, in order, and at the end the result that the event stands for.
   */
  predicate Told(command: nat, events: seq<Event>, calls: seq<Call>) {
    var k := End(command, events);
    calls == if k == |events| then Progress(command, events) else CallsTo(command, events, k)
  }

  /** Every call of the callback is explained by the event that makes it, over every run from construction. */
  lemma {:induction false} CallsExplained<P>(command: nat, params: P, events: seq<Event>)
    requires Legal(NewSending(command, params), events)
    ensures var s := Run(NewSending(command, params), events);
      && Told(command, events, s.calls)
      && s.done == !s.callback && (s.done <==> End(command, events) < |events|)
      && (!s.done ==> s.ack == LastAck(command, events) && s.retries == Sends(events) <= 4)
    decreases |events|
  {
    if events != [] {
      var n := |events| - 1;
      var before := events[..n];
      CallsExplained(command, params, before);
      var s := Run(NewSending(command, params), before);
      if End(command, before) < n {
        SameEnd(command, events);
        EndedSilent(s, events[n]);
      } else {
        assert before[..n] == before && events[..|events|] == events;
        WorkStep(s, events);
      }
    }
  }

  /** What is told of an item at work. */
  ghost predicate AtWork<P>(s: Sending<P>, events: seq<Event>) {
    && !s.done && s.callback && s.ack == LastAck(s.command, events) && s.retries == Sends(events) <= 4
    && s.calls == Progress(s.command, events) && End(s.command, events) == |events|
  }

  lemma SendingStep<P>(s: Sending<P>, events: seq<Event>)
    requires events != [] && AtWork(s, events[..|events| - 1])
    requires events[|events| - 1].Start? || events[|events| - 1].Fire?
    ensures Follows(Step(s, events[|events| - 1]), events)
  {
    hide End;
  }

  lemma OtherStep<P>(s: Sending<P>, events: seq<Event>)
    requires events != [] && AtWork(s, events[..|events| - 1])
    requires events[|events| - 1].Cancel? || events[|events| - 1].Receive?
    ensures Follows(Step(s, events[|events| - 1]), events)
  {
    hide End;
  }

  lemma WorkStep<P>(s: Sending<P>, events: seq<Event>)
    requires events != [] && AtWork(s, events[..|events| - 1])
    ensures var t := Step(s, events[|events| - 1]);
      if End(s.command, events) == |events| then AtWork(t, events)
      else End(s.command, events) == |events| - 1 && t.done && !t.callback && Told(s.command, events, t.calls)
  {
    var n := |events| - 1;
    assert events[..n][..n] == events[..n] && events[..|events|] == events;
    EndStep(s.command, events);
    hide End;
    if events[n].Start? || events[n].Fire? {
      SendingStep(s, events);
    } else {
      OtherStep(s, events);
    }
    hide *;
  }

  /** An event after which the item is still at work, or has made its last call. */
  ghost predicate Follows<P>(t: Sending<P>, events: seq<Event>)
    requires events != []
  {
    var n := |events| - 1;
    if Ends(t.command, events, n) then t.done && !t.callback && t.calls == CallsTo(t.command, events, n)
    else
      && !t.done && t.callback && t.ack == LastAck(t.command, events) && t.retries == Sends(events) <= 4
      && t.calls == Progress(t.command, events)
  }

  lemma EndStep(command: nat, events: seq<Event>)
    requires events != [] && End(command, events[..|events| - 1]) == |events| - 1
    ensures End(command, events) == if Ends(command, events, |events| - 1) then |events| - 1 else |events|
  {
  }

  /** What follows the end changes nothing of what is told. */
  lemma SameEnd(command: nat, events: seq<Event>)
    requires events != [] && End(command, events[..|events| - 1]) < |events| - 1
    ensures End(command, events) == End(command, events[..|events| - 1])
    ensures forall calls :: Told(command, events[..|events| - 1], calls) ==> Told(command, events, calls)
  {
    var before := events[..|events| - 1];
    var k := End(command, before);
    assert before[..k] == events[..k] && before[k] == events[k];
  }

  /** An item that has ended makes no more calls. */
  lemma EndedSilent<P>(s: Sending<P>, e: Event)
    requires s.done && !s.callback
    ensures Step(s, e).done && !Step(s, e).callback && Step(s, e).calls == s.calls
  {
  }

  // ----- Before the start -----

  predicate StartsIn(events: seq<Event>) {
    exists i :: 0 <= i < |events| && events[i].Start?
  }

  /** Whether some early timer has sent the command. */
  predicate SentEarly(events: seq<Event>) {
    exists i :: 0 <= i < |events| && events[i].Fire? && events[i].ok
  }

  /** Whether the last acknowledgement of this command, with no cancellation or expiry since, reports progress. */
  predicate Owing(command: nat, events: seq<Event>) {
    events != [] &&
    match events[|events| - 1]
    case Receive(ack) =>
      if ack.command == command then ack.inProgress else Owing(command, events[..|events| - 1])
    case _ => false
  }

  /** What has happened to an item before its start leaves no trace in the start. */
  predicate Undisturbed(command: nat, before: seq<Event>) {
    !SentEarly(before) && !Owing(command, before)
  }

  lemma {:induction false} BeforeStart<P>(command: nat, params: P, events: seq<Event>)
    requires Legal(NewSending(command, params), events) && !StartsIn(events)
    ensures var s := Run(NewSending(command, params), events);
      && Ended(s) && !s.started && s.armed <= {s.cookie}
      && (SentEarly(events) <==> s.sent != [])
      && (!SentEarly(events) ==> s.retries == 0 && (Owing(command, events) <==> s.armed != {}))
    decreases |events|
  {
    if events != [] {
      var before, e := events[..|events| - 1], events[|events| - 1];
      assert forall i :: 0 <= i < |before| ==> before[i] == events[i];
      BeforeStart(command, params, before);
      EarlyStep(Run(NewSending(command, params), before), e);
      EndedStep(Run(NewSending(command, params), before), e);
      assert SentEarly(events) <==> SentEarly(before) || (e.Fire? && e.ok) by {
        if SentEarly(before) {
          var i :| 0 <= i < |before| && before[i].Fire? && before[i].ok;
          assert events[i] == before[i];
        }
      }
      hide Ended, Step;
    }
  }

  lemma EarlyStep<P>(s: Sending<P>, e: Event)
    requires Enabled(s, e) && !e.Start? && s.armed <= {s.cookie} && (s.sent == [] ==> s.retries == 0)
    ensures var t := Step(s, e);
      && t.started == s.started && t.armed <= {t.cookie}
      && (t.sent != [] <==> s.sent != [] || (e.Fire? && e.ok))
      && (t.sent == [] ==> t.retries == 0)
      && (t.sent == [] ==>
            (t.armed != {} <==> match e case Receive(ack) => (if ack.command == s.command then ack.inProgress
                                                               else s.armed != {})
                                        case _ => false))
  {
  }

  lemma StartIff<P>(s: Sending<P>, ok: bool)
    requires Ended(s) && !s.started && s.armed <= {s.cookie}
    ensures Inv(s.Start(ok)) <==> s.armed == {} && s.sent == []
  {
    EndedStep(s, Start(ok));
    hide Ended;
    if s.armed != {} {
      assert s.cookie in s.Start(ok).armed;
    }
  }

  /** A start is clean exactly if nothing before it has left a trace. */
  lemma CleanStartIff<P>(command: nat, params: P, before: seq<Event>, ok: bool)
    requires Legal(NewSending(command, params), before) && !StartsIn(before)
    ensures Undisturbed(command, before) <==> Inv(Run(NewSending(command, params), before).Start(ok))
  {
    BeforeStart(command, params, before);
    hide Inv, Ended, Legal, Run, Owing, SentEarly, StartsIn;
    StartIff(Run(NewSending(command, params), before), ok);
  }

  lemma {:induction false} KeepsOn<P>(s: Sending<P>, events: seq<Event>)
    requires Inv(s) && Legal(s, events)
    ensures Inv(Run(s, events))
    decreases |events|
  {
    hide Inv;
    if events != [] {
      KeepsOn(s, events[..|events| - 1]);
      StepKeeps(Run(s, events[..|events| - 1]), events[|events| - 1]);
    }
  }

  /**
   What a run of a command promises: the callback is told of every progress and of what ended
   the command, so there are reports of progress and then one result at most, each with the
   acknowledgement it stands for; at most four transmissions, the i-th with the confirmation
   i - 1; one armed timer until the end, and none right after it. `history` has all events since construction.
   */
  ghost predicate Promises<P>(command: nat, params: P, history: seq<Event>, s: Sending<P>) {
    && Told(command, history, s.calls)
    && Grammar(s.calls) && (s.done <==> s.calls != [] && s.calls[|s.calls| - 1].result != InProgress)
    && Answered(command, s.calls)
    && |s.sent| <= RETRIES && Confirmations(command, params, s.sent)
    && s.armed <= {s.cookie} && (!s.done ==> s.armed == {s.cookie})
    && (End(command, history) + 1 == |history| ==> s.armed == {})
  }

  /** From construction, with a clean start, over any acknowledgements and timers. */
  lemma CommandRuns<P>(command: nat, params: P, before: seq<Event>, ok: bool, events: seq<Event>)
    requires Legal(NewSending(command, params), before) && !StartsIn(before) && Undisturbed(command, before)
    requires Legal(Run(NewSending(command, params), before).Start(ok), events)
    ensures Promises(command, params, History(before, ok, events),
                     Run(Run(NewSending(command, params), before).Start(ok), events))
  {
    hide Run, Legal, StartsIn, Sending.Start, Undisturbed, Inv, Promises, Told;
    CleanStartIff(command, params, before, ok);
    var start := Run(NewSending(command, params), before).Start(ok);
    KeepsOn(start, events);
    SameCommand(Run(NewSending(command, params), before), ok);
    BeforeStart(command, params, before);
    WholeRun(NewSending(command, params), before, ok, events);
    CallsExplained(command, params, History(before, ok, events));
    LastDisarms(command, params, before, ok, events);
    InvPromises(Run(start, events), History(before, ok, events));
  }

  lemma LastDisarms<P>(command: nat, params: P, before: seq<Event>, ok: bool, events: seq<Event>)
    requires Legal(NewSending(command, params), before) && !StartsIn(before) && Undisturbed(command, before)
    requires Legal(Run(NewSending(command, params), before).Start(ok), events)
    ensures var all := History(before, ok, events);
      End(command, all) + 1 == |all| ==> Run(Run(NewSending(command, params), before).Start(ok), events).armed == {}
  {
    hide Legal, StartsIn, Undisturbed, Inv, Told, AtWork, Sends, LastAck, End, Step;
    var all, s := History(before, ok, events), Run(NewSending(command, params), before);
    if End(command, all) + 1 == |all| {
      BeforeStart(command, params, before);
      WholeRun(NewSending(command, params), before, ok, events);
      Earlier(command, all);
      if events == [] {
        assert all[..|all| - 1] == before;
        CallsExplained(command, params, before);
        CallsExplained(command, params, all);
        Clean(command, params, before);
        StartDisarms(s, ok);
      } else {
        var init := events[..|events| - 1];
        ShorterLegal(s.Start(ok), events);
        WholeRun(NewSending(command, params), before, ok, init);
        assert all[..|all| - 1] == History(before, ok, init);
        CallsExplained(command, params, History(before, ok, init));
        CallsExplained(command, params, all);
        CleanStartIff(command, params, before, ok);
        KeepsOn(s.Start(ok), init);
        EndDisarms(Run(s.Start(ok), init), events[|events| - 1]);
      }
    }
  }

  lemma Earlier(command: nat, events: seq<Event>)
    requires events != [] && End(command, events) == |events| - 1
    ensures End(command, events[..|events| - 1]) == |events| - 1
  {
  }

  lemma Clean<P>(command: nat, params: P, before: seq<Event>)
    requires Legal(NewSending(command, params), before) && !StartsIn(before) && Undisturbed(command, before)
    ensures Run(NewSending(command, params), before).armed == {}
  {
    BeforeStart(command, params, before);
    hide Ended, Run, SentEarly, Owing;
  }

  lemma StartDisarms<P>(s: Sending<P>, ok: bool)
    requires s.armed == {} && !s.done && s.Start(ok).done
    ensures s.Start(ok).armed == {}
  {
  }

  lemma ShorterLegal<P>(s: Sending<P>, events: seq<Event>)
    requires Legal(s, events) && events != []
    ensures Legal(s, events[..|events| - 1]) && Enabled(Run(s, events[..|events| - 1]), events[|events| - 1])
  {
  }

  /** The event that ends a command leaves no timer. */
  lemma EndDisarms<P>(s: Sending<P>, e: Event)
    requires Inv(s) && Enabled(s, e) && !s.done && Step(s, e).done
    ensures Step(s, e).armed == {}
  {
    hide Ended, Confirmations;
  }

  /** What happens before a start, the start, and what happens after it. */
  function History(before: seq<Event>, ok: bool, events: seq<Event>): seq<Event> {
    before + [Start(ok)] + events
  }

  lemma WholeRun<P>(s: Sending<P>, before: seq<Event>, ok: bool, events: seq<Event>)
    requires Legal(s, before) && !Run(s, before).started && Legal(Run(s, before).Start(ok), events)
    ensures Legal(s, History(before, ok, events))
    ensures Run(s, History(before, ok, events)) == Run(Run(s, before).Start(ok), events)
    decreases |events|
  {
    hide Step;
    var all := History(before, ok, events);
    if events == [] {
      assert all[..|all| - 1] == before;
      StartStep(Run(s, before), ok);
    } else {
      var init := events[..|events| - 1];
      WholeRun(s, before, ok, init);
      assert all[..|all| - 1] == History(before, ok, init);
    }
  }

  lemma StartStep<P>(s: Sending<P>, ok: bool)
    ensures Step(s, Start(ok)) == s.Start(ok)
  {
  }

  lemma InvPromises<P>(s: Sending<P>, history: seq<Event>)
    requires Inv(s) && Told(s.command, history, s.calls)
    requires End(s.command, history) + 1 == |history| ==> s.armed == {}
    ensures Promises(s.command, s.params, history, s)
  {
    hide Told;
  }

  lemma SameCommand<P>(s: Sending<P>, ok: bool)
    ensures s.Start(ok).command == s.command && s.Start(ok).params == s.params
  {
  }

  /** A command that was sent, or has a timer, before its start breaks its promises with the start. */
  lemma TraceBreaks<P>(s: Sending<P>)
    requires s.armed <= {s.cookie} && (s.sent != [] || s.armed != {})
    ensures forall history :: !Promises(s.command, s.params, history, s.Start(true))
  {
    hide Grammar, Answered, Told;
    var t := s.Start(true);
    if s.sent != [] {
      assert t.sent[|s.sent|].confirmation == 0;
    } else {
      assert s.cookie in t.armed;
    }
  }

  /** Every run after a start keeps its promises, exactly if the start is clean. */
  lemma CommandRunsIff<P>(command: nat, params: P, before: seq<Event>)
    requires Legal(NewSending(command, params), before) && !StartsIn(before)
    ensures Undisturbed(command, before) <==>
            forall ok, events ::
              Legal(Run(NewSending(command, params), before).Start(ok), events) ==>
              Promises(command, params, History(before, ok, events),
                       Run(Run(NewSending(command, params), before).Start(ok), events))
  {
    hide Promises, StartsIn, Sending.Start, Owing, SentEarly;
    var s := Run(NewSending(command, params), before);
    if Undisturbed(command, before) {
      forall ok, events | Legal(s.Start(ok), events)
        ensures Promises(command, params, History(before, ok, events), Run(s.Start(ok), events))
      {
        CommandRuns(command, params, before, ok, events);
      }
    } else {
      BeforeStart(command, params, before);
      TraceBreaks(s);
      RunNothing(s.Start(true));
      assert Legal(s.Start(true), []);
      assert !Promises(command, params, History(before, true, []), Run(s.Start(true), []));
    }
  }

  /**
   The acknowledgement handler is registered with the item, so progress reported before
   the start arms a timer, and that timer sends the command early.
   */
  lemma EarlyProgress<P>(command: nat, params: P)
    ensures var before := [Receive(Ack(command, true, 0)), Fire(1, true)];
      && Legal(NewSending(command, params), before) && !StartsIn(before)
      && (var s := Run(NewSending(command, params), before).Start(true);
          && s.sent == [Transmission(command, 0, params), Transmission(command, 0, params)]
          && s.armed == {2, 3})
  {
    var before := [Receive(Ack(command, true, 0)), Fire(1, true)];
    var s := NewSending(command, params).OnAck(Ack(command, true, 0));
    assert s.armed == {1};
    var t := s.Fired(1, true);
    assert t.armed == {2} && t.sent == [Transmission(command, 0, params)];
    assert before[..1] == [Receive(Ack(command, true, 0))] && before[..1][..0] == [];
    assert Run(NewSending(command, params), before[..1]) == s;
    assert Run(NewSending(command, params), before) == t;
  }

  /** The timer of a command fires `k` times, and nothing else happens. */
  function Silence<P>(s: Sending<P>, k: nat): Sending<P> {
    if k == 0 then s else
    var t := Silence(s, k - 1);
    if t.done then t else t.Fired(t.cookie, true)
  }

  lemma SilentStep<P>(s: Sending<P>)
    requires Inv(s) && !s.done
    ensures s.retries <= RETRIES
    ensures var t := s.Fired(s.cookie, true);
      if s.retries < RETRIES then
        Inv(t) && !t.done && t.calls == s.calls && t.ack == s.ack && t.retries == s.retries + 1
      else
        t.done && t.calls == s.calls + [Call(Timeout, s.ack)] && |t.sent| == RETRIES && t.armed == {}
  {
    StepKeeps(s, Fire(s.cookie, true));
  }

  /** A command that nobody answers is sent four times in all, and then times out. */
  lemma {:induction false} SilentCommand<P>(s: Sending<P>, k: nat)
    requires Inv(s) && !s.done
    ensures var t := Silence(s, k);
      if k <= RETRIES - s.retries then
        Inv(t) && !t.done && t.calls == s.calls && t.ack == s.ack && t.retries == s.retries + k
      else
        t.done && t.calls == s.calls + [Call(Timeout, s.ack)] && |t.sent| == RETRIES && t.armed == {}
    decreases k
  {
    hide Inv;
    if k > 0 {
      SilentCommand(s, k - 1);
      if k - 1 <= RETRIES - s.retries {
        SilentStep(Silence(s, k - 1));
      }
    } else {
      SilentStep(s);
    }
  }

  // ----- The work item in place, driven by events -----

  /** Whatever happens to a send work item before and after a clean start, its object keeps what is promised of runs. */
  method DriveCommand<P>(command: nat, params: P, before: seq<Event>, ok: bool, events: seq<Event>)
    returns (w: SendWorkItem<P>)
    requires Legal(NewSending(command, params), before) && !StartsIn(before) && Undisturbed(command, before)
    requires Legal(Run(NewSending(command, params), before).Start(ok), events)
    ensures fresh(w) && w.View() == Run(Run(NewSending(command, params), before).Start(ok), events)
    ensures Promises(command, params, History(before, ok, events), w.View())
  {
    hide Legal, Run, StartsIn, Undisturbed, Promises;
    w := new SendWorkItem<P>(command, params);
    Drive(w, before);
    w.Start(ok);
    Drive(w, events);
    CommandRuns(command, params, before, ok, events);
  }

  method Drive<P>(w: SendWorkItem<P>, events: seq<Event>)
    modifies w
    ensures w.View() == Run(old(w.View()), events)
  {
    hide Run;
    RunNothing(w.View());
    for i := 0 to |events|
      invariant w.View() == Run(old(w.View()), events[..i])
    {
      RunMore(old(w.View()), events, i);
      match events[i]
      case Start(ok) => w.Start(ok);
      case Cancel => w.Cancel();
      case Receive(ack) => w.ProcessAck(ack);
      case Fire(timer, ok) => w.Fire(timer, ok);
    }
    assert events[..|events|] == events;
  }

  lemma RunNothing<P>(s: Sending<P>)
    ensures Run(s, []) == s
  {
  }

  lemma RunMore<P>(s: Sending<P>, events: seq<Event>, i: nat)
    requires i < |events|
    ensures Run(s, events[..i + 1]) == Step(Run(s, events[..i]), events[i])
  {
    assert events[..i + 1][..i] == events[..i];
  }
}
