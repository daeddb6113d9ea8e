/**
 List transfers in which nothing is lost, cancelled or late: whatever the order in which
 work items start, messages arrive and ended items leave the queues, both ends succeed.
 */
module LosslessRuns {

  import opened Transfer
  import opened Download
  import opened EndToEnd
  import opened TransferOutcomes
  import opened Wrappers

  /** Starts, receptions, the removal of ended work items, and one answer, which accepts. */
  predicate Smooth(move: Move, answered: bool) {
    match move
    case StartUp(ok) => ok
    case StartDown(ok) => ok
    case Receive(_, ok) => ok
    case PopUp => true
    case PopDown => true
    case Answer(ack) => ack == Accepted && !answered
    case _ => false
  }

  predicate Lossless<T>(s: System<T>, moves: seq<Move>, answered: bool)
    decreases |moves|
  {
    moves == [] ||
    (Smooth(moves[0], answered) && Enabled(s, moves[0])
     && Lossless(Next(s, moves[0]), moves[1..], answered || moves[0].Answer?))
  }

  predicate Answered(moves: seq<Move>) {
    exists i :: 0 <= i < |moves| && moves[i].Answer?
  }

  /** The run can go on. */
  ghost predicate Extendable<T>(s: System<T>, answered: bool) {
    exists move :: Smooth(move, answered) && Enabled(s, move)
  }

  // ----- How far a lossless transfer is -----

  datatype Phase =
    | Beginning | Requesting | Creating | Counting | Preparing | Reading(k: nat) | Sending(k: nat)
    | Given | Accepting | Over

  ghost predicate Gone<T>(s: System<T>) {
    && Complete(s) && s.net == []
    && (s.up.Some? ==> s.up.value.started && s.up.value.done)
    && (s.down.Some? ==> s.down.value.started && s.down.value.done)
  }

  ghost predicate At<T>(s: System<T>, answered: bool, phase: Phase) {
    var n := |s.list.items|;
    && InOrder(s.list.items) && n < WIDTH
    && match phase
       case Beginning => !answered && s == Initial(s.uploads, s.list)
       case Requesting => !answered && RequestSent(s)
       case Creating => !answered && Requested(s)
       case Counting => !answered && CountSent(s) && (if s.uploads then s.down.None? else Expecting(s))
       case Preparing => !answered && Told(s)
       case Reading(k) => !answered && k < n && Asking(s, k)
       case Sending(k) => !answered && k < n && Midway(s, k, k + 1) && s.net == [ToDown(Item(k, s.list.items[k].item))]
       case Given => !answered && s.uploads && Delivered(s)
       case Accepting => s.net == [ToUp(Acknowledge(Accepted))] && Delivered(s.(net := if s.uploads then [] else s.net))
                         && answered == s.uploads
       case Over => answered == s.uploads && Gone(s)
  }

  /** How many moves are left at most. */
  function Left<T>(s: System<T>, phase: Phase): int {
    var n := |s.list.items|;
    (if s.up.Some? then 1 else 0) + (if s.down.Some? then 1 else 0) +
    match phase
    case Beginning => 2 * n + 9
    case Requesting => 2 * n + 8
    case Creating => 2 * n + 6
    case Counting => 2 * n + 5
    case Preparing => 2 * n + 3
    case Reading(k) => 2 * (n - k) + 2
    case Sending(k) => 2 * (n - k) + 1
    case Given => 2
    case Accepting => 1
    case Over => 0
  }

  /** The one move that the transfer waits for. */
  function Forward(uploads: bool, phase: Phase): Move {
    match phase
    case Beginning => if uploads then StartUp(true) else StartDown(true)
    case Creating => StartUp(true)
    case Preparing => StartDown(true)
    case Given => Answer(Accepted)
    case _ => Receive(0, true)
  }

  predicate Pops(move: Move) {
    move == PopUp || move == PopDown
  }

  lemma NoneHas<T>(deliveries: seq<(Result, List<T>)>)
    ensures deliveries == [] ==> !Has(deliveries, Success)
  {
  }

  /** Nothing else can happen, but that ended work items leave their queues. */
  lemma ForwardOnly<T>(s: System<T>, answered: bool, phase: Phase, move: Move)
    requires At(s, answered, phase) && Smooth(move, answered) && Enabled(s, move)
    ensures if Pops(move) then phase in {Given, Accepting, Over} else !phase.Over? && move == Forward(s.uploads, phase)
  {
    hide InOrder, Has, Expected;
    NoneHas(s.deliveries);
  }

  lemma ForwardEnabled<T>(s: System<T>, answered: bool, phase: Phase)
    requires At(s, answered, phase) && !phase.Over?
    ensures Smooth(Forward(s.uploads, phase), answered) && Enabled(s, Forward(s.uploads, phase))
  {
    hide InOrder, Expected;
    if phase.Given? {
      assert s.deliveries[0].0 == Success;
    }
  }

  // ----- One lemma for each phase -----

  lemma Begins<T>(s: System<T>)
    requires At(s, false, Beginning)
    ensures var t := Next(s, Forward(s.uploads, Beginning)); At(t, false, if s.uploads then Counting else Requesting)
  {
    hide CountSent, RequestSent, Expecting;
    if s.uploads { FirstMove(s.list); } else { RequestMove(s.list); }
    NextKept(s, Forward(s.uploads, Beginning));
    hide Next;
  }

  lemma Requests<T>(s: System<T>)
    requires At(s, false, Requesting)
    ensures At(Next(s, Receive(0, true)), false, Creating)
  {
    hide RequestSent, Requested;
    RequestTaken(s);
    hide Next, Possible;
  }

  lemma Creates<T>(s: System<T>)
    requires At(s, false, Creating)
    ensures At(Next(s, StartUp(true)), false, Counting)
  {
    hide Requested, CountSent;
    CountReturns(s);
    hide Next, Possible;
  }

  lemma Counts<T>(s: System<T>)
    requires At(s, false, Counting)
    ensures Possible(s, Receive(0, true))
    ensures At(Next(s, Receive(0, true)), false,
               if s.uploads then Preparing else if s.list.items == [] then Accepting else Reading(0))
  {
    OneCount(s);
    if s.uploads { CountTold(s); } else { CountAnswered(s); }
    hide Next, Expecting, CountSent, Told, Asking;
    if !s.uploads && s.list.items == [] { Acknowledging(Next(s, Receive(0, true))); }
  }

  lemma Prepares<T>(s: System<T>)
    requires At(s, false, Preparing)
    ensures At(Next(s, StartDown(true)), false, if s.list.items == [] then Given else Reading(0))
  {
    ToldStarts(s);
    hide Next, Told, Asking, Delivered;
  }

  lemma Reads<T>(s: System<T>, k: nat)
    requires At(s, false, Reading(k))
    ensures Possible(s, Receive(0, true)) && At(Next(s, Receive(0, true)), false, Sending(k))
  {
    ReadMove(s, k);
    hide Next, Midway;
  }

  lemma Acknowledging<T>(s: System<T>)
    requires Delivered(s) && !s.uploads
    ensures s.net == [ToUp(Acknowledge(Accepted))] && s.(net := s.net) == s
  {
  }

  lemma Sends<T>(s: System<T>, k: nat)
    requires At(s, false, Sending(k))
    ensures Possible(s, Receive(0, true))
    ensures At(Next(s, Receive(0, true)), false,
               if k + 1 < |s.list.items| then Reading(k + 1) else if s.uploads then Given else Accepting)
  {
    hide Midway, Asking, Delivered, InOrder;
    ItemMove(s, k);
    hide Next;
    if k + 1 == |s.list.items| && !s.uploads { Acknowledging(Next(s, Receive(0, true))); }
  }

  lemma Gives<T>(s: System<T>)
    requires At(s, false, Given)
    ensures Possible(s, Answer(Accepted)) && At(Next(s, Answer(Accepted)), true, Accepting)
  {
    hide Delivered;
    AnswerMove(s);
    hide Next, Possible;
  }

  lemma Accepts<T>(s: System<T>, answered: bool)
    requires At(s, answered, Accepting)
    ensures At(Next(s, Receive(0, true)), answered, Over)
  {
    hide InOrder, Expected, Uploader.OnAck;
    AckEnds(s.up.value);
    assert Without(s.net, 0) == [];
  }

  lemma Popping<T>(s: System<T>, answered: bool, phase: Phase, move: Move)
    requires At(s, answered, phase) && phase in {Given, Accepting, Over} && Pops(move) && Enabled(s, move)
    ensures At(Next(s, move), answered, phase) && Left(Next(s, move), phase) == Left(s, phase) - 1
  {
    hide InOrder, Expected;
  }

  /** The phase after the move that the transfer waits for. */
  function After<T>(s: System<T>, phase: Phase): Phase {
    var none := s.list.items == [];
    match phase
    case Beginning => if s.uploads then Counting else Requesting
    case Requesting => Creating
    case Creating => Counting
    case Counting => if s.uploads then Preparing else if none then Accepting else Reading(0)
    case Preparing => if none then Given else Reading(0)
    case Reading(k) => Sending(k)
    case Sending(k) => if k + 1 < |s.list.items| then Reading(k + 1) else if s.uploads then Given else Accepting
    case Given => Accepting
    case _ => Over
  }

  lemma GoesForward<T>(s: System<T>, answered: bool, phase: Phase)
    requires At(s, answered, phase) && !phase.Over? && Possible(s, Forward(s.uploads, phase))
    ensures At(Next(s, Forward(s.uploads, phase)), answered || phase.Given?, After(s, phase))
  {
    match phase
    case Beginning => Begins(s);
    case Requesting => Requests(s);
    case Creating => Creates(s);
    case Counting => Counts(s);
    case Preparing => Prepares(s);
    case Reading(k) => Reads(s, k);
    case Sending(k) => Sends(s, k);
    case Given => Gives(s);
    case Accepting => Accepts(s, answered);
  }

  /** The count of the moves left falls; the phases in which a work item is created count for two. */
  lemma LeftFalls<T>(s: System<T>, answered: bool, phase: Phase, t: System<T>)
    requires At(s, answered, phase) && !phase.Over? && At(t, answered || phase.Given?, After(s, phase))
    requires t.list == s.list && t.uploads == s.uploads
    requires (t.up.Some? && s.up.None? ==> phase.Requesting?) && (t.down.Some? && s.down.None? ==> phase.Counting?)
    ensures Left(t, After(s, phase)) < Left(s, phase)
  {
    hide InOrder, RequestSent, Requested, CountSent, Expecting, Told, Asking, Midway, Delivered, Gone;
  }

  lemma CreatedWhen<T>(s: System<T>, answered: bool, phase: Phase)
    requires At(s, answered, phase) && !phase.Over? && Possible(s, Forward(s.uploads, phase))
    ensures var t := Next(s, Forward(s.uploads, phase));
      (t.up.Some? && s.up.None? ==> phase.Requesting?) && (t.down.Some? && s.down.None? ==> phase.Counting?)
  {
  }

  /** Every move brings the transfer nearer to its end. */
  lemma Advances<T>(s: System<T>, answered: bool, phase: Phase, move: Move) returns (next: Phase)
    requires At(s, answered, phase) && Smooth(move, answered) && Enabled(s, move)
    ensures At(Next(s, move), answered || move.Answer?, next) && Left(Next(s, move), next) < Left(s, phase)
  {
    hide At, Possible, Next;
    ForwardOnly(s, answered, phase, move);
    if Pops(move) {
      Popping(s, answered, phase, move);
      next := phase;
    } else {
      next := After(s, phase);
      GoesForward(s, answered, phase);
      CreatedWhen(s, answered, phase);
      NextKept(s, move);
      LeftFalls(s, answered, phase, Next(s, move));
    }
  }

  lemma {:induction false} Goes<T>(s: System<T>, answered: bool, phase: Phase, moves: seq<Move>) returns (end: Phase)
    requires At(s, answered, phase) && Lossless(s, moves, answered)
    ensures Legal(s, moves) && At(Run(s, moves), answered || Answered(moves), end)
    ensures Run(s, moves).list == s.list && |moves| + Left(Run(s, moves), end) <= Left(s, phase)
    decreases |moves|
  {
    hide At, Possible, Next, Smooth, Answered, Left;
    if moves == [] {
      end := phase;
      NoAnswer();
    } else {
      var next := Advances(s, answered, phase, moves[0]);
      NextKept(s, moves[0]);
      end := Goes(Next(s, moves[0]), answered || moves[0].Answer?, next, moves[1..]);
      AnsweredCons(moves);
    }
  }

  lemma NoAnswer()
    ensures !Answered([])
  {
  }

  lemma AnsweredCons(moves: seq<Move>)
    requires moves != []
    ensures Answered(moves) <==> moves[0].Answer? || Answered(moves[1..])
  {
    if Answered(moves) {
      var i :| 0 <= i < |moves| && moves[i].Answer?;
      assert i > 0 ==> moves[1..][i - 1].Answer?;
    }
    if Answered(moves[1..]) {
      var i :| 0 <= i < |moves[1..]| && moves[1..][i].Answer?;
      assert moves[i + 1].Answer?;
    }
  }

  /**
   Every run in which nothing is lost, cancelled or late and every sending succeeds has a
   bounded length, and when it can go no further both ends have succeeded with the list.
   */
  lemma LosslessCompletes<T>(uploads: bool, list: List<T>, moves: seq<Move>)
    requires InOrder(list.items) && |list.items| < WIDTH && Lossless(Initial(uploads, list), moves, false)
    ensures Legal(Initial(uploads, list), moves) && |moves| <= 2 * |list.items| + 10
    ensures var s := Run(Initial(uploads, list), moves);
      !Extendable(s, Answered(moves)) ==>
        s.deliveries == [(Success, Expected(uploads, list))] && s.reports == [(Success, Accepted)]
  {
    hide At, Lossless, Legal, Run, Answered, Extendable, Expected;
    var s := Initial(uploads, list);
    AtBeginning(uploads, list);
    var end := Goes(s, false, Beginning, moves);
    var t := Run(s, moves);
    RunKept(s, moves);
    LeftPositive(t, Answered(moves), end);
    EndsOver(t, Answered(moves), end);
  }

  lemma AtBeginning<T>(uploads: bool, list: List<T>)
    requires InOrder(list.items) && |list.items| < WIDTH
    ensures At(Initial(uploads, list), false, Beginning)
  {
  }

  /** A transfer that cannot go on is over, and complete. */
  lemma EndsOver<T>(s: System<T>, answered: bool, phase: Phase)
    requires At(s, answered, phase)
    ensures Extendable(s, answered) || Complete(s)
  {
    hide Enabled, Smooth;
    if !phase.Over? {
      ForwardEnabled(s, answered, phase);
    }
  }

  lemma LeftPositive<T>(s: System<T>, answered: bool, phase: Phase)
    requires At(s, answered, phase)
    ensures Left(s, phase) >= 0
  {
    hide Gone, Delivered, Midway, Asking, Told, CountSent, Expecting, Requested, RequestSent, InOrder;
  }
}
