/**
 List transfers whose timers do not wait: a timer fires whenever it is armed, also while a
 message is still under way, so that counts, reads and items may be doubled.
 */
module EarlyTimers {

  import opened Transfer
  import opened Download
  import opened EndToEnd
  import opened TransferOutcomes
  import opened Wrappers

  predicate Hasty<T>(s: System<T>, moves: seq<Move>)
    decreases |moves|
  {
    moves == [] || (Possible(s, moves[0]) && Hasty(Next(s, moves[0]), moves[1..]))
  }

  function HastyRun<T>(s: System<T>, moves: seq<Move>): System<T>
    requires Hasty(s, moves)
    decreases |moves|
  {
    if moves == [] then s else HastyRun(Next(s, moves[0]), moves[1..])
  }

  lemma {:induction false} LegalIsHasty<T>(s: System<T>, moves: seq<Move>)
    requires Legal(s, moves)
    ensures Hasty(s, moves) && HastyRun(s, moves) == Run(s, moves)
    decreases |moves|
  {
    hide Next, Possible;
    if moves != [] {
      LegalIsHasty(Next(s, moves[0]), moves[1..]);
    }
  }

  lemma {:induction false} HastyConcat<T>(s: System<T>, a: seq<Move>, b: seq<Move>)
    requires Hasty(s, a) && Hasty(HastyRun(s, a), b)
    ensures Hasty(s, a + b) && HastyRun(s, a + b) == HastyRun(HastyRun(s, a), b)
    decreases |a|
  {
    hide Next, Possible;
    if a == [] {
      assert a + b == b;
    } else {
      assert (a + b)[0] == a[0] && (a + b)[1..] == a[1..] + b;
      HastyConcat(Next(s, a[0]), a[1..], b);
    }
  }

  // ----- At most one item, or a refused list -----

  ghost predicate SmallUp<T>(s: System<T>, u: Uploader<T>) {
    && u.list == s.list && u.side == (if s.uploads then Ground else Robot) && Fits(u)
  }

  /** A download of at most one item has nothing until it has everything. */
  ghost predicate SmallDown<T>(s: System<T>, d: Downloader<T>) {
    var n := Announced(s.list.items);
    && d.side == (if s.uploads then Robot else Ground)
    && d.sent == [] && d.calls == [] && d.done == !d.callback && d.step in {RequestList, RequestItem}
    && (s.uploads ==> s.tag == (s.list.plan, s.list.syncId) && d.step == RequestItem && d.expected == n
                      && InOrder(s.list.items) && (d.started && n == 0 ==> d.done))
    && (d.step == RequestItem && (!s.uploads || d.armed != {}) ==> n == 1 && InOrder(s.list.items))
    && (!d.started ==> d.armed == {} && (!s.uploads ==> d.step == RequestList))
    && (!d.done ==> d.list.items == [])
    && (!d.done && d.step == RequestList ==> d.list == List("", 0, []))
    && (!d.done && d.step == RequestItem ==>
          && d.next == 0 && d.expected == n && InOrder(s.list.items)
          && (!s.uploads ==> d.list.plan == s.list.plan && d.list.syncId == s.list.syncId))
  }

  ghost predicate SmallSays<T>(s: System<T>, p: Packet<T>) {
    var items := s.list.items;
    match p
    case ToDown(Count(plan, syncId, count)) =>
      && InOrder(items) && plan == s.list.plan && syncId == s.list.syncId && count == Announced(items)
      && (!s.uploads && s.down.Some? ==> s.down.value.started)
    case ToUp(Request) => !s.uploads && s.down.Some? ==> s.down.value.started
    case ToUp(Read(_)) => Asked(s)
    case ToDown(Item(index, item)) => index < |items| && item == items[index].item && Asked(s)
    case _ => true
  }

  /** Reads and items go to a download that knows its count. */
  predicate Asked<T>(s: System<T>) {
    && InOrder(s.list.items) && Announced(s.list.items) == 1
    && (s.down.Some? ==> s.down.value.step == RequestItem)
  }

  ghost predicate SmallInv<T>(s: System<T>) {
    && (InOrder(s.list.items) ==> Announced(s.list.items) <= 1)
    && (s.up.Some? ==> SmallUp(s, s.up.value))
    && (s.down.Some? ==> SmallDown(s, s.down.value))
    && (!s.uploads && s.up.Some? && s.down.Some? ==> s.down.value.started)
    && (forall i :: 0 <= i < |s.net| ==> SmallSays(s, s.net[i]))
    && Exact(s, Expected(s.uploads, s.list))
  }

  lemma SmallInitial<T>(uploads: bool, list: List<T>)
    requires InOrder(list.items) ==> Announced(list.items) <= 1
    ensures SmallInv(Initial(uploads, list))
  {
  }

  lemma SmallWithout<T>(s: System<T>, i: nat)
    requires SmallInv(s) && i < |s.net|
    ensures SmallInv(s.(net := Without(s.net, i)))
  {
    var rest := Without(s.net, i);
    assert forall j :: 0 <= j < |rest| ==> rest[j] == s.net[if j < i then j else j + 1];
  }

  lemma SmallUpKeeps<T>(s: System<T>, u: Uploader<T>)
    requires SmallInv(s) && s.up.Some? && SmallUp(s, u.(sent := [], calls := []))
    requires |u.sent| <= 1 && forall m :: m in u.sent ==> SmallSays(s, ToDown(m))
    ensures SmallInv(s.Up(u))
  {
    var s' := s.Up(u);
    assert forall j :: 0 <= j < |s'.net| ==> s'.net[j] == if j < |s.net| then s.net[j] else ToDown(u.sent[0]);
    assert forall j :: 0 <= j < |s'.net| ==> SmallSays(s', s'.net[j]);
  }

  lemma SmallDownKeeps<T>(s: System<T>, d: Downloader<T>)
    requires SmallInv(s) && s.down.Some? && SmallDown(s, d.(sent := [], calls := []))
    requires (s.down.value.step == RequestItem ==> d.step == RequestItem) && (s.down.value.started ==> d.started)
    requires Request in d.sent ==> d.started
    requires |d.sent| <= 1 && forall m :: m in d.sent && m.Read? ==>
               InOrder(s.list.items) && Announced(s.list.items) == 1 && d.step == RequestItem
    requires forall c :: c in d.calls && c.0 == Success ==> s.Tagged(c.1) == Expected(s.uploads, s.list)
    ensures SmallInv(s.Down(d))
  {
    var s' := s.Down(d);
    assert forall j :: 0 <= j < |s'.net| ==> s'.net[j] == if j < |s.net| then s.net[j] else ToUp(d.sent[0]);
    assert forall j :: 0 <= j < |s'.net| ==> SmallSays(s', s'.net[j]);
    HasMore(s, d);
  }

  lemma SmallUpMoves<T>(s: System<T>, move: Move)
    requires SmallInv(s) && Possible(s, move) && (move.StartUp? || move.FireUp? || move.CancelUp?)
    ensures SmallInv(Next(s, move))
  {
    hide Uploader.Start, Uploader.Fired;
    var u := s.up.value;
    match move
    case StartUp(ok) => StartSteps(u, ok); SmallUpKeeps(s, u.Start(ok));
    case FireUp(timer, ok) => FireSteps(u, timer, ok); SmallUpKeeps(s, u.Fired(timer, ok));
    case CancelUp(ok) => SmallUpKeeps(s, u.Cancel(ok));
  }

  lemma SmallRead<T>(s: System<T>, index: u16, ok: bool)
    requires SmallInv(s) && s.up.Some? && Asked(s)
    ensures SmallInv(s.Up(s.up.value.OnRead(index, ok)))
  {
    hide Uploader.OnRead;
    ReadSteps(s.up.value, index, ok);
    SmallUpKeeps(s, s.up.value.OnRead(index, ok));
  }

  lemma SmallAck<T>(s: System<T>, ack: Ack)
    requires SmallInv(s) && s.up.Some?
    ensures SmallInv(s.Up(s.up.value.OnAck(ack)))
  {
    SmallUpKeeps(s, s.up.value.OnAck(ack));
  }

  lemma SmallStart<T>(s: System<T>, ok: bool)
    requires SmallInv(s) && Possible(s, StartDown(ok))
    ensures SmallInv(Next(s, StartDown(ok)))
  {
    hide InOrder;
    SmallDownKeeps(s, s.down.value.Start(ok));
  }

  lemma SmallFire<T>(s: System<T>, timer: nat, ok: bool)
    requires SmallInv(s) && Possible(s, FireDown(timer, ok))
    ensures SmallInv(Next(s, FireDown(timer, ok)))
  {
    hide InOrder, Announced, Exact, SmallUp, SmallSays;
    var d := s.down.value.(armed := s.down.value.armed - {timer});
    if d.retries >= RETRIES {
      SmallDownKeeps(s, d.Finish(Timeout));
    } else if d.step == RequestList {
      SmallSend(s, d.Arm(), Request, ok);
    } else {
      SmallSend(s, d.Arm(), Read(d.next % WIDTH), ok);
    }
  }

  lemma SmallSend<T>(s: System<T>, d: Downloader<T>, m: Message<T>, ok: bool)
    requires SmallInv(s) && s.down.Some? && SmallDown(s, d) && d.started && s.down.value.started
    requires s.down.value.step == d.step
    requires m == Request || (m.Read? && InOrder(s.list.items) && Announced(s.list.items) == 1 && d.step == RequestItem)
    ensures SmallInv(s.Down(d.AfterSend(m, ok)))
  {
    hide InOrder, Announced, Exact, SmallUp, SmallSays;
    SmallDownKeeps(s, d.AfterSend(m, ok));
  }

  lemma SmallCancel<T>(s: System<T>, ok: bool)
    requires SmallInv(s) && Possible(s, CancelDown(ok))
    ensures SmallInv(Next(s, CancelDown(ok)))
  {
    hide InOrder;
    SmallDownKeeps(s.(cut := s.cut || s.deliveries == []), s.down.value.Cancel(ok));
  }

  lemma SmallItem<T>(s: System<T>, index: u16, item: T, ok: bool)
    requires SmallInv(s) && s.down.Some? && SmallSays(s, ToDown(Item(index, item)))
    ensures SmallInv(s.Down(s.down.value.OnItem(index, item, ok)))
  {
    var d, items := s.down.value, s.list.items;
    Counted(items);
    if !d.done {
      assert |items| == 1 && Entry(index, item) == items[0];
      assert items[..1] == [] + [Entry(index, item)];
    }
    hide InOrder;
    SmallDownKeeps(s, d.OnItem(index, item, ok));
  }

  lemma SmallCount<T>(s: System<T>, plan: string, syncId: nat, count: u16, ok: bool)
    requires SmallInv(s) && s.down.Some? && !s.uploads && SmallSays(s, ToDown(Count(plan, syncId, count)))
    ensures SmallInv(s.Down(s.down.value.OnCount(plan, syncId, count, ok)))
  {
    hide InOrder;
    SmallDownKeeps(s, s.down.value.OnCount(plan, syncId, count, ok));
  }

  /** A request makes the robot upload, a count makes it download. */
  lemma SmallCreates<T>(s: System<T>, p: Packet<T>)
    requires SmallInv(s) && SmallSays(s, p)
    requires (p == ToUp(Request) && !s.uploads && s.up.None?) || (p.ToDown? && p.m.Count? && s.uploads && s.down.None?)
    ensures SmallInv(s.Deliver(p, true))
  {
    var s' := s.Deliver(p, true);
    assert forall i :: 0 <= i < |s.net| ==> SmallSays(s', s.net[i]);
  }

  lemma SmallReceive<T>(s: System<T>, i: nat, ok: bool)
    requires SmallInv(s) && i < |s.net|
    ensures SmallInv(Next(s, Receive(i, ok)))
  {
    var p, r := s.net[i], s.(net := Without(s.net, i));
    SmallWithout(s, i);
    assert SmallSays(r, p);
    hide SmallInv, InOrder, Announced;
    match p
    case ToUp(Request) => if !s.uploads && s.up.None? { SmallCreates(r, p); }
    case ToUp(Read(index)) => if s.up.Some? { SmallRead(r, index, ok); }
    case ToUp(Acknowledge(ack)) => if s.up.Some? { SmallAck(r, ack); }
    case ToDown(Count(plan, syncId, count)) =>
      if s.uploads && s.down.None? { SmallCreates(r, p); }
      if !s.uploads && s.down.Some? { SmallCount(r, plan, syncId, count, ok); }
    case ToDown(Item(index, item)) => if s.down.Some? { SmallItem(r, index, item, ok); }
    case _ =>
  }

  lemma SmallPop<T>(s: System<T>, move: Move)
    requires SmallInv(s) && Possible(s, move) && (move == PopUp || move == PopDown)
    ensures SmallInv(Next(s, move))
  {
    hide InOrder, Announced;
  }

  lemma SmallAnswer<T>(s: System<T>, ack: Ack)
    requires SmallInv(s)
    ensures SmallInv(s.(net := s.net + [ToUp(Acknowledge(ack))]))
  {
    hide InOrder, Announced;
  }

  lemma SmallKeeps<T>(s: System<T>, move: Move)
    requires SmallInv(s) && Possible(s, move)
    ensures SmallInv(Next(s, move))
  {
    hide SmallInv;
    match move
    case StartUp(_) => SmallUpMoves(s, move);
    case FireUp(_, _) => SmallUpMoves(s, move);
    case CancelUp(_) => SmallUpMoves(s, move);
    case StartDown(ok) => SmallStart(s, ok);
    case FireDown(timer, ok) => SmallFire(s, timer, ok);
    case CancelDown(ok) => SmallCancel(s, ok);
    case Receive(i, ok) => SmallReceive(s, i, ok);
    case Lose(i) => SmallWithout(s, i);
    case PopUp => SmallPop(s, move);
    case PopDown => SmallPop(s, move);
    case Answer(ack) => SmallAnswer(s, ack);
  }

  lemma {:induction false} SmallRun<T>(s: System<T>, moves: seq<Move>)
    requires SmallInv(s) && Hasty(s, moves)
    ensures SmallInv(HastyRun(s, moves)) && HastyRun(s, moves).list == s.list && HastyRun(s, moves).uploads == s.uploads
    decreases |moves|
  {
    hide SmallInv;
    if moves != [] {
      NextKept(s, moves[0]);
      SmallKeeps(s, moves[0]);
      hide Next, Possible;
      SmallRun(Next(s, moves[0]), moves[1..]);
    }
  }

  // ----- Two items or more -----

  /** Item `k` is to arrive, of a list that has one more behind it. */
  ghost predicate Pending<T>(s: System<T>, k: nat)
    requires k + 2 == |s.list.items|
  {
    && s.deliveries == [] && s.up.Some? && s.down.Some?
    && var u, d := s.up.value, s.down.value;
      && u.list == s.list && u.readable && u.sent == [] && u.calls == []
      && d.listening && d.callback && d.next == k && d.expected == |s.list.items| && d.list.items == s.list.items[..k]
      && d.side == (if s.uploads then Robot else Ground) && d.sent == [] && d.calls == []
  }

  lemma FireEarly<T>(s: System<T>, k: nat)
    requires k + 2 == |s.list.items| < WIDTH && Asking(s, k)
    ensures s.down.Some?
    ensures var move := FireDown(s.down.value.cookie, true);
      && Possible(s, move)
      && (var t := Next(s, move);
          && t.list == s.list && t.uploads == s.uploads
          && Pending(t, k) && t.up.value.next == k && t.net == [ToUp(Read(k)), ToUp(Read(k))])
  {
  }

  lemma FirstRead<T>(s: System<T>, k: nat)
    requires k + 2 == |s.list.items| < WIDTH && Pending(s, k)
    requires s.up.value.next == k && s.net == [ToUp(Read(k)), ToUp(Read(k))]
    ensures var t := Next(s, Receive(0, true));
      && t.list == s.list && t.uploads == s.uploads && Pending(t, k)
      && t.up.value.next == k + 1 && t.up.value.retries == 1
      && t.net == [ToUp(Read(k)), ToDown(Item(k, s.list.items[k].item))]
  {
    assert Without(s.net, 0) == [ToUp(Read(k))];
  }

  lemma SecondRead<T>(s: System<T>, k: nat)
    requires k + 2 == |s.list.items| < WIDTH && Pending(s, k)
    requires s.up.value.next == k + 1 && s.up.value.retries == 1
    requires s.net == [ToUp(Read(k)), ToDown(Item(k, s.list.items[k].item))]
    ensures var t := Next(s, Receive(0, true));
      var item := ToDown(Item(k, s.list.items[k].item));
      && t.list == s.list && t.uploads == s.uploads && Pending(t, k) && t.net == [item, item]
  {
    assert Without(s.net, 0) == [ToDown(Item(k, s.list.items[k].item))];
  }

  lemma FirstItem<T>(s: System<T>, k: nat)
    requires InOrder(s.list.items) && k + 2 == |s.list.items| < WIDTH && Pending(s, k)
    requires s.net == [ToDown(Item(k, s.list.items[k].item)), ToDown(Item(k, s.list.items[k].item))]
    ensures var t := Next(s, Receive(0, true)); AlmostDone(t, k) && t.list == s.list && t.uploads == s.uploads
  {
    var item := ToDown(Item(k, s.list.items[k].item));
    assert Without(s.net, 0) == [item] && Entry(k, s.list.items[k].item) == s.list.items[k];
  }

  /** The download waits for the last item, and another copy of the one before is under way. */
  ghost predicate AlmostDone<T>(s: System<T>, k: nat)
    requires k + 2 == |s.list.items| < WIDTH
  {
    && s.deliveries == [] && s.net != [] && s.net[0] == ToDown(Item(k, s.list.items[k].item)) && s.down.Some?
    && var d := s.down.value;
      && d.listening && d.callback && d.next == k + 1 && d.expected == |s.list.items| && d.sent == [] && d.calls == []
      && d.list.items == s.list.items[..k + 1]
  }

  /** The second copy is taken for the last item. */
  lemma SecondItem<T>(s: System<T>, k: nat)
    requires InOrder(s.list.items) && k + 2 == |s.list.items| < WIDTH && AlmostDone(s, k)
    ensures Doubled(Next(s, Receive(0, true)), s.list, k)
  {
    assert Entry(k, s.list.items[k].item) == s.list.items[k];
    LastTaken(s.down.value, k, s.list.items[k].item);
    hide Downloader.OnItem;
  }

  ghost predicate Doubled<T>(s: System<T>, list: List<T>, k: nat)
    requires k + 2 == |list.items|
  {
    && |s.deliveries| == 1 && s.deliveries[0].0 == Success
    && s.deliveries[0].1.items == list.items[..k + 1] + [list.items[k]]
  }

  lemma HastyCons<T>(s: System<T>, move: Move, rest: seq<Move>)
    requires Possible(s, move) && Hasty(Next(s, move), rest)
    ensures Hasty(s, [move] + rest) && HastyRun(s, [move] + rest) == HastyRun(Next(s, move), rest)
  {
    hide Next, Possible;
    assert ([move] + rest)[1..] == rest;
  }

  /** From a read under way: its timer fires, both reads are answered, and both items taken. */
  function Doubling(cookie: nat): seq<Move> {
    [FireDown(cookie, true), Receive(0, true), Receive(0, true), Receive(0, true), Receive(0, true)]
  }

  lemma ReadsAnswered<T>(s: System<T>, k: nat)
    requires k + 2 == |s.list.items| < WIDTH && Pending(s, k)
    requires s.up.value.next == k && s.net == [ToUp(Read(k)), ToUp(Read(k))]
    ensures var moves := [Receive(0, true), Receive(0, true)];
      && Hasty(s, moves)
      && (var t, item := HastyRun(s, moves), ToDown(Item(k, s.list.items[k].item));
          t.list == s.list && t.uploads == s.uploads && Pending(t, k) && t.net == [item, item])
  {
    FirstRead(s, k);
    var s1 := Next(s, Receive(0, true));
    SecondRead(s1, k);
    hide Next, Pending;
    HastyTwo(s, Receive(0, true), Receive(0, true));
  }

  lemma ItemsTaken<T>(s: System<T>, k: nat)
    requires InOrder(s.list.items) && k + 2 == |s.list.items| < WIDTH && Pending(s, k)
    requires s.net == [ToDown(Item(k, s.list.items[k].item)), ToDown(Item(k, s.list.items[k].item))]
    ensures var moves := [Receive(0, true), Receive(0, true)];
      Hasty(s, moves) && Doubled(HastyRun(s, moves), s.list, k)
  {
    FirstItem(s, k);
    var s1 := Next(s, Receive(0, true));
    SecondItem(s1, k);
    hide Next, Pending, Doubled;
    HastyTwo(s, Receive(0, true), Receive(0, true));
  }

  lemma HastyTwo<T>(s: System<T>, move: Move, then_: Move)
    requires Possible(s, move) && Possible(Next(s, move), then_)
    ensures Hasty(s, [move, then_]) && HastyRun(s, [move, then_]) == Next(Next(s, move), then_)
  {
    hide Next, Possible;
    HastyCons(Next(s, move), then_, []);
    HastyCons(s, move, [then_] + []);
    assert [move, then_] == [move] + ([then_] + []);
  }

  lemma DoublingDelivers<T>(s: System<T>, k: nat)
    requires InOrder(s.list.items) && k + 2 == |s.list.items| < WIDTH && Asking(s, k)
    ensures s.down.Some? && Hasty(s, Doubling(s.down.value.cookie))
    ensures Doubled(HastyRun(s, Doubling(s.down.value.cookie)), s.list, k)
  {
    hide Next, InOrder, Pending, Asking, Doubled, Possible;
    FireEarly(s, k);
    var fire := FireDown(s.down.value.cookie, true);
    var both := [Receive(0, true), Receive(0, true)];
    var s1 := Next(s, fire);
    ReadsAnswered(s1, k);
    ItemsTaken(HastyRun(s1, both), k);
    HastyConcat(s1, both, both);
    HastyCons(s, fire, both + both);
    assert Doubling(s.down.value.cookie) == [fire] + (both + both);
  }

  /** A run in which the last item but one is doubled and taken for the last. */
  lemma EarlyTimer<T>(uploads: bool, list: List<T>) returns (moves: seq<Move>)
    requires InOrder(list.items) && 2 <= |list.items| < WIDTH
    ensures Hasty(Initial(uploads, list), moves)
    ensures !Exact(HastyRun(Initial(uploads, list), moves), Expected(uploads, list))
  {
    hide Next, Possible, Asking, Delivered, Opening;
    var k := |list.items| - 2;
    var s0 := Initial(uploads, list);
    if uploads { OpeningUp(list); } else { OpeningDown(list); }
    var start := Opening(uploads) + Exchanges(k);
    var s1 := Run(s0, Opening(uploads));
    if k > 0 {
      ExchangesDeliver(s1, k);
    } else {
      assert Exchanges(0) == [] && Run(s1, []) == s1;
    }
    LegalConcat(s0, Opening(uploads), Exchanges(k));
    LegalIsHasty(s0, start);
    var s2 := Run(s0, start);
    DoublingDelivers(s2, k);
    moves := start + Doubling(s2.down.value.cookie);
    HastyConcat(s0, start, Doubling(s2.down.value.cookie));
    var v := HastyRun(s0, moves);
    NotTheList(list, uploads, v.deliveries[0].1);
    assert v.deliveries[0] in v.deliveries;
  }

  lemma NotTheList<T>(list: List<T>, uploads: bool, got: List<T>)
    requires InOrder(list.items) && 2 <= |list.items| < WIDTH
    requires var k := |list.items| - 2; got.items == list.items[..k + 1] + [list.items[k]]
    ensures got != Expected(uploads, list)
  {
    var k := |list.items| - 2;
    assert got.items[k + 1].index == k && Expected(uploads, list).items[k + 1].index == k + 1;
  }

  /**
   With timers that do not wait, what is delivered is still what is expected in every run,
   exactly for the lists of which at most one item is announced or which are refused.
   */
  lemma EarlyTimersIff<T>(uploads: bool, list: List<T>)
    ensures var s := Initial(uploads, list);
      (InOrder(list.items) ==> Announced(list.items) <= 1) <==>
      (forall moves :: Hasty(s, moves) ==> Exact(HastyRun(s, moves), Expected(uploads, list)))
  {
    var s := Initial(uploads, list);
    if InOrder(list.items) ==> Announced(list.items) <= 1 {
      SmallInitial(uploads, list);
      forall moves | Hasty(s, moves) ensures Exact(HastyRun(s, moves), Expected(uploads, list)) {
        SmallRun(s, moves);
      }
    } else {
      Counted(list.items);
      var moves := EarlyTimer(uploads, list);
    }
  }
}
