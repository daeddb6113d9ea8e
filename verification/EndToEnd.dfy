/**
 Both ends of a list transfer with the network between them. Messages may be lost and
 acknowledgements may overtake them; a timer fires only while no count, request, read
 or item is under way and no work item waits to be started.
 */
module EndToEnd {

  import opened Transfer
  import opened Download
  import opened Wrappers

  datatype Packet<T> = ToUp(m: Message<T>) | ToDown(m: Message<T>)

  /**
   `uploads` says which way the list goes: up from the ground station to the robot, or
   down from the robot. `tag` is what the robot keeps of the count message that made it
   download; `asked` counts the read messages of the present download; `cut` says whether
   a download was cancelled before anything was delivered. The sent messages and calls of
   the work items have moved to `net`, `reports` and `deliveries`.
   */
  datatype System<T> = System(
    uploads: bool, list: List<T>, up: Option<Uploader<T>>, down: Option<Downloader<T>>, tag: (string, nat),
    net: seq<Packet<T>>, asked: nat, cut: bool, reports: seq<(Result, Ack)>, deliveries: seq<(Result, List<T>)>)
  {
    function Up(u: Uploader<T>): (s: System<T>) {
      this.(up := Some(u.(sent := [], calls := [])),
            net := net + seq(|u.sent|, i requires 0 <= i < |u.sent| => ToDown(u.sent[i])),
            reports := reports + u.calls)
    }

    function Down(d: Downloader<T>): (s: System<T>) {
      this.(down := Some(d.(sent := [], calls := [])),
            net := net + seq(|d.sent|, i requires 0 <= i < |d.sent| => ToUp(d.sent[i])),
            asked := asked + if |d.sent| == 1 && d.sent[0].Read? then 1 else 0,
            deliveries := deliveries +
              seq(|d.calls|, i requires 0 <= i < |d.calls| => (d.calls[i].0, Tagged(d.calls[i].1))))
    }

    /** The robot's plugin puts the plan and sync id of the count message into the list. */
    function Tagged(l: List<T>): List<T> {
      if uploads then l.(plan := tag.0, syncId := tag.1) else l
    }

    function Deliver(p: Packet<T>, ok: bool): System<T> {
      match p
      case ToUp(Request) =>
        if uploads || up.Some? then this else this.(up := Some(NewUploader(Robot, list)))
      case ToUp(Read(index)) => if up.None? then this else Up(up.value.OnRead(index, ok))
      case ToUp(Acknowledge(ack)) => if up.None? then this else Up(up.value.OnAck(ack))
      case ToDown(Count(plan, syncId, count)) =>
        if !uploads then if down.None? then this else Down(down.value.OnCount(plan, syncId, count, ok))
        else if down.Some? then this
        else this.(down := Some(NewDownloader(Robot, count)), tag := (plan, syncId), asked := 0)
      case ToDown(Item(index, item)) => if down.None? then this else Down(down.value.OnItem(index, item, ok))
      case _ => this
    }

    /** Nothing but acknowledgements is under way, and no work item waits to be started. */
    predicate Quiet() {
      Calm(net) && (up.Some? ==> up.value.started) && (down.Some? ==> down.value.started)
    }
  }

  predicate Calm<T>(net: seq<Packet<T>>) {
    forall i :: 0 <= i < |net| ==> net[i].m.Acknowledge?
  }

  datatype Move =
    | StartUp(ok: bool) | StartDown(ok: bool)
    | Receive(i: nat, ok: bool) | Lose(i: nat)
    | FireUp(timer: nat, ok: bool) | FireDown(timer: nat, ok: bool)
    | CancelUp(ok: bool) | CancelDown(ok: bool)
    | PopUp | PopDown
    | Answer(ack: Ack)

  /** The robot's application answers an upload, with `Accepted` only once it has the list. */
  predicate Possible<T>(s: System<T>, move: Move) {
    match move
    case StartUp(_) => s.up.Some? && !s.up.value.started
    case StartDown(_) => s.down.Some? && !s.down.value.started
    case Receive(i, _) => i < |s.net|
    case Lose(i) => i < |s.net|
    case FireUp(timer, _) => s.up.Some? && timer in s.up.value.armed
    case FireDown(timer, _) => s.down.Some? && timer in s.down.value.armed
    case CancelUp(_) => s.up.Some?
    case CancelDown(_) => s.down.Some?
    case PopUp => s.up.Some? && s.up.value.started && s.up.value.done
    case PopDown => s.down.Some? && s.down.value.started && s.down.value.done
    case Answer(ack) => s.uploads && (ack == Accepted ==> Has(s.deliveries, Success))
  }

  /** A possible move whose timer, if it is one, has waited for the network to be quiet. */
  predicate Enabled<T>(s: System<T>, move: Move) {
    Possible(s, move) && (move.FireUp? || move.FireDown? ==> s.Quiet())
  }

  predicate Has<T>(deliveries: seq<(Result, List<T>)>, result: Result) {
    exists i :: 0 <= i < |deliveries| && deliveries[i].0 == result
  }

  function Next<T>(s: System<T>, move: Move): System<T>
    requires Possible(s, move)
  {
    match move
    case StartUp(ok) => s.Up(s.up.value.Start(ok))
    case StartDown(ok) => s.Down(s.down.value.Start(ok))
    case Receive(i, ok) => s.(net := Without(s.net, i)).Deliver(s.net[i], ok)
    case Lose(i) => s.(net := Without(s.net, i))
    case FireUp(timer, ok) => s.Up(s.up.value.Fired(timer, ok))
    case FireDown(timer, ok) => s.Down(s.down.value.Fired(timer, ok))
    case CancelUp(ok) => s.Up(s.up.value.Cancel(ok))
    case CancelDown(ok) => s.(cut := s.cut || s.deliveries == []).Down(s.down.value.Cancel(ok))
    case PopUp => s.(up := None)
    case PopDown => s.(down := None)
    case Answer(ack) => s.(net := s.net + [ToUp(Acknowledge(ack))])
  }

  function Without<P>(net: seq<P>, i: nat): seq<P>
    requires i < |net|
  {
    net[..i] + net[i + 1..]
  }

  /** A ground station that is asked to upload a list, or to download the robot's. */
  function Initial<T>(uploads: bool, list: List<T>): System<T> {
    System(uploads, list, if uploads then Some(NewUploader(Ground, list)) else None,
           if uploads then None else Some(NewDownloader(Ground, 0)), ("", 0), [], 0, false, [], [])
  }

  predicate Legal<T>(s: System<T>, moves: seq<Move>)
    decreases |moves|
  {
    moves == [] || (Enabled(s, moves[0]) && Legal(Next(s, moves[0]), moves[1..]))
  }

  function Run<T>(s: System<T>, moves: seq<Move>): System<T>
    requires Legal(s, moves)
    decreases |moves|
  {
    if moves == [] then s else Run(Next(s, moves[0]), moves[1..])
  }

  // ----- What every reachable state keeps -----

  /** The number of items that the sixteen bits of a count message announce. */
  function Announced<T>(items: seq<Entry<T>>): (n: nat)
    ensures n <= |items| && n < WIDTH
  {
    |items| % WIDTH
  }

  /** What a successful transfer delivers; a download that is told of no items stores no plan. */
  function Expected<T>(uploads: bool, list: List<T>): List<T> {
    var n := Announced(list.items);
    if !uploads && n == 0 then List("", 0, []) else list.(items := list.items[..n])
  }

  /** At most one message that is not an acknowledgement. */
  predicate Lone<T>(net: seq<Packet<T>>) {
    forall i, j :: 0 <= i < j < |net| ==> net[i].m.Acknowledge? || net[j].m.Acknowledge?
  }

  predicate Waiting<T>(s: System<T>) {
    (s.up.Some? && !s.up.value.started) || (s.down.Some? && !s.down.value.started)
  }

  predicate Tokens<T>(s: System<T>) {
    && Lone(s.net)
    && (Waiting(s) ==> Calm(s.net))
    && (s.up.Some? && !s.up.value.started && s.down.Some? ==>
          s.down.value.started && (!s.uploads ==> s.down.value.step == RequestList))
  }

  /** Whoever may acknowledge has the list, or was cut short. */
  predicate Finished<T>(s: System<T>) {
    Has(s.deliveries, Success) || (!s.uploads && s.cut)
  }

  /** A download that has ended by itself takes no more messages. */
  predicate AtRest<T>(s: System<T>, d: Downloader<T>) {
    d.done && !s.uploads && !s.cut ==>
      Calm(s.net) && d.started && d.armed == {} && (s.up.Some? ==> s.up.value.started)
  }

  ghost predicate UpFits<T>(s: System<T>, u: Uploader<T>) {
    && u.list == s.list && u.side == (if s.uploads then Ground else Robot)
    && u.sent == [] && u.calls == []
    && u.next <= |u.list.items|
    && (u.side == Ground && u.armed != {} ==> InOrder(u.list.items))
    && (u.ack == Accepted ==> Finished(s))
  }

  /** A download that has asked for items has the first ones of the list. */
  ghost predicate DownFits<T>(s: System<T>, d: Downloader<T>) {
    var items, n := s.list.items, Announced(s.list.items);
    && d.side == (if s.uploads then Robot else Ground)
    && d.sent == [] && d.calls == [] && d.retries <= RETRIES && d.done == !d.callback
    && (!s.uploads ==> d.callback == (s.deliveries == []))
    && (s.uploads ==> s.tag == (s.list.plan, s.list.syncId) && d.step == RequestItem && d.expected == n)
    && (!d.started ==> d.armed == {} && d.next == 0 && d.retries == 0 && s.asked == 0 && d.list == List("", 0, [])
                       && (!s.uploads ==> d.step == RequestList))
    && (d.started || d.side == Ground ==> d.listening)
    && (s.uploads ==> InOrder(items))
    && d.step in {RequestList, RequestItem} && d.armed <= {d.cookie}
    && (d.step == RequestList ==> d.next == 0 && d.list == List("", 0, []) && s.asked == 0)
    && (d.started && d.step == RequestItem ==>
          && InOrder(items) && d.expected == n
          && (!s.uploads ==> d.list.plan == s.list.plan && d.list.syncId == s.list.syncId)
          && (if Arrived(s, d) then d.done && d.armed == {} else
                d.next < n && d.list.items == items[..d.next])
          && s.asked <= 4 * |d.list.items| + if Arrived(s, d) then 0 else d.retries)
  }

  predicate Arrived<T>(s: System<T>, d: Downloader<T>) {
    |d.list.items| == Announced(s.list.items)
  }

  /** Someone who has not been served waits for the messages. */
  predicate Active<T>(s: System<T>) {
    !s.uploads && !s.cut ==> s.down.Some? && !s.down.value.done
  }

  /** What each message says. */
  ghost predicate Says<T>(s: System<T>, p: Packet<T>) {
    var items := s.list.items;
    match p
    case ToUp(Request) => s.down.Some? ==> s.down.value.step == RequestList
    case ToUp(Read(index)) => s.down.Some? ==> Asks(s, s.down.value, index)
    case ToUp(Acknowledge(ack)) => ack == Accepted ==> Finished(s)
    case ToDown(Count(plan, syncId, count)) =>
      && InOrder(items) && plan == s.list.plan && syncId == s.list.syncId && count == Announced(items)
      && (!s.uploads && s.down.Some? ==> s.down.value.step == RequestList)
    case ToDown(Item(index, item)) =>
      && index < |items| && item == items[index].item
      && (s.down.Some? ==> Asks(s, s.down.value, index))
    case ToDown(Acknowledge(_)) => true
    case _ => false
  }

  predicate Asks<T>(s: System<T>, d: Downloader<T>, index: nat) {
    d.started && d.step == RequestItem && !Arrived(s, d) && index == d.next
  }

  ghost predicate Inv<T>(s: System<T>) {
    Coherent(s) && (!s.uploads && s.cut ==> s.deliveries != [])
  }

  /** The invariant but for the moment between the mark of a cut and its report. */
  ghost predicate Coherent<T>(s: System<T>) {
    && Tokens(s)
    && (s.up.Some? ==> UpFits(s, s.up.value))
    && (s.down.Some? ==> DownFits(s, s.down.value))
    && (forall i :: 0 <= i < |s.net| ==> Says(s, s.net[i]))
    && (!s.uploads && s.down.None? ==> s.deliveries != [])
    && (!s.uploads ==> |s.deliveries| <= 1)
    && (!s.uploads && s.cut ==> !Has(s.deliveries, Success))
    && s.asked <= 4 * Announced(s.list.items)
    && (s.down.Some? ==> AtRest(s, s.down.value))
    && (!s.uploads && s.down.None? && !s.cut ==> Calm(s.net) && (s.up.Some? ==> s.up.value.started))
    && (s.uploads && s.deliveries != [] ==> InOrder(s.list.items))
    && (Has(s.deliveries, Success) ==> InOrder(s.list.items))
    && (forall d :: d in s.deliveries && d.0 == Success ==> d.1 == Expected(s.uploads, s.list))
    && (forall r :: r in s.reports && r.1 == Accepted ==> Finished(s))
  }

  lemma InitialInv<T>(uploads: bool, list: List<T>)
    ensures Inv(Initial(uploads, list))
  {
  }

  /** A message leaves the network. */
  lemma WithoutKeeps<T>(s: System<T>, i: nat)
    requires Inv(s) && i < |s.net|
    ensures Inv(s.(net := Without(s.net, i)))
    ensures !s.net[i].m.Acknowledge? ==> Calm(Without(s.net, i)) && Active(s)
  {
    var rest := Without(s.net, i);
    WithoutCalm(s.net, i);
    hide Lone, Calm;
    assert forall j :: 0 <= j < |rest| ==> rest[j] == s.net[if j < i then j else j + 1];
    forall j | 0 <= j < |rest| ensures Says(s.(net := rest), rest[j]) {
      SaysSame(s, rest, rest[j]);
    }
    hide Says;
  }

  lemma WithoutCalm<T>(net: seq<Packet<T>>, i: nat)
    requires Lone(net) && i < |net|
    ensures Lone(Without(net, i)) && (Calm(net) || !net[i].m.Acknowledge? ==> Calm(Without(net, i)))
  {
    var rest := Without(net, i);
    assert forall j :: 0 <= j < |rest| ==> rest[j] == net[if j < i then j else j + 1];
  }

  lemma SaysSame<T>(s: System<T>, net: seq<Packet<T>>, p: Packet<T>)
    ensures Says(s.(net := net), p) == Says(s, p)
  {
    hide InOrder;
  }

  /** The upload's work item takes a step. */
  lemma UpKeeps<T>(s: System<T>, u: Uploader<T>)
    requires Inv(s) && s.up.Some? && (s.up.value.started ==> u.started)
    requires UpFits(s, u.(sent := [], calls := []))
    requires |u.sent| <= 1
    requires forall m :: m in u.sent ==> Says(s, ToDown(m))
    requires forall m :: m in u.sent && !m.Acknowledge? ==>
               Calm(s.net) && u.started && (s.down.Some? ==> s.down.value.started) && Active(s)
    requires forall c :: c in u.calls && c.1 == Accepted ==> Finished(s)
    ensures Inv(s.Up(u))
  {
    var s' := s.Up(u);
    UpSays(s, u);
    assert Tokens(s') by {
      hide Says, DownFits, UpFits, Has;
      assert forall j :: 0 <= j < |s'.net| ==> s'.net[j] == if j < |s.net| then s.net[j] else ToDown(u.sent[0]);
    }
    hide Says, Lone, Tokens, Has, InOrder;
  }

  lemma UpSays<T>(s: System<T>, u: Uploader<T>)
    requires Coherent(s) && |u.sent| <= 1
    requires forall m :: m in u.sent ==> Says(s, ToDown(m))
    ensures forall j :: 0 <= j < |s.Up(u).net| ==> Says(s.Up(u), s.Up(u).net[j])
  {
    hide Lone, Calm, Has, UpFits, DownFits, InOrder;
    var net := s.Up(u).net;
    forall j | 0 <= j < |net| ensures Says(s.Up(u), net[j]) {
      assert net[j] == if j < |s.net| then s.net[j] else ToDown(u.sent[0]);
      assert Says(s, net[j]);
    }
  }

  /** The download's work item takes a step. */
  lemma DownKeeps<T>(s: System<T>, d: Downloader<T>)
    requires Coherent(s) && s.down.Some? && (s.down.value.started ==> d.started)
    requires |d.sent| <= 1 && |d.calls| <= (if s.uploads || s.deliveries == [] then 1 else 0)
    requires DownFits(s.Down(d), d.(sent := [], calls := [])) && AtRest(s.Down(d), d)
    requires forall p :: p in s.net ==> Says(s.Down(d), p)
    requires forall m :: m in d.sent ==> Says(s.Down(d), ToUp(m))
    requires forall m :: m in d.sent && !m.Acknowledge? ==>
               Calm(s.net) && d.started && (s.up.Some? ==> s.up.value.started)
    requires s.up.Some? && !s.up.value.started ==> d.started && (!s.uploads ==> d.step == RequestList)
    requires forall c :: c in d.calls && c.0 == Success ==>
               s.Tagged(c.1) == Expected(s.uploads, s.list) && InOrder(s.list.items)
    requires Inv(s) || (d.calls != [] && forall c :: c in d.calls ==> c.0 != Success)
    ensures Inv(s.Down(d))
  {
    var s' := s.Down(d);
    assert forall j :: 0 <= j < |s'.net| ==> s'.net[j] == if j < |s.net| then s.net[j] else ToUp(d.sent[0]);
    assert forall j :: 0 <= j < |s'.net| ==> Says(s', s'.net[j]) by {
      hide Says, DownFits, UpFits, Tokens, Has;
    }
    assert Tokens(s') by {
      hide Says, DownFits, UpFits, Has;
    }
    HasMore(s, d);
    hide Says, Lone, Calm, Tokens, Has;
  }

  lemma HasMore<T>(s: System<T>, d: Downloader<T>)
    ensures Finished(s) ==> Finished(s.Down(d))
    ensures forall x :: x in s.Down(d).deliveries ==>
              x in s.deliveries || exists c :: c in d.calls && x == (c.0, s.Tagged(c.1))
    ensures Has(s.Down(d).deliveries, Success) <==>
            Has(s.deliveries, Success) || exists c :: c in d.calls && c.0 == Success
  {
    var s' := s.Down(d);
    if Has(s.deliveries, Success) {
      var i :| 0 <= i < |s.deliveries| && s.deliveries[i].0 == Success;
      assert s'.deliveries[i] == s.deliveries[i];
    }
    forall i | 0 <= i < |d.calls| && d.calls[i].0 == Success ensures Has(s'.deliveries, Success) {
      assert s'.deliveries[|s.deliveries| + i].0 == Success;
    }
    if Has(s'.deliveries, Success) {
      var i :| 0 <= i < |s'.deliveries| && s'.deliveries[i].0 == Success;
      if i < |s.deliveries| {
        assert s.deliveries[i].0 == Success;
      } else {
        assert d.calls[i - |s.deliveries|] in d.calls;
      }
    }
  }

  lemma Counted<T>(items: seq<Entry<T>>)
    ensures InOrder(items) ==> |items| <= WIDTH
  {
    if InOrder(items) && items != [] {
      assert items[|items| - 1].index == |items| - 1;
    }
  }

  // ----- One lemma for each move -----

  /** A step of an upload that says `m` or nothing. */
  ghost predicate Steps<T>(u: Uploader<T>, v: Uploader<T>, m: Message<T>) {
    && v.list == u.list && v.side == u.side && v.next <= |u.list.items|
    && (v.side == Ground && v.armed != {} ==> InOrder(v.list.items))
    && (v.sent == [] || v.sent == [m])
    && (forall c :: c in v.calls ==> c.1 == v.ack)
    && (u.started ==> v.started)
  }

  ghost predicate Fits<T>(u: Uploader<T>) {
    && u.sent == [] && u.calls == [] && u.next <= |u.list.items|
    && (u.side == Ground && u.armed != {} ==> InOrder(u.list.items))
  }

  function CountOf<T>(list: List<T>): Message<T> {
    Count(list.plan, list.syncId, Announced(list.items))
  }

  lemma SendSteps<T>(u: Uploader<T>, m: Message<T>, ok: bool)
    requires Fits(u)
    ensures Steps(u, u.AfterSend(m, ok), m) && u.AfterSend(m, ok).ack == u.ack
    ensures u.AfterSend(m, ok).started == u.started
  {
    hide InOrder;
  }

  lemma StartSteps<T>(u: Uploader<T>, ok: bool)
    requires Fits(u)
    ensures Steps(u, u.Start(ok), CountOf(u.list))
    ensures u.Start(ok).started && u.Start(ok).ack == u.ack && (u.Start(ok).sent != [] ==> InOrder(u.list.items))
  {
    hide InOrder, Uploader.AfterSend;
    NoneInOrder(u.list.items);
    if u.side == Ground {
      if InOrder(u.list.items) {
        SendSteps(u.(started := true, retries := 0, step := SendCount, next := 0).Arm(), CountOf(u.list), ok);
      }
    } else {
      var v := u.(started := true, ackable := true, retries := 0, step := SendCount).Arm();
      SendSteps(v, CountOf(u.list), ok);
      SendSteps(v.(next := 0, readable := true), CountOf(u.list), ok);
    }
  }

  lemma NoneInOrder<T>(items: seq<Entry<T>>)
    ensures items == [] ==> InOrder(items)
  {
  }

  lemma ReadSteps<T>(u: Uploader<T>, index: u16, ok: bool)
    requires Fits(u)
    ensures var v, items := u.OnRead(index, ok), u.list.items;
      && v.ack == u.ack
      && if index < |items| then Steps(u, v, Item(index, items[index].item))
         else v.sent == [] && Steps(u, v, Read(index))
  {
    hide InOrder, Uploader.AfterSend, Uploader.SendingItem, Steps;
    var v := u.(step := SendItems, retries := if u.next > index then u.retries else 0, next := index);
    if u.readable && index <= u.next && (index == u.next || u.retries < RETRIES) {
      SendingSteps(u, v, ok);
    } else {
      NoReadSteps(u, index, ok);
    }
  }

  lemma SendingSteps<T>(u: Uploader<T>, v: Uploader<T>, ok: bool)
    requires Fits(u) && v == u.(step := SendItems, retries := v.retries, next := v.next) && v.next <= |u.list.items|
    requires v.next < WIDTH
    ensures var w, items := v.SendingItem(ok), u.list.items;
      && w.ack == u.ack
      && if v.next < |items| then Steps(u, w, Item(v.next, items[v.next].item))
         else w.sent == [] && Steps(u, w, Read(v.next))
  {
    hide InOrder, Uploader.AfterSend;
    if v.next < |u.list.items| {
      SendSteps(v.(next := v.next + 1), Item(v.next, u.list.items[v.next].item), ok);
    }
  }

  lemma NoReadSteps<T>(u: Uploader<T>, index: u16, ok: bool)
    requires Fits(u) && !(u.readable && index <= u.next && (index == u.next || u.retries < RETRIES))
    ensures var v := u.OnRead(index, ok);
      v.ack == u.ack && v.sent == [] && forall m :: Steps(u, v, m)
  {
    hide InOrder, Uploader.SendingItem;
  }

  lemma FireSteps<T>(u: Uploader<T>, timer: nat, ok: bool)
    requires Fits(u) && timer in u.armed
    ensures Steps(u, u.Fired(timer, ok), CountOf(u.list)) && u.Fired(timer, ok).ack == u.ack
    ensures u.Fired(timer, ok).sent != [] ==> u.side == Ground && InOrder(u.list.items)
  {
    hide InOrder;
  }

  /** A cancelled download is marked as cut short. */
  lemma CutKeeps<T>(s: System<T>)
    requires Inv(s)
    ensures Coherent(s.(cut := s.cut || s.deliveries == []))
  {
    var s' := s.(cut := s.cut || s.deliveries == []);
    assert forall i :: 0 <= i < |s.net| ==> Says(s', s.net[i]);
    hide Lone, Calm, InOrder;
  }

  lemma StartUpKeeps<T>(s: System<T>, ok: bool)
    requires Inv(s) && Enabled(s, StartUp(ok))
    ensures Inv(Next(s, StartUp(ok)))
  {
    hide Uploader.Start;
    StartSteps(s.up.value, ok);
    UpKeeps(s, s.up.value.Start(ok));
  }

  lemma CancelUpKeeps<T>(s: System<T>, ok: bool)
    requires Inv(s) && Enabled(s, CancelUp(ok))
    ensures Inv(Next(s, CancelUp(ok)))
  {
    UpKeeps(s, s.up.value.Cancel(ok));
  }

  lemma FireUpKeeps<T>(s: System<T>, timer: nat, ok: bool)
    requires Inv(s) && Enabled(s, FireUp(timer, ok))
    ensures Inv(Next(s, FireUp(timer, ok)))
  {
    hide Uploader.Fired;
    FireSteps(s.up.value, timer, ok);
    UpKeeps(s, s.up.value.Fired(timer, ok));
  }

  lemma ReadKeeps<T>(s: System<T>, index: u16, ok: bool)
    requires Inv(s) && Calm(s.net) && !Waiting(s) && Active(s) && s.up.Some? && Says(s, ToUp(Read(index)))
    ensures Inv(s.Up(s.up.value.OnRead(index, ok)))
  {
    hide Uploader.OnRead;
    ReadSteps(s.up.value, index, ok);
    UpKeeps(s, s.up.value.OnRead(index, ok));
  }

  lemma AckKeeps<T>(s: System<T>, ack: Ack)
    requires Inv(s) && s.up.Some? && (ack == Accepted ==> Finished(s))
    ensures Inv(s.Up(s.up.value.OnAck(ack)))
  {
    UpKeeps(s, s.up.value.OnAck(ack));
  }

  lemma CancelDownKeeps<T>(s: System<T>, ok: bool)
    requires Inv(s) && Enabled(s, CancelDown(ok))
    ensures Inv(Next(s, CancelDown(ok)))
  {
    CutKeeps(s);
    CancelKeeps(s.(cut := s.cut || s.deliveries == []), ok);
  }

  lemma CancelKeeps<T>(s: System<T>, ok: bool)
    requires Coherent(s) && s.down.Some? && (s.cut || s.deliveries != [])
    ensures Inv(s.Down(s.down.value.Cancel(ok)))
  {
    CancelFits(s, ok);
    CancelSays(s, ok);
    hide Lone, Calm, Has, InOrder, DownFits, UpFits, AtRest, Expected, Says, Downloader.Cancel;
    DownKeeps(s, s.down.value.Cancel(ok));
  }

  lemma CancelSays<T>(s: System<T>, ok: bool)
    requires Coherent(s) && s.down.Some?
    ensures var d := s.down.value.Cancel(ok);
      && (forall p :: p in s.net ==> Says(s.Down(d), p))
      && (forall m :: m in d.sent ==> Says(s.Down(d), ToUp(m)))
  {
    hide Lone, Calm, Has, InOrder, UpFits, AtRest, Announced;
    HasMore(s, s.down.value.Cancel(ok));
  }

  lemma CancelFits<T>(s: System<T>, ok: bool)
    requires Coherent(s) && s.down.Some? && (s.cut || s.deliveries != [])
    ensures var d := s.down.value.Cancel(ok);
      && DownFits(s.Down(d), d.(sent := [], calls := [])) && AtRest(s.Down(d), d)
      && d.sent == (if ok then [Acknowledge(Ack.Cancelled)] else [])
      && d.started == s.down.value.started && d.step == s.down.value.step
      && |d.calls| <= (if s.uploads || s.deliveries == [] then 1 else 0)
      && (forall c :: c in d.calls ==> c.0 != Success)
      && (!s.uploads && s.deliveries == [] ==> d.calls != [])
  {
    hide Lone, Has, InOrder, Announced;
  }

  /** A download that is about to ask for its next item, with no other message under way. */
  ghost predicate Ready<T>(s: System<T>, d: Downloader<T>) {
    var items := s.list.items;
    && Calm(s.net) && (s.up.Some? ==> s.up.value.started)
    && d.side == (if s.uploads then Robot else Ground)
    && d.sent == [] && d.calls == [] && d.retries < RETRIES && d.done == !d.callback
    && (!s.uploads && !s.cut ==> !d.done)
    && (!s.uploads ==> d.callback == (s.deliveries == []))
    && (s.uploads ==> s.tag == (s.list.plan, s.list.syncId))
    && d.started && d.listening && d.step == RequestItem && d.armed <= {d.cookie}
    && InOrder(items) && d.expected == Announced(items)
    && (!s.uploads ==> d.list.plan == s.list.plan && d.list.syncId == s.list.syncId)
    && d.next < Announced(items) && d.list.items == items[..d.next]
    && s.asked <= 4 * |d.list.items| + d.retries
  }

  lemma AskKeeps<T>(s: System<T>, d: Downloader<T>, ok: bool)
    requires Inv(s) && s.down.Some? && Ready(s, d)
    ensures Inv(s.Down(d.RequestingItem(ok)))
  {
    Counted(s.list.items);
    HasMore(s, d.RequestingItem(ok));
    DownKeeps(s, d.RequestingItem(ok));
  }

  lemma StartDownKeeps<T>(s: System<T>, ok: bool)
    requires Inv(s) && Enabled(s, StartDown(ok))
    ensures Inv(Next(s, StartDown(ok)))
  {
    var d := s.down.value;
    if d.side == Robot && d.expected > 0 {
      var c := d.(started := true, listening := true, list := d.list.(items := []), retries := 0, next := 0);
      AskKeeps(s, c.Arm(), ok);
    } else {
      StartsOtherwise(s, ok);
    }
  }

  /** The first request of a list, or the end of a download of nothing. */
  lemma StartsOtherwise<T>(s: System<T>, ok: bool)
    requires Inv(s) && Enabled(s, StartDown(ok)) && (s.down.value.side == Robot ==> s.down.value.expected == 0)
    ensures Inv(Next(s, StartDown(ok)))
  {
    hide Lone, Has, InOrder;
    HasMore(s, s.down.value.Start(ok));
    DownKeeps(s, s.down.value.Start(ok));
  }

  lemma FireDownKeeps<T>(s: System<T>, timer: nat, ok: bool)
    requires Inv(s) && Enabled(s, FireDown(timer, ok))
    ensures Inv(Next(s, FireDown(timer, ok)))
  {
    var d := s.down.value.(armed := s.down.value.armed - {timer});
    if d.retries < RETRIES && d.step == RequestItem {
      AskKeeps(s, d.Arm(), ok);
    } else {
      EndOrRequest(s, timer, ok);
    }
  }

  lemma EndOrRequest<T>(s: System<T>, timer: nat, ok: bool)
    requires Inv(s) && Enabled(s, FireDown(timer, ok))
    requires s.down.value.retries >= RETRIES || s.down.value.step == RequestList
    ensures Inv(Next(s, FireDown(timer, ok)))
  {
    FiredFits(s, timer, ok);
    hide Announced, Lone, InOrder, DownFits, UpFits, AtRest, Expected, Downloader.Fired;
    HasMore(s, s.down.value.Fired(timer, ok));
    DownKeeps(s, s.down.value.Fired(timer, ok));
  }

  lemma FiredFits<T>(s: System<T>, timer: nat, ok: bool)
    requires Inv(s) && Enabled(s, FireDown(timer, ok))
    requires s.down.value.retries >= RETRIES || s.down.value.step == RequestList
    ensures var d := s.down.value.Fired(timer, ok);
      && DownFits(s.Down(d), d.(sent := [], calls := [])) && AtRest(s.Down(d), d) && d.started
      && d.step == s.down.value.step && (d.sent == [] || (d.sent == [Request] && d.step == RequestList && Active(s)))
      && |d.calls| <= (if s.uploads || s.deliveries == [] then 1 else 0)
      && (forall c :: c in d.calls ==> c.0 != Success)
  {
    hide Announced, Lone, InOrder;
  }

  lemma ItemKeeps<T>(s: System<T>, index: u16, item: T, ok: bool)
    requires Inv(s) && Calm(s.net) && !Waiting(s) && Active(s) && s.down.Some? && Says(s, ToDown(Item(index, item)))
    ensures Inv(s.Down(s.down.value.OnItem(index, item, ok)))
  {
    var d := s.down.value;
    assert Entry(index, item) == s.list.items[index];
    if d.next + 1 == d.expected {
      LastItemKeeps(s, index, item, ok);
    } else {
      var c := d.(list := d.list.(items := d.list.items + [Entry(index, item)]), next := index + 1, retries := 0);
      AskKeeps(s, c, ok);
    }
  }

  lemma LastItemKeeps<T>(s: System<T>, index: u16, item: T, ok: bool)
    requires Inv(s) && Calm(s.net) && !Waiting(s) && Active(s) && s.down.Some? && Says(s, ToDown(Item(index, item)))
    requires s.down.value.next + 1 == s.down.value.expected && Entry(index, item) == s.list.items[index]
    ensures Inv(s.Down(s.down.value.OnItem(index, item, ok)))
  {
    LastItemFits(s, index, item, ok);
    hide Announced, Lone, Has, InOrder, DownFits, AtRest, Expected;
    HasMore(s, s.down.value.OnItem(index, item, ok));
    DownKeeps(s, s.down.value.OnItem(index, item, ok));
  }

  lemma LastItemFits<T>(s: System<T>, index: u16, item: T, ok: bool)
    requires Inv(s) && Calm(s.net) && !Waiting(s) && Active(s) && s.down.Some? && Says(s, ToDown(Item(index, item)))
    requires s.down.value.next + 1 == s.down.value.expected && Entry(index, item) == s.list.items[index]
    ensures var d := s.down.value.OnItem(index, item, ok);
      && DownFits(s.Down(d), d.(sent := [], calls := [])) && AtRest(s.Down(d), d) && d.started
      && (forall m :: m in d.sent ==> m.Acknowledge?)
      && (forall c :: c in d.calls && c.0 == Success ==>
            s.Tagged(c.1) == Expected(s.uploads, s.list) && InOrder(s.list.items))
  {
    hide Announced, Lone, Has, InOrder;
  }

  lemma CountKeeps<T>(s: System<T>, plan: string, syncId: nat, count: u16, ok: bool)
    requires Inv(s) && Calm(s.net) && !Waiting(s) && Active(s) && !s.uploads && s.down.Some?
    requires Says(s, ToDown(Count(plan, syncId, count)))
    ensures Inv(s.Down(s.down.value.OnCount(plan, syncId, count, ok)))
  {
    var d := s.down.value;
    Counted(s.list.items);
    if count == 0 {
      EmptyCountKeeps(s, plan, syncId, ok);
    } else {
      AskKeeps(s, d.(next := 0, step := RequestItem, retries := 0, expected := count,
                     list := d.list.(plan := plan, syncId := syncId)), ok);
    }
  }

  lemma EmptyCountKeeps<T>(s: System<T>, plan: string, syncId: nat, ok: bool)
    requires Inv(s) && Calm(s.net) && !Waiting(s) && Active(s) && !s.uploads && s.down.Some?
    requires Announced(s.list.items) == 0 && Says(s, ToDown(Count(plan, syncId, 0)))
    ensures Inv(s.Down(s.down.value.OnCount(plan, syncId, 0, ok)))
  {
    hide Lone, Has, InOrder;
    var d := s.down.value.OnCount(plan, syncId, 0, ok);
    HasMore(s, d);
    DownKeeps(s, d);
  }

  /** A request makes the robot upload its list, a count makes it download the ground's. */
  lemma CreateKeeps<T>(s: System<T>, m: Message<T>)
    requires Inv(s) && Calm(s.net) && !Waiting(s) && Active(s)
    requires
      || (m == Request && !s.uploads && s.up.None? && Says(s, ToUp(m)))
      || (m.Count? && s.uploads && s.down.None? && Says(s, ToDown(m)))
    ensures Inv(s.Deliver(if m == Request then ToUp(m) else ToDown(m), true))
  {
    Counted(s.list.items);
    var s' := s.Deliver(if m == Request then ToUp(m) else ToDown(m), true);
    assert forall i :: 0 <= i < |s.net| ==> Says(s', s.net[i]);
  }

  lemma ReceiveKeeps<T>(s: System<T>, i: nat, ok: bool)
    requires Inv(s) && i < |s.net|
    ensures Inv(Next(s, Receive(i, ok)))
  {
    var p, r := s.net[i], s.(net := Without(s.net, i));
    WithoutKeeps(s, i);
    assert Says(r, p) && (!p.m.Acknowledge? ==> Calm(r.net) && !Waiting(r) && Active(r));
    hide Inv, Says, Calm, Waiting, Active;
    match p
    case ToUp(Request) =>
      if !s.uploads && s.up.None? { CreateKeeps(r, p.m); }
    case ToUp(Read(index)) =>
      if s.up.Some? { ReadKeeps(r, index, ok); }
    case ToUp(Acknowledge(ack)) =>
      if s.up.Some? { SaysAck(r, ack); AckKeeps(r, ack); }
    case ToDown(Count(plan, syncId, count)) =>
      if s.uploads && s.down.None? { CreateKeeps(r, p.m); }
      if !s.uploads && s.down.Some? { CountKeeps(r, plan, syncId, count, ok); }
    case ToDown(Item(index, item)) =>
      if s.down.Some? { ItemKeeps(r, index, item, ok); }
    case _ =>
  }

  lemma SaysAck<T>(s: System<T>, ack: Ack)
    requires Says(s, ToUp(Acknowledge(ack)))
    ensures ack == Accepted ==> Finished(s)
  {
  }

  lemma PopKeeps<T>(s: System<T>, move: Move)
    requires Inv(s) && Enabled(s, move) && (move == PopUp || move == PopDown)
    ensures Inv(Next(s, move))
  {
    PopSays(s, move);
    hide Announced, Lone, Calm, Has, InOrder, Says, UpFits, DownFits;
  }

  lemma PopSays<T>(s: System<T>, move: Move)
    requires Inv(s) && Enabled(s, move) && (move == PopUp || move == PopDown)
    ensures forall i :: 0 <= i < |s.net| ==> Says(Next(s, move), s.net[i])
    ensures Next(s, move).down.Some? ==> DownFits(Next(s, move), s.down.value)
    ensures Next(s, move).up.Some? ==> UpFits(Next(s, move), s.up.value)
  {
    hide Announced, Lone, Calm, Has, InOrder;
  }

  lemma AnswerKeeps<T>(s: System<T>, ack: Ack)
    requires Inv(s) && Enabled(s, Answer(ack))
    ensures Inv(Next(s, Answer(ack)))
  {
    AnswerSays(s, ack);
    AnswerCalm(s.net, ack);
    hide Says, Announced, Has, InOrder, Lone, Calm;
  }

  lemma AnswerSays<T>(s: System<T>, ack: Ack)
    requires Inv(s) && (ack == Accepted ==> Finished(s))
    ensures var net := s.net + [ToUp(Acknowledge(ack))]; forall i :: 0 <= i < |net| ==> Says(s.(net := net), net[i])
  {
    hide InOrder, Lone, Calm, UpFits, DownFits, Has;
    var net := s.net + [ToUp(Acknowledge(ack))];
    forall i | 0 <= i < |net| ensures Says(s.(net := net), net[i]) {
      assert net[i] == if i < |s.net| then s.net[i] else ToUp(Acknowledge(ack));
      assert Says(s, net[i]);
      SaysSame(s, net, net[i]);
    }
  }

  lemma AnswerCalm<T>(net: seq<Packet<T>>, ack: Ack)
    ensures Lone(net) ==> Lone(net + [ToUp(Acknowledge(ack))])
    ensures Calm(net) ==> Calm(net + [ToUp(Acknowledge(ack))])
  {
  }

  lemma MoveKeeps<T>(s: System<T>, move: Move)
    requires Inv(s) && Enabled(s, move)
    ensures Inv(Next(s, move))
  {
    hide Inv;
    match move
    case StartUp(ok) => StartUpKeeps(s, ok);
    case StartDown(ok) => StartDownKeeps(s, ok);
    case Receive(i, ok) => ReceiveKeeps(s, i, ok);
    case Lose(i) => WithoutKeeps(s, i);
    case FireUp(timer, ok) => FireUpKeeps(s, timer, ok);
    case FireDown(timer, ok) => FireDownKeeps(s, timer, ok);
    case CancelUp(ok) => CancelUpKeeps(s, ok);
    case CancelDown(ok) => CancelDownKeeps(s, ok);
    case PopUp => PopKeeps(s, move);
    case PopDown => PopKeeps(s, move);
    case Answer(ack) => AnswerKeeps(s, ack);
  }

  lemma NextKept<T>(s: System<T>, move: Move)
    requires Possible(s, move)
    ensures Next(s, move).list == s.list && Next(s, move).uploads == s.uploads
  {
  }

  lemma {:induction false} RunKeeps<T>(s: System<T>, moves: seq<Move>)
    requires Inv(s) && Legal(s, moves)
    ensures Inv(Run(s, moves)) && Run(s, moves).list == s.list && Run(s, moves).uploads == s.uploads
    decreases |moves|
  {
    hide Inv;
    if moves != [] {
      NextKept(s, moves[0]);
      MoveKeeps(s, moves[0]);
      hide Next, Enabled;
      RunKeeps(Next(s, moves[0]), moves[1..]);
    }
  }

  // ----- What a transfer delivers -----

  /** Every success delivers exactly the list of the other end. */
  ghost predicate Exact<T>(s: System<T>, list: List<T>) {
    forall d :: d in s.deliveries && d.0 == Success ==> d.1 == list
  }

  /**
   Uploading, the robot's application gets exactly the announced items of the ground's
   list with its plan and sync id; and when the ground's application hears `Accepted`, the
   robot's already has them.
   */
  lemma UploadEndToEnd<T>(list: List<T>, moves: seq<Move>)
    requires Legal(Initial(true, list), moves)
    ensures var s := Run(Initial(true, list), moves);
      && Exact(s, Expected(true, list))
      && ((Success, Accepted) in s.reports ==> (Success, Expected(true, list)) in s.deliveries)
      && (s.deliveries != [] ==> InOrder(list.items))
      && s.asked <= 4 * |list.items|
  {
    InitialInv(true, list);
    RunKeeps(Initial(true, list), moves);
    var s := Run(Initial(true, list), moves);
    if (Success, Accepted) in s.reports {
      HasExact(s, Expected(true, list));
    }
  }

  lemma HasExact<T>(s: System<T>, list: List<T>)
    requires Has(s.deliveries, Success) && Exact(s, list)
    ensures (Success, list) in s.deliveries
  {
    var i :| 0 <= i < |s.deliveries| && s.deliveries[i].0 == Success;
    assert s.deliveries[i] == (Success, list);
  }

  /** A download is cancelled before it has delivered anything. */
  predicate CutShort<T>(s: System<T>, moves: seq<Move>)
    requires Legal(s, moves)
    decreases |moves|
  {
    moves != [] && ((moves[0].CancelDown? && s.deliveries == []) || CutShort(Next(s, moves[0]), moves[1..]))
  }

  lemma {:induction false} CutIsRemembered<T>(s: System<T>, moves: seq<Move>)
    requires Legal(s, moves)
    ensures Run(s, moves).cut == (s.cut || CutShort(s, moves))
    decreases |moves|
  {
    if moves != [] {
      OnlyCancelCuts(s, moves[0]);
      hide Next, Possible;
      CutIsRemembered(Next(s, moves[0]), moves[1..]);
    }
  }

  lemma OnlyCancelCuts<T>(s: System<T>, move: Move)
    requires Enabled(s, move)
    ensures Next(s, move).cut == (s.cut || (move.CancelDown? && s.deliveries == []))
  {
  }

  /**
   Downloading, the ground's application gets one result; a success is exactly the
   announced items of the robot's list, with its plan and sync id unless there are none.
   When the robot's application hears `Accepted`, the ground's has been given the list,
   exactly unless the ground cancelled before it was given anything.
   */
  lemma DownloadEndToEnd<T>(list: List<T>, moves: seq<Move>)
    requires Legal(Initial(false, list), moves)
    ensures var s := Run(Initial(false, list), moves);
      && Exact(s, Expected(false, list))
      && |s.deliveries| <= 1 && (Has(s.deliveries, Success) ==> InOrder(list.items))
      && ((Success, Accepted) in s.reports ==>
            ((Success, Expected(false, list)) in s.deliveries <==> !CutShort(Initial(false, list), moves)))
      && s.asked <= 4 * |list.items|
  {
    InitialInv(false, list);
    RunKeeps(Initial(false, list), moves);
    CutIsRemembered(Initial(false, list), moves);
    var s := Run(Initial(false, list), moves);
    if (Success, Accepted) in s.reports && !s.cut {
      HasExact(s, Expected(false, list));
    }
  }
}
