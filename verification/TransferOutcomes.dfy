/** What list transfers come to: a run that completes, and the lengths that fail. */
module TransferOutcomes {

  import opened Transfer
  import opened Download
  import opened EndToEnd
  import opened Wrappers

  // ----- Runs without loss -----

  /** Both ends start, and each message is received before anything else happens. */
  function Opening(uploads: bool): seq<Move> {
    if uploads then [StartUp(true), Receive(0, true), StartDown(true)]
    else [StartDown(true), Receive(0, true), StartUp(true), Receive(0, true)]
  }

  /** A read and its item, `k` times. */
  function Exchanges(k: nat): seq<Move> {
    if k == 0 then [] else Exchanges(k - 1) + [Receive(0, true), Receive(0, true)]
  }

  lemma {:induction false} LegalConcat<T>(s: System<T>, a: seq<Move>, b: seq<Move>)
    requires Legal(s, a) && Legal(Run(s, a), b)
    ensures Legal(s, a + b) && Run(s, a + b) == Run(Run(s, a), b)
    decreases |a|
  {
    hide Next, Possible;
    if a == [] {
      assert a + b == b;
    } else {
      assert (a + b)[0] == a[0] && (a + b)[1..] == a[1..] + b;
      LegalConcat(Next(s, a[0]), a[1..], b);
    }
  }

  /** Item `k` is the next to arrive and `sent` items have been sent, without loss. */
  ghost predicate Midway<T>(s: System<T>, k: nat, sent: nat)
    requires k <= |s.list.items|
  {
    && s.reports == [] && s.deliveries == [] && s.up.Some? && s.down.Some?
    && var u, d := s.up.value, s.down.value;
      && u.started && !u.done && d.started && !d.done
      && u.list == s.list && u.readable && u.ackable && u.next == sent && u.callback
      && d.listening && d.callback && d.next == k && d.expected == |s.list.items|
      && d.retries == 1 && d.cookie in d.armed && d.step == RequestItem
      && d.list.items == s.list.items[..k] && d.side == (if s.uploads then Robot else Ground)
      && u.sent == [] && u.calls == [] && d.sent == [] && d.calls == []
      && (if s.uploads then s.tag == (s.list.plan, s.list.syncId)
          else d.list.plan == s.list.plan && d.list.syncId == s.list.syncId)
  }

  /** Item `k` has just been asked for. */
  ghost predicate Asking<T>(s: System<T>, k: nat)
    requires k <= |s.list.items|
  {
    Midway(s, k, k) && s.net == [ToUp(Read(k % WIDTH))]
  }

  /** Everything has arrived and been acknowledged. */
  ghost predicate Complete<T>(s: System<T>) {
    s.deliveries == [(Success, Expected(s.uploads, s.list))] && s.reports == [(Success, Accepted)]
  }

  function Closing(uploads: bool): seq<Move> {
    (if uploads then [Answer(Accepted)] else []) + [Receive(0, true)]
  }

  /** The state before the acknowledgement. */
  ghost predicate Delivered<T>(s: System<T>) {
    && s.deliveries == [(Success, Expected(s.uploads, s.list))] && s.reports == []
    && s.net == (if s.uploads then [] else [ToUp(Acknowledge(Accepted))])
    && s.up.Some? && s.up.value.ackable && s.up.value.next == |s.list.items| && s.up.value.callback
    && s.up.value.list == s.list && s.up.value.calls == [] && s.up.value.sent == []
    && s.up.value.started && !s.up.value.done && (s.down.Some? ==> s.down.value.started && s.down.value.done)
  }

  lemma ClosingCompletes<T>(s: System<T>)
    requires Delivered(s)
    ensures Legal(s, Closing(s.uploads)) && Complete(Run(s, Closing(s.uploads)))
  {
    if s.uploads {
      AnswerMove(s);
      hide Next, Complete, Delivered;
      var s1 := Next(s, Answer(Accepted));
      AckArrives(s1);
      assert Closing(true)[1..] == [Receive(0, true)];
      OneMove(s1, Receive(0, true));
    } else {
      AckArrives(s);
      hide Next, Complete;
      assert Closing(false) == [Receive(0, true)];
      OneMove(s, Receive(0, true));
    }
  }

  lemma AnswerMove<T>(s: System<T>)
    requires Delivered(s) && s.uploads
    ensures Enabled(s, Answer(Accepted)) && Next(s, Answer(Accepted)) == s.(net := [ToUp(Acknowledge(Accepted))])
    ensures s.(net := []) == s
  {
    assert s.deliveries[0].0 == Success;
  }

  lemma AckArrives<T>(s: System<T>)
    requires s.net == [ToUp(Acknowledge(Accepted))] && Delivered(s.(net := if s.uploads then [] else s.net))
    ensures Complete(Next(s, Receive(0, true)))
  {
    AckEnds(s.up.value);
    hide Uploader.OnAck;
    assert Without(s.net, 0) == [];
  }

  lemma AckEnds<T>(u: Uploader<T>)
    requires u.ackable && u.callback && u.next == |u.list.items| && u.calls == []
    ensures u.OnAck(Accepted).calls == [(Success, Accepted)] && u.OnAck(Accepted).sent == u.sent
    ensures u.OnAck(Accepted).started == u.started && u.OnAck(Accepted).done
  {
  }

  lemma OneMove<T>(s: System<T>, move: Move)
    requires Enabled(s, move)
    ensures Legal(s, [move]) && Run(s, [move]) == Next(s, move)
  {
    hide Next, Possible;
    assert [move][1..] == [];
  }

  lemma TwoMoves<T>(s: System<T>, move: Move, then_: Move)
    requires Enabled(s, move) && Enabled(Next(s, move), then_)
    ensures Legal(s, [move, then_]) && Run(s, [move, then_]) == Next(Next(s, move), then_)
  {
    hide Next, Possible;
    OneMove(Next(s, move), then_);
    assert [move, then_][1..] == [then_];
  }

  lemma ReadMove<T>(s: System<T>, k: nat)
    requires InOrder(s.list.items) && k < |s.list.items| < WIDTH && Asking(s, k)
    ensures var t := Next(s, Receive(0, true));
      && t.list == s.list && t.uploads == s.uploads
      && Midway(t, k, k + 1) && t.net == [ToDown(Item(k, s.list.items[k].item))]
  {
    assert Without(s.net, 0) == [];
  }

  lemma ItemMove<T>(s: System<T>, k: nat)
    requires InOrder(s.list.items) && k < |s.list.items| < WIDTH
    requires Midway(s, k, k + 1) && s.net == [ToDown(Item(k, s.list.items[k].item))]
    ensures var t := Next(s, Receive(0, true));
      && t.list == s.list && t.uploads == s.uploads
      && if k + 1 < |s.list.items| then Asking(t, k + 1) else Delivered(t)
  {
    assert Without(s.net, 0) == [];
    assert Entry(k, s.list.items[k].item) == s.list.items[k];
    hide Midway, InOrder, Asking, Delivered, Downloader.OnItem;
    var r := s.(net := []);
    MidwayKept(s, r, k, k + 1);
    if k + 1 < |s.list.items| {
      MiddleItem(r, k);
    } else {
      LastItem(r, k);
    }
  }

  lemma MidwayKept<T>(s: System<T>, r: System<T>, k: nat, sent: nat)
    requires k <= |s.list.items| && Midway(s, k, sent) && r == s.(net := [])
    ensures Midway(r, k, sent) && r.down.Some?
  {
  }

  lemma MiddleItem<T>(s: System<T>, k: nat)
    requires k + 1 < |s.list.items| < WIDTH && Midway(s, k, k + 1) && s.net == []
    requires s.list.items[k] == Entry(k, s.list.items[k].item)
    ensures Asking(s.Down(s.down.value.OnItem(k, s.list.items[k].item, true)), k + 1)
  {
    hide Downloader.OnItem;
    assert s.list.items[..k] + [s.list.items[k]] == s.list.items[..k + 1];
    MoreTaken(s.down.value, k, s.list.items[k].item);
    var t := s.Down(s.down.value.OnItem(k, s.list.items[k].item, true));
    assert t.net == [ToUp(Read((k + 1) % WIDTH))] && t.deliveries == [];
  }

  lemma LastItem<T>(s: System<T>, k: nat)
    requires k + 1 == |s.list.items| < WIDTH && Midway(s, k, k + 1) && s.net == []
    requires s.list.items[k] == Entry(k, s.list.items[k].item)
    ensures Delivered(s.Down(s.down.value.OnItem(k, s.list.items[k].item, true)))
  {
    hide Downloader.OnItem;
    assert s.list.items[..k] + [s.list.items[k]] == s.list.items == s.list.items[..|s.list.items|];
    LastTaken(s.down.value, k, s.list.items[k].item);
  }

  /** An item that is not the last one is stored, and the next one asked for. */
  lemma MoreTaken<T>(d: Downloader<T>, index: u16, item: T)
    requires d.listening && d.next + 1 != d.expected && d.sent == [] && d.calls == []
    ensures d.OnItem(index, item, true)
            == d.(list := d.list.(items := d.list.items + [Entry(index, item)]), next := index + 1, retries := 1,
                  sent := [Read((index + 1) % WIDTH)])
  {
  }

  /** The last item is stored, and the whole list delivered. */
  lemma LastTaken<T>(d: Downloader<T>, index: u16, item: T)
    requires d.listening && d.callback && d.next + 1 == d.expected && d.sent == [] && d.calls == []
    ensures var list := d.list.(items := d.list.items + [Entry(index, item)]);
      && d.OnItem(index, item, true).calls == [(Success, list)]
      && d.OnItem(index, item, true).started == d.started && d.OnItem(index, item, true).done
      && d.OnItem(index, item, true).sent == if d.side == Ground then [Acknowledge(Accepted)] else []
  {
  }

  lemma {:induction false} ExchangesDeliver<T>(s: System<T>, k: nat)
    requires InOrder(s.list.items) && 0 < k <= |s.list.items| < WIDTH && Asking(s, 0)
    ensures Legal(s, Exchanges(k))
    ensures var t := Run(s, Exchanges(k));
      && t.list == s.list && t.uploads == s.uploads
      && if k < |s.list.items| then Asking(t, k) else Delivered(t)
    decreases k
  {
    hide Next, Possible, Asking, Midway, Delivered, InOrder;
    var both := [Receive(0, true), Receive(0, true)];
    var t := s;
    if k > 1 {
      ExchangesDeliver(s, k - 1);
      t := Run(s, Exchanges(k - 1));
    } else {
      assert Exchanges(0) == [] && Run(s, []) == s;
    }
    ExchangeOne(t, k - 1);
    LegalConcat(s, Exchanges(k - 1), both);
  }

  lemma ExchangeOne<T>(s: System<T>, k: nat)
    requires InOrder(s.list.items) && k < |s.list.items| < WIDTH && Asking(s, k)
    ensures var both := [Receive(0, true), Receive(0, true)];
      && Legal(s, both)
      && (var t := Run(s, both);
          t.list == s.list && t.uploads == s.uploads
          && if k + 1 < |s.list.items| then Asking(t, k + 1) else Delivered(t))
  {
    hide Next, InOrder;
    ReadMove(s, k);
    ItemMove(Next(s, Receive(0, true)), k);
    TwoMoves(s, Receive(0, true), Receive(0, true));
  }

  lemma UploadStarted<T>(side: Side, list: List<T>)
    requires InOrder(list.items)
    ensures var u := NewUploader(side, list).Start(true);
      && u.sent == [CountOf(list)] && u.calls == [] && u.next == 0 && u.callback && u.ackable && u.started && !u.done
      && (list.items != [] ==> u.readable)
  {
  }

  lemma DownloadStarted<T>(count: u16)
    ensures var d := NewDownloader<T>(Robot, count).Start(true);
      && d.listening && d.next == 0 && d.expected == count && d.side == Robot && d.list == List("", 0, [])
      && d.started && d.done == (count == 0)
      && (if count == 0 then d.calls == [(Success, d.list)] && d.sent == []
          else d.calls == [] && d.sent == [Read(0)] && d.callback && d.retries == 1 && d.cookie in d.armed
               && d.step == RequestItem)
  {
  }

  /** The count creates the robot's work item. */
  lemma CountTold<T>(s: System<T>)
    requires CountSent(s) && s.uploads && s.down.None?
    ensures Enabled(s, Receive(0, true))
    ensures var t := Next(s, Receive(0, true)); t.list == s.list && Told(t)
  {
    assert Without(s.net, 0) == [];
  }

  lemma ToldStarts<T>(s: System<T>)
    requires Told(s) && InOrder(s.list.items) && |s.list.items| < WIDTH
    ensures Enabled(s, StartDown(true))
    ensures var t := Next(s, StartDown(true));
      t.list == s.list && t.uploads && if s.list.items == [] then Delivered(t) else Asking(t, 0)
  {
    hide Downloader.Start;
    DownloadStarted<T>(|s.list.items|);
  }

  lemma CountArrives<T>(s: System<T>)
    requires CountSent(s) && s.uploads && s.down.None? && InOrder(s.list.items) && |s.list.items| < WIDTH
    ensures Legal(s, [Receive(0, true), StartDown(true)])
    ensures var t := Run(s, [Receive(0, true), StartDown(true)]);
      t.list == s.list && t.uploads && if s.list.items == [] then Delivered(t) else Asking(t, 0)
  {
    CountTold(s);
    ToldStarts(Next(s, Receive(0, true)));
    hide Next, Delivered, Asking;
    TwoMoves(s, Receive(0, true), StartDown(true));
  }

  lemma FirstMove<T>(list: List<T>)
    requires InOrder(list.items)
    ensures Enabled(Initial(true, list), StartUp(true))
    ensures var t := Next(Initial(true, list), StartUp(true));
      t.list == list && t.uploads && t.down.None? && CountSent(t)
  {
    hide Uploader.Start;
    UploadStarted(Ground, list);
  }

  lemma OpeningUp<T>(list: List<T>)
    requires InOrder(list.items) && |list.items| < WIDTH
    ensures Legal(Initial(true, list), Opening(true))
    ensures var s := Run(Initial(true, list), Opening(true));
      s.list == list && s.uploads && if list.items == [] then Delivered(s) else Asking(s, 0)
  {
    hide Next, Possible, InOrder, CountSent, Asking, Delivered;
    FirstMove(list);
    CountArrives(Next(Initial(true, list), StartUp(true)));
    assert Opening(true)[1..] == [Receive(0, true), StartDown(true)];
  }

  /** The robot's upload item exists and waits for its start. */
  ghost predicate Requested<T>(s: System<T>) {
    && !s.uploads && s.up == Some(NewUploader(Robot, s.list)) && s.down.Some? && s.net == []
    && s.reports == [] && s.deliveries == []
    && var d := s.down.value;
      d.side == Ground && d.listening && d.callback && d.sent == [] && d.calls == [] && d.list == List("", 0, [])
      && d.cookie in d.armed && d.started && !d.done
  }

  /** The download has asked for the list. */
  ghost predicate RequestSent<T>(s: System<T>) {
    && !s.uploads && s.up.None? && s.down.Some? && s.net == [ToUp(Request)] && s.reports == [] && s.deliveries == []
    && var d := s.down.value;
      d.side == Ground && d.listening && d.callback && d.sent == [] && d.calls == [] && d.list == List("", 0, [])
      && d.cookie in d.armed && d.started && !d.done
  }

  lemma RequestMove<T>(list: List<T>)
    ensures Enabled(Initial(false, list), StartDown(true))
    ensures var s := Next(Initial(false, list), StartDown(true)); s.list == list && RequestSent(s)
  {
  }

  lemma RequestTaken<T>(s: System<T>)
    requires RequestSent(s)
    ensures Enabled(s, Receive(0, true))
    ensures var t := Next(s, Receive(0, true)); t.list == s.list && Requested(t)
  {
    assert Without(s.net, 0) == [];
  }

  lemma RequestArrives<T>(list: List<T>)
    ensures Legal(Initial(false, list), [StartDown(true), Receive(0, true)])
    ensures var s := Run(Initial(false, list), [StartDown(true), Receive(0, true)]); s.list == list && Requested(s)
  {
    hide Next, Possible, RequestSent, Requested;
    RequestMove(list);
    RequestTaken(Next(Initial(false, list), StartDown(true)));
    TwoMoves(Initial(false, list), StartDown(true), Receive(0, true));
  }

  /** The upload has started, and waits for reads. */
  ghost predicate Opened<T>(s: System<T>) {
    && s.up.Some? && s.reports == [] && s.deliveries == []
    && var u := s.up.value;
      && u.list == s.list && u.ackable && (s.list.items != [] ==> u.readable) && u.next == 0 && u.callback
      && u.sent == [] && u.calls == [] && u.started && !u.done
  }

  /** The upload has sent its count, and nothing else is under way. */
  ghost predicate CountSent<T>(s: System<T>) {
    Opened(s) && s.net == [ToDown(CountOf(s.list))]
  }

  /** The robot's download item exists and waits for its start. */
  ghost predicate Told<T>(s: System<T>) {
    && Opened(s) && s.uploads && s.net == [] && s.tag == (s.list.plan, s.list.syncId)
    && s.down == Some(NewDownloader(Robot, Announced(s.list.items)))
  }

  ghost predicate Expecting<T>(s: System<T>) {
    && !s.uploads && s.down.Some?
    && var d := s.down.value;
      d.side == Ground && d.listening && d.callback && d.sent == [] && d.calls == [] && d.list == List("", 0, [])
      && d.cookie in d.armed && d.started && !d.done
  }

  lemma CountReturns<T>(s: System<T>)
    requires Requested(s) && InOrder(s.list.items)
    ensures Enabled(s, StartUp(true))
    ensures var t := Next(s, StartUp(true)); t.list == s.list && CountSent(t) && Expecting(t)
  {
    hide Uploader.Start;
    UploadStarted(Robot, s.list);
  }

  lemma CountAnswered<T>(s: System<T>)
    requires CountSent(s) && Expecting(s) && InOrder(s.list.items) && |s.list.items| < WIDTH
    ensures var t := Next(s, Receive(0, true));
      t.list == s.list && !t.uploads && if s.list.items == [] then Delivered(t) else Asking(t, 0)
  {
    assert Without(s.net, 0) == [];
  }

  lemma OneCount<T>(s: System<T>)
    requires CountSent(s)
    ensures Enabled(s, Receive(0, true))
  {
  }

  lemma OpeningDown<T>(list: List<T>)
    requires InOrder(list.items) && |list.items| < WIDTH
    ensures Legal(Initial(false, list), Opening(false))
    ensures var s := Run(Initial(false, list), Opening(false));
      s.list == list && !s.uploads && if list.items == [] then Delivered(s) else Asking(s, 0)
  {
    hide Next, InOrder, Requested, CountSent, Expecting, Asking, Delivered;
    RequestArrives(list);
    var s2 := Run(Initial(false, list), [StartDown(true), Receive(0, true)]);
    CountReturns(s2);
    OneCount(Next(s2, StartUp(true)));
    CountAnswered(Next(s2, StartUp(true)));
    TwoMoves(s2, StartUp(true), Receive(0, true));
    LegalConcat(Initial(false, list), [StartDown(true), Receive(0, true)], [StartUp(true), Receive(0, true)]);
    assert Opening(false) == [StartDown(true), Receive(0, true)] + [StartUp(true), Receive(0, true)];
  }

  function InTurn(uploads: bool, count: nat): seq<Move> {
    Opening(uploads) + Exchanges(count) + Closing(uploads)
  }

  /** If each message is received before anything else happens, both ends succeed. */
  lemma InTurnCompletes<T>(uploads: bool, list: List<T>)
    requires InOrder(list.items) && |list.items| < WIDTH
    ensures Legal(Initial(uploads, list), InTurn(uploads, |list.items|))
    ensures Complete(Run(Initial(uploads, list), InTurn(uploads, |list.items|)))
  {
    hide Next, Possible, Asking, Delivered, InOrder, Opening, Closing;
    var s0 := Initial(uploads, list);
    if uploads { OpeningUp(list); } else { OpeningDown(list); }
    var s1 := Run(s0, Opening(uploads));
    if |list.items| > 0 {
      ExchangesDeliver(s1, |list.items|);
    } else {
      assert Exchanges(0) == [];
    }
    LegalConcat(s0, Opening(uploads), Exchanges(|list.items|));
    var s2 := Run(s1, Exchanges(|list.items|));
    ClosingCompletes(s2);
    LegalConcat(s0, Opening(uploads) + Exchanges(|list.items|), Closing(uploads));
  }

  // ----- Lists that are too long, or empty -----

  /** 65536 items still pass the check of `start`, but their count travels as zero. */
  lemma CountWraps<T>(list: List<T>)
    requires InOrder(list.items) && |list.items| == WIDTH
    ensures Legal(Initial(true, list), Opening(true))
    ensures Run(Initial(true, list), Opening(true)).deliveries == [(Success, list.(items := []))]
  {
    hide Downloader.Start;
    FirstMove(list);
    hide Uploader.Start;
    var s := Next(Initial(true, list), StartUp(true));
    DownloadStarted<T>(0);
    assert Without(s.net, 0) == [];
    TwoMoves(s, Receive(0, true), StartDown(true));
    assert Opening(true)[1..] == [Receive(0, true), StartDown(true)];
  }

  /** The same on the way down, where the count of zero also loses the plan and the sync id. */
  lemma CountWrapsDown<T>(list: List<T>)
    requires InOrder(list.items) && |list.items| == WIDTH
    ensures Legal(Initial(false, list), Opening(false))
    ensures Run(Initial(false, list), Opening(false)).deliveries == [(Success, List("", 0, []))]
  {
    hide Next, InOrder, Requested, CountSent, Expecting;
    RequestArrives(list);
    var s2 := Run(Initial(false, list), [StartDown(true), Receive(0, true)]);
    CountReturns(s2);
    OneCount(Next(s2, StartUp(true)));
    ZeroArrives(Next(s2, StartUp(true)));
    TwoMoves(s2, StartUp(true), Receive(0, true));
    LegalConcat(Initial(false, list), [StartDown(true), Receive(0, true)], [StartUp(true), Receive(0, true)]);
    assert Opening(false) == [StartDown(true), Receive(0, true)] + [StartUp(true), Receive(0, true)];
  }

  lemma ZeroArrives<T>(s: System<T>)
    requires CountSent(s) && Expecting(s) && Announced(s.list.items) == 0
    ensures Next(s, Receive(0, true)).deliveries == [(Success, List("", 0, []))]
  {
    assert Without(s.net, 0) == [];
  }

  /** The ground's list of a user's items. */
  function Plan<T>(plan: string, syncId: nat, items: seq<T>): List<T> {
    List(plan, syncId, Numbered(items))
  }

  /** From the user of one end to the user of the other: the items as they were given, with plan and sync id. */
  lemma UserItemsArrive<T>(plan: string, syncId: nat, items: seq<T>, moves: seq<Move>)
    requires Legal(Initial(true, Plan(plan, syncId, items)), moves)
    ensures var s := Run(Initial(true, Plan(plan, syncId, items)), moves);
      forall d :: d in s.deliveries && d.0 == Success ==>
        && d.1.plan == plan && d.1.syncId == syncId
        && |items| <= WIDTH && Bare(d.1.items) == if |items| == WIDTH then [] else items
  {
    UploadEndToEnd(Plan(plan, syncId, items), moves);
    BareNumbered(items);
    NumberedInOrder(items);
    assert Numbered(items)[..|items|] == Numbered(items);
  }

  /** The whole list is what a success delivers exactly for every length but 65536. */
  lemma WholeIff<T>(uploads: bool, list: List<T>)
    requires InOrder(list.items)
    ensures |list.items| <= WIDTH
    ensures Expected(uploads, list) == list <==>
            |list.items| != WIDTH && (uploads || list.items != [] || list == List("", 0, []))
  {
    Counted(list.items);
    assert list.items[..|list.items|] == list.items;
  }

  /** Nothing is ever delivered of a list whose items are not in order. */
  lemma {:induction false} RefusedLists<T>(uploads: bool, list: List<T>, moves: seq<Move>)
    requires Legal(Initial(uploads, list), moves) && !InOrder(list.items)
    ensures !Has(Run(Initial(uploads, list), moves).deliveries, Success)
  {
    InitialInv(uploads, list);
    RunKeeps(Initial(uploads, list), moves);
  }

  /** Every run of an upload is exact, for every list but the ordered ones of 65536 items. */
  lemma UploadExactIff<T>(list: List<T>)
    ensures (|list.items| != WIDTH || !InOrder(list.items)) <==>
            (forall moves :: Legal(Initial(true, list), moves) ==> Exact(Run(Initial(true, list), moves), list))
  {
    ExactIff(true, list);
  }

  /**
   Every run of a download is exact, for every list but the ordered ones of 65536 items
   and the empty ones that have a plan or a sync id.
   */
  lemma DownloadExactIff<T>(list: List<T>)
    ensures ((list.items != [] && (|list.items| != WIDTH || !InOrder(list.items))) || list == List("", 0, [])) <==>
            (forall moves :: Legal(Initial(false, list), moves) ==> Exact(Run(Initial(false, list), moves), list))
  {
    ExactIff(false, list);
  }

  lemma ExactIff<T>(uploads: bool, list: List<T>)
    ensures var s := Initial(uploads, list);
      (if InOrder(list.items)
       then |list.items| != WIDTH && (uploads || list.items != [] || list == List("", 0, []))
       else true) <==>
      (forall moves :: Legal(s, moves) ==> Exact(Run(s, moves), list))
  {
    var s := Initial(uploads, list);
    if !InOrder(list.items) {
      forall moves | Legal(s, moves) ensures Exact(Run(s, moves), list) {
        RefusedLists(uploads, list, moves);
        NoSuccessIsExact(Run(s, moves), list);
      }
    } else {
      WholeIff(uploads, list);
      if Expected(uploads, list) == list {
        forall moves | Legal(s, moves) ensures Exact(Run(s, moves), list) {
          if uploads { UploadEndToEnd(list, moves); } else { DownloadEndToEnd(list, moves); }
        }
      } else {
        var moves := Shortest(uploads, list);
        assert !Exact(Run(s, moves), list) by {
          assert Run(s, moves).deliveries[0] in Run(s, moves).deliveries;
        }
      }
    }
  }

  lemma NoSuccessIsExact<T>(s: System<T>, list: List<T>)
    requires !Has(s.deliveries, Success)
    ensures Exact(s, list)
  {
    assert forall i :: 0 <= i < |s.deliveries| ==> s.deliveries[i].0 != Success;
  }

  /** A run that delivers what is expected, for every list that is accepted. */
  lemma Shortest<T>(uploads: bool, list: List<T>) returns (moves: seq<Move>)
    requires InOrder(list.items)
    ensures Legal(Initial(uploads, list), moves)
    ensures Run(Initial(uploads, list), moves).deliveries == [(Success, Expected(uploads, list))]
  {
    Counted(list.items);
    if |list.items| < WIDTH {
      InTurnCompletes(uploads, list);
      moves := InTurn(uploads, |list.items|);
      RunKept(Initial(uploads, list), moves);
    } else {
      moves := Opening(uploads);
      if uploads { CountWraps(list); } else { CountWrapsDown(list); }
    }
  }

  lemma {:induction false} RunKept<T>(s: System<T>, moves: seq<Move>)
    requires Legal(s, moves)
    ensures Run(s, moves).list == s.list && Run(s, moves).uploads == s.uploads
    decreases |moves|
  {
    if moves != [] {
      NextKept(s, moves[0]);
      hide Next, Possible;
      RunKept(Next(s, moves[0]), moves[1..]);
    }
  }

  /** Some run delivers the user's items exactly for the lengths up to 65535. */
  lemma DeliverableIff<T>(plan: string, syncId: nat, items: seq<T>)
    ensures var list := Plan(plan, syncId, items);
      |items| < WIDTH <==>
      exists moves :: Legal(Initial(true, list), moves) && (Success, list) in Run(Initial(true, list), moves).deliveries
  {
    var list := Plan(plan, syncId, items);
    var s := Initial(true, list);
    NumberedInOrder(items);
    if |items| < WIDTH {
      WholeIff(true, list);
      var moves := Shortest(true, list);
      assert Run(s, moves).deliveries[0] == (Success, list);
    } else {
      forall moves | Legal(s, moves) ensures (Success, list) !in Run(s, moves).deliveries {
        UploadEndToEnd(list, moves);
        if InOrder(list.items) { WholeIff(true, list); }
      }
    }
  }

  // ----- Cancelled downloads -----

  /** Starts, a cancellation while the count is under way, and then the messages in order. */
  const CANCELLED: seq<Move> :=
    [StartDown(true), Receive(0, true), StartUp(true), CancelDown(true), Receive(0, true), Receive(1, true)]

  /**
   A download that is cancelled while its last message is under way tells the robot
   `Accepted` after all: the robot's application hears of success and the ground's of
   the cancellation only.
   */
  lemma CancelledAccepts<T>(list: List<T>)
    requires list.items == []
    ensures Legal(Initial(false, list), CANCELLED) && CutShort(Initial(false, list), CANCELLED)
    ensures var s := Run(Initial(false, list), CANCELLED);
      && (Success, Accepted) in s.reports
      && s.deliveries == [(Result.Cancelled, List("", 0, []))]
  {
    var s0 := Initial(false, list);
    var start: seq<Move> := [StartDown(true), Receive(0, true)];
    RequestArrives(list);
    var s2 := Run(s0, start);
    NotYet(s2);
    CountReturns(s2);
    var s3 := Next(s2, StartUp(true));
    CancelWhileCounting(s3);
    hide Next, Possible, Requested, CountSent, Expecting;
    assert CANCELLED[2..][1..] == CANCELLED[3..];
    assert CANCELLED[3..] == [CancelDown(true), Receive(0, true), Receive(1, true)];
    assert CANCELLED == start + CANCELLED[2..];
    LegalConcat(s0, start, CANCELLED[2..]);
    CutIsRemembered(s0, CANCELLED);
    CutIsRemembered(s2, CANCELLED[2..]);
  }

  lemma NotYet<T>(s: System<T>)
    requires Requested(s)
    ensures s.deliveries == []
  {
  }

  lemma CancelWhileCounting<T>(s: System<T>)
    requires CountSent(s) && Expecting(s) && s.list.items == [] && s.up.value.started
    ensures var moves := [CancelDown(true), Receive(0, true), Receive(1, true)];
      && Legal(s, moves)
      && (var t := Run(s, moves);
          t.cut && (Success, Accepted) in t.reports && t.deliveries == [(Result.Cancelled, List("", 0, []))])
  {
    var t := Next(s, CancelDown(true));
    var left := ToUp(Acknowledge(Ack.Cancelled));
    assert t.net == [ToDown(Count(s.list.plan, s.list.syncId, 0)), left] && Without(t.net, 0) == [left];
    assert t.deliveries == [(Result.Cancelled, List("", 0, []))];
    LateCount(t);
    hide Next;
    TwoMoves(t, Receive(0, true), Receive(1, true));
    var moves: seq<Move> := [CancelDown(true), Receive(0, true), Receive(1, true)];
    assert moves[1..] == [Receive(0, true), Receive(1, true)];
  }

  /** A count reaches a cancelled download, and its acknowledgement the upload. */
  lemma LateCount<T>(s: System<T>)
    requires s.net == [ToDown(Count(s.list.plan, s.list.syncId, 0)), ToUp(Acknowledge(Ack.Cancelled))]
    requires !s.uploads && s.down.Some? && s.down.value.side == Ground && !s.down.value.callback
    requires s.down.value.sent == [] && s.down.value.calls == []
    requires s.up.Some? && s.up.value.list == s.list && s.list.items == [] && s.up.value.next == 0
    requires s.up.value.ackable && s.up.value.callback && s.up.value.sent == [] && s.up.value.calls == []
    ensures Possible(s, Receive(0, true)) && Possible(Next(s, Receive(0, true)), Receive(1, true))
    ensures var t := Next(Next(s, Receive(0, true)), Receive(1, true));
      t.cut == s.cut && (Success, Accepted) in t.reports && t.deliveries == s.deliveries
  {
    var left := ToUp(Acknowledge(Ack.Cancelled));
    assert Without(s.net, 0) == [left];
    var t := Next(s, Receive(0, true));
    assert t.net == [left, ToUp(Acknowledge(Accepted))];
    assert t.deliveries == s.deliveries && t.up == s.up && t.cut == s.cut;
    AcceptedArrives(t);
    hide Next;
  }

  lemma AcceptedArrives<T>(s: System<T>)
    requires |s.net| == 2 && s.net[1] == ToUp(Acknowledge(Accepted))
    requires s.up.Some? && s.up.value.next == |s.up.value.list.items|
    requires s.up.value.ackable && s.up.value.callback && s.up.value.sent == [] && s.up.value.calls == []
    ensures var t := Next(s, Receive(1, true));
      t.cut == s.cut && (Success, Accepted) in t.reports && t.deliveries == s.deliveries
  {
    AckEnds(s.up.value);
    hide Uploader.OnAck;
    assert Next(s, Receive(1, true)).reports == s.reports + [(Success, Accepted)];
  }
}
