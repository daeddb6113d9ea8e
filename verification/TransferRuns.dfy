/**
 What each end of a list transfer keeps over every run, whatever the other end does:
 messages and acknowledgements come in any order and number, and any armed timer fires.
 */
module TransferRuns {

  import opened Transfer
  import opened Download

  // ----- Runs of an upload work item -----

  datatype UpEvent =
    | UpStart(ok: bool)
    | UpCancel(ok: bool)
    | UpRead(index: u16, ok: bool)
    | UpAck(ack: Ack)
    | UpFire(timer: nat, ok: bool)

  /** The queue starts an item once; a timer fires only while it is armed. */
  predicate UpEnabled<T>(u: Uploader<T>, e: UpEvent) {
    (e.UpStart? ==> !u.started) && (e.UpFire? ==> e.timer in u.armed)
  }

  function UpStep<T>(u: Uploader<T>, e: UpEvent): (v: Uploader<T>)
    ensures v.side == u.side && v.list == u.list
  {
    match e
    case UpStart(ok) => u.Start(ok)
    case UpCancel(ok) => u.Cancel(ok)
    case UpRead(index, ok) => u.OnRead(index, ok)
    case UpAck(ack) => u.OnAck(ack)
    case UpFire(timer, ok) => u.Fired(timer, ok)
  }

  function UpRun<T>(u: Uploader<T>, events: seq<UpEvent>): (v: Uploader<T>)
    ensures v.side == u.side && v.list == u.list
  {
    if events == [] then u else UpStep(UpRun(u, events[..|events| - 1]), events[|events| - 1])
  }

  predicate UpLegal<T>(u: Uploader<T>, events: seq<UpEvent>) {
    events == [] ||
    (UpLegal(u, events[..|events| - 1]) && UpEnabled(UpRun(u, events[..|events| - 1]), events[|events| - 1]))
  }

  predicate HasItem<T>(sent: seq<Message<T>>, k: nat) {
    exists i :: 0 <= i < |sent| && sent[i].Item? && sent[i].index == k
  }

  predicate HasItems<T>(sent: seq<Message<T>>, count: nat) {
    forall k: nat :: k < count ==> HasItem(sent, k)
  }

  /** Every item message carries the list's element. */
  ghost predicate Faithful<T>(sent: seq<Message<T>>, items: seq<Entry<T>>) {
    forall i :: 0 <= i < |sent| && sent[i].Item? ==>
      sent[i].index < |items| && sent[i].item == items[sent[i].index].item
  }

  /** Every item message comes after the messages of all smaller ones. */
  predicate Sequenced<T>(sent: seq<Message<T>>) {
    forall i :: 0 <= i < |sent| && sent[i].Item? ==> HasItems(sent[..i], sent[i].index)
  }

  /** One call of the callback at most, and it is the end of the item. */
  ghost predicate Single<T>(u: Uploader<T>) {
    && u.done == !u.callback
    && |u.calls| == if u.done then 1 else 0
  }

  /** Exactly one armed timer while the item is at work, and never two. */
  predicate Watched<T>(u: Uploader<T>) {
    && u.armed <= {u.cookie}
    && 0 !in u.armed
    && (!u.started ==> u.armed == {})
    && (u.started && !u.done ==> u.armed == {u.cookie})
  }

  /** What an unfinished item has sent. */
  predicate Progress<T>(u: Uploader<T>) {
    Sequenced(u.sent) && HasItems(u.sent, u.next)
  }

  ghost predicate UpInv<T>(u: Uploader<T>) {
    && u.next <= |u.list.items| && u.retries <= RETRIES
    && Single(u) && Watched(u) && Faithful(u.sent, u.list.items)
    && (!u.done ==> Progress(u))
    && (u.done && u.calls[0].0 == Success ==> HasItems(u.sent, |u.list.items|))
  }

  lemma HasItemsSnoc<T>(sent: seq<Message<T>>, m: Message<T>, count: nat)
    requires HasItems(sent, count)
    ensures HasItems(sent + [m], if m.Item? && m.index == count then count + 1 else count)
  {
    forall k: nat | k < count ensures HasItem(sent + [m], k) {
      assert HasItem(sent, k);
      var i :| 0 <= i < |sent| && sent[i].Item? && sent[i].index == k;
      assert (sent + [m])[i] == sent[i];
    }
    if m.Item? && m.index == count {
      assert (sent + [m])[|sent|] == m;
    }
  }

  lemma SequencedSnoc<T>(sent: seq<Message<T>>, m: Message<T>)
    requires Sequenced(sent)
    requires m.Item? ==> HasItems(sent, m.index)
    ensures Sequenced(sent + [m])
  {
    var all := sent + [m];
    forall i | 0 <= i < |all| && all[i].Item? ensures HasItems(all[..i], all[i].index) {
      if i == |sent| {
        assert all[..i] == sent;
      } else {
        assert all[..i] == sent[..i];
      }
    }
  }

  /** A message that is not an item. */
  lemma SendKeeps<T>(u: Uploader<T>, m: Message<T>)
    requires UpInv(u) && !m.Item?
    ensures UpInv(u.(sent := u.sent + [m]))
  {
    hide HasItems, Sequenced;
    if !u.done {
      SequencedSnoc(u.sent, m);
      HasItemsSnoc(u.sent, m, u.next);
    } else if u.calls[0].0 == Success {
      HasItemsSnoc(u.sent, m, |u.list.items|);
    }
  }

  lemma FinishKeeps<T>(u: Uploader<T>, result: Result)
    requires UpInv(u) && (result == Success ==> u.next == |u.list.items|)
    ensures UpInv(u.Finish(result)) && UpInv(u.Disarm().Finish(result))
  {
    hide HasItems, Sequenced, Faithful;
  }

  lemma CountKeeps<T>(u: Uploader<T>, ok: bool)
    requires UpInv(u) && u.retries < RETRIES
    ensures UpInv(u.SendingCount(ok))
  {
    hide HasItems, Sequenced, Faithful;
    var m := Count(u.list.plan, u.list.syncId, |u.list.items| % WIDTH);
    SendKeeps(u, m);
    FinishKeeps(u, ConnectionError);
  }

  lemma ItemKeeps<T>(u: Uploader<T>, index: u16)
    requires UpInv(u) && index <= u.next && index < |u.list.items| && u.retries < RETRIES
    ensures UpInv(u.(next := index).SendingItem(true))
  {
    hide HasItems, Sequenced;
    var m := Item(index, u.list.items[index].item);
    if !u.done {
      assert HasItems(u.sent, index) by { Fewer(u.sent, u.next, index); }
      SequencedSnoc(u.sent, m);
      HasItemsSnoc(u.sent, m, index);
    } else if u.calls[0].0 == Success {
      HasItemsSnoc(u.sent, m, |u.list.items|);
    }
  }

  lemma Fewer<T>(sent: seq<Message<T>>, m: nat, n: nat)
    requires HasItems(sent, m) && n <= m
    ensures HasItems(sent, n)
  {
  }

  lemma ReadKeeps<T>(u: Uploader<T>, index: u16, ok: bool)
    requires UpInv(u)
    ensures UpInv(u.OnRead(index, ok))
  {
    hide HasItems, Sequenced, Faithful;
    if u.readable && index <= u.next {
      var v := u.(step := SendItems);
      if index < u.next && u.retries >= RETRIES {
        FinishKeeps(v, Timeout);
      } else {
        var w := v.(retries := if u.next > index then u.retries else 0);
        if !u.done { Fewer(u.sent, u.next, index); }
        if index < |u.list.items| {
          ItemKeeps(w, index);
          FinishKeeps(w, ConnectionError);
        }
      }
    }
  }

  lemma StartKeeps<T>(u: Uploader<T>, ok: bool)
    requires UpInv(u) && !u.started
    ensures UpInv(u.Start(ok))
  {
    hide HasItems, Sequenced, Faithful;
    if !u.done { Fewer(u.sent, u.next, 0); }
    if u.side == Ground {
      CountKeeps(u.(started := true, retries := 0, step := SendCount, next := 0).Arm(), ok);
    } else {
      var v := u.(started := true, ackable := true, retries := 0, step := SendCount).Arm();
      CountKeeps(v, ok);
      CountKeeps(v.(next := 0, readable := true), ok);
    }
  }

  lemma TimeoutKeeps<T>(u: Uploader<T>, timer: nat)
    requires UpInv(u) && timer in u.armed
    ensures UpInv(u.(armed := u.armed - {timer}).Finish(Timeout))
  {
    hide HasItems, Sequenced, Faithful;
  }

  lemma UpStepKeeps<T>(u: Uploader<T>, e: UpEvent)
    requires UpInv(u) && UpEnabled(u, e)
    ensures UpInv(UpStep(u, e))
  {
    hide HasItems, Sequenced, Faithful, Uploader.OnRead, Uploader.Start, Uploader.Finish, Uploader.SendingCount;
    match e
    case UpStart(ok) => StartKeeps(u, ok);
    case UpCancel(ok) =>
      SendKeeps(u, Acknowledge(Ack.Cancelled));
      FinishKeeps(u.(sent := u.sent + [Acknowledge(Ack.Cancelled)]), Result.Cancelled);
      FinishKeeps(u, ConnectionError);
    case UpRead(index, ok) => ReadKeeps(u, index, ok);
    case UpAck(ack) =>
      FinishKeeps(u.(ack := ack), if u.next == |u.list.items| then Success else ProtocolError);
    case UpFire(timer, ok) =>
      var v := u.(armed := u.armed - {timer});
      if u.side == Ground && u.retries < RETRIES && u.step == SendCount {
        CountKeeps(v.Arm(), ok);
      } else {
        TimeoutKeeps(u, timer);
      }
  }

  lemma {:induction false} UpInvariant<T>(side: Side, list: List<T>, events: seq<UpEvent>)
    requires UpLegal(NewUploader(side, list), events)
    ensures UpInv(UpRun(NewUploader(side, list), events))
    decreases |events|
  {
    if events != [] {
      UpInvariant(side, list, events[..|events| - 1]);
      UpStepKeeps(UpRun(NewUploader(side, list), events[..|events| - 1]), events[|events| - 1]);
    }
  }

  // ----- The order of the items -----

  /** The first sending of an item fails. */
  predicate Loses<T>(u: Uploader<T>, e: UpEvent) {
    && e.UpRead? && !e.ok && u.readable && e.index == u.next && u.next < |u.list.items|
    && !HasItem(u.sent, e.index)
  }

  predicate NoneLost<T>(u: Uploader<T>, events: seq<UpEvent>) {
    events == [] ||
    var before := events[..|events| - 1];
    NoneLost(u, before) && !Loses(UpRun(u, before), events[|events| - 1])
  }

  /** All along the run, items are sent in order and those before the position are sent. */
  predicate OrderKept<T>(u: Uploader<T>, events: seq<UpEvent>) {
    Progress(UpRun(u, events)) && (events == [] || OrderKept(u, events[..|events| - 1]))
  }

  lemma ReadProgress<T>(u: Uploader<T>, index: u16, ok: bool)
    requires Progress(u) && u.next <= |u.list.items|
    ensures Progress(u.OnRead(index, ok)) <==> !Loses(u, UpRead(index, ok))
  {
    hide Sequenced, HasItem, Uploader.AfterSend, Uploader.Disarm, Uploader.Finish;
    if u.readable && index <= u.next && index < |u.list.items| && (index == u.next || u.retries < RETRIES) {
      var m := Item(index, u.list.items[index].item);
      if ok {
        Fewer(u.sent, u.next, index);
        SequencedSnoc(u.sent, m);
        HasItemsSnoc(u.sent, m, index);
      } else if index == u.next {
        assert HasItems(u.sent, index + 1) <==> HasItem(u.sent, index);
      } else {
        Fewer(u.sent, u.next, index + 1);
      }
    }
  }

  lemma OtherProgress<T>(u: Uploader<T>, m: Message<T>)
    requires Progress(u) && !m.Item?
    ensures Sequenced(u.sent + [m]) && HasItems(u.sent + [m], u.next)
    ensures HasItems(u.sent + [m], 0) && HasItems(u.sent, 0)
  {
    hide HasItem, Sequenced;
    SequencedSnoc(u.sent, m);
    HasItemsSnoc(u.sent, m, u.next);
  }

  lemma ProgressStep<T>(u: Uploader<T>, e: UpEvent)
    requires Progress(u) && u.next <= |u.list.items|
    ensures Progress(UpStep(u, e)) <==> !Loses(u, e)
  {
    hide HasItems, Sequenced, InOrder;
    hide Uploader.OnRead, Uploader.AfterSend, Uploader.Disarm, Uploader.Arm, Uploader.Finish;
    match e
    case UpStart(_) => OtherProgress(u, Count(u.list.plan, u.list.syncId, |u.list.items| % WIDTH));
    case UpCancel(_) => OtherProgress(u, Acknowledge(Ack.Cancelled));
    case UpRead(index, ok) => ReadProgress(u, index, ok);
    case UpAck(_) =>
    case UpFire(_, _) => OtherProgress(u, Count(u.list.plan, u.list.syncId, |u.list.items| % WIDTH));
  }

  lemma LosingEnds<T>(u: Uploader<T>, e: UpEvent)
    ensures Loses(u, e) || u.done ==> UpStep(u, e).done
  {
    hide HasItem, InOrder, Uploader.AfterSend, Uploader.Disarm, Uploader.Arm, Uploader.Finish;
  }

  /** An upload that has not ended has lost nothing. */
  lemma {:induction false} NoneLostAtWork<T>(u: Uploader<T>, events: seq<UpEvent>)
    ensures !UpRun(u, events).done ==> NoneLost(u, events)
    decreases |events|
  {
    hide UpStep, Loses;
    if events != [] {
      NoneLostAtWork(u, events[..|events| - 1]);
      LosingEnds(UpRun(u, events[..|events| - 1]), events[|events| - 1]);
    }
  }

  /**
   All along a run the items are sent in order and everything before the position is sent,
   exactly if no first sending of an item fails.
   */
  lemma {:induction false} OrderIff<T>(side: Side, list: List<T>, events: seq<UpEvent>)
    requires UpLegal(NewUploader(side, list), events)
    ensures NoneLost(NewUploader(side, list), events) <==> OrderKept(NewUploader(side, list), events)
    decreases |events|
  {
    hide UpStep, Loses, Progress, UpLegal;
    var u := NewUploader(side, list);
    if events == [] {
      NothingSent(u);
    } else {
      var before := events[..|events| - 1];
      Shorter(u, events);
      OrderIff(side, list, before);
      UpInvariant(side, list, before);
      if OrderKept(u, before) {
        ProgressStep(UpRun(u, before), events[|events| - 1]);
      }
    }
  }

  lemma Shorter<T>(u: Uploader<T>, events: seq<UpEvent>)
    requires UpLegal(u, events) && events != []
    ensures UpLegal(u, events[..|events| - 1])
  {
  }

  lemma NothingSent<T>(u: Uploader<T>)
    requires u.sent == [] && u.next == 0
    ensures Progress(u)
  {
  }

  /** A read of any item that is answered keeps the order exactly if all smaller items have been sent. */
  lemma AnswerInOrderIff<T>(u: Uploader<T>, index: u16)
    requires Sequenced(u.sent) && u.readable && index <= u.next && index < |u.list.items|
    requires index == u.next || u.retries < RETRIES
    ensures Sequenced(u.OnRead(index, true).sent) <==> HasItems(u.sent, index)
  {
    hide HasItems;
    var m := Item(index, u.list.items[index].item);
    var all := u.OnRead(index, true).sent;
    assert all == u.sent + [m] && all[..|u.sent|] == u.sent;
    if HasItems(u.sent, index) {
      SequencedSnoc(u.sent, m);
    } else {
      assert all[|u.sent|] == m;
    }
  }

  /** A read that is answered with its item. */
  predicate Answered<T>(u: Uploader<T>, e: UpEvent) {
    && e.UpRead? && e.ok && u.readable && e.index <= u.next && e.index < |u.list.items|
    && (e.index == u.next || u.retries < RETRIES)
  }

  /** Every answered read of the run finds all smaller items sent. */
  predicate AllAnswersInOrder<T>(u: Uploader<T>, events: seq<UpEvent>) {
    events == [] ||
    var before, e := events[..|events| - 1], events[|events| - 1];
    var v := UpRun(u, before);
    AllAnswersInOrder(u, before) && (Answered(v, e) ==> HasItems(v.sent, e.index))
  }

  lemma SequencedPrefix<T>(sent: seq<Message<T>>, m: Message<T>)
    requires Sequenced(sent + [m])
    ensures Sequenced(sent)
  {
    var all := sent + [m];
    forall i | 0 <= i < |sent| && sent[i].Item? ensures HasItems(sent[..i], sent[i].index) {
      assert all[i] == sent[i] && all[..i] == sent[..i];
    }
  }

  /** Without an answered read, nothing is sent but a count or an acknowledgement. */
  lemma UnansweredSends<T>(u: Uploader<T>, e: UpEvent) returns (m: Message<T>)
    requires !Answered(u, e)
    ensures UpStep(u, e).sent == u.sent || (UpStep(u, e).sent == u.sent + [m] && !m.Item?)
  {
    hide InOrder, Uploader.AfterSend, Uploader.Finish, Uploader.Arm, Uploader.Disarm;
    m := if e.UpCancel? then Acknowledge(Ack.Cancelled)
         else Count(u.list.plan, u.list.syncId, |u.list.items| % WIDTH);
  }

  /** One step keeps the order exactly if an answer it gives is in order. */
  lemma OrderStepIff<T>(u: Uploader<T>, e: UpEvent)
    ensures Sequenced(UpStep(u, e).sent) <==> Sequenced(u.sent) && (Answered(u, e) ==> HasItems(u.sent, e.index))
  {
    hide HasItems, Sequenced, UpStep;
    if Answered(u, e) {
      AnsweredSends(u, e);
      SequencedSnocIff(u.sent, Item(e.index, u.list.items[e.index].item));
    } else {
      var m := UnansweredSends(u, e);
      SequencedSnocIff(u.sent, m);
    }
  }

  lemma AnsweredSends<T>(u: Uploader<T>, e: UpEvent)
    requires Answered(u, e)
    ensures UpStep(u, e).sent == u.sent + [Item(e.index, u.list.items[e.index].item)]
  {
  }

  lemma SequencedSnocIff<T>(sent: seq<Message<T>>, m: Message<T>)
    ensures Sequenced(sent + [m]) <==> Sequenced(sent) && (m.Item? ==> HasItems(sent, m.index))
  {
    hide HasItems;
    if Sequenced(sent + [m]) {
      SequencedPrefix(sent, m);
      if m.Item? {
        assert (sent + [m])[|sent|] == m && (sent + [m])[..|sent|] == sent;
      }
    } else if Sequenced(sent) && (m.Item? ==> HasItems(sent, m.index)) {
      SequencedSnoc(sent, m);
    }
  }

  /** The items of a run are sent in order exactly if every read that is answered finds all smaller items sent. */
  lemma {:induction false} SentInOrderIff<T>(side: Side, list: List<T>, events: seq<UpEvent>)
    ensures Sequenced(UpRun(NewUploader(side, list), events).sent)
            <==> AllAnswersInOrder(NewUploader(side, list), events)
    decreases |events|
  {
    hide UpStep, Answered, HasItems;
    if events != [] {
      var u, before := NewUploader(side, list), events[..|events| - 1];
      SentInOrderIff(side, list, before);
      OrderStepIff(UpRun(u, before), events[|events| - 1]);
      hide Sequenced;
    }
  }

  /** An item whose first sending fails is passed by when the next one is read. */
  lemma LostItem<T>(side: Side, list: List<T>)
    requires InOrder(list.items) && |list.items| >= 2
    ensures var events := [UpStart(true), UpRead(0, false), UpRead(1, true)];
      UpLegal(NewUploader(side, list), events) && !Sequenced(UpRun(NewUploader(side, list), events).sent)
  {
    var u := NewUploader(side, list);
    var one: seq<UpEvent> := [UpStart(true)];
    var two: seq<UpEvent> := [UpStart(true), UpRead(0, false)];
    var three: seq<UpEvent> := [UpStart(true), UpRead(0, false), UpRead(1, true)];
    assert one[..0] == [] && two[..1] == one && three[..2] == two;
    var v := u.Start(true);
    assert v.next == 0 && v.readable && v.sent == [Count(list.plan, list.syncId, |list.items| % WIDTH)];
    var w := v.OnRead(0, false);
    assert w.next == 1 && w.readable && w.sent == v.sent && !HasItem(w.sent, 0) && !HasItems(w.sent, 1);
    assert UpRun(u, []) == u && UpRun(u, one) == v && UpRun(u, two) == w;
    assert one[..|one| - 1] == [] && UpEnabled(UpRun(u, []), one[|one| - 1]) && UpLegal(u, one);
    assert UpLegal(u, two);
    AnswerInOrderIff(w, 1);
    assert UpRun(u, three) == w.OnRead(1, true);
  }

  /** An upload over any run: what it has sent, what it reports and which timers it has. */
  lemma UploadSafe<T>(side: Side, list: List<T>, events: seq<UpEvent>)
    requires UpLegal(NewUploader(side, list), events)
    ensures var u, n := UpRun(NewUploader(side, list), events), |list.items|;
      && u.next <= n
      && Faithful(u.sent, list.items)
      && (NoneLost(NewUploader(side, list), events) ==> Sequenced(u.sent) && HasItems(u.sent, u.next))
      && (!u.done ==> NoneLost(NewUploader(side, list), events))
      && ((forall e :: e in events && e.UpRead? ==> e.ok) ==> NoneLost(NewUploader(side, list), events))
      && |u.calls| <= 1 && (u.done <==> u.calls != [])
      && (forall c :: c in u.calls && c.0 == Success ==> HasItems(u.sent, n))
      && |u.armed| <= 1 && (u.started && !u.done ==> u.armed == {u.cookie})
  {
    hide HasItems, Sequenced, Faithful, UpRun, UpLegal, NoneLost;
    UpInvariant(side, list, events);
    OrderIff(side, list, events);
    NoneLostAtWork(NewUploader(side, list), events);
    AllSent(NewUploader(side, list), events);
    var u := UpRun(NewUploader(side, list), events);
    SubsetSize(u.armed, {u.cookie});
  }

  lemma SubsetSize(a: set<nat>, b: set<nat>)
    requires a <= b
    ensures |a| <= |b|
  {
    if a != {} {
      var x :| x in a;
      SubsetSize(a - {x}, b - {x});
    }
  }

  lemma {:induction false} AllSent<T>(u: Uploader<T>, events: seq<UpEvent>)
    ensures (forall e :: e in events && e.UpRead? ==> e.ok) ==> NoneLost(u, events)
    decreases |events|
  {
    if events != [] {
      AllSent(u, events[..|events| - 1]);
    }
  }

  // ----- Retransmissions -----

  /** Whether the last thing sent is a count or an item that was not sent before. */
  function Transmitted<T>(before: seq<Message<T>>, after: seq<Message<T>>): nat {
    if |after| > |before| && !after[|after| - 1].Acknowledge? then 1 else 0
  }

  /** The start, and every read that asks for the next item. */
  predicate Renews<T>(u: Uploader<T>, e: UpEvent) {
    e.UpStart? || (e.UpRead? && u.readable && e.index == u.next)
  }

  /** How many counts and items were sent since the last event that renews the retries. */
  function Repeats<T>(u: Uploader<T>, events: seq<UpEvent>): nat {
    if events == [] then 0 else
    var before, e := events[..|events| - 1], events[|events| - 1];
    var v := UpRun(u, before);
    Transmitted(v.sent, UpStep(v, e).sent) + if Renews(v, e) then 0 else Repeats(u, before)
  }

  lemma RepeatsStart<T>(u: Uploader<T>, ok: bool)
    requires u.retries <= RETRIES
    ensures Transmitted(u.sent, u.Start(ok).sent) <= u.Start(ok).retries
  {
    hide InOrder, Uploader.Arm, Uploader.Finish, Uploader.AfterSend;
  }

  lemma RepeatsRead<T>(u: Uploader<T>, index: u16, ok: bool, repeats: nat)
    requires repeats <= u.retries
    ensures
      Transmitted(u.sent, u.OnRead(index, ok).sent) + (if u.readable && index == u.next then 0 else repeats)
      <= u.OnRead(index, ok).retries
  {
    hide Uploader.Disarm, Uploader.Finish, Uploader.AfterSend;
  }

  lemma RepeatsStep<T>(u: Uploader<T>, e: UpEvent, repeats: nat)
    requires u.retries <= RETRIES && repeats <= u.retries
    ensures Transmitted(u.sent, UpStep(u, e).sent) + (if Renews(u, e) then 0 else repeats) <= UpStep(u, e).retries
  {
    hide Uploader.Start, Uploader.OnRead, Uploader.Disarm, Uploader.Arm, Uploader.Finish, Uploader.AfterSend;
    match e
    case UpStart(ok) => RepeatsStart(u, ok);
    case UpRead(index, ok) => RepeatsRead(u, index, ok, repeats);
    case UpCancel(_) =>
    case UpAck(_) =>
    case UpFire(_, _) =>
  }

  /** At most four transmissions follow the start or the last in-order request. */
  lemma {:induction false} RetriesBounded<T>(side: Side, list: List<T>, events: seq<UpEvent>)
    requires UpLegal(NewUploader(side, list), events)
    ensures Repeats(NewUploader(side, list), events) <= UpRun(NewUploader(side, list), events).retries <= RETRIES
    decreases |events|
  {
    UpInvariant(side, list, events);
    if events != [] {
      var u, before := NewUploader(side, list), events[..|events| - 1];
      RetriesBounded(side, list, before);
      UpInvariant(side, list, before);
      RepeatsStep(UpRun(u, before), events[|events| - 1], Repeats(u, before));
    }
  }

  // ----- Runs of a download work item -----

  datatype DownEvent<T> =
    | DownStart(ok: bool)
    | DownCancel(ok: bool)
    | DownCount(plan: string, syncId: nat, count: u16, ok: bool)
    | DownItem(index: u16, item: T, ok: bool)
    | DownFire(timer: nat, ok: bool)

  predicate DownEnabled<T>(d: Downloader<T>, e: DownEvent<T>) {
    (e.DownStart? ==> !d.started) && (e.DownFire? ==> e.timer in d.armed)
  }

  function DownStep<T>(d: Downloader<T>, e: DownEvent<T>): Downloader<T> {
    match e
    case DownStart(ok) => d.Start(ok)
    case DownCancel(ok) => d.Cancel(ok)
    case DownCount(plan, syncId, count, ok) => d.OnCount(plan, syncId, count, ok)
    case DownItem(index, item, ok) => d.OnItem(index, item, ok)
    case DownFire(timer, ok) => d.Fired(timer, ok)
  }

  function DownRun<T>(d: Downloader<T>, events: seq<DownEvent<T>>): Downloader<T> {
    if events == [] then d else DownStep(DownRun(d, events[..|events| - 1]), events[|events| - 1])
  }

  predicate DownLegal<T>(d: Downloader<T>, events: seq<DownEvent<T>>) {
    events == [] ||
    (DownLegal(d, events[..|events| - 1]) && DownEnabled(DownRun(d, events[..|events| - 1]), events[|events| - 1]))
  }

  ghost predicate DownInv<T>(d: Downloader<T>) {
    && d.retries <= RETRIES
    && d.done == !d.callback && |d.calls| == (if d.done then 1 else 0)
    && d.armed <= {d.cookie} && 0 !in d.armed
    && (!d.started ==> d.armed == {})
    && (d.started && !d.done ==> d.armed == {d.cookie})
  }

  /** The start, and every count or item that the download acts on. */
  predicate Answers<T>(d: Downloader<T>, e: DownEvent<T>) {
    e.DownStart? || (e.DownCount? && d.side == Ground) || (e.DownItem? && d.listening)
  }

  /** How many requests were sent since the last event that renews the retries. */
  function Asked<T>(d: Downloader<T>, events: seq<DownEvent<T>>): nat {
    if events == [] then 0 else
    var before, e := events[..|events| - 1], events[|events| - 1];
    var c := DownRun(d, before);
    Transmitted(c.sent, DownStep(c, e).sent) + if Answers(c, e) then 0 else Asked(d, before)
  }

  lemma AskKeeps<T>(d: Downloader<T>, m: Message<T>, ok: bool)
    requires DownInv(d) && d.retries < RETRIES
    ensures DownInv(d.AfterSend(m, ok))
  {
  }

  lemma FinishedKeeps<T>(d: Downloader<T>, result: Result)
    requires DownInv(d)
    ensures DownInv(d.Finish(result)) && DownInv(d.Disarm().Finish(result))
    ensures DownInv(d.Finish(result).Disarm())
  {
  }

  lemma EndKeeps<T>(d: Downloader<T>, ack: Ack, result: Result, ok: bool)
    requires DownInv(d)
    ensures DownInv(d.Finish(result)) && DownInv(d.Disarm().Finish(result))
    ensures DownInv(d.Disarm().Closing(ack, result, ok)) && DownInv(d.Closing(ack, result, ok).Disarm())
  {
    hide Downloader.Finish;
    FinishedKeeps(d, result);
    FinishedKeeps(d, ConnectionError);
    FinishedKeeps(d.(sent := d.sent + [Acknowledge(ack)]), result);
  }

  lemma DownStepKeeps<T>(d: Downloader<T>, e: DownEvent<T>)
    requires DownInv(d) && DownEnabled(d, e)
    ensures DownInv(DownStep(d, e))
  {
    hide Downloader.AfterSend, Downloader.Finish, Downloader.Closing;
    match e
    case DownStart(ok) =>
      if d.side == Ground {
        AskKeeps(d.(list := List("", 0, []), started := true, retries := 0).Arm(), Request, ok);
      } else if d.expected == 0 {
        StartedEmpty(d);
      } else {
        AskKeeps(d.(started := true, listening := true, list := d.list.(items := []), retries := 0, next := 0).Arm(),
                 Read(0), ok);
      }
    case DownCancel(ok) => EndKeeps(d, Ack.Cancelled, Result.Cancelled, ok);
    case DownCount(plan, syncId, count, ok) =>
      EndKeeps(d, Accepted, Success, ok);
      AskKeeps(d.(next := 0, step := RequestItem, retries := 0, expected := count,
                  list := d.list.(plan := plan, syncId := syncId)), Read(0), ok);
    case DownItem(index, item, ok) =>
      var c := d.(list := d.list.(items := d.list.items + [Entry(index, item)]));
      EndKeeps(c, Accepted, Success, ok);
      AskKeeps(c.(next := index + 1, retries := 0), Read((index + 1) % WIDTH), ok);
    case DownFire(timer, ok) =>
      FireKeeps(d, timer, ok);
  }

  lemma StartedEmpty<T>(d: Downloader<T>)
    requires DownInv(d) && !d.started
    ensures DownInv(d.(started := true, listening := true).Finish(Success))
  {
  }

  lemma FireKeeps<T>(d: Downloader<T>, timer: nat, ok: bool)
    requires DownInv(d) && timer in d.armed
    ensures DownInv(d.Fired(timer, ok))
  {
  }

  lemma AskedStep<T>(d: Downloader<T>, e: DownEvent<T>, asked: nat)
    requires asked <= d.retries
    ensures
      var d' := DownStep(d, e);
      Transmitted(d.sent, d'.sent) + (if Answers(d, e) then 0 else asked) <= d'.retries
  {
    hide Downloader.Disarm, Downloader.Finish, Downloader.AfterSend, Downloader.Closing, Downloader.OnItem;
    match e
    case DownStart(_) =>
    case DownCancel(_) =>
    case DownCount(_, _, _, _) =>
    case DownItem(index, item, ok) => AskedItem(d, index, item, ok, asked);
    case DownFire(_, _) =>
  }

  lemma AskedItem<T>(d: Downloader<T>, index: u16, item: T, ok: bool, asked: nat)
    requires asked <= d.retries
    ensures var d' := d.OnItem(index, item, ok);
      Transmitted(d.sent, d'.sent) + (if d.listening then 0 else asked) <= d'.retries
  {
    hide Downloader.Disarm, Downloader.Finish, Downloader.AfterSend, Downloader.Closing;
  }

  /**
   A download over any run: one call of the callback at most, one armed timer while it
   is at work, and at most four requests in a row without an answer.
   */
  lemma {:induction false} DownloadSafe<T>(side: Side, count: u16, events: seq<DownEvent<T>>)
    requires DownLegal(NewDownloader(side, count), events)
    ensures var d := DownRun(NewDownloader(side, count), events);
      && DownInv(d)
      && |d.calls| <= 1 && (d.done <==> d.calls != [])
      && (d.started && !d.done ==> d.armed == {d.cookie})
      && Asked(NewDownloader(side, count), events) <= d.retries <= RETRIES
    decreases |events|
  {
    if events != [] {
      var d, before := NewDownloader<T>(side, count), events[..|events| - 1];
      DownloadSafe(side, count, before);
      DownStepKeeps(DownRun(d, before), events[|events| - 1]);
      AskedStep(DownRun(d, before), events[|events| - 1], Asked(d, before));
    }
  }

  // ----- A silent peer -----

  /** The timers of a download fire `k` times, and nothing else happens. */
  function DownSilence<T>(d: Downloader<T>, k: nat): Downloader<T> {
    if k == 0 then d else
    var c := DownSilence(d, k - 1);
    if c.done then c else c.Fired(c.cookie, true)
  }

  function UpSilence<T>(u: Uploader<T>, k: nat): Uploader<T> {
    if k == 0 then u else
    var v := UpSilence(u, k - 1);
    if v.done then v else v.Fired(v.cookie, true)
  }

  lemma SilentStep<T>(d: Downloader<T>)
    requires DownInv(d) && d.started && !d.done
    ensures var c := d.Fired(d.cookie, true);
      if d.retries >= RETRIES then c.done && c.calls == [(Timeout, d.list)] && c.armed == {}
      else
        && DownInv(c) && c.started && !c.done && c.retries == d.retries + 1 && c.step == d.step && c.next == d.next
        && c.calls == [] && c.list == d.list
        && c.sent == d.sent + [if d.step == RequestList then Request else Read(d.next % WIDTH)]
  {
  }

  /** The request that a download waits for, `k` times. */
  function Requests<T>(d: Downloader<T>, k: nat): seq<Message<T>> {
    seq(k, _ => if d.step == RequestList then Request else Read(d.next % WIDTH))
  }

  lemma RequestsMore<T>(d: Downloader<T>, k: nat)
    requires k > 0
    ensures d.sent + Requests(d, k - 1) + [if d.step == RequestList then Request else Read(d.next % WIDTH)]
            == d.sent + Requests(d, k)
  {
  }

  /** However far a download is, its last request is repeated to the fourth, and then it times out. */
  lemma {:induction false} SilentDownload<T>(d: Downloader<T>, k: nat)
    requires DownInv(d) && d.started && !d.done
    ensures var c := DownSilence(d, k);
      if k <= RETRIES - d.retries then
        && DownInv(c) && c.started && !c.done && c.retries == d.retries + k && c.step == d.step && c.next == d.next
        && c.calls == [] && c.list == d.list
        && c.sent == d.sent + Requests(d, k)
      else
        c.done && c.calls == [(Timeout, d.list)] && c.armed == {}
    decreases k
  {
    hide DownInv, Downloader.Fired;
    if k > 0 {
      hide Requests;
      SilentDownload(d, k - 1);
      if k - 1 <= RETRIES - d.retries {
        SilentStep(DownSilence(d, k - 1));
        RequestsMore(d, k);
      }
    } else {
      assert DownSilence(d, 0) == d;
      NoCalls(d);
    }
  }

  lemma NoCalls<T>(d: Downloader<T>)
    requires DownInv(d) && !d.done
    ensures d.calls == [] && d.retries <= RETRIES
  {
  }

  /** An upload that has started on the ground repeats its count to the fourth, and then times out. */
  lemma {:induction false} SilentUpload<T>(u: Uploader<T>, k: nat)
    requires UpInv(u) && u.started && !u.done && u.side == Ground && u.step == SendCount
    ensures var v := UpSilence(u, k);
      if k <= RETRIES - u.retries then
        && v.started && !v.done && v.retries == u.retries + k && v.step == SendCount && v.armed == {v.cookie}
        && v.calls == [] && v.list == u.list && v.side == Ground && v.ack == u.ack && v.callback
        && v.sent == u.sent + seq(k, i => Count(u.list.plan, u.list.syncId, |u.list.items| % WIDTH))
      else
        v.done && v.calls == [(Timeout, u.ack)] && v.armed == {}
    decreases k
  {
    hide HasItems, Sequenced, Faithful;
    if k > 0 {
      SilentUpload(u, k - 1);
    }
  }

  /** After an item was asked for, or on the robot, the first silence of a timer's length ends an upload. */
  lemma SilentReader<T>(u: Uploader<T>)
    requires UpInv(u) && u.started && !u.done && (u.side == Robot || u.step == SendItems)
    ensures var v := u.Fired(u.cookie, true);
      v.done && v.calls == [(Timeout, u.ack)] && v.armed == {} && v.sent == u.sent
  {
  }

  /** From its first request a download survives three firings and ends with the fourth. */
  lemma SilentFromStart<T>(side: Side, count: u16, k: nat)
    requires side == Robot ==> count > 0
    ensures var d := DownSilence(NewDownloader<T>(side, count).Start(true), k);
      && (d.done <==> k >= RETRIES)
      && (d.done ==> d.calls == [(Timeout, List("", 0, []))])
  {
    var d := NewDownloader<T>(side, count);
    DownStepKeeps(d, DownStart(true));
    SilentDownload(d.Start(true), k);
  }

  // ----- The work items in place, driven by events -----

  /** Whatever happens to an upload work item, the object keeps what is promised of its runs. */
  method DriveUpload<T>(side: Side, list: List<T>, events: seq<UpEvent>) returns (w: UploadWorkItem<T>)
    requires UpLegal(NewUploader(side, list), events)
    ensures fresh(w) && w.View() == UpRun(NewUploader(side, list), events)
    ensures w.next <= |list.items| && Faithful(w.sent, list.items)
    ensures !w.done || NoneLost(NewUploader(side, list), events) ==> Sequenced(w.sent) && HasItems(w.sent, w.next)
    ensures |w.calls| <= 1 && (w.done <==> w.calls != [])
    ensures forall c :: c in w.calls && c.0 == Success ==> HasItems(w.sent, |list.items|)
    ensures w.started && !w.done ==> w.armed == {w.cookie}
    ensures Repeats(NewUploader(side, list), events) <= RETRIES
  {
    hide UpLegal, UpRun, HasItems, Sequenced, Faithful, Repeats, NoneLost;
    w := new UploadWorkItem<T>(side, list);
    UpRunNothing(NewUploader(side, list));
    for i := 0 to |events|
      invariant fresh(w) && w.View() == UpRun(NewUploader(side, list), events[..i])
    {
      UpRunMore(NewUploader(side, list), events, i);
      match events[i]
      case UpStart(ok) => w.Start(ok);
      case UpCancel(ok) => w.Cancel(ok);
      case UpRead(index, ok) => w.ProcessRead(index, ok);
      case UpAck(ack) => w.ProcessAck(ack);
      case UpFire(timer, ok) => w.Fire(timer, ok);
    }
    assert events[..|events|] == events;
    UploadSafe(side, list, events);
    RetriesBounded(side, list, events);
  }

  lemma UpRunNothing<T>(u: Uploader<T>)
    ensures UpRun(u, []) == u
  {
  }

  lemma UpRunMore<T>(u: Uploader<T>, events: seq<UpEvent>, i: nat)
    requires i < |events|
    ensures UpRun(u, events[..i + 1]) == UpStep(UpRun(u, events[..i]), events[i])
  {
    assert events[..i + 1][..i] == events[..i];
  }

  /** Whatever happens to a download work item, the object keeps what is promised of its runs. */
  method DriveDownload<T>(side: Side, count: u16, events: seq<DownEvent<T>>) returns (w: DownloadWorkItem<T>)
    requires DownLegal(NewDownloader(side, count), events)
    ensures fresh(w) && w.View() == DownRun(NewDownloader(side, count), events)
    ensures |w.calls| <= 1 && (w.done <==> w.calls != [])
    ensures w.started && !w.done ==> w.armed == {w.cookie}
    ensures Asked(NewDownloader(side, count), events) <= w.retries <= RETRIES
  {
    hide DownLegal, DownRun, Asked;
    w := new DownloadWorkItem<T>(side, count);
    DownRunNothing(NewDownloader<T>(side, count));
    for i := 0 to |events|
      invariant fresh(w) && w.View() == DownRun(NewDownloader(side, count), events[..i])
    {
      DownRunMore(NewDownloader<T>(side, count), events, i);
      match events[i]
      case DownStart(ok) => w.Start(ok);
      case DownCancel(ok) => w.Cancel(ok);
      case DownCount(plan, syncId, n, ok) => w.ProcessCount(plan, syncId, n, ok);
      case DownItem(index, item, ok) => w.ProcessItem(index, item, ok);
      case DownFire(timer, ok) => w.Fire(timer, ok);
    }
    assert events[..|events|] == events;
    DownloadSafe(side, count, events);
  }

  lemma DownRunNothing<T>(d: Downloader<T>)
    ensures DownRun(d, []) == d
  {
  }

  lemma DownRunMore<T>(d: Downloader<T>, events: seq<DownEvent<T>>, i: nat)
    requires i < |events|
    ensures DownRun(d, events[..i + 1]) == DownStep(DownRun(d, events[..i]), events[i])
  {
    assert events[..i + 1][..i] == events[..i];
  }
}
