/**
 What a list transfer reports to its user, and which event makes it report: over every run
 of one work item, whatever the other end does.
 */
module TransferReports {

  import opened Transfer
  import opened Download
  import opened TransferRuns

  // ----- Uploads -----

  /** The position behind the last item that was sent, if one was sent since the last count. */
  function Reached<T>(sent: seq<Message<T>>): nat {
    if sent == [] then 0
    else
      match sent[|sent| - 1]
      case Item(index, _) => index + 1
      case Count(_, _, _) => 0
      case _ => Reached(sent[..|sent| - 1])
  }

  predicate Started(events: seq<UpEvent>) {
    exists i :: 0 <= i < |events| && events[i].UpStart?
  }

  /** Whether a read has come in since the start. */
  predicate ReadSinceStart(events: seq<UpEvent>) {
    events != [] &&
    (events[|events| - 1].UpRead? || (!events[|events| - 1].UpStart? && ReadSinceStart(events[..|events| - 1])))
  }

  /** The ground side hears messages from construction on, the robot side once it is started. */
  predicate Hears(side: Side, events: seq<UpEvent>) {
    side == Ground || Started(events)
  }

  /**
   What an upload that is still at work reports when an event comes, given the events before,
   the messages it has sent and how often it has sent since the start or the last request in
   order.
   */
  function UpReport<T>(side: Side, list: List<T>, before: seq<UpEvent>, sent: seq<Message<T>>, tries: nat, e: UpEvent)
    : seq<(Result, Ack)>
  {
    match e
    case UpStart(ok) =>
      if !InOrder(list.items) then [(Result.InvalidSequence, Unknown)]
      else if ok then [] else [(ConnectionError, Unknown)]
    case UpCancel(ok) => [(if ok then Result.Cancelled else ConnectionError, Unknown)]
    case UpRead(index, ok) =>
      if !Hears(side, before) || index > Reached(sent) then []
      else if index < Reached(sent) && tries >= 4 then [(Timeout, Unknown)]
      else if index < |list.items| && !ok then [(ConnectionError, Unknown)]
      else []
    case UpAck(ack) =>
      if !Hears(side, before) then []
      else [(if Reached(sent) == |list.items| then Success else ProtocolError, ack)]
    case UpFire(_, ok) =>
      if side == Robot || ReadSinceStart(before) || tries >= 4 then [(Timeout, Unknown)]
      else if ok then [] else [(ConnectionError, Unknown)]
  }

  /** What such an upload sends, if the sender takes it. */
  function UpSends<T>(side: Side, list: List<T>, before: seq<UpEvent>, sent: seq<Message<T>>, tries: nat, e: UpEvent)
    : seq<Message<T>>
  {
    var count := Count(list.plan, list.syncId, |list.items| % WIDTH);
    match e
    case UpStart(ok) => if InOrder(list.items) && ok then [count] else []
    case UpCancel(ok) => if ok then [Acknowledge(Ack.Cancelled)] else []
    case UpRead(index, ok) =>
      if Hears(side, before) && (index == Reached(sent) || (index < Reached(sent) && tries < 4))
         && index < |list.items| && ok
      then [Item(index, list.items[index].item)] else []
    case UpAck(_) => []
    case UpFire(_, ok) => if side == Ground && !ReadSinceStart(before) && tries < 4 && ok then [count] else []
  }

  /** An upload at work, as far as it can be told from outside. */
  ghost predicate UpKnown<T>(u: Uploader<T>, events: seq<UpEvent>, tries: nat) {
    && u.callback == !u.done && (!u.started ==> u.armed == {}) && u.started == Started(events)
    && (!u.done ==>
          && u.calls == [] && u.ack == Unknown && u.next == Reached(u.sent) <= |u.list.items| && u.retries == tries <= 4
          && u.ackable == Hears(u.side, events)
          && (u.side == Ground ==> u.readable)
          && (u.side == Robot ==> u.readable == (u.started && u.list.items != []))
          && (u.started ==> InOrder(u.list.items) && (!ReadSinceStart(events) ==> u.next == 0))
          && (u.started && u.side == Ground ==> u.step == if ReadSinceStart(events) then SendItems else SendCount))
  }

  lemma StartedMore(events: seq<UpEvent>)
    requires events != []
    ensures Started(events) <==> Started(events[..|events| - 1]) || events[|events| - 1].UpStart?
  {
    var before := events[..|events| - 1];
    if Started(before) {
      var i :| 0 <= i < |before| && before[i].UpStart?;
      assert events[i].UpStart?;
    }
    if Started(events) {
      var i :| 0 <= i < |events| && events[i].UpStart?;
      assert i < |before| ==> before[i].UpStart?;
    }
  }

  /** One event on an upload: what is told of it afterwards, and what it reports. */
  ghost predicate UpFollows<T>(u: Uploader<T>, v: Uploader<T>, before: seq<UpEvent>, tries: nat, e: UpEvent) {
    && UpKnown(v, before + [e], Transmitted(u.sent, v.sent) + if Renews(u, e) then 0 else tries)
    && v.calls == u.calls + (if u.done then [] else UpReport(u.side, u.list, before, u.sent, tries, e))
    && (!u.done ==> v.sent == u.sent + UpSends(u.side, u.list, before, u.sent, tries, e))
  }

  lemma SnocReached<T>(sent: seq<Message<T>>, m: Message<T>)
    ensures Reached(sent + [m]) == if m.Item? then m.index + 1 else if m.Count? then 0 else Reached(sent)
  {
    assert (sent + [m])[..|sent|] == sent;
  }

  lemma SnocEvents(before: seq<UpEvent>, e: UpEvent)
    ensures Started(before + [e]) <==> Started(before) || e.UpStart?
    ensures ReadSinceStart(before + [e]) <==> e.UpRead? || (!e.UpStart? && ReadSinceStart(before))
  {
    assert (before + [e])[..|before|] == before;
    StartedMore(before + [e]);
  }

  lemma UpStarts<T>(u: Uploader<T>, before: seq<UpEvent>, tries: nat, ok: bool)
    requires UpKnown(u, before, tries) && !u.started
    ensures UpFollows(u, u.Start(ok), before, tries, UpStart(ok))
  {
    hide InOrder, Reached, Started, ReadSinceStart;
    SnocEvents(before, UpStart(ok));
    SnocReached(u.sent, Count(u.list.plan, u.list.syncId, |u.list.items| % WIDTH));
    NoneOutOfOrder(u.list.items);
  }

  lemma NoneOutOfOrder<T>(items: seq<Entry<T>>)
    ensures items == [] ==> InOrder(items)
  {
  }

  lemma UpReads<T>(u: Uploader<T>, before: seq<UpEvent>, tries: nat, index: u16, ok: bool)
    requires UpKnown(u, before, tries)
    ensures UpFollows(u, u.OnRead(index, ok), before, tries, UpRead(index, ok))
  {
    if u.readable && index <= u.next && (index == u.next || u.retries < RETRIES) && index < |u.list.items| {
      UpAnswers(u, before, tries, index, ok);
    } else {
      UpIgnores(u, before, tries, index, ok);
    }
  }

  lemma UpAnswers<T>(u: Uploader<T>, before: seq<UpEvent>, tries: nat, index: u16, ok: bool)
    requires UpKnown(u, before, tries)
    requires u.readable && index <= u.next && (index == u.next || u.retries < RETRIES) && index < |u.list.items|
    ensures UpFollows(u, u.OnRead(index, ok), before, tries, UpRead(index, ok))
  {
    hide InOrder, Reached, Started, ReadSinceStart;
    SnocEvents(before, UpRead(index, ok));
    SnocReached(u.sent, Item(index, u.list.items[index].item));
  }

  lemma UpIgnores<T>(u: Uploader<T>, before: seq<UpEvent>, tries: nat, index: u16, ok: bool)
    requires UpKnown(u, before, tries)
    requires !(u.readable && index <= u.next && (index == u.next || u.retries < RETRIES) && index < |u.list.items|)
    ensures UpFollows(u, u.OnRead(index, ok), before, tries, UpRead(index, ok))
  {
    hide InOrder, Reached, Started, ReadSinceStart, Uploader.AfterSend;
    SnocEvents(before, UpRead(index, ok));
  }

  lemma UpFires<T>(u: Uploader<T>, before: seq<UpEvent>, tries: nat, timer: nat, ok: bool)
    requires UpKnown(u, before, tries) && timer in u.armed
    ensures UpFollows(u, u.Fired(timer, ok), before, tries, UpFire(timer, ok))
  {
    hide InOrder, Reached, Started, ReadSinceStart;
    SnocEvents(before, UpFire(timer, ok));
    SnocReached(u.sent, Count(u.list.plan, u.list.syncId, |u.list.items| % WIDTH));
  }

  lemma UpEnds<T>(u: Uploader<T>, before: seq<UpEvent>, tries: nat, e: UpEvent)
    requires UpKnown(u, before, tries) && (e.UpCancel? || e.UpAck?)
    ensures UpFollows(u, UpStep(u, e), before, tries, e)
  {
    hide InOrder, Reached, Started, ReadSinceStart;
    SnocEvents(before, e);
    SnocReached(u.sent, Acknowledge(Ack.Cancelled));
  }

  lemma UpFollowsEach<T>(u: Uploader<T>, before: seq<UpEvent>, tries: nat, e: UpEvent)
    requires UpKnown(u, before, tries) && UpEnabled(u, e)
    ensures UpFollows(u, UpStep(u, e), before, tries, e)
  {
    hide UpKnown, UpFollows;
    match e
    case UpStart(ok) => UpStarts(u, before, tries, ok);
    case UpCancel(_) => UpEnds(u, before, tries, e);
    case UpRead(index, ok) => UpReads(u, before, tries, index, ok);
    case UpAck(_) => UpEnds(u, before, tries, e);
    case UpFire(timer, ok) => UpFires(u, before, tries, timer, ok);
  }

  lemma {:induction false} UpKnownAlways<T>(side: Side, list: List<T>, events: seq<UpEvent>)
    requires UpLegal(NewUploader(side, list), events)
    ensures UpKnown(UpRun(NewUploader(side, list), events), events, Repeats(NewUploader(side, list), events))
    decreases |events|, 1
  {
    if events != [] {
      UpReports(side, list, events);
    }
  }

  /** A report leaves no timer, but for the robot's refusal of a list: its timer is armed before the list is checked. */
  lemma UpReportDisarms<T>(u: Uploader<T>, e: UpEvent)
    requires UpInv(u) && !u.done && UpEnabled(u, e) && UpStep(u, e).done
    ensures var v := UpStep(u, e);
      v.armed == if u.side == Robot && e.UpStart? && !InOrder(u.list.items) then {v.cookie} else {}
  {
    hide InOrder, HasItems, Sequenced, Faithful;
    if e.UpStart? || e.UpRead? {
      UpSendingDisarms(u, e);
    }
  }

  lemma UpSendingDisarms<T>(u: Uploader<T>, e: UpEvent)
    requires Watched(u) && !u.done && UpEnabled(u, e) && UpStep(u, e).done && (e.UpStart? || e.UpRead?)
    ensures var v := UpStep(u, e);
      v.armed == if u.side == Robot && e.UpStart? && !InOrder(u.list.items) then {v.cookie} else {}
  {
    hide InOrder;
    if e.UpRead? {
      hide Uploader.Start;
    } else {
      hide Uploader.OnRead;
      NoneOutOfOrder(u.list.items);
    }
  }

  /**
   Over any run of an upload: as long as nothing was reported before, an event reports and
   sends exactly what it stands for; after a report there is no other.
   */
  lemma {:induction false} UpReports<T>(side: Side, list: List<T>, events: seq<UpEvent>)
    requires UpLegal(NewUploader(side, list), events) && events != []
    ensures var u0, before := NewUploader(side, list), events[..|events| - 1];
      var u, v := UpRun(u0, before), UpRun(u0, events);
      && UpKnown(v, events, Repeats(u0, events))
      && v.calls == (if u.calls != [] then u.calls
                     else UpReport(side, list, before, u.sent, Repeats(u0, before), events[|events| - 1]))
      && (u.calls == [] ==>
            v.sent == u.sent + UpSends(side, list, before, u.sent, Repeats(u0, before), events[|events| - 1]))
      && (u.calls == [] && v.calls != [] ==>
            v.armed == if side == Robot && events[|events| - 1].UpStart? && !InOrder(list.items) then {v.cookie}
                       else {})
    decreases |events|, 0
  {
    hide UpKnown, UpReport, UpSends, UpStep, Renews;
    var u0, before, e := NewUploader(side, list), events[..|events| - 1], events[|events| - 1];
    UpKnownAlways(side, list, before);
    var u := UpRun(u0, before);
    UpInvariant(side, list, before);
    UpFollowsEach(u, before, Repeats(u0, before), e);
    assert before + [e] == events;
    UpInvariant(side, list, events);
    if !u.done && UpStep(u, e).done {
      UpReportDisarms(u, e);
    }
  }

  // ----- Downloads -----

  predicate DownStarted<T>(events: seq<DownEvent<T>>) {
    events != [] && (events[|events| - 1].DownStart? || DownStarted(events[..|events| - 1]))
  }

  predicate Listens<T>(side: Side, events: seq<DownEvent<T>>) {
    side == Ground || DownStarted(events)
  }

  /** The count that the ground side was told last, if any. */
  function Counted<T>(events: seq<DownEvent<T>>): (count: int)
    ensures -1 <= count < WIDTH
  {
    if events == [] then -1
    else if events[|events| - 1].DownCount? then events[|events| - 1].count
    else Counted(events[..|events| - 1])
  }

  /** How many items the download expects. */
  function Awaited<T>(side: Side, count: u16, events: seq<DownEvent<T>>): nat {
    if side == Robot then count else if Counted(events) == -1 then 0 else Counted(events)
  }

  /** The position behind the last item that arrived since the last count. */
  function Behind<T>(side: Side, events: seq<DownEvent<T>>): nat {
    if events == [] then 0 else
    var before := events[..|events| - 1];
    match events[|events| - 1]
    case DownItem(index, _, _) => if Listens(side, before) then index + 1 else Behind(side, before)
    case DownCount(_, _, _, _) => if side == Ground then 0 else Behind(side, before)
    case _ => Behind(side, before)
  }

  /** What has arrived since the start: plan and sync id of the last count, and every item, in order of arrival. */
  function Collected<T>(side: Side, events: seq<DownEvent<T>>): List<T> {
    if events == [] then List("", 0, []) else
    var before := events[..|events| - 1];
    var got := Collected(side, before);
    match events[|events| - 1]
    case DownStart(_) => List("", 0, [])
    case DownCount(plan, syncId, _, _) => if side == Ground then got.(plan := plan, syncId := syncId) else got
    case DownItem(index, item, _) =>
      if Listens(side, before) then got.(items := got.items + [Entry(index, item)]) else got
    case _ => got
  }

  /**
   What a download that is still at work reports when an event comes, given the events before
   and how often it has asked since the last answer. A count of 0 is reported before its plan
   and sync id are taken.
   */
  function DownReport<T>(side: Side, count: u16, before: seq<DownEvent<T>>, asked: nat, e: DownEvent<T>)
    : seq<(Result, List<T>)>
  {
    var got, all := Collected(side, before), Collected(side, before + [e]);
    match e
    case DownStart(ok) =>
      if side == Robot && count == 0 then [(Success, all)] else if ok then [] else [(ConnectionError, all)]
    case DownCancel(ok) => [(if ok then Result.Cancelled else ConnectionError, got)]
    case DownCount(_, _, n, ok) =>
      if side == Robot then []
      else if n == 0 then [(if ok then Success else ConnectionError, got)]
      else if ok then [] else [(ConnectionError, all)]
    case DownItem(_, _, ok) =>
      if !Listens(side, before) then []
      else if Behind(side, before) + 1 == Awaited(side, count, before) then
        [(if side == Robot || ok then Success else ConnectionError, all)]
      else if ok then [] else [(ConnectionError, all)]
    case DownFire(_, ok) =>
      if asked >= 4 then [(Timeout, got)] else if ok then [] else [(ConnectionError, got)]
  }

  /** What such a download sends, if the sender takes it. */
  function DownSends<T>(side: Side, count: u16, before: seq<DownEvent<T>>, asked: nat, e: DownEvent<T>)
    : seq<Message<T>>
  {
    match e
    case DownStart(ok) =>
      if !ok || (side == Robot && count == 0) then [] else if side == Ground then [Request] else [Read(0)]
    case DownCancel(ok) => if ok then [Acknowledge(Ack.Cancelled)] else []
    case DownCount(_, _, n, ok) =>
      if side == Robot || !ok then [] else if n == 0 then [Acknowledge(Accepted)] else [Read(0)]
    case DownItem(index, _, ok) =>
      if !Listens(side, before) || !ok then []
      else if Behind(side, before) + 1 == Awaited(side, count, before) then
        if side == Ground then [Acknowledge(Accepted)] else []
      else [Read((index + 1) % WIDTH)]
    case DownFire(_, ok) =>
      if asked >= 4 || !ok then []
      else if side == Ground && Counted(before) == -1 then [Request] else [Read(Behind(side, before) % WIDTH)]
  }

  /** A download at work, as far as it can be told from outside. */
  ghost predicate DownKnown<T>(d: Downloader<T>, count: u16, events: seq<DownEvent<T>>, asked: nat) {
    && d.callback == !d.done && (!d.started ==> d.armed == {}) && d.started == DownStarted(events)
    && (!d.done ==>
          && d.calls == [] && d.retries == asked <= 4 && d.listening == Listens(d.side, events)
          && d.list == Collected(d.side, events) && d.next == Behind(d.side, events)
          && d.expected == Awaited(d.side, count, events)
          && d.step == (if d.side == Ground && Counted(events) == -1 then RequestList else RequestItem)
          && (d.side == Robot && !d.started ==> d.list == List("", 0, []) && d.next == 0))
  }

  ghost predicate DownFollows<T>(d: Downloader<T>, c: Downloader<T>, count: u16, before: seq<DownEvent<T>>, asked: nat,
                                 e: DownEvent<T>) {
    && DownKnown(c, count, before + [e], Transmitted(d.sent, c.sent) + if Answers(d, e) then 0 else asked)
    && c.calls == d.calls + (if d.done then [] else DownReport(d.side, count, before, asked, e))
    && (!d.done ==> c.sent == d.sent + DownSends(d.side, count, before, asked, e))
  }

  lemma DownSnoc<T>(side: Side, before: seq<DownEvent<T>>, e: DownEvent<T>)
    ensures DownStarted(before + [e]) <==> DownStarted(before) || e.DownStart?
    ensures Counted(before + [e]) == if e.DownCount? then e.count else Counted(before)
    ensures Behind(side, before + [e])
            == (match e
                case DownItem(index, _, _) => if Listens(side, before) then index + 1 else Behind(side, before)
                case DownCount(_, _, _, _) => if side == Ground then 0 else Behind(side, before)
                case _ => Behind(side, before))
    ensures var got := Collected(side, before);
      Collected(side, before + [e])
      == (match e
          case DownStart(_) => List("", 0, [])
          case DownCount(plan, syncId, _, _) => if side == Ground then got.(plan := plan, syncId := syncId) else got
          case DownItem(index, item, _) =>
            if Listens(side, before) then got.(items := got.items + [Entry(index, item)]) else got
          case _ => got)
  {
    assert (before + [e])[..|before|] == before;
  }

  lemma DownFollowsEach<T>(d: Downloader<T>, count: u16, before: seq<DownEvent<T>>, asked: nat, e: DownEvent<T>)
    requires DownKnown(d, count, before, asked) && DownEnabled(d, e)
    ensures DownFollows(d, DownStep(d, e), count, before, asked, e)
  {
    hide DownStarted, Counted, Behind, Collected;
    DownSnoc(d.side, before, e);
    match e
    case DownStart(_) => DownStarts(d, count, before, asked, e);
    case DownCancel(_) => DownCancels(d, count, before, asked, e);
    case DownCount(_, _, _, _) => DownCounts(d, count, before, asked, e);
    case DownItem(_, _, _) => DownItems(d, count, before, asked, e);
    case DownFire(_, _) => DownFires(d, count, before, asked, e);
  }

  lemma DownStarts<T>(d: Downloader<T>, count: u16, before: seq<DownEvent<T>>, asked: nat, e: DownEvent<T>)
    requires DownKnown(d, count, before, asked) && DownEnabled(d, e) && e.DownStart?
    ensures DownFollows(d, DownStep(d, e), count, before, asked, e)
  {
    hide DownStarted, Counted, Behind, Collected;
    DownSnoc(d.side, before, e);
  }

  lemma DownCancels<T>(d: Downloader<T>, count: u16, before: seq<DownEvent<T>>, asked: nat, e: DownEvent<T>)
    requires DownKnown(d, count, before, asked) && e.DownCancel?
    ensures DownFollows(d, DownStep(d, e), count, before, asked, e)
  {
    hide DownStarted, Counted, Behind, Collected;
    DownSnoc(d.side, before, e);
  }

  lemma DownCounts<T>(d: Downloader<T>, count: u16, before: seq<DownEvent<T>>, asked: nat, e: DownEvent<T>)
    requires DownKnown(d, count, before, asked) && e.DownCount?
    ensures DownFollows(d, DownStep(d, e), count, before, asked, e)
  {
    hide DownStarted, Counted, Behind, Collected;
    DownSnoc(d.side, before, e);
    if d.side == Ground && e.count == 0 {
      DownZero(d, count, before, asked, e);
    } else {
      hide Downloader.Closing, Downloader.Finish;
    }
  }

  lemma DownZero<T>(d: Downloader<T>, count: u16, before: seq<DownEvent<T>>, asked: nat, e: DownEvent<T>)
    requires DownKnown(d, count, before, asked) && e.DownCount? && e.count == 0 && d.side == Ground
    ensures DownFollows(d, DownStep(d, e), count, before, asked, e)
  {
    hide DownStarted, Counted, Behind, Collected, Downloader.AfterSend;
    DownSnoc(d.side, before, e);
  }

  lemma DownItems<T>(d: Downloader<T>, count: u16, before: seq<DownEvent<T>>, asked: nat, e: DownEvent<T>)
    requires DownKnown(d, count, before, asked) && e.DownItem?
    ensures DownFollows(d, DownStep(d, e), count, before, asked, e)
  {
    hide DownStarted, Counted, Behind, Collected;
    DownSnoc(d.side, before, e);
  }

  lemma DownFires<T>(d: Downloader<T>, count: u16, before: seq<DownEvent<T>>, asked: nat, e: DownEvent<T>)
    requires DownKnown(d, count, before, asked) && DownEnabled(d, e) && e.DownFire?
    ensures DownFollows(d, DownStep(d, e), count, before, asked, e)
  {
    hide DownStarted, Counted, Behind, Collected;
    DownSnoc(d.side, before, e);
  }

  /** A report leaves no timer. */
  lemma DownReportDisarms<T>(d: Downloader<T>, e: DownEvent<T>)
    requires DownInv(d) && !d.done && DownEnabled(d, e) && DownStep(d, e).done
    ensures DownStep(d, e).armed == {}
  {
    if e.DownItem? || e.DownCount? {
      DownTakingDisarms(d, e);
    }
  }

  lemma DownTakingDisarms<T>(d: Downloader<T>, e: DownEvent<T>)
    requires DownInv(d) && !d.done && DownStep(d, e).done && (e.DownItem? || e.DownCount?)
    ensures DownStep(d, e).armed == {}
  {
  }

  lemma DownStepSide<T>(d: Downloader<T>, e: DownEvent<T>)
    ensures DownStep(d, e).side == d.side
  {
    hide Downloader.AfterSend, Downloader.Closing, Downloader.Finish;
  }

  lemma {:induction false} DownSideKept<T>(d: Downloader<T>, events: seq<DownEvent<T>>)
    ensures DownRun(d, events).side == d.side
    decreases |events|
  {
    hide DownStep;
    if events != [] {
      DownSideKept(d, events[..|events| - 1]);
      DownStepSide(DownRun(d, events[..|events| - 1]), events[|events| - 1]);
    }
  }

  lemma {:induction false} DownKnownAlways<T>(side: Side, count: u16, events: seq<DownEvent<T>>)
    requires DownLegal(NewDownloader(side, count), events)
    ensures DownKnown(DownRun(NewDownloader(side, count), events), count, events,
                      Asked(NewDownloader(side, count), events))
    decreases |events|, 1
  {
    if events != [] {
      DownReports(side, count, events);
    }
  }

  /**
   Over any run of a download: as long as nothing was reported before, an event reports and
   sends exactly what it stands for, with the items that have arrived; after a report there
   is no other.
   */
  lemma {:induction false} DownReports<T>(side: Side, count: u16, events: seq<DownEvent<T>>)
    requires DownLegal(NewDownloader(side, count), events) && events != []
    ensures var d0, before := NewDownloader<T>(side, count), events[..|events| - 1];
      var d, c := DownRun(d0, before), DownRun(d0, events);
      && DownKnown(c, count, events, Asked(d0, events))
      && c.calls == (if d.calls != [] then d.calls
                     else DownReport(side, count, before, Asked(d0, before), events[|events| - 1]))
      && (d.calls == [] ==>
            c.sent == d.sent + DownSends(side, count, before, Asked(d0, before), events[|events| - 1]))
      && (d.calls == [] && c.calls != [] ==> c.armed == {})
    decreases |events|, 0
  {
    hide DownKnown, DownReport, DownSends, DownStep, Answers;
    var d0, before, e := NewDownloader<T>(side, count), events[..|events| - 1], events[|events| - 1];
    DownKnownAlways(side, count, before);
    var d := DownRun(d0, before);
    DownloadSafe(side, count, before);
    DownSideKept(d0, before);
    DownFollowsEach(d, count, before, Asked(d0, before), e);
    assert before + [e] == events;
    DownloadSafe(side, count, events);
    if !d.done && DownStep(d, e).done {
      DownReportDisarms(d, e);
    }
  }
}
