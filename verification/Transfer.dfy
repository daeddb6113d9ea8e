/**
 The list transfer protocol (inspection waypoints, alarms, checklists, high-level
 actions): its messages, and the work item that uploads a list. `T` is the content of
 one list item.
 */
module Transfer {

  const RETRIES: nat := 4
  const WIDTH: nat := 0x1_0000

  /** Sequence numbers and counts travel in sixteen bits. */
  type u16 = n: nat | n < WIDTH

  datatype Side = Ground | Robot

  datatype Result =
    Success | ConnectionError | Timeout | Cancelled | InvalidSequence | CurrentInvalid | ProtocolError

  datatype Ack =
    | Accepted | Error | Unsupported | NoSpace | Invalid
    | InvalidParam1 | InvalidParam2 | InvalidParam3 | InvalidParam4 | InvalidParam5 | InvalidParam6 | InvalidParam7
    | InvalidSequence | Cancelled | Unknown

  datatype Entry<T> = Entry(index: u16, item: T)

  datatype List<T> = List(plan: string, syncId: nat, items: seq<Entry<T>>)

  datatype Message<T> =
    | Request
    | Count(plan: string, syncId: nat, count: u16)
    | Read(index: u16)
    | Item(index: u16, item: T)
    | Acknowledge(ack: Ack)

  datatype Step = SendCount | SendItems | RequestList | RequestItem

  /** What `start` checks: every item carries its own position. */
  predicate InOrder<T>(items: seq<Entry<T>>) {
    forall i :: 0 <= i < |items| ==> items[i].index == i
  }

  /**
   An upload work item as a value. `armed` holds its timers in the timeout handler and
   `cookie` the one it refers to; `sent` and `calls` record the messages that the
   sender took and the calls of the user's callback. `ok` is what the sender answers.
   */
  datatype Uploader<T> = Uploader(
    side: Side, list: List<T>, started: bool, done: bool, step: Step, next: nat, retries: nat, ack: Ack,
    callback: bool, readable: bool, ackable: bool, armed: set<nat>, cookie: nat,
    sent: seq<Message<T>>, calls: seq<(Result, Ack)>)
  {
    ghost predicate Kept(u: Uploader<T>) {
      u.side == side && u.list == list && u.retries == retries && u.sent == sent && u.next == next
    }

    function Arm(): (u: Uploader<T>)
      ensures Kept(u) && u.done == done
    {
      this.(cookie := cookie + 1, armed := armed + {cookie + 1})
    }

    function Disarm(): (u: Uploader<T>)
      ensures Kept(u) && u.done == done
    {
      this.(armed := armed - {cookie})
    }

    function Finish(result: Result): (u: Uploader<T>)
      ensures Kept(u) && u.done
    {
      this.(calls := if callback then calls + [(result, ack)] else calls, callback := false, done := true)
    }

    function AfterSend(m: Message<T>, ok: bool): (u: Uploader<T>)
      ensures u.side == side && u.list == list && u.next == next && (done ==> u.done)
      ensures if ok then u.sent == sent + [m] && u.retries == retries + 1 else Kept(u) && u.done
    {
      if ok then this.(sent := sent + [m], retries := retries + 1) else Disarm().Finish(ConnectionError)
    }

    function SendingCount(ok: bool): (u: Uploader<T>)
      ensures u.side == side && u.list == list
    {
      AfterSend(Count(list.plan, list.syncId, |list.items| % WIDTH), ok)
    }

    function SendingItem(ok: bool): (u: Uploader<T>)
      ensures u.side == side && u.list == list
    {
      if next >= |list.items| then this
      else this.(next := next + 1).AfterSend(Item(next % WIDTH, list.items[next].item), ok)
    }

    /** `start` on the ground side. */
    function StartGround(ok: bool): (u: Uploader<T>)
      ensures u.side == side && u.list == list
    {
      if !InOrder(list.items) then this.(started := true).Finish(Result.InvalidSequence)
      else this.(started := true, retries := 0, step := SendCount, next := 0).Arm().SendingCount(ok)
    }

    /** `start` on the robot side: the timer comes first, and an empty list answers no reads. */
    function StartRobot(ok: bool): (u: Uploader<T>)
      ensures u.side == side && u.list == list
    {
      var u := this.(started := true, ackable := true, retries := 0, step := SendCount).Arm();
      if |list.items| == 0 then u.SendingCount(ok)
      else if !InOrder(list.items) then u.Finish(Result.InvalidSequence)
      else u.(next := 0, readable := true).SendingCount(ok)
    }

    function Start(ok: bool): (u: Uploader<T>)
      ensures u.side == side && u.list == list
    {
      if side == Ground then StartGround(ok) else StartRobot(ok)
    }

    function Cancel(ok: bool): (u: Uploader<T>)
      ensures u.side == side && u.list == list
    {
      if ok then Disarm().(sent := sent + [Acknowledge(Ack.Cancelled)]).Finish(Result.Cancelled)
      else Disarm().Finish(ConnectionError)
    }

    function OnRead(index: u16, ok: bool): (u: Uploader<T>)
      ensures u.side == side && u.list == list
    {
      if !readable then this else
      var u := this.(step := SendItems);
      if next < index then u
      else if next > index && retries >= RETRIES then u.Disarm().Finish(Timeout)
      else u.(retries := if next > index then retries else 0, next := index).SendingItem(ok)
    }

    function OnAck(type_: Ack): (u: Uploader<T>)
      ensures u.side == side && u.list == list
    {
      if !ackable then this else
      Disarm().(ack := type_).Finish(if next == |list.items| then Success else ProtocolError)
    }

    function OnTimeout(ok: bool): (u: Uploader<T>)
      ensures u.side == side && u.list == list
    {
      if side == Robot || retries >= RETRIES || step != SendCount then Finish(Timeout)
      else Arm().SendingCount(ok)
    }

    /** The timeout handler drops a timer before it calls back. */
    function Fired(timer: nat, ok: bool): (u: Uploader<T>)
      ensures u.side == side && u.list == list
    {
      this.(armed := armed - {timer}).OnTimeout(ok)
    }
  }

  function NewUploader<T>(side: Side, list: List<T>): Uploader<T> {
    Uploader(side, list, false, false, SendCount, 0, 0, Unknown, true, side == Ground, side == Ground, {}, 0, [], [])
  }

  /** `UploadWorkItem` of both sides, with the timers, messages and calls it causes. */
  class UploadWorkItem<T> {
    const side: Side
    const list: List<T>
    var started: bool
    var done: bool
    var step: Step
    var next: nat
    var retries: nat
    var ack: Ack
    var callback: bool
    var readable: bool
    var ackable: bool
    var armed: set<nat>
    var cookie: nat
    var sent: seq<Message<T>>
    var calls: seq<(Result, Ack)>

    ghost function View(): Uploader<T>
      reads this
    {
      Uploader(side, list, started, done, step, next, retries, ack, callback, readable, ackable, armed, cookie,
               sent, calls)
    }

    constructor (side: Side, list: List<T>)
      ensures View() == NewUploader(side, list)
    {
      this.side, this.list := side, list;
      started, done, step, next, retries, ack := false, false, SendCount, 0, 0, Unknown;
      callback, readable, ackable := true, side == Ground, side == Ground;
      armed, cookie, sent, calls := {}, 0, [], [];
    }

    /** `TimeoutHandler::add` */
    method Arm()
      modifies this`cookie, this`armed
      ensures View() == old(View()).Arm()
    {
      cookie := cookie + 1;
      armed := armed + {cookie};
    }

    /** `callback_and_reset` */
    method CallbackAndReset(result: Result)
      modifies this`calls, this`callback, this`done
      ensures View() == old(View()).Finish(result)
    {
      if callback {
        calls := calls + [(result, ack)];
      }
      callback := false;
      done := true;
    }

    method SendOrFail(m: Message<T>, ok: bool)
      modifies this
      ensures View() == old(View()).AfterSend(m, ok)
    {
      if !ok {
        armed := armed - {cookie};
        CallbackAndReset(ConnectionError);
        return;
      }
      sent := sent + [m];
      retries := retries + 1;
    }

    method SendCountMessage(ok: bool)
      modifies this
      ensures View() == old(View()).SendingCount(ok)
    {
      SendOrFail(Count(list.plan, list.syncId, |list.items| % WIDTH), ok);
    }

    method SendItem(ok: bool)
      modifies this
      ensures View() == old(View()).SendingItem(ok)
    {
      if next >= |list.items| {
        return;
      }
      var m := Item(next % WIDTH, list.items[next].item);
      next := next + 1;
      SendOrFail(m, ok);
    }

    /** The loop in `start` that compares each item with its position. */
    method CheckOrder() returns (ordered: bool)
      ensures ordered == InOrder(list.items)
    {
      var count := 0;
      while count < |list.items|
        invariant 0 <= count <= |list.items|
        invariant forall i :: 0 <= i < count ==> list.items[i].index == i
      {
        if count != list.items[count].index {
          return false;
        }
        count := count + 1;
      }
      return true;
    }

    method StartGround(ok: bool)
      modifies this
      ensures View() == old(View()).StartGround(ok)
    {
      hide InOrder, Uploader.Finish, Uploader.SendingCount;
      started := true;
      var ordered := CheckOrder();
      if !ordered {
        CallbackAndReset(Result.InvalidSequence);
        return;
      }
      retries := 0;
      step := SendCount;
      Arm();
      next := 0;
      SendCountMessage(ok);
    }

    /** The first half of `start` on the robot side. */
    method Open()
      modifies this
      ensures View() == old(View()).(started := true, ackable := true, retries := 0, step := SendCount).Arm()
    {
      started := true;
      ackable := true;
      retries := 0;
      step := SendCount;
      Arm();
    }

    method StartRobot(ok: bool)
      modifies this
      ensures View() == old(View()).StartRobot(ok)
    {
      hide InOrder, Uploader.Finish, Uploader.SendingCount;
      Open();
      if |list.items| == 0 {
        SendCountMessage(ok);
        return;
      }
      var ordered := CheckOrder();
      if !ordered {
        CallbackAndReset(Result.InvalidSequence);
        return;
      }
      next := 0;
      readable := true;
      SendCountMessage(ok);
    }

    method Start(ok: bool)
      modifies this
      ensures View() == old(View()).Start(ok)
    {
      if side == Ground {
        StartGround(ok);
      } else {
        StartRobot(ok);
      }
    }

    method Cancel(ok: bool)
      modifies this
      ensures View() == old(View()).Cancel(ok)
    {
      armed := armed - {cookie};
      if ok {
        sent := sent + [Acknowledge(Ack.Cancelled)];
        CallbackAndReset(Result.Cancelled);
      } else {
        CallbackAndReset(ConnectionError);
      }
    }

    /** `process_inspection_read` */
    method ProcessRead(index: u16, ok: bool)
      modifies this
      ensures View() == old(View()).OnRead(index, ok)
    {
      if !readable {
        return;
      }
      step := SendItems;
      if next < index {
        return;
      } else if next > index {
        if retries >= RETRIES {
          armed := armed - {cookie};
          CallbackAndReset(Timeout);
          return;
        }
      } else {
        retries := 0;
      }
      next := index;
      SendItem(ok);
    }

    /** `process_inspection_ack` */
    method ProcessAck(type_: Ack)
      modifies this
      ensures View() == old(View()).OnAck(type_)
    {
      if !ackable {
        return;
      }
      armed := armed - {cookie};
      ack := type_;
      if next == |list.items| {
        CallbackAndReset(Success);
      } else {
        CallbackAndReset(ProtocolError);
      }
    }

    method ProcessTimeout(ok: bool)
      modifies this
      ensures View() == old(View()).OnTimeout(ok)
    {
      if side == Robot || retries >= RETRIES {
        CallbackAndReset(Timeout);
        return;
      }
      if step == SendCount {
        Arm();
        SendCountMessage(ok);
      } else {
        CallbackAndReset(Timeout);
      }
    }

    /** The timeout handler drops the timer, and calls back. */
    method Fire(timer: nat, ok: bool)
      modifies this
      ensures View() == old(View()).Fired(timer, ok)
    {
      armed := armed - {timer};
      ProcessTimeout(ok);
    }
  }

  // ----- Numbering the items of an upload, and back -----

  /** The items of a user's list with the sequence numbers they get, in sixteen bits. */
  function Numbered<T>(items: seq<T>): (entries: seq<Entry<T>>) {
    seq(|items|, i requires 0 <= i < |items| => Entry(i % WIDTH, items[i]))
  }

  function Bare<T>(entries: seq<Entry<T>>): (items: seq<T>) {
    seq(|entries|, i requires 0 <= i < |entries| => entries[i].item)
  }

  lemma BareNumbered<T>(items: seq<T>)
    ensures Bare(Numbered(items)) == items
  {
    assert forall i :: 0 <= i < |items| ==> Bare(Numbered(items))[i] == items[i];
  }

  /** Sixteen bits number at most 65536 items; a longer list is refused by `start`. */
  lemma NumberedInOrder<T>(items: seq<T>)
    ensures InOrder(Numbered(items)) <==> |items| <= WIDTH
  {
    if |items| > WIDTH {
      assert Numbered(items)[WIDTH].index == 0;
    }
  }

  method ConvertToIntItems<T>(items: seq<T>) returns (entries: seq<Entry<T>>)
    ensures entries == Numbered(items)
  {
    entries := [];
    while |entries| < |items|
      invariant |entries| <= |items| && entries == Numbered(items)[..|entries|]
    {
      entries := entries + [Entry(|entries| % WIDTH, items[|entries|])];
    }
  }

  method ConvertToItems<T>(entries: seq<Entry<T>>) returns (items: seq<T>)
    ensures items == Bare(entries)
  {
    items := [];
    for i := 0 to |entries|
      invariant items == Bare(entries)[..i]
    {
      items := items + [entries[i].item];
    }
  }
}
