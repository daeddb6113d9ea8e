/** The work item that downloads a list, on both sides of the list transfer protocol. */
module Download {

  import opened Transfer

  /** A download work item as a value, with the same records as `Uploader`. */
  datatype Downloader<T> = Downloader(
    side: Side, started: bool, done: bool, step: Step, next: nat, expected: nat, retries: nat,
    callback: bool, listening: bool, list: List<T>, armed: set<nat>, cookie: nat,
    sent: seq<Message<T>>, calls: seq<(Result, List<T>)>)
  {
    ghost predicate Kept(d: Downloader<T>) {
      d.side == side && d.retries == retries && d.sent == sent && d.list == list
    }

    function Arm(): (d: Downloader<T>)
      ensures Kept(d) && d.done == done
    {
      this.(cookie := cookie + 1, armed := armed + {cookie + 1})
    }

    function Disarm(): (d: Downloader<T>)
      ensures Kept(d) && d.done == done
    {
      this.(armed := armed - {cookie})
    }

    function Finish(result: Result): (d: Downloader<T>)
      ensures Kept(d) && d.done
    {
      this.(calls := if callback then calls + [(result, list)] else calls, callback := false, done := true)
    }

    function AfterSend(m: Message<T>, ok: bool): (d: Downloader<T>)
      ensures d.side == side && d.list == list && (done ==> d.done)
      ensures if ok then d.sent == sent + [m] && d.retries == retries + 1 else Kept(d) && d.done
    {
      if ok then this.(sent := sent + [m], retries := retries + 1) else Disarm().Finish(ConnectionError)
    }

    function RequestingList(ok: bool): Downloader<T> {
      AfterSend(Request, ok)
    }

    function RequestingItem(ok: bool): Downloader<T> {
      AfterSend(Read(next % WIDTH), ok)
    }

    /** The last message of a transfer, and the result it leaves. */
    function Closing(ack: Ack, result: Result, ok: bool): (d: Downloader<T>)
      ensures d.side == side && d.list == list && d.retries == retries && d.done
      ensures d.sent == if ok then sent + [Acknowledge(ack)] else sent
    {
      if ok then this.(sent := sent + [Acknowledge(ack)]).Finish(result) else Finish(ConnectionError)
    }

    function StartGround(ok: bool): Downloader<T> {
      this.(list := List("", 0, []), started := true, retries := 0).Arm().RequestingList(ok)
    }

    function StartRobot(ok: bool): Downloader<T> {
      var d := this.(started := true, listening := true);
      if expected == 0 then d.Finish(Success)
      else d.(list := list.(items := []), retries := 0, next := 0).Arm().RequestingItem(ok)
    }

    function Start(ok: bool): Downloader<T> {
      if side == Ground then StartGround(ok) else StartRobot(ok)
    }

    function Cancel(ok: bool): Downloader<T> {
      Disarm().Closing(Ack.Cancelled, Result.Cancelled, ok)
    }

    /** A count message; only the ground side handles it in its work item. */
    function OnCount(plan: string, syncId: nat, count: u16, ok: bool): Downloader<T> {
      if side == Robot then this
      else if count == 0 then Closing(Accepted, Success, ok).Disarm()
      else this.(next := 0, step := RequestItem, retries := 0, expected := count,
                 list := list.(plan := plan, syncId := syncId)).RequestingItem(ok)
    }

    function OnItem(index: u16, item: T, ok: bool): Downloader<T> {
      if !listening then this else
      var d := this.(list := list.(items := list.items + [Entry(index, item)]));
      if next + 1 == expected then
        if side == Ground then d.Disarm().Closing(Accepted, Success, ok) else d.Disarm().Finish(Success)
      else d.(next := index + 1, retries := 0).RequestingItem(ok)
    }

    function OnTimeout(ok: bool): Downloader<T> {
      if retries >= RETRIES then Finish(Timeout)
      else if step == RequestList then Arm().RequestingList(ok)
      else Arm().RequestingItem(ok)
    }

    /** The timeout handler drops a timer before it calls back. */
    function Fired(timer: nat, ok: bool): Downloader<T> {
      this.(armed := armed - {timer}).OnTimeout(ok)
    }
  }

  /** `count` is what the robot side is told to expect; the ground side asks for it. */
  function NewDownloader<T>(side: Side, count: u16): Downloader<T> {
    Downloader(side, false, false, if side == Ground then RequestList else RequestItem, 0,
               if side == Ground then 0 else count, 0, true, side == Ground, List("", 0, []), {}, 0, [], [])
  }

  /** `DownloadWorkItem` of both sides, with the timers, messages and calls it causes. */
  class DownloadWorkItem<T> {
    const side: Side
    var started: bool
    var done: bool
    var step: Step
    var next: nat
    var expected: nat
    var retries: nat
    var callback: bool
    var listening: bool
    var list: List<T>
    var armed: set<nat>
    var cookie: nat
    var sent: seq<Message<T>>
    var calls: seq<(Result, List<T>)>

    ghost function View(): Downloader<T>
      reads this
    {
      Downloader(side, started, done, step, next, expected, retries, callback, listening, list, armed, cookie,
                 sent, calls)
    }

    constructor (side: Side, count: u16)
      ensures View() == NewDownloader(side, count)
    {
      this.side := side;
      started, done, next, retries, callback := false, false, 0, 0, true;
      step := if side == Ground then RequestList else RequestItem;
      expected := if side == Ground then 0 else count;
      listening := side == Ground;
      list := List("", 0, []);
      armed, cookie, sent, calls := {}, 0, [], [];
    }

    /** `TimeoutHandler::add` */
    method Arm()
      modifies this`cookie, this`armed
      ensures View() == old(View()).Arm()
    {
      cookie := cookie + 1;
      armed := armed + {cookie};
    }

    /** `callback_and_reset` */
    method CallbackAndReset(result: Result)
      modifies this`calls, this`callback, this`done
      ensures View() == old(View()).Finish(result)
    {
      if callback {
        calls := calls + [(result, list)];
      }
      callback := false;
      done := true;
    }

    method SendOrFail(m: Message<T>, ok: bool)
      modifies this
      ensures View() == old(View()).AfterSend(m, ok)
    {
      if !ok {
        armed := armed - {cookie};
        CallbackAndReset(ConnectionError);
        return;
      }
      sent := sent + [m];
      retries := retries + 1;
    }

    method RequestListMessage(ok: bool)
      modifies this
      ensures View() == old(View()).RequestingList(ok)
    {
      SendOrFail(Request, ok);
    }

    method RequestItemMessage(ok: bool)
      modifies this
      ensures View() == old(View()).RequestingItem(ok)
    {
      SendOrFail(Read(next % WIDTH), ok);
    }

    /** `send_ack_and_finish` and `send_cancel_and_finish` */
    method SendAndFinish(ack: Ack, result: Result, ok: bool)
      modifies this
      ensures View() == old(View()).Closing(ack, result, ok)
    {
      if !ok {
        CallbackAndReset(ConnectionError);
        return;
      }
      sent := sent + [Acknowledge(ack)];
      CallbackAndReset(result);
    }

    method StartGround(ok: bool)
      modifies this
      ensures View() == old(View()).StartGround(ok)
    {
      list := List("", 0, []);
      started := true;
      retries := 0;
      Arm();
      RequestListMessage(ok);
    }

    /** The rest of `start` on the robot side, when there are items to expect. */
    method AskFirst(ok: bool)
      modifies this
      ensures View() == old(View()).(list := old(list).(items := []), retries := 0, next := 0).Arm().RequestingItem(ok)
    {
      hide Downloader.RequestingItem;
      list := list.(items := []);
      retries := 0;
      Arm();
      next := 0;
      RequestItemMessage(ok);
    }

    method StartRobot(ok: bool)
      modifies this
      ensures View() == old(View()).StartRobot(ok)
    {
      hide Downloader.Finish, Downloader.Arm, Downloader.RequestingItem;
      started := true;
      listening := true;
      if expected == 0 {
        CallbackAndReset(Success);
      } else {
        AskFirst(ok);
      }
    }

    method Start(ok: bool)
      modifies this
      ensures View() == old(View()).Start(ok)
    {
      if side == Ground {
        StartGround(ok);
      } else {
        StartRobot(ok);
      }
    }

    method Cancel(ok: bool)
      modifies this
      ensures View() == old(View()).Cancel(ok)
    {
      armed := armed - {cookie};
      SendAndFinish(Ack.Cancelled, Result.Cancelled, ok);
    }

    /** `process_inspection_count` */
    method ProcessCount(plan: string, syncId: nat, count: u16, ok: bool)
      modifies this
      ensures View() == old(View()).OnCount(plan, syncId, count, ok)
    {
      hide Downloader.RequestingItem;
      if side == Robot {
        return;
      }
      if count == 0 {
        SendAndFinish(Accepted, Success, ok);
        armed := armed - {cookie};
        return;
      }
      next := 0;
      step := RequestItem;
      retries := 0;
      expected := count;
      list := list.(plan := plan, syncId := syncId);
      RequestItemMessage(ok);
    }

    /** `process_inspection_item` */
    method ProcessItem(index: u16, item: T, ok: bool)
      modifies this
      ensures View() == old(View()).OnItem(index, item, ok)
    {
      hide Downloader.Finish, Downloader.Closing, Downloader.RequestingItem;
      if !listening {
        return;
      }
      list := list.(items := list.items + [Entry(index, item)]);
      if next + 1 == expected {
        armed := armed - {cookie};
        if side == Ground {
          SendAndFinish(Accepted, Success, ok);
        } else {
          CallbackAndReset(Success);
        }
      } else {
        next := index + 1;
        retries := 0;
        RequestItemMessage(ok);
      }
    }

    method ProcessTimeout(ok: bool)
      modifies this
      ensures View() == old(View()).OnTimeout(ok)
    {
      if retries >= RETRIES {
        CallbackAndReset(Timeout);
        return;
      }
      Arm();
      if step == RequestList {
        RequestListMessage(ok);
      } else {
        RequestItemMessage(ok);
      }
    }

    /** The timeout handler drops the timer, and calls back. */
    method Fire(timer: nat, ok: bool)
      modifies this
      ensures View() == old(View()).Fired(timer, ok)
    {
      armed := armed - {timer};
      ProcessTimeout(ok);
    }
  }
}
