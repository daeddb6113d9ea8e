/**
 Clock synchronisation: the shared offset of the autopilot time and the samples that
 move it. Times are nanoseconds since the epoch; `int` stands for the 64-bit integers,
 whose range doubled times leave only in the year 2116.
 */
module Timesync {

  const MAX_RTT_SAMPLE_NS: nat := 10 * 1000000
  const MAX_CONS_HIGH_RTT: nat := 5
  const LIMIT_64: nat := 0x1_0000_0000_0000_0000

  /** Division as C++ does it, towards zero. */
  function TruncDiv(a: int, b: int): (q: int)
    requires b > 0
    ensures a >= 0 ==> q * b <= a < (q + 1) * b
    ensures a < 0 ==> (q - 1) * b < a <= q * b
  {
    if a >= 0 then a / b else -((-a) / b)
  }

  /** `AutopilotTime::now`, which keeps whole microseconds. */
  function Now(system: int, offset: int): (ns: int) {
    TruncDiv(system + offset, 1000) * 1000
  }

  datatype Clock = Clock(offset: int, acquired: bool, highRtt: nat, warnings: nat, replies: seq<(int, int)>)
  {
    function SetOffset(offsetNs: int, started: int, system: int): Clock {
      if (Now(system, offset) - started) % LIMIT_64 < MAX_RTT_SAMPLE_NS then
        this.(offset := offset + offsetNs, acquired := true, highRtt := 0)
      else if highRtt + 1 > MAX_CONS_HIGH_RTT then this.(highRtt := 0, warnings := warnings + 1)
      else this.(highRtt := highRtt + 1)
    }

    /** A TIMESYNC message; the clock is read once on entry and once in the setter. */
    function Process(tc1: int, ts1: int, system: int, later: int): Clock {
      var now := Now(system, offset);
      if tc1 == 0 && acquired then this.(replies := replies + [(now, ts1)])
      else if tc1 > 0 then SetOffset(TruncDiv(tc1 * 2 - (ts1 + now), 2), ts1, later)
      else this
    }
  }

  /** `Timesync` with the offset of `AutopilotTime`; `replies` records the messages sent. */
  class TimesyncHandler {
    var autopilotTimeOffset: int
    var autopilotTimesyncAcquired: bool
    var highRttCount: nat
    var warnings: nat
    var replies: seq<(int, int)>

    ghost function View(): Clock
      reads this
    {
      Clock(autopilotTimeOffset, autopilotTimesyncAcquired, highRttCount, warnings, replies)
    }

    constructor ()
      ensures View() == Clock(0, false, 0, 0, [])
    {
      autopilotTimeOffset, autopilotTimesyncAcquired, highRttCount, warnings, replies := 0, false, 0, 0, [];
    }

    method SetTimesyncOffset(offsetNs: int, started: int, system: int)
      modifies this
      ensures View() == old(View()).SetOffset(offsetNs, started, system)
    {
      var rtt := (Now(system, autopilotTimeOffset) - started) % LIMIT_64;
      if rtt < MAX_RTT_SAMPLE_NS {
        autopilotTimeOffset := autopilotTimeOffset + offsetNs;
        autopilotTimesyncAcquired := true;
        highRttCount := 0;
      } else {
        highRttCount := highRttCount + 1;
        if highRttCount > MAX_CONS_HIGH_RTT {
          warnings := warnings + 1;
          highRttCount := 0;
        }
      }
    }

    method ProcessTimesync(tc1: int, ts1: int, system: int, later: int)
      modifies this
      ensures View() == old(View()).Process(tc1, ts1, system, later)
    {
      var now := Now(system, autopilotTimeOffset);
      if tc1 == 0 && autopilotTimesyncAcquired {
        replies := replies + [(now, ts1)];
      } else if tc1 > 0 {
        SetTimesyncOffset(TruncDiv(tc1 * 2 - (ts1 + now), 2), ts1, later);
      }
    }
  }

  // ----- One exchange -----

  /**
   An exchange with a remote system. The local system clock shows `sent` when the request
   leaves, `turned` when the remote answers it, `received` and then `later` when the answer
   is processed; the remote system clock runs at the same rate, `base` ahead. No other
   message moves the local offset meanwhile. A remote that has not acquired a clock itself
   does not answer, and an answer with a time before the epoch is of no use.
   */
  datatype Exchange = Exchange(sent: int, turned: int, received: int, later: int, base: int, remote: Clock)
  {
    predicate Possible() {
      sent <= turned <= received <= later && (remote.acquired ==> Now(turned, Skew()) != 0)
    }

    /** How far the remote's autopilot time is ahead of the local system clock. */
    function Skew(): int {
      base + remote.offset
    }

    predicate Answers() {
      remote.acquired && Now(turned, Skew()) > 0
    }

    function Ts1(c: Clock): int {
      Now(sent, c.offset)
    }

    /** What the remote answers to a request: `tc1` and `ts1`. */
    function Reply(c: Clock): (int, int)
      requires remote.acquired
    {
      var replies := remote.Process(0, Ts1(c), turned + base, turned + base).replies;
      replies[|replies| - 1]
    }

    function RoundTrip(c: Clock): int {
      Now(later, c.offset) - Ts1(c)
    }

    function After(c: Clock): Clock {
      if remote.acquired then c.Process(Reply(c).0, Reply(c).1, received, later) else c
    }
  }

  function Abs(x: int): nat {
    if x < 0 then -x else x
  }

  lemma ReplyIs(e: Exchange, c: Clock)
    requires e.remote.acquired
    ensures e.Reply(c) == (Now(e.turned, e.Skew()), e.Ts1(c))
  {
  }

  lemma Monotone(system: int, later: int, offset: int)
    requires system <= later
    ensures Now(system, offset) <= Now(later, offset)
  {
  }

  /** The time of the sample, as the setter gets it. */
  function Sample(e: Exchange, c: Clock): int {
    TruncDiv(Now(e.turned, e.Skew()) * 2 - (e.Ts1(c) + Now(e.received, c.offset)), 2)
  }

  lemma AnswerIsSample(e: Exchange, c: Clock)
    requires e.Possible() && e.Answers()
    ensures e.After(c) == c.SetOffset(Sample(e, c), e.Ts1(c), e.later)
  {
    ReplyIs(e, c);
    hide Now, TruncDiv, Clock.SetOffset, Exchange.Reply;
  }

  /** Without a useful answer nothing changes. */
  lemma NoSample(e: Exchange, c: Clock)
    requires e.Possible() && !e.Answers()
    ensures e.After(c) == c
  {
    if e.remote.acquired {
      ReplyIs(e, c);
    }
    hide Now, TruncDiv, Clock.SetOffset, Exchange.Reply;
  }

  /** The setter, for a round trip that sixty-four bits hold. */
  lemma SetterIs(c: Clock, offsetNs: int, started: int, system: int)
    requires 0 <= Now(system, c.offset) - started < LIMIT_64
    ensures c.SetOffset(offsetNs, started, system)
            == if Now(system, c.offset) - started < MAX_RTT_SAMPLE_NS then
                 c.(offset := c.offset + offsetNs, acquired := true, highRtt := 0)
               else if c.highRtt >= 5 then c.(highRtt := 0, warnings := c.warnings + 1)
               else c.(highRtt := c.highRtt + 1)
  {
    hide Now;
    Small(Now(system, c.offset) - started);
  }

  lemma Small(x: int)
    requires 0 <= x < LIMIT_64
    ensures x % LIMIT_64 == x
  {
  }

  predicate Accepts(e: Exchange, c: Clock) {
    e.Answers() && e.RoundTrip(c) < 10_000_000
  }

  /** A sample counts exactly when there is one and its round trip is below ten milliseconds. */
  lemma AcceptedIff(e: Exchange, c: Clock)
    requires e.Possible() && e.RoundTrip(c) < LIMIT_64
    ensures 0 <= e.RoundTrip(c)
    ensures Accepts(e, c) ==>
              e.After(c).acquired && e.After(c).highRtt == 0 && e.After(c).offset == c.offset + Sample(e, c)
    ensures !Accepts(e, c) ==> e.After(c).offset == c.offset && e.After(c).acquired == c.acquired
  {
    Monotone(e.sent, e.later, c.offset);
    if !e.Answers() {
      NoSample(e, c);
    } else {
      AnswerIsSample(e, c);
      SetterIs(c, Sample(e, c), e.Ts1(c), e.later);
      hide Now, TruncDiv, Exchange.After, Clock.SetOffset;
    }
  }

  /** How far `Now`, in whole microseconds, is from the exact time. */
  lemma Rounding(system: int, offset: int)
    ensures Now(system, offset) % 1000 == 0
    ensures Abs(system + offset - Now(system, offset)) <= 999
    ensures system + offset >= 0 || Now(system, offset) > 0 ==> 0 <= system + offset - Now(system, offset)
  {
  }

  /**
   After an accepted sample the corrected local clock is within half the round trip of
   the remote one, up to rounding, whatever the offset was: twice the error is at most
   the time under way and two microseconds (four if local times before the epoch occur).
   */
  lemma OffsetError(e: Exchange, c: Clock)
    requires e.Possible() && Accepts(e, c)
    ensures 2 * Abs(e.After(c).offset - e.Skew()) <= e.received - e.sent + 3997
    ensures e.sent + c.offset >= 0 ==> 2 * Abs(e.After(c).offset - e.Skew()) <= e.received - e.sent + 1999
  {
    hide Clock.Process, Now;
    AcceptedIff(e, c);
    Rounding(e.turned, e.Skew());
    Rounding(e.sent, c.offset);
    Rounding(e.received, c.offset);
  }

  /** So both clocks show times that differ by little more than five milliseconds. */
  lemma ClocksAgree(e: Exchange, c: Clock, system: int)
    requires e.Possible() && Accepts(e, c) && e.sent + c.offset >= 0
    ensures 2 * Abs((system + e.After(c).offset) - (system + e.Skew())) < e.RoundTrip(c) + 3000
    ensures Abs((system + e.After(c).offset) - (system + e.Skew())) < 5_001_500
  {
    OffsetError(e, c);
    Rounding(e.sent, c.offset);
    Rounding(e.later, c.offset);
  }

  // ----- Runs of exchanges and requests -----

  /** An exchange that the handler begins, or a request from a remote while the local system clock shows `system`. */
  datatype Action = Exchanged(e: Exchange) | Asked(ts1: int, system: int)

  function Step(c: Clock, a: Action): Clock {
    match a
    case Exchanged(e) => e.After(c)
    case Asked(ts1, system) => c.Process(0, ts1, system, system)
  }

  function Run(c: Clock, actions: seq<Action>): Clock {
    if actions == [] then c
    else Step(Run(c, actions[..|actions| - 1]), actions[|actions| - 1])
  }

  lemma OneSample(e: Exchange, c: Clock)
    requires e.Possible() && (e.Answers() ==> e.RoundTrip(c) < LIMIT_64)
    ensures Accepts(e, c) ==> e.Answers() && e.After(c).acquired && Abs(e.After(c).offset - e.Skew()) < 5_002_500
    ensures !Accepts(e, c) ==> e.After(c).acquired == c.acquired && e.After(c).offset == c.offset
  {
    if !e.Answers() {
      NoSample(e, c);
    } else {
      AcceptedIff(e, c);
      hide Exchange.After, Now, TruncDiv;
      if Accepts(e, c) {
        OffsetError(e, c);
        ShortTrip(e, c);
      }
    }
  }

  lemma ShortTrip(e: Exchange, c: Clock)
    requires e.Possible() && Accepts(e, c)
    ensures e.received - e.sent < MAX_RTT_SAMPLE_NS + 1998
  {
    hide Now;
    Rounding(e.sent, c.offset);
    Rounding(e.later, c.offset);
  }

  /** An answer whose round trip is too long. */
  predicate Rejects(e: Exchange, c: Clock) {
    e.Answers() && e.RoundTrip(c) >= 10_000_000
  }

  /** What an exchange does to the count of long round trips; the sixth in a row warns and starts over. */
  lemma LongTrips(e: Exchange, c: Clock)
    requires e.Possible() && (e.Answers() ==> e.RoundTrip(c) < LIMIT_64)
    ensures var d := e.After(c);
      && d.replies == c.replies
      && (Accepts(e, c) ==> d.highRtt == 0 && d.warnings == c.warnings)
      && (Rejects(e, c) ==> if c.highRtt < 5 then d.highRtt == c.highRtt + 1 && d.warnings == c.warnings
                            else d.highRtt == 0 && d.warnings == c.warnings + 1)
      && (!e.Answers() ==> d == c)
  {
    if !e.Answers() {
      NoSample(e, c);
    } else {
      Monotone(e.sent, e.later, c.offset);
      AnswerIsSample(e, c);
      SetterIs(c, Sample(e, c), e.Ts1(c), e.later);
      hide Now, TruncDiv, Exchange.After, Clock.SetOffset;
    }
  }

  predicate SomeAccepted(c: Clock, actions: seq<Action>) {
    actions != [] &&
    var before, last := actions[..|actions| - 1], actions[|actions| - 1];
    SomeAccepted(c, before) || (last.Exchanged? && Accepts(last.e, Run(c, before)))
  }

  /** How many samples in a row have been rejected, with those before the run. */
  function RejectedInRow(c: Clock, actions: seq<Action>): nat {
    if actions == [] then c.highRtt else
    var before, last := actions[..|actions| - 1], actions[|actions| - 1];
    if last.Exchanged? && Accepts(last.e, Run(c, before)) then 0
    else RejectedInRow(c, before) + if last.Exchanged? && Rejects(last.e, Run(c, before)) then 1 else 0
  }

  /** How many rejected samples were the sixth, the twelfth and so on in their row. */
  function SixthRejections(c: Clock, actions: seq<Action>): nat {
    if actions == [] then 0 else
    var before, last := actions[..|actions| - 1], actions[|actions| - 1];
    SixthRejections(c, before) +
    if last.Exchanged? && Rejects(last.e, Run(c, before)) && RejectedInRow(c, actions) % 6 == 0 then 1 else 0
  }

  /** Exchanges with one remote clock, as soon as it has one, none of which takes five centuries. */
  predicate Proper(c: Clock, actions: seq<Action>, skew: int) {
    actions == [] ||
    var before, last := actions[..|actions| - 1], actions[|actions| - 1];
    && Proper(c, before, skew)
    && (last.Exchanged? ==>
          && last.e.Possible()
          && (last.e.Answers() ==> last.e.Skew() == skew && last.e.RoundTrip(Run(c, before)) < LIMIT_64))
  }

  /** The requests that come after some accepted sample. */
  function Answerable(c: Clock, actions: seq<Action>): seq<Action> {
    if actions == [] then [] else
    var before, last := actions[..|actions| - 1], actions[|actions| - 1];
    Answerable(c, before) + if last.Asked? && SomeAccepted(c, before) then [last] else []
  }

  /** One reply for each request, in order, with its time stamp and the remote's time within 5.0035 milliseconds. */
  predicate Replied(replies: seq<(int, int)>, requests: seq<Action>, skew: int) {
    |replies| == |requests| &&
    forall i :: 0 <= i < |replies| ==>
      && requests[i].Asked? && replies[i].1 == requests[i].ts1
      && Abs(replies[i].0 - (requests[i].system + skew)) < 5_003_500
  }

  /**
   Over any run of exchanges with one remote clock and of requests, starting from any
   offset: the clock is acquired exactly when some sample was accepted, and from then on its
   error stays below 5.0025 milliseconds; requests are answered from then on, each once and
   with the right time, and none before; and every sixth sample that is rejected in a row
   gives a warning.
   */
  lemma {:induction false} StaysSynchronised(c: Clock, actions: seq<Action>, skew: int)
    requires Proper(c, actions, skew) && !c.acquired && c.highRtt <= MAX_CONS_HIGH_RTT && c.replies == []
    ensures var d := Run(c, actions);
      && (d.acquired ==> Abs(d.offset - skew) < 5_002_500)
      && (d.acquired <==> SomeAccepted(c, actions))
      && d.highRtt == RejectedInRow(c, actions) % 6 && d.warnings == c.warnings + SixthRejections(c, actions)
      && Replied(d.replies, Answerable(c, actions), skew)
    decreases |actions|
  {
    hide Accepts, Rejects, Exchange.After, Exchange.RoundTrip, Exchange.Possible, Clock.Process;
    if actions != [] {
      var before, last := actions[..|actions| - 1], actions[|actions| - 1];
      StaysSynchronised(c, before, skew);
      match last
      case Exchanged(e) =>
        OneSample(e, Run(c, before));
        LongTrips(e, Run(c, before));
        EitherWay(e, Run(c, before));
      case Asked(ts1, system) => OneRequest(Run(c, before), ts1, system, skew);
    }
  }

  lemma EitherWay(e: Exchange, c: Clock)
    ensures !(Accepts(e, c) && Rejects(e, c)) && (Accepts(e, c) || Rejects(e, c) <==> e.Answers())
  {
  }

  /** A request is answered exactly if the clock is acquired. */
  lemma OneRequest(c: Clock, ts1: int, system: int, skew: int)
    requires c.acquired ==> Abs(c.offset - skew) < 5_002_500
    ensures var d := c.Process(0, ts1, system, system);
      && d == c.(replies := d.replies)
      && if c.acquired then
           |d.replies| == |c.replies| + 1 && d.replies[..|c.replies|] == c.replies
           && d.replies[|c.replies|].1 == ts1 && Abs(d.replies[|c.replies|].0 - (system + skew)) < 5_003_500
         else d.replies == c.replies
  {
    hide Now;
    Rounding(system, c.offset);
  }

  /** The handler in place, over the answers and requests of a run. */
  method Synchronise(actions: seq<Action>, skew: int) returns (h: TimesyncHandler)
    requires Proper(Clock(0, false, 0, 0, []), actions, skew)
    ensures fresh(h) && h.View() == Run(Clock(0, false, 0, 0, []), actions)
    ensures h.autopilotTimesyncAcquired <==> SomeAccepted(Clock(0, false, 0, 0, []), actions)
    ensures h.autopilotTimesyncAcquired ==> Abs(h.autopilotTimeOffset - skew) < 5_002_500
    ensures h.warnings == SixthRejections(Clock(0, false, 0, 0, []), actions)
    ensures Replied(h.replies, Answerable(Clock(0, false, 0, 0, []), actions), skew)
  {
    hide Proper, SomeAccepted, Replied, Answerable;
    h := new TimesyncHandler();
    ghost var c := h.View();
    for i := 0 to |actions|
      invariant fresh(h) && h.View() == Run(c, actions[..i])
    {
      assert actions[..i + 1][..i] == actions[..i];
      match actions[i]
      case Exchanged(e) =>
        if e.remote.acquired {
          var tc1, ts1 := Now(e.turned, e.Skew()), Now(e.sent, h.autopilotTimeOffset);
          ReplyIs(e, h.View());
          h.ProcessTimesync(tc1, ts1, e.received, e.later);
        }
      case Asked(ts1, system) => h.ProcessTimesync(0, ts1, system, system);
    }
    assert actions[..|actions|] == actions;
    StaysSynchronised(c, actions, skew);
  }
}
