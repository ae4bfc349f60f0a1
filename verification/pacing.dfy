/** `CommandHandler`'s pacing of the bus: a message to a device that was heard from or
    written to no more than `MinDistanceBetweenRequests` milliseconds ago is held back
    until that distance has passed since then; any other message goes out at once. */
module Pacing {
  import opened Numeric
  import opened SessionModel

  /** A `boost::posix_time::ptime` from the microsecond clock, in microseconds. */
  type Time = int

  /** `(now - last).total_milliseconds()`: the distance in whole milliseconds, truncated
      toward zero, so negative when the clock went back. */
  function ElapsedMs(now: Time, last: Time): (ms: int)
    ensures now >= last ==> 0 <= ms && ms * 1000 <= now - last < ms * 1000 + 1000
    ensures now < last ==> ms <= 0 && ms * 1000 - 1000 < now - last <= ms * 1000
  {
    var diff := now - last;
    if diff >= 0 then diff / 1000 else -((-diff) / 1000)
  }

  /** When `sendMessage` lets a message go. */
  datatype Dispatch = Immediately | At(time: Time)

  /** The decision of `sendMessage` for a message to `dest` at `now`. */
  function Pace(lastCommTimes: map<Byte, Time>, dest: Byte, now: Time, minDistance: nat): (d: Dispatch)
    ensures d.Immediately? <==> dest !in lastCommTimes || now - lastCommTimes[dest] >= (minDistance + 1) * 1000
    ensures d.At? ==> d.time == lastCommTimes[dest] + minDistance * 1000
  {
    if dest in lastCommTimes && ElapsedMs(now, lastCommTimes[dest]) <= minDistance
    then At(lastCommTimes[dest] + minDistance * 1000)
    else Immediately
  }

  /** The moment the message reaches the bus handler: at once, or when the send timer
      expires, which is at once when its expiry time has already passed. */
  function SendTime(d: Dispatch, now: Time): Time
  {
    match d
    case Immediately => now
    case At(t) => if t <= now then now else t
  }

  /** A message to a device goes to the bus no sooner than the minimum distance after
      the last communication with that device, and is held back no longer than that. */
  lemma PacedSendTime(lastCommTimes: map<Byte, Time>, dest: Byte, now: Time, minDistance: nat)
    ensures var t := SendTime(Pace(lastCommTimes, dest, now, minDistance), now);
      t >= now
      && (dest in lastCommTimes ==> t >= lastCommTimes[dest] + minDistance * 1000)
      && (dest in lastCommTimes && t > now ==> t == lastCommTimes[dest] + minDistance * 1000)
      && (dest !in lastCommTimes ==> t == now)
  {
  }

  class CommandHandler {
    /** `MinDistanceBetweenRequests`, in milliseconds */
    const minDistance: nat
    /** `m_lastCommTimes`: per device, when it was last heard from or written to */
    var lastCommTimes: map<Byte, Time>
    /** what was passed to the bus handler, in order */
    var transmitted: seq<EmsMessage>
    /** the messages handed to the send timer, with the expiry time it was given */
    var scheduled: seq<(EmsMessage, Time)>

    constructor (minDistance: nat)
      ensures this.minDistance == minDistance
      ensures lastCommTimes == map[] && transmitted == [] && scheduled == []
    {
      this.minDistance := minDistance;
      lastCommTimes := map[];
      transmitted := [];
      scheduled := [];
    }

    /** `handlePcMessage`: a message from `source` arrived at `now`. Passing it on to the
        connections is `CommandConnection.HandlePcMessage`. */
    method HandlePcMessage(source: Byte, now: Time)
      modifies this
      ensures lastCommTimes == old(lastCommTimes)[source := now]
      ensures transmitted == old(transmitted) && scheduled == old(scheduled)
    {
      lastCommTimes := lastCommTimes[source := now];
    }

    /** `sendMessage` at `now`. */
    method SendMessage(msg: EmsMessage, now: Time) returns (d: Dispatch)
      modifies this
      ensures d == Pace(old(lastCommTimes), msg.dest, now, minDistance)
      ensures d.Immediately? ==>
                transmitted == old(transmitted) + [msg] && lastCommTimes == old(lastCommTimes)[msg.dest := now]
                && scheduled == old(scheduled)
      ensures d.At? ==>
                scheduled == old(scheduled) + [(msg, d.time)] && transmitted == old(transmitted)
                && lastCommTimes == old(lastCommTimes)
    {
      d := Immediately;
      if msg.dest in lastCommTimes {
        var diff := ElapsedMs(now, lastCommTimes[msg.dest]);
        if diff <= minDistance {
          d := At(lastCommTimes[msg.dest] + minDistance * 1000);
          scheduled := scheduled + [(msg, d.time)];
        }
      }
      if d.Immediately? {
        DoSendMessage(msg, now);
      }
    }

    /** `doSendMessage` at `now`: directly, or when the send timer expires. */
    method DoSendMessage(msg: EmsMessage, now: Time)
      modifies this
      ensures transmitted == old(transmitted) + [msg]
      ensures lastCommTimes == old(lastCommTimes)[msg.dest := now]
      ensures scheduled == old(scheduled)
    {
      transmitted := transmitted + [msg];
      lastCommTimes := lastCommTimes[msg.dest := now];
    }
  }
}
