/**
 The job's recorder: it numbers every event, appends it to the log, and stores the count in
 `state.json` at most every `FLUSH_INTERVAL`, with one trailing timer so that a quiet stretch does
 not leave the last events uncounted.

 Time is in milliseconds; a flush is one atomic step. A timer fires late by at most `latency`, a
 property of the machine.
 */
module Recorder {
  import opened Text
  import opened EventLog

  const FLUSH_INTERVAL: nat := 500

  /** A flush that happened, and whether a lifecycle event forced it. */
  datatype Flush = Flush(at: nat, forced: bool)

  /**
   What happens to the recorder: an event at a time; how late a pending timer is by then, and
   whether it is first when both fall together.
   */
  datatype Arrival = Arrival(at: nat, lifecycle: bool, data: string, late: nat, timerFirst: bool)

  class Recorder {
    const latency: nat
    var number: nat
    var flushedAt: nat
    var pending: Option<nat>          // when the trailing timer is due
    var log: seq<Line>                // events.jsonl
    var eventCount: nat               // state.json's event_count

    ghost var recordedAt: seq<nat>    // when event k was recorded
    ghost var countedAt: seq<nat>     // when event k was first counted
    ghost var flushes: seq<Flush>

    constructor (latency: nat)
      ensures Valid(0) && log == [] && flushes == [] && this.latency == latency
    {
      this.latency := latency;
      number, flushedAt, pending, log, eventCount := 0, 0, None, [], 0;
      recordedAt, countedAt, flushes := [], [], [];
    }

    /** The log is numbered without gaps, and the count never runs ahead of it. */
    ghost predicate Counts()
      reads this
    {
      && |log| == number == |recordedAt|
      && (forall k :: 0 <= k < |log| ==> log[k].Row? && log[k].event.number == k + 1)
      && |countedAt| == eventCount <= number
    }

    /** A timer is pending exactly while something is uncounted, and it is due in time for all of it. */
    ghost predicate Timed(now: nat)
      reads this
    {
      && (pending.Some? <==> eventCount < number)
      && (pending.Some? ==> now <= pending.value + latency && flushedAt + FLUSH_INTERVAL <= pending.value)
      && (pending.Some? ==> forall k :: eventCount <= k < |recordedAt| ==>
        pending.value <= recordedAt[k] + FLUSH_INTERVAL)
      && (forall k :: 0 <= k < |recordedAt| ==> recordedAt[k] <= now)
    }

    /** What the two bounds say of the past. */
    ghost predicate Kept(now: nat)
      reads this
    {
      && (forall k :: 0 <= k < |countedAt| && k < |recordedAt| ==>
            recordedAt[k] <= countedAt[k] <= recordedAt[k] + FLUSH_INTERVAL + latency)
      && (forall i :: 0 < i < |flushes| && !flushes[i].forced ==> flushes[i - 1].at + FLUSH_INTERVAL <= flushes[i].at)
      && (forall k :: 0 <= k < |countedAt| ==> countedAt[k] <= flushedAt)
      && flushedAt <= now
      && flushedAt == if flushes == [] then 0 else flushes[|flushes| - 1].at
    }

    ghost predicate Valid(now: nat)
      reads this
    {
      Counts() && Timed(now) && Kept(now)
    }

    /** `flush`: cancel the timer and store the count. */
    method DoFlush(now: nat, ghost forced: bool)
      requires Counts() && Kept(now)
      requires forall k :: 0 <= k < |recordedAt| ==> recordedAt[k] <= now
      requires forall k :: eventCount <= k < |recordedAt| ==> now <= recordedAt[k] + FLUSH_INTERVAL + latency
      requires forced || flushes == [] || flushedAt + FLUSH_INTERVAL <= now
      modifies this
      ensures Valid(now) && eventCount == number && pending == None && flushedAt == now
      ensures number == old(number) && log == old(log) && recordedAt == old(recordedAt)
      ensures flushes == old(flushes) + [Flush(now, forced)]
      ensures old(countedAt) <= countedAt
    {
      pending := None;
      countedAt := countedAt + seq(number - eventCount, _ => now);
      eventCount := number;
      flushes := flushes + [Flush(now, forced)];
      flushedAt := now;
    }

    /** `_record`: number, append, then flush now, or make sure a timer will. */
    method Record(data: string, now: nat, lifecycle: bool)
      requires Valid(now)
      modifies this
      ensures Valid(now)
      ensures number == old(number) + 1 && log == old(log) + [Row(Event(number, data))]
      ensures recordedAt == old(recordedAt) + [now]
      ensures lifecycle ==> eventCount == number
      ensures old(flushes) <= flushes && old(countedAt) <= countedAt
      ensures lifecycle || now >= old(flushedAt) + 500 <==> flushes != old(flushes)
    {
      assert pending.Some? ==> pending.value <= recordedAt[eventCount] + FLUSH_INTERVAL;
      number := number + 1;
      log := log + [Row(Event(number, data))];
      recordedAt := recordedAt + [now];
      if lifecycle || now >= flushedAt + FLUSH_INTERVAL {
        DoFlush(now, lifecycle);
      } else if pending == None {
        pending := Some(now + FLUSH_INTERVAL);
      }
    }

    /** The trailing timer runs, at its due time or late. */
    method TimerFires(now: nat)
      requires Valid(now) && pending.Some? && pending.value <= now
      modifies this
      ensures Valid(now) && eventCount == number && pending == None
      ensures number == old(number) && log == old(log) && recordedAt == old(recordedAt)
      ensures old(flushes) <= flushes && old(countedAt) <= countedAt
    {
      DoFlush(now, false);
    }

    /**
     A whole run of arrivals, the timer firing at any moment from its due time to `latency` after
     it. Every event is counted within `FLUSH_INTERVAL` and that latency of being recorded, flushes
     that nothing forced are at least `FLUSH_INTERVAL` behind the flush before them, a lifecycle
     event is counted at once with everything before it, the log stays numbered, and nothing is left
     uncounted.
     */
    method Run(arrivals: seq<Arrival>, lastLate: nat)
      requires Valid(0) && log == []
      requires forall i, j :: 0 <= i < j < |arrivals| ==> arrivals[i].at <= arrivals[j].at
      modifies this
      ensures eventCount == number == |arrivals| && pending == None
      ensures Numbered(log) && |log| == |arrivals|
      ensures forall k :: 0 <= k < |arrivals| ==> log[k] == Row(Event(k + 1, arrivals[k].data))
      ensures |countedAt| == |arrivals|
      ensures forall k :: 0 <= k < |arrivals| ==>
        arrivals[k].at <= countedAt[k] <= arrivals[k].at + 500 + latency
      ensures forall k :: 0 <= k < |arrivals| && arrivals[k].lifecycle ==> CountedBy(arrivals[k].at, k + 1)
      ensures forall i :: 0 < i < |flushes| && !flushes[i].forced ==> flushes[i - 1].at + 500 <= flushes[i].at
    {
      var now: nat := 0;
      var k := 0;
      while k < |arrivals|
        invariant 0 <= k <= |arrivals| && number == k && Valid(now)
        invariant k < |arrivals| ==> now <= arrivals[k].at
        invariant forall i :: 0 <= i < k && arrivals[i].lifecycle ==> CountedBy(arrivals[i].at, i + 1)
        invariant forall i :: 0 <= i < k ==> log[i] == Row(Event(i + 1, arrivals[i].data))
        invariant forall i :: 0 <= i < k ==> recordedAt[i] == arrivals[i].at
      {
        Arrive(arrivals[k], now);
        now := arrivals[k].at;
        k := k + 1;
      }
      if pending.Some? {
        TimerFireAt(FiresAt(now, lastLate), now);
      }
    }

    /** One event, and before it the pending timer if it fires by then. */
    method Arrive(a: Arrival, now: nat)
      requires Valid(now) && now <= a.at
      modifies this
      ensures Valid(a.at) && number == old(number) + 1
      ensures log == old(log) + [Row(Event(number, a.data))] && recordedAt == old(recordedAt) + [a.at]
      ensures old(countedAt) <= countedAt && (a.lifecycle ==> CountedBy(a.at, number))
    {
      var t := now;
      if pending.Some? {
        var fires := FiresAt(now, a.late);
        if fires < a.at || (fires == a.at && a.timerFirst) {
          TimerFireAt(fires, now);
          t := fires;
        }
      }
      Later(t, a.at);
      Record(a.data, a.at, a.lifecycle);
    }

    /** The first `n` events were counted by the time `t`. */
    ghost predicate CountedBy(t: nat, n: nat)
      reads this
    {
      n <= |countedAt| && forall j :: 0 <= j < n ==> countedAt[j] <= t
    }

    /**
     When the pending timer fires, seen from `now`: `late` after it is due, but no later than it
     can be, and not before.
     */
    function FiresAt(now: nat, late: nat): (t: nat)
      requires Valid(now) && pending.Some?
      reads this
      ensures now <= t && pending.value <= t <= pending.value + latency
    {
      var t := pending.value + if late < latency then late else latency;
      if t < now then now else t
    }

    /** Time passes up to a moment the timer fires at. */
    method TimerFireAt(fires: nat, ghost now: nat)
      requires Valid(now) && pending.Some? && now <= fires && pending.value <= fires <= pending.value + latency
      modifies this
      ensures Valid(fires) && eventCount == number && pending == None
      ensures number == old(number) && log == old(log) && recordedAt == old(recordedAt)
      ensures old(countedAt) <= countedAt
    {
      Later(now, fires);
      TimerFires(fires);
    }

    /** Time may pass up to the last moment the pending timer can fire at. */
    lemma Later(now: nat, later: nat)
      requires Valid(now) && now <= later && (pending.Some? ==> later <= pending.value + latency)
      ensures Valid(later)
    {
    }
  }
}
