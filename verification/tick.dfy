/** One firing of the one-second interval: the countdown step applied to the whole list,
    the completion alerts it raises and whether the interval keeps going. */
module Tick {
  import opened Wrappers
  import opened Seqs
  import opened TimerTypes
  import opened TimerList

  /** A timer the tick decrements: started and not yet at zero. */
  predicate CountsDown(t: Timer) { t.isRunning && t.remainingTime > 0 }

  /** A timer the tick alerts for: at zero and still flagged running. Finishing does not
      clear isRunning, so a finished timer stays in this state until it is toggled,
      reset or removed. */
  predicate Rings(t: Timer) { t.remainingTime == 0 && t.isRunning }

  predicate AnyCountsDown(ts: seq<Timer>) { exists i :: 0 <= i < |ts| && CountsDown(ts[i]) }

  predicate AnyRunning(ts: seq<Timer>) { exists i :: 0 <= i < |ts| && ts[i].isRunning }

  /** The countdown step of one timer at clock reading `now`: a counting timer loses one
      second and gets the completion time `now` when that second was its last; any other
      completion time it had is dropped. Other timers are left alone. */
  function TickTimer(t: Timer, now: nat): (r: Timer)
    ensures !CountsDown(t) ==> r == t
    ensures CountsDown(t) ==> r.remainingTime + 1 == t.remainingTime
    ensures CountsDown(t) ==> (r.completedAt == Some(now) <==> t.remainingTime == 1)
    ensures CountsDown(t) && t.remainingTime != 1 ==> r.completedAt == None
    ensures SameSettings(r, t) && r.isRunning == t.isRunning && r.isPaused == t.isPaused
  {
    if CountsDown(t) then
      t.(remainingTime := t.remainingTime - 1,
         completedAt := if t.remainingTime == 1 then Some(now) else None)
    else t
  }

  function TickAll(ts: seq<Timer>, now: nat): (r: seq<Timer>)
    ensures |r| == |ts|
    ensures forall i :: 0 <= i < |ts| ==> r[i] == TickTimer(ts[i], now)
  {
    seq(|ts|, i requires 0 <= i < |ts| => TickTimer(ts[i], now))
  }

  function Ids(ts: seq<Timer>): (ids: seq<string>)
    ensures |ids| == |ts|
    ensures forall k :: 0 <= k < |ts| ==> ids[k] == ts[k].id
  {
    seq(|ts|, k requires 0 <= k < |ts| => ts[k].id)
  }

  /** The ids to alert for after a tick, one entry per ringing timer, in list order. */
  function Alerts(ts: seq<Timer>): (ids: seq<string>)
    ensures |ids| == |Filter(Rings, ts)|
    ensures forall i :: 0 <= i < |ts| && Rings(ts[i]) ==> ts[i].id in ids
    ensures forall k :: 0 <= k < |ids| ==> exists i :: 0 <= i < |ts| && Rings(ts[i]) && ts[i].id == ids[k]
  {
    var ringing := Filter(Rings, ts);
    var ids := Ids(ringing);
    assert forall i :: 0 <= i < |ts| && Rings(ts[i]) ==> ts[i] in ringing;
    assert forall k :: 0 <= k < |ids| ==> ringing[k] in ts;
    ids
  }

  /** The tick never starts, stops or pauses a timer, so whether anything is running is
      the same before and after it. */
  lemma TickKeepsRunning(ts: seq<Timer>, now: nat)
    ensures forall i :: 0 <= i < |ts| ==> TickAll(ts, now)[i].isRunning == ts[i].isRunning
    ensures AnyRunning(TickAll(ts, now)) <==> AnyRunning(ts)
  {
    var r := TickAll(ts, now);
    if AnyRunning(ts) {
      var i :| 0 <= i < |ts| && ts[i].isRunning;
      assert r[i].isRunning;
    }
  }

  /** Remaining time only goes down, and stays within the duration. */
  lemma TickKeepsBound(ts: seq<Timer>, now: nat)
    requires AllBounded(ts)
    ensures AllBounded(TickAll(ts, now))
    ensures forall i :: 0 <= i < |ts| ==> TickAll(ts, now)[i].remainingTime <= ts[i].remainingTime
  {
  }

  /** After a tick a timer rings exactly when it is running with at most one second left
      before the tick: the one that just finished and every one that had finished
      earlier. */
  lemma RingsAfterTick(ts: seq<Timer>, now: nat)
    ensures forall i :: 0 <= i < |ts| ==>
              (Rings(TickAll(ts, now)[i]) <==> ts[i].isRunning && ts[i].remainingTime <= 1)
  {
  }

  /** The completion time is stamped on the tick that takes a timer from 1 to 0, and a
      finished timer is never touched by later ticks, so the stamp is kept. */
  lemma CompletionStampedOnce(t: Timer, now: nat, later: nat)
    requires CountsDown(t) && t.remainingTime == 1
    ensures TickTimer(t, now).completedAt == Some(now)
    ensures TickTimer(TickTimer(t, now), later) == TickTimer(t, now)
  {
  }
}
