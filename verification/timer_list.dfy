/** The store's list transformations, each a pure function of the current list:
    creating and appending a timer, deleting by id, clearing finished timers, and the
    per-id start/pause, reset and field-update maps. Ids are not unique in general
    (two timers created in the same millisecond share one), so the id-keyed maps act on
    every timer carrying the id. */
module TimerList {
  import opened Wrappers
  import opened Seqs
  import opened Text
  import opened TimerTypes

  /** remainingTime never exceeds the configured duration. */
  predicate Bounded(t: Timer) { t.remainingTime <= t.duration }

  predicate AllBounded(ts: seq<Timer>) { forall i :: 0 <= i < |ts| ==> Bounded(ts[i]) }

  predicate HasId(ts: seq<Timer>, id: string) { exists i :: 0 <= i < |ts| && ts[i].id == id }

  /** The timer `addTimer` builds: id from the clock reading `idTime` written in decimal,
      the duration summed from its components, full time remaining, idle, never completed. */
  function NewTimer(input: CreateTimerInput, idTime: nat, createdAt: nat): (t: Timer)
    ensures t.duration == t.remainingTime == TotalSeconds(input.hours, input.minutes, input.seconds)
    ensures !t.isRunning && !t.isPaused && t.completedAt == None
    ensures t.id == ToDecimal(idTime) && t.createdAt == createdAt
    ensures t.name == input.name && t.description == input.description && t.color == input.color
    ensures Bounded(t)
  {
    var total := TotalSeconds(input.hours, input.minutes, input.seconds);
    Timer(ToDecimal(idTime), input.name, total, input.description, input.color,
          false, false, total, createdAt, None)
  }

  /** The list without the timers whose id is `id`, the others kept in order. */
  function WithoutId(ts: seq<Timer>, id: string): (r: seq<Timer>)
    ensures Subsequence(r, ts)
    ensures forall t :: multiset(r)[t] == if t.id != id then multiset(ts)[t] else 0
    ensures !HasId(r, id)
    ensures !HasId(ts, id) ==> r == ts
  {
    var keep := (t: Timer) => t.id != id;
    if HasId(ts, id) then Filter(keep, ts)
    else FilterKeepsAll(keep, ts); Filter(keep, ts)
  }

  /** The timers that still have time left, in order: what `clearCompleted` keeps. */
  function Pending(ts: seq<Timer>): (r: seq<Timer>)
    ensures Subsequence(r, ts)
    ensures forall t :: multiset(r)[t] == if t.remainingTime > 0 then multiset(ts)[t] else 0
    ensures forall i :: 0 <= i < |r| ==> r[i].remainingTime > 0
  {
    Filter((t: Timer) => t.remainingTime > 0, ts)
  }

  /** Clearing finished timers a second time removes nothing more. */
  lemma PendingIdempotent(ts: seq<Timer>)
    ensures Pending(Pending(ts)) == Pending(ts)
  {
    FilterIdempotent((t: Timer) => t.remainingTime > 0, ts);
  }

  /** Applies `f` to every timer whose id is `id`, leaving the others and the order alone. */
  function MapMatching(ts: seq<Timer>, id: string, f: Timer -> Timer): (r: seq<Timer>)
    ensures |r| == |ts|
    ensures forall i :: 0 <= i < |ts| ==> r[i] == if ts[i].id == id then f(ts[i]) else ts[i]
  {
    seq(|ts|, i requires 0 <= i < |ts| => if ts[i].id == id then f(ts[i]) else ts[i])
  }

  /** An id that is not in the list leaves any id-keyed map a no-op. */
  lemma MapMatchingAbsent(ts: seq<Timer>, id: string, f: Timer -> Timer)
    requires !HasId(ts, id)
    ensures MapMatching(ts, id, f) == ts
  {
  }

  /** Start or pause: flips isRunning; pausing a running timer marks it paused, starting
      leaves the paused flag as it was. Nothing else changes. */
  function Toggle(t: Timer): (r: Timer)
    ensures r.isRunning == !t.isRunning
    ensures t.isRunning ==> r.isPaused
    ensures !t.isRunning ==> r.isPaused == t.isPaused
    ensures SameSettings(r, t) && r.remainingTime == t.remainingTime && r.completedAt == t.completedAt
  {
    t.(isRunning := !t.isRunning, isPaused := if t.isRunning then true else t.isPaused)
  }

  /** Toggling twice gives back the timer, except that it is now marked paused: isRunning
      is restored and a paused flag is never cleared by toggling. */
  lemma ToggleTwice(t: Timer)
    ensures Toggle(Toggle(t)) == t.(isPaused := true)
    ensures t.isPaused ==> Toggle(t).isPaused
  {
  }

  /** Back to the start: full time, idle, not paused, no completion time; the settings
      are kept. */
  function Reset(t: Timer): (r: Timer)
    ensures r.remainingTime == r.duration && !r.isRunning && !r.isPaused && r.completedAt == None
    ensures SameSettings(r, t)
  {
    t.(isRunning := false, isPaused := false, remainingTime := t.duration, completedAt := None)
  }

  /** `{ ...t, ...p }`: each supplied field of the patch overwrites the timer's field, the
      others are kept. */
  function Patch(t: Timer, p: TimerPatch): (r: Timer)
    ensures p.id.Some? ==> r.id == p.id.value
    ensures p.id.None? ==> r.id == t.id
    ensures p.name.Some? ==> r.name == p.name.value
    ensures p.name.None? ==> r.name == t.name
    ensures p.duration.Some? ==> r.duration == p.duration.value
    ensures p.duration.None? ==> r.duration == t.duration
    ensures p.description.Some? ==> r.description == p.description.value
    ensures p.description.None? ==> r.description == t.description
    ensures p.color.Some? ==> r.color == p.color.value
    ensures p.color.None? ==> r.color == t.color
    ensures p.isRunning.Some? ==> r.isRunning == p.isRunning.value
    ensures p.isRunning.None? ==> r.isRunning == t.isRunning
    ensures p.isPaused.Some? ==> r.isPaused == p.isPaused.value
    ensures p.isPaused.None? ==> r.isPaused == t.isPaused
    ensures p.remainingTime.Some? ==> r.remainingTime == p.remainingTime.value
    ensures p.remainingTime.None? ==> r.remainingTime == t.remainingTime
    ensures p.createdAt.Some? ==> r.createdAt == p.createdAt.value
    ensures p.createdAt.None? ==> r.createdAt == t.createdAt
    ensures p.completedAt.Some? ==> r.completedAt == p.completedAt.value
    ensures p.completedAt.None? ==> r.completedAt == t.completedAt
  {
    Timer(p.id.GetOr(t.id), p.name.GetOr(t.name), p.duration.GetOr(t.duration),
          p.description.GetOr(t.description), p.color.GetOr(t.color),
          p.isRunning.GetOr(t.isRunning), p.isPaused.GetOr(t.isPaused),
          p.remainingTime.GetOr(t.remainingTime), p.createdAt.GetOr(t.createdAt),
          p.completedAt.GetOr(t.completedAt))
  }

  /** Applying the same patch twice is applying it once, and the empty patch changes
      nothing. */
  lemma PatchIdempotent(t: Timer, p: TimerPatch)
    ensures Patch(Patch(t, p), p) == Patch(t, p)
    ensures Patch(t, EmptyPatch) == t
  {
  }

  /** A patch that keeps the remaining time within the duration: it sets both, with the
      remaining time not above the duration, or sets neither. */
  predicate PatchKeepsBound(p: TimerPatch)
  {
    || (p.duration.Some? && p.remainingTime.Some? && p.remainingTime.value <= p.duration.value)
    || (p.duration.None? && p.remainingTime.None?)
  }

  function ToggleMatching(ts: seq<Timer>, id: string): seq<Timer> { MapMatching(ts, id, Toggle) }

  function ResetMatching(ts: seq<Timer>, id: string): seq<Timer> { MapMatching(ts, id, Reset) }

  function PatchMatching(ts: seq<Timer>, id: string, p: TimerPatch): seq<Timer>
  {
    MapMatching(ts, id, t => Patch(t, p))
  }

  /** Toggling the same id twice restores every timer's running flag; the matching timers
      end up marked paused and the rest are untouched. */
  lemma ToggleMatchingTwice(ts: seq<Timer>, id: string)
    ensures var r := ToggleMatching(ToggleMatching(ts, id), id);
            && |r| == |ts|
            && forall i :: 0 <= i < |ts| ==>
                 && r[i].isRunning == ts[i].isRunning
                 && r[i] == if ts[i].id == id then ts[i].(isPaused := true) else ts[i]
  {
    var once := ToggleMatching(ts, id);
    forall i | 0 <= i < |ts|
      ensures ToggleMatching(once, id)[i] == if ts[i].id == id then ts[i].(isPaused := true) else ts[i]
    {
      ToggleTwice(ts[i]);
    }
  }

  /** Resetting the same id twice is resetting it once. */
  lemma ResetMatchingIdempotent(ts: seq<Timer>, id: string)
    ensures ResetMatching(ResetMatching(ts, id), id) == ResetMatching(ts, id)
  {
  }

  /** Updating with a bound-keeping patch keeps every timer within its duration. */
  lemma PatchMatchingKeepsBound(ts: seq<Timer>, id: string, p: TimerPatch)
    requires AllBounded(ts) && PatchKeepsBound(p)
    ensures AllBounded(PatchMatching(ts, id, p))
  {
  }
}
