/** The records of the timer app: a countdown timer, its completed projection, the
    creation input, the sort keys of the list view and partial updates of a timer. */
module TimerTypes {
  import opened Wrappers

  /** A countdown timer. `duration` and `remainingTime` are whole seconds; `createdAt`
      and `completedAt` are epoch milliseconds. `description` and `completedAt` may be
      absent. */
  datatype Timer = Timer(
    id: string,
    name: string,
    duration: nat,
    description: Option<string>,
    color: string,
    isRunning: bool,
    isPaused: bool,
    remainingTime: nat,
    createdAt: nat,
    completedAt: Option<nat>)

  /** A finished timer, for which the completion time is always known. */
  datatype CompletedTimer = CompletedTimer(
    id: string,
    name: string,
    description: Option<string>,
    duration: nat,
    color: string,
    completedAt: nat)

  /** What the create form hands to the store: the duration as three components. */
  datatype CreateTimerInput = CreateTimerInput(
    name: string,
    hours: nat,
    minutes: nat,
    seconds: nat,
    description: Option<string>,
    color: string)

  /** The list view's sort key; the store only remembers it. */
  datatype SortKey = ByName | ByDuration | ByStatus

  /** A `Partial<Timer>`: every field may be supplied or not. For the two optional fields
      a supplied value may itself be `undefined`, hence the nested Option. */
  datatype TimerPatch = TimerPatch(
    id: Option<string>,
    name: Option<string>,
    duration: Option<nat>,
    description: Option<Option<string>>,
    color: Option<string>,
    isRunning: Option<bool>,
    isPaused: Option<bool>,
    remainingTime: Option<nat>,
    createdAt: Option<nat>,
    completedAt: Option<Option<nat>>)

  const EmptyPatch := TimerPatch(None, None, None, None, None, None, None, None, None, None)

  /** Seconds in `hours` h `minutes` min `seconds` s, the formula both screens use. */
  function TotalSeconds(hours: nat, minutes: nat, seconds: nat): nat
  {
    hours * 3600 + minutes * 60 + seconds
  }

  /** The fields a timer keeps through starting, pausing, resetting and ticking. */
  predicate SameSettings(a: Timer, b: Timer)
  {
    && a.id == b.id && a.name == b.name && a.duration == b.duration
    && a.description == b.description && a.color == b.color && a.createdAt == b.createdAt
  }

  /** A timer seen as a completed timer: defined exactly when it has a completion time,
      and then carrying the timer's identity, settings and that time. */
  function AsCompleted(t: Timer): (r: Option<CompletedTimer>)
    ensures r.Some? <==> t.completedAt.Some?
    ensures r.Some? ==> && r.value.completedAt == t.completedAt.value
                        && r.value.id == t.id && r.value.name == t.name
                        && r.value.description == t.description
                        && r.value.duration == t.duration && r.value.color == t.color
  {
    match t.completedAt
    case None => None
    case Some(at) => Some(CompletedTimer(t.id, t.name, t.description, t.duration, t.color, at))
  }
}
