/** Concrete runs of the store that pin down how ticks, alerts and the interval behave
    as the code is written. */
module Scenarios {
  import opened Wrappers
  import opened Seqs
  import opened TimerTypes
  import opened Tick
  import opened TimerStore
  import TimerList
  import Text
  import EditScreen

  /** The edit screen's first colour, given to every timer in these runs. */
  const Red := EditScreen.DefaultColor

  /** A loaded, empty store whose storage holds the empty list. */
  const Empty := State([], false, ByStatus, "", Some([]), false)

  function Input(name: string, seconds: nat): CreateTimerInput
  {
    CreateTimerInput(name, 0, 0, seconds, None, Red)
  }

  /** A tick over a single counting timer. */
  lemma TickSingle(s: State, now: nat)
    requires s.intervalActive && |s.timers| == 1 && CountsDown(s.timers[0])
    ensures var x := TickTimer(s.timers[0], now);
            && TickStep(s, now, false).state == s.(timers := [x], stored := Some([x]))
            && TickStep(s, now, false).alerts == if x.remainingTime == 0 then [x.id] else []
  {
    var x := TickTimer(s.timers[0], now);
    assert AnyCountsDown(s.timers);
    assert TickAll(s.timers, now) == [x];
    assert AnyRunning([x]);
    if x.remainingTime == 0 {
      assert Filter(Rings, [x]) == [x];
    } else {
      assert Filter(Rings, [x]) == [];
    }
  }

  /** A tick over two timers of which the first counts down. */
  lemma TickPair(s: State, now: nat)
    requires s.intervalActive && |s.timers| == 2 && CountsDown(s.timers[0])
    ensures var x := TickTimer(s.timers[0], now);
            var y := TickTimer(s.timers[1], now);
            && TickStep(s, now, false).state == s.(timers := [x, y], stored := Some([x, y]))
            && TickStep(s, now, false).alerts == Alerts([x, y])
  {
    var x := TickTimer(s.timers[0], now);
    var y := TickTimer(s.timers[1], now);
    assert AnyCountsDown(s.timers);
    assert TickAll(s.timers, now) == [x, y];
    assert AnyRunning([x, y]);
  }

  /** The alerts over two timers when only the second rings. */
  lemma AlertsSecondOnly(x: Timer, y: Timer)
    requires !Rings(x) && Rings(y)
    ensures Alerts([x, y]) == [y.id]
  {
    assert [x, y][1..] == [y];
    assert Filter(Rings, [y]) == [y];
    assert Filter(Rings, [x, y]) == [y];
  }

  /** The alerts over two timers when neither rings. */
  lemma AlertsNone(x: Timer, y: Timer)
    requires !Rings(x) && !Rings(y)
    ensures Alerts([x, y]) == []
  {
    assert [x, y][1..] == [y];
    assert Filter(Rings, [y]) == [];
    assert Filter(Rings, [x, y]) == [];
  }

  /** The store holding just `t`, saved, with the interval scheduled. */
  function Solo(t: Timer): State { State([t], false, ByStatus, "", Some([t]), true) }

  /** The store holding `x` then `y`, saved, with the interval scheduled. */
  function Duo(x: Timer, y: Timer): State { State([x, y], false, ByStatus, "", Some([x, y]), true) }

  /** Timer A of the first run: 3 seconds, created at clock reading 7, so its id is "7". */
  const A := Timer("7", "A", 3, None, Red, false, false, 3, 7, None)

  /** A 3-second timer is created and started; this schedules the interval. */
  lemma CreateAndStartA()
    ensures AddTimer(Empty, Input("A", 3), 7, 7, false) == Empty.(timers := [A], stored := Some([A]))
    ensures ToggleTimer(Empty.(timers := [A], stored := Some([A])), "7", false) == Solo(A.(isRunning := true))
  {
    assert Text.ToDecimal(7) == "7";
    assert TimerList.ToggleMatching([A], "7") == [A.(isRunning := true)];
  }

  /** The three ticks that run A out, and a fourth. A reaches zero on the third tick,
      gets that tick's clock reading as completion time, stays flagged running and is
      alerted for once. Because it stays flagged running the interval is not stopped;
      the fourth tick changes nothing and alerts for nothing. */
  lemma SingleTimerRunsOut()
    ensures var a := A.(isRunning := true);
            var done := a.(remainingTime := 0, completedAt := Some(3007));
            && TickStep(Solo(a), 1007, false) == TickOutcome(Solo(a.(remainingTime := 2)), [])
            && TickStep(Solo(a.(remainingTime := 2)), 2007, false) == TickOutcome(Solo(a.(remainingTime := 1)), [])
            && TickStep(Solo(a.(remainingTime := 1)), 3007, false) == TickOutcome(Solo(done), ["7"])
            && TickStep(Solo(done), 4007, false) == TickOutcome(Solo(done), [])
  {
    var a := A.(isRunning := true);
    var done := a.(remainingTime := 0, completedAt := Some(3007));
    TickSingle(Solo(a), 1007);
    TickSingle(Solo(a.(remainingTime := 2)), 2007);
    TickSingle(Solo(a.(remainingTime := 1)), 3007);
    assert !AnyCountsDown([done]);
    assert AnyRunning([done]);
  }

  /** Timers of the second run: B1 of 5 seconds (id "1") and B2 of 2 seconds (id "2"). */
  const B1 := Timer("1", "B1", 5, None, Red, false, false, 5, 1, None)
  const B2 := Timer("2", "B2", 2, None, Red, false, false, 2, 2, None)

  /** Both timers are created, in that order. */
  lemma CreateBoth()
    ensures AddTimer(Empty, Input("B1", 5), 1, 1, false) == Empty.(timers := [B1], stored := Some([B1]))
    ensures AddTimer(Empty.(timers := [B1], stored := Some([B1])), Input("B2", 2), 2, 2, false)
              == Empty.(timers := [B1, B2], stored := Some([B1, B2]))
  {
    assert Text.ToDecimal(1) == "1" && Text.ToDecimal(2) == "2";
    assert [B1] + [B2] == [B1, B2];
  }

  /** Both timers are started, each by its id. */
  lemma StartBoth()
    ensures ToggleTimer(ToggleTimer(Empty.(timers := [B1, B2], stored := Some([B1, B2])), "1", false), "2", false)
              == Duo(B1.(isRunning := true), B2.(isRunning := true))
  {
    var x := B1.(isRunning := true);
    assert TimerList.ToggleMatching([B1, B2], "1") == [x, B2];
    assert TimerList.ToggleMatching([x, B2], "2") == [x, B2.(isRunning := true)];
  }

  /** After two ticks the short timer is at zero and alerted for, the long one has 3
      seconds left and the interval keeps going. On the third tick the long one counts
      on and the finished one is alerted for again. */
  lemma TwoTimersAlertRepeatedly()
    ensures var x := B1.(isRunning := true);
            var y := B2.(isRunning := true);
            var y0 := y.(remainingTime := 0, completedAt := Some(11));
            && TickStep(Duo(x, y), 10, false)
                 == TickOutcome(Duo(x.(remainingTime := 4), y.(remainingTime := 1)), [])
            && TickStep(Duo(x.(remainingTime := 4), y.(remainingTime := 1)), 11, false)
                 == TickOutcome(Duo(x.(remainingTime := 3), y0), ["2"])
            && TickStep(Duo(x.(remainingTime := 3), y0), 12, false)
                 == TickOutcome(Duo(x.(remainingTime := 2), y0), ["2"])
  {
    var x := B1.(isRunning := true);
    var y := B2.(isRunning := true);
    var y0 := y.(remainingTime := 0, completedAt := Some(11));
    TickPair(Duo(x, y), 10);
    AlertsNone(x.(remainingTime := 4), y.(remainingTime := 1));
    TickPair(Duo(x.(remainingTime := 4), y.(remainingTime := 1)), 11);
    AlertsSecondOnly(x.(remainingTime := 3), y0);
    TickPair(Duo(x.(remainingTime := 3), y0), 12);
    AlertsSecondOnly(x.(remainingTime := 2), y0);
  }

  /** Loading at start-up restores timers that were saved while running, but nothing
      schedules the interval, so they do not count down until some timer is toggled. */
  lemma LoadedRunningTimerStaysFrozen(now: nat)
    ensures var t := Timer("1", "A", 5, None, Red, true, false, 5, 0, None);
            var l := LoadTimers(Initial(Some([t])), false);
            && l.timers == [t] && AnyRunning(l.timers) && !l.intervalActive
            && Step(l, Fire(now), false).state == l
  {
    var t := Timer("1", "A", 5, None, Red, true, false, 5, 0, None);
    var l := LoadTimers(Initial(Some([t])), false);
    assert l.timers[0].isRunning;
  }
}
