/**
 The ticks of a player, under any history of the clock.

 Elapsed ticks and the product in the restart are held in 32 bits, as the program does it.
 */
module Player {
  import opened Words

  /** Division as C does it: toward zero. */
  function Quotient(a: int, b: int): int
    requires b > 0
  {
    if a >= 0 then a / b else -((-a) / b)
  }

  function Abs(i: int): nat {
    if i < 0 then -i else i
  }

  const SANITY_CHECK_SECONDS := 30

  datatype Command = StopPlaying | SetTick(tick: int)

  datatype State = State(rate: int, startMsecs: int, initialTicks: int, previousTicks: int,
                         loop: bool, loopStart: int, loopEnd: int)

  /** The tick that the clock asks for. */
  function ClockTick(s: State, now: int): int {
    s.initialTicks + AsInt(Quotient((now - s.startMsecs) * s.rate, 1000))
  }

  /** More ticks at once than a sane clock could make. */
  predicate Jumps(s: State, now: int) {
    Abs(ClockTick(s, now) - s.previousTicks) > SANITY_CHECK_SECONDS * s.rate
  }

  /** The restart would divide by the rate, which may be zero. */
  predicate DividesByZero(s: State, now: int) {
    Jumps(s, now) && s.rate == 0
  }

  /** The start is moved so that the clock agrees with the last tick again, or would if the product fitted. */
  function Restarted(s: State, now: int): State
    requires s.rate > 0
  {
    s.(startMsecs := now - Quotient(AsInt((s.previousTicks - s.initialTicks) * 1000), s.rate))
  }

  function Unwrapped(s: State, now: int): int {
    if Jumps(s, now) then s.previousTicks else ClockTick(s, now)
  }

  /** A tick at or behind the end of a loop is taken back into it. */
  function WrappedTick(s: State, tick: int): int {
    if tick >= s.loopEnd && s.loopEnd > 0 && s.loop && s.loopEnd > s.loopStart
    then (tick - s.loopStart) % (s.loopEnd - s.loopStart) + s.loopStart else tick
  }

  /** What the thread makes of a player each time around, unless it divides by zero. */
  function Turn(s: State, now: int): State {
    (if Jumps(s, now) && s.rate > 0 then Restarted(s, now) else s).(previousTicks := WrappedTick(s, Unwrapped(s, now)))
  }

  class PlayerState {
    var state: State

    constructor (s: State)
      ensures state == s
    {
      state := s;
    }

    /** What the thread does for one player each time around. */
    method Update(now: int) returns (commands: seq<Command>)
      requires state.rate >= 0 && !DividesByZero(state, now)
      modifies this
      ensures state == Turn(old(state), now)
      ensures var s := old(state);
              var tick := Turn(s, now).previousTicks;
              commands == (if Unwrapped(s, now) >= s.loopEnd && s.loopEnd > 0 && !s.loop then [StopPlaying] else [])
                          + (if tick != s.previousTicks then [SetTick(tick)] else [])
    {
      commands := [];
      var elapsed := AsInt(Quotient((now - state.startMsecs) * state.rate, 1000));
      var tick := state.initialTicks + elapsed;
      if Abs(tick - state.previousTicks) > SANITY_CHECK_SECONDS * state.rate {
        var msecs := Quotient(AsInt((state.previousTicks - state.initialTicks) * 1000), state.rate);
        state := state.(startMsecs := now - msecs);
        tick := state.previousTicks;
      }
      if tick >= state.loopEnd && state.loopEnd > 0 {
        if state.loop {
          var duration := state.loopEnd - state.loopStart;
          if duration > 0 {
            tick := (tick - state.loopStart) % duration + state.loopStart;
          }
        } else {
          commands := commands + [StopPlaying];
        }
      }
      if tick != state.previousTicks {
        commands := commands + [SetTick(tick)];
        state := state.(previousTicks := tick);
      }
    }
  }

  // ---------------------------------------------------------------- what is promised

  /** Before wrapping, a tick never lies further from the last than half a minute of ticks. */
  lemma TicksStaySane(s: State, now: int)
    requires s.rate >= 0
    ensures -30 * s.rate <= Unwrapped(s, now) - s.previousTicks <= 30 * s.rate
  {
  }

  /** The clock's tick is the first one and what the rate makes, toward zero, of the milliseconds gone, as
      long as that fits; further than thirty seconds from the last tick it is a jump. */
  lemma ClockTickMeans(s: State, now: int)
    requires FitsInt(Quotient((now - s.startMsecs) * s.rate, 1000))
    ensures var ticks, gone := ClockTick(s, now) - s.initialTicks, (now - s.startMsecs) * s.rate;
            if gone >= 0 then 0 <= 1000 * ticks <= gone < 1000 * ticks + 1000 else 1000 * ticks - 1000 < gone <= 1000 * ticks <= 0
    ensures Jumps(s, now) <==>
              ClockTick(s, now) > s.previousTicks + 30 * s.rate || ClockTick(s, now) < s.previousTicks - 30 * s.rate
  {
    QuotientBounds((now - s.startMsecs) * s.rate, 1000);
  }

  /** Wrapping takes a tick into the loop, by whole rounds. */
  lemma WrapsIntoLoop(s: State, tick: int)
    requires s.loop && 0 < s.loopEnd && s.loopStart < s.loopEnd <= tick
    ensures s.loopStart <= WrappedTick(s, tick) < s.loopEnd
    ensures tick == WrappedTick(s, tick) + Rounds(s, tick) * (s.loopEnd - s.loopStart)
  {
    DivisionParts(tick - s.loopStart, s.loopEnd - s.loopStart);
  }

  /** How often the loop has been gone through. */
  function Rounds(s: State, tick: int): int
    requires s.loopStart < s.loopEnd
  {
    (tick - s.loopStart) / (s.loopEnd - s.loopStart)
  }

  lemma DivisionParts(a: nat, b: nat)
    requires b > 0
    ensures a == a / b * b + a % b && 0 <= a % b < b && a / b >= 0
  {
  }

  lemma QuotientBounds(a: int, b: int)
    requires b > 0
    ensures Abs(Quotient(a, b)) * b <= Abs(a) < Abs(Quotient(a, b)) * b + b
    ensures Quotient(a, b) * b == if a >= 0 then Abs(Quotient(a, b)) * b else -(Abs(Quotient(a, b)) * b)
    ensures a >= 0 ==> Quotient(a, b) >= 0
    ensures a <= 0 ==> Quotient(a, b) <= 0
  {
    DivisionParts(Abs(a), b);
    var q := Abs(a) / b;
    QuotientIs(a, b, q);
    Negated(q, b);
    hide Quotient;
  }

  lemma QuotientIs(a: int, b: int, q: int)
    requires b > 0 && q == Abs(a) / b
    ensures Quotient(a, b) == (if a >= 0 then q else -q) && Abs(Quotient(a, b)) == q
    ensures a == 0 ==> q == 0
  {
  }

  lemma Negated(q: int, b: int)
    ensures -q * b == -(q * b)
  {
  }

  /** Milliseconds to ticks and back loses, toward zero, less than a thousandth of the rate and one. */
  lemma ThereAndBack(w: int, rate: int)
    requires rate > 0
    ensures var back := Quotient(Quotient(w, rate) * rate, 1000);
            && 1000 * Abs(back) <= Abs(w) && (back == 0 || (back > 0 <==> w > 0))
            && Abs(w) - 1000 * Abs(back) < rate + 1000
  {
    var msecs := Quotient(w, rate);
    QuotientBounds(w, rate);
    QuotientBounds(msecs * rate, 1000);
  }

  /** What the restart multiplies can be held. */
  predicate RestartFits(s: State) {
    FitsInt((s.previousTicks - s.initialTicks) * 1000)
  }

  /** Up to this rate, much more than the module allows, a product that is wrapped cannot pass
      for the right one. */
  const RATE_LIMIT := 143_000

  /** After the clock has jumped and the start has been moved, the same clock reading asks for a tick close
      to the last one, on the side of the first tick, if the product fits. */
  lemma RestartIsClose(s: State, now: int)
    requires s.rate > 0 && RestartFits(s)
    ensures var t := ClockTick(Restarted(s, now), now);
            && 1000 * Abs(t - s.previousTicks) < s.rate + 1000
            && Abs(t - s.initialTicks) <= Abs(s.previousTicks - s.initialTicks)
            && !Jumps(Restarted(s, now), now)
  {
    ThereAndBack((s.previousTicks - s.initialTicks) * 1000, s.rate);
  }

  /** So the jump is over exactly if it does. */
  lemma JumpIsOver(s: State, now: int)
    requires 0 < s.rate <= RATE_LIMIT
    ensures !Jumps(Restarted(s, now), now) <==> RestartFits(s)
  {
    if RestartFits(s) {
      RestartIsClose(s, now);
    } else {
      StillAway(s, now, now);
    }
  }

  /** If it does not, the clock asks for a tick that is off by a multiple of 2^32 thousandths, and still
      does some time later. */
  lemma StillAway(s: State, now: int, later: int)
    requires 0 < s.rate <= RATE_LIMIT && !RestartFits(s)
    requires later == now || (s.rate <= 1000 && Abs(later - now) <= HOUR)
    ensures Jumps(Restarted(s, now), later)
  {
    var d, gone := s.previousTicks - s.initialTicks, later - now;
    var k := AsIntWraps(d * 1000);
    var w := AsInt(d * 1000);
    LaterTick(w, gone, s.rate);
    TimesBounds(gone, s.rate);
    FarOff(d, w, k, gone * s.rate, Quotient((gone + Quotient(w, s.rate)) * s.rate, 1000), s.rate);
    assert later - Restarted(s, now).startMsecs == gone + Quotient(w, s.rate);
  }

  const HOUR := 3_600_000

  /** The ticks that the clock makes from a start that lies `w` thousandths of a tick back. */
  lemma LaterTick(w: int, gone: int, rate: int)
    requires rate > 0
    ensures Abs(1000 * Quotient((gone + Quotient(w, rate)) * rate, 1000) - (gone * rate + w)) < rate + 1000
  {
    var msecs := Quotient(w, rate);
    QuotientBounds(w, rate);
    QuotientBounds((gone + msecs) * rate, 1000);
    Distribute(gone, msecs, rate);
  }

  lemma Distribute(a: int, b: int, c: int)
    ensures (a + b) * c == a * c + b * c
  {
  }

  lemma TimesBounds(gone: int, rate: int)
    requires 0 < rate
    ensures rate <= 1000 && Abs(gone) <= HOUR ==> Abs(gone * rate) <= HOUR * 1000
    ensures gone == 0 ==> gone * rate == 0
  {
    if rate <= 1000 && Abs(gone) <= HOUR {
      TimesMonotonic(gone, HOUR, rate);
      TimesMonotonic(-HOUR, gone, rate);
    }
  }

  lemma TimesMonotonic(a: int, b: int, c: nat)
    requires a <= b
    ensures a * c <= b * c
  {
    assert (b - a) * c >= 0;
    Distribute(b - a, a, c);
  }

  lemma FarOff(d: int, w: int, k: int, gone: int, ticks: int, rate: int)
    requires 0 < rate <= RATE_LIMIT && (gone == 0 || (rate <= 1000 && Abs(gone) <= HOUR * 1000))
    requires k != 0 && w == d * 1000 - k * UINT_LIMIT && FitsInt(w)
    requires Abs(1000 * ticks - (gone + w)) < rate + 1000
    ensures FitsInt(ticks) && Abs(ticks - d) > SANITY_CHECK_SECONDS * rate
  {
    assert Abs(k * UINT_LIMIT) >= UINT_LIMIT;
  }

  // ---------------------------------------------------------------- a player that stands still

  function Turns(s: State, readings: seq<int>): State
    decreases |readings|
  {
    if readings == [] then s else Turns(Turn(s, readings[0]), readings[1..])
  }

  /** The clock is read at least once an hour. */
  predicate ReadOften(now: int, readings: seq<int>)
    decreases |readings|
  {
    readings != [] ==> Abs(readings[0] - now) <= HOUR && ReadOften(readings[0], readings[1..])
  }

  /** The start has just been moved to the wrong place, and the last tick is not taken anywhere. */
  predicate Stuck(s: State, now: int) {
    && 0 < s.rate <= 1000 && !RestartFits(s) && s == Restarted(s, now)
    && WrappedTick(s, s.previousTicks) == s.previousTicks
  }

  /** A jump whose restart does not fit leaves the player stuck. */
  lemma JumpSticks(s: State, now: int)
    requires 0 < s.rate <= 1000 && Jumps(s, now) && !RestartFits(s) && WrappedTick(s, s.previousTicks) == s.previousTicks
    ensures Stuck(Turn(s, now), now) && Turn(s, now).previousTicks == s.previousTicks
  {
  }

  /** Then it stands still, however long it goes on. */
  lemma {:induction false} StandsStill(s: State, now: int, readings: seq<int>)
    requires Stuck(s, now) && ReadOften(now, readings)
    ensures Turns(s, readings).previousTicks == s.previousTicks
    decreases |readings|
  {
    if readings != [] {
      StillAway(s, now, readings[0]);
      JumpSticks(s, readings[0]);
      StandsStill(Turn(s, readings[0]), readings[0], readings[1..]);
    }
  }

  /** A player at a thousand ticks a second, played from the start to a loop of forty seconds. */
  const LATE_LOOP := State(1000, 0, 0, 0, true, 3_000_000, 3_040_000)

  function Readings(n: nat): seq<int> {
    seq(n, i => 25 * (i + 1))
  }

  /** For fifty minutes it plays as it should. */
  lemma {:induction false} PlaysOn(n: nat)
    requires n < 121_600
    ensures Turns(LATE_LOOP, Readings(n)) == LATE_LOOP.(previousTicks := 25 * n)
  {
    if n > 0 {
      PlaysOn(n - 1);
      Ticks(LATE_LOOP.(previousTicks := 25 * (n - 1)), 25 * n);
      TurnsSnoc(LATE_LOOP, Readings(n - 1), 25 * n);
      ReadingsNext(n - 1);
    }
  }

  lemma {:induction false} TurnsSnoc(s: State, readings: seq<int>, now: int)
    ensures Turns(s, readings + [now]) == Turn(Turns(s, readings), now)
    decreases |readings|
  {
    if readings == [] {
      assert ([] + [now])[1..] == [];
    } else {
      assert (readings + [now])[1..] == readings[1..] + [now];
      TurnsSnoc(Turn(s, readings[0]), readings[1..], now);
    }
  }

  lemma {:induction false} TurnsConcat(s: State, a: seq<int>, b: seq<int>)
    ensures Turns(s, a + b) == Turns(Turns(s, a), b)
    decreases |a|
  {
    if a == [] {
      assert a + b == b;
    } else {
      assert (a + b)[1..] == a[1..] + b;
      TurnsConcat(Turn(s, a[0]), a[1..], b);
    }
  }

  /** Once it has gone through the loop it stands still at its beginning, for ever. */
  lemma LateLoopStandsStill(readings: seq<int>)
    requires ReadOften(25 * 121_601, readings)
    ensures Turns(LATE_LOOP, Readings(121_599)).previousTicks == 3_039_975
    ensures Turns(LATE_LOOP, Readings(121_601) + readings).previousTicks == 3_000_000
  {
    hide *;
    var before, wrapped := LATE_LOOP.(previousTicks := 3_039_975), LATE_LOOP.(previousTicks := 3_000_000);
    PlaysOn(121_599);
    LateTurns(before, wrapped);
    ReadingsNext(121_599);
    TurnsSnoc(LATE_LOOP, Readings(121_599), 25 * 121_600);
    ReadingsNext(121_600);
    TurnsSnoc(LATE_LOOP, Readings(121_600), 25 * 121_601);
    TurnsConcat(LATE_LOOP, Readings(121_601), readings);
    JumpSticks(wrapped, 25 * 121_601);
    StandsStill(Turn(wrapped, 25 * 121_601), 25 * 121_601, readings);
  }

  lemma LateTurns(before: State, wrapped: State)
    requires before == LATE_LOOP.(previousTicks := 3_039_975) && wrapped == LATE_LOOP.(previousTicks := 3_000_000)
    ensures wrapped.rate == 1000 && Turn(before, 25 * 121_600) == wrapped
    ensures Jumps(wrapped, 25 * 121_601) && !RestartFits(wrapped) && WrappedTick(wrapped, wrapped.previousTicks) == wrapped.previousTicks
  {
    Ticks(before, 25 * 121_600);
    Ticks(wrapped, 25 * 121_601);
    hide AsInt, Quotient, ClockTick;
  }

  /** A tick a millisecond. */
  lemma Ticks(s: State, now: int)
    requires s.rate == 1000 && s.startMsecs == 0 && s.initialTicks == 0 && FitsInt(now)
    ensures ClockTick(s, now) == now
  {
    assert (now - s.startMsecs) * s.rate == now * 1000;
    assert Quotient(now * 1000, 1000) == now;
  }

  lemma ReadingsNext(n: nat)
    ensures Readings(n + 1) == Readings(n) + [25 * (n + 1)]
  {
  }

  // ---------------------------------------------------------------- a player without a rate

  /** A player whose rate is zero divides by it exactly if its last tick is not its first. */
  lemma WhenItDivides(s: State, now: int)
    ensures DividesByZero(s, now) <==> s.rate == 0 && s.previousTicks != s.initialTicks
  {
  }

  /** Played from some tick it does so on its second turn, exactly if its loop takes that tick elsewhere;
      if not, its turns change nothing. */
  lemma RateZero(s: State, now: int, later: int)
    requires s.rate == 0 && s.previousTicks == s.initialTicks
    ensures !DividesByZero(s, now)
    ensures DividesByZero(Turn(s, now), later) <==> WrappedTick(s, s.initialTicks) != s.initialTicks
    ensures WrappedTick(s, s.initialTicks) == s.initialTicks ==> Turn(s, now) == s
  {
  }

  // ---------------------------------------------------------------- a clock that only seems to jump

  /** The last tick of a looping player has been taken back by whole rounds, the clock has not.  So the
      clock seems to jump exactly if what it went on by and those rounds come to more than half a minute. */
  lemma JumpsAfterRounds(s: State, tick: int, now: int)
    requires s.loop && 0 < s.loopEnd && s.loopStart < s.loopEnd <= tick && s.previousTicks == WrappedTick(s, tick)
    ensures Jumps(s, now) <==>
              Abs(ClockTick(s, now) - tick + Rounds(s, tick) * (s.loopEnd - s.loopStart)) > SANITY_CHECK_SECONDS * s.rate
  {
    WrapsIntoLoop(s, tick);
  }

  /** So it does when a loop of ten ticks has been gone through three times in thirty seconds. */
  lemma LongLoopLooksLikeAJump()
    ensures var s := State(1, 0, 0, WrappedTick(State(1, 0, 0, 0, true, 0, 10), 30), true, 0, 10);
            Jumps(s, 31000) && Unwrapped(s, 31000) == 0 && WrappedTick(s, ClockTick(s, 31000)) == 1
  {
  }
}
