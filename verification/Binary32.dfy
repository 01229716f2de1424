/** The actuator in the arithmetic it runs in. From 8 up to 16 the binary32 numbers lie 2^-20
    apart, from 16 up to 32 twice as far; a number halfway between two goes to the one with the
    even significand. */
module Binary32 {
  import opened Octets
  import opened Commands
  import opened Actuator

  /** 2^20, the grid points in one degree. */
  const M := 1048576

  /** The grid point `k`. */
  function R(k: int): real { k as real / 1048576.0 }

  function Rest4(k: int): int { k % 4 }

  predicate Representable(k: int) { -16 * M <= k <= 16 * M || Rest4(k) == 0 || Rest4(k) == 2 }

  /** Past 16 an odd grid point lies halfway between two numbers and goes to the multiple of four. */
  function Nearest(k: int): int {
    if Representable(k) then k else if Rest4(k) == 1 then k - 1 else k + 1
  }

  /** What Math.fround does to the grid points up to 31, and that it takes every setpoint to one. */
  ghost predicate IsFround(round: real -> real) {
    && Rounding(round)
    && (forall k | -31 * M <= k <= 31 * M :: round(R(k)) == R(Nearest(k)))
    && (forall x | 10.0 <= x <= 30.0 :: exists k :: Representable(k) && round(x) == R(k))
  }

  lemma OnGrid(round: real -> real, k: int)
    requires IsFround(round) && -31 * M <= k <= 31 * M
    ensures round(R(k)) == R(Nearest(k))
  {
  }

  /** A whole degree is a multiple of four grid points. */
  lemma Degree(k: int)
    ensures Rest4(k + M) == Rest4(k) && Rest4(k - M) == Rest4(k) && 0 <= Rest4(k) < 4
    ensures Rest4(16 * M) == 0
  {
    SameRest((k + M) / 4, (k + M) % 4, k / 4 + 262144, k % 4);
    SameRest((k - M) / 4, (k - M) % 4, k / 4 - 262144, k % 4);
  }

  lemma SameRest(a: int, x: int, b: int, y: int)
    requires 4 * a + x == 4 * b + y && 0 <= x < 4 && 0 <= y < 4
    ensures x == y
  {
  }

  /** The neighbours of an odd grid point. */
  lemma Neighbours(k: int)
    ensures Rest4(k) == 1 ==> Rest4(k - 1) == 0
    ensures Rest4(k) == 3 ==> Rest4(k + 1) == 0
  {
    if Rest4(k) == 1 {
      SameRest((k - 1) / 4, (k - 1) % 4, k / 4, 0);
    } else if Rest4(k) == 3 {
      SameRest((k + 1) / 4, (k + 1) % 4, k / 4 + 1, 0);
    }
  }

  // ---- one step ----

  /** Between two temperatures the rounded difference is past a degree exactly when the difference is. */
  lemma GridDifference(round: real -> real, k: int, j: int)
    requires IsFround(round) && 10 * M <= k <= 30 * M && 10 * M <= j <= 30 * M
    ensures round(R(j) - R(k)) > 1.0 <==> j - k > M
    ensures round(R(j) - R(k)) < -1.0 <==> j - k < -M
  {
    assert R(j) - R(k) == R(j - k);
    OnGrid(round, j - k);
  }

  /** The valve on the grid. */
  lemma GridStep(round: real -> real, k: int, j: int, winner: real)
    requires IsFround(round) && 10 * M <= k <= 30 * M && 10 * M <= j <= 30 * M && round(winner) == R(j)
    ensures Valve(round, R(k), winner) ==
            R(if j - k > M then Nearest(k + M) else if j - k < -M then Nearest(k - M) else j)
  {
    hide IsFround, Nearest;
    GridDifference(round, k, j);
    OnGrid(round, k + M);
    OnGrid(round, k - M);
    assert R(k) + 1.0 == R(k + M) && R(k) - 1.0 == R(k - M);
  }

  /** From every temperature and for every setpoint: a step is longer than one degree exactly when
      it leads from below 16 to above, the number it starts from is three past a multiple of four,
      and the setpoint is more than a degree higher. It is then longer by 2^-20. */
  lemma StepPastOneIff(round: real -> real, k: int, j: int, winner: real)
    requires IsFround(round) && 10 * M <= k <= 30 * M && 10 * M <= j <= 30 * M
    requires Representable(k) && round(winner) == R(j)
    ensures var moved := Distance(R(k), Valve(round, R(k), winner));
            && (moved > 1.0 <==> 15 * M < k < 16 * M && Rest4(k) == 3 && j - k > M)
            && (moved > 1.0 ==> moved == 1.0 + R(1))
  {
    hide IsFround, Valve, Rest4;
    GridStep(round, k, j, winner);
    Degree(k);
  }

  // ---- whole runs ----

  /** Over a run the excess does not add up. A step past one degree leads to 16 or above, and the
      next can only follow after the temperature has come back below. */
  ghost predicate GridMoved(k: int, l: int, seconds: int) {
    Representable(l) && l - k <= seconds * M + (if l >= 16 * M then 1 else 0) && k - l <= seconds * M
  }

  /** A degree up: exact from 16 on, and from below past it by at most one grid point. */
  lemma DegreeUp(k: int)
    requires 10 * M <= k <= 30 * M && Representable(k)
    ensures var l := Nearest(k + M);
            && Representable(l) && l >= k && (k >= 16 * M ==> l == k + M)
            && l <= k + M + 1 && (l > k + M ==> l >= 16 * M)
  {
    hide Rest4;
    Degree(k);
    Neighbours(k + M);
  }

  /** A degree down is exact. */
  lemma DegreeDown(k: int)
    requires 10 * M <= k <= 30 * M && Representable(k)
    ensures Nearest(k - M) == k - M && Representable(k - M)
  {
    hide Rest4;
    Degree(k);
  }

  lemma GridMoves(round: real -> real, start: int, k: int, seconds: int, j: int, winner: real) returns (l: int)
    requires IsFround(round) && 10 * M <= k <= 30 * M && 10 * M <= j <= 30 * M
    requires Representable(j) && round(winner) == R(j) && GridMoved(start, k, seconds)
    ensures GridMoved(start, l, seconds + 1) && Valve(round, R(k), winner) == R(l)
  {
    hide IsFround, Nearest, Representable, Valve, R, Rest4;
    GridStep(round, k, j, winner);
    DegreeUp(k);
    DegreeDown(k);
    l := if j - k > M then Nearest(k + M) else if j - k < -M then Nearest(k - M) else j;
  }

  lemma Place32(round: real -> real, x: real) returns (k: int)
    requires IsFround(round) && 10.0 <= x <= 30.0
    ensures Representable(k) && round(x) == R(k) && 10 * M <= k <= 30 * M
  {
    k :| Representable(k) && round(x) == R(k);
    Monotone(round, 10.0, x);
    Monotone(round, x, 30.0);
  }

  lemma LaterMoved(k: int, l: int, seconds: int, later: int)
    requires GridMoved(k, l, seconds) && seconds <= later
    ensures GridMoved(k, l, later)
  {
  }

  lemma {:induction false} GridRun(me: nat, round: real -> real, s: State, from: real, es: seq<Event>, k: int)
      returns (l: int)
    requires IsFround(round) && s.Valid() && CommandsInRange(s) && TemperatureInRange(round, s)
    requires OnTime(s, from) && ClockRuns(from, es) && NoKeys(es)
    requires Representable(k) && s.temperature == R(k)
    ensures var t := Steps(me, round, s, es);
            t.temperature == R(l) && s.lastSecond <= t.lastSecond && GridMoved(k, l, t.lastSecond - s.lastSecond)
  {
    hide Tick, SetProperty, OnTime, CommandsInRange, TemperatureInRange, IsFround, GridMoved;
    if es == [] {
      NotMoved(k);
      l := k;
    } else {
      var n := |es| - 1;
      var before, e := es[..n], es[n];
      l := GridRun(me, round, s, from, before, k);
      FroundRounds(round);
      RateBound(me, round, R(2), s, from, before);
      var m := Steps(me, round, s, before);
      if e.Set? {
        SetKeepsTime(me, m, e.place, e.written, e.priority);
      } else {
        assert ReadUpTo(before, e.first);
        TickRate(round, R(2), m, e.first, e.now, e.disconnected);
        l := GridTick(round, m, e, k, l, m.lastSecond - s.lastSecond);
        var t := Steps(me, round, s, es);
        assert t == Tick(round, m, e.first, e.now, e.disconnected);
        LaterTick(k, l, m.lastSecond - s.lastSecond, t.lastSecond - s.lastSecond);
      }
    }
  }

  lemma NotMoved(k: int)
    requires Representable(k)
    ensures GridMoved(k, k, 0)
  {
  }

  lemma LaterTick(k: int, l: int, before: int, after: int)
    requires before <= after && GridMoved(k, l, if before == after then before else before + 1)
    ensures GridMoved(k, l, after)
  {
    if before < after {
      LaterMoved(k, l, before + 1, after);
    }
  }

  /** One tick: no move unless the second has changed. */
  lemma GridTick(round: real -> real, s: State, e: Event, start: int, k: int, seconds: int) returns (l: int)
    requires IsFround(round) && CommandsInRange(s) && TemperatureInRange(round, s) && e.Ticked?
    requires s.temperature == R(k) && GridMoved(start, k, seconds)
    ensures var t := Tick(round, s, e.first, e.now, e.disconnected);
            && t.temperature == R(l)
            && GridMoved(start, l, if t.lastSecond == s.lastSecond then seconds else seconds + 1)
  {
    hide FirstSet, Valve, IsFround, Nearest, GridMoved;
    WinnersInRange(s);
    var w := s.Winner(Analog);
    assert InRange(Analog, w);
    var t := Tick(round, s, e.first, e.now, e.disconnected);
    if t.lastSecond == s.lastSecond || e.disconnected {
      l := k;
      LaterMoved(start, k, seconds, seconds + 1);
    } else {
      var j := Place32(round, w);
      l := GridMoves(round, start, k, seconds, j, w);
    }
  }

  /** The bound of RateBound, in the arithmetic the program uses: between any two points of a run
      the temperature moves at most one degree for each whole second counted, and 2^-20 more on the
      way up, however long the run is. */
  lemma RateBound32(me: nat, round: real -> real, s: State, from: real, es: seq<Event>)
    requires IsFround(round) && s.Valid() && CommandsInRange(s) && TemperatureInRange(round, s)
    requires OnTime(s, from) && ClockRuns(from, es) && NoKeys(es)
    ensures var t := Steps(me, round, s, es); var seconds := (t.lastSecond - s.lastSecond) as real;
            && s.lastSecond <= t.lastSecond
            && s.temperature - t.temperature <= seconds && t.temperature - s.temperature <= seconds + R(1)
  {
    hide IsFround, Steps, OnTime, CommandsInRange, ClockRuns, NoKeys;
    var k := Place32(round, s.temperature);
    var l := GridRun(me, round, s, from, es, k);
  }

  /** The same against the clock: the whole seconds since the reading `from`, and one more for a
      first tick that comes late. */
  lemma RateByClock32(me: nat, round: real -> real, s: State, from: real, es: seq<Event>, now: real)
    requires IsFround(round) && s.Valid() && CommandsInRange(s) && TemperatureInRange(round, s)
    requires OnTime(s, from) && ClockRuns(from, es) && NoKeys(es) && from <= now && ReadUpTo(es, now) && s.started.Some?
    ensures var t := Steps(me, round, s, es);
            && t.started == s.started
            && var seconds := (SecondsAt(s.started.value, now) - SecondsAt(s.started.value, from) + 1) as real;
            && s.temperature - t.temperature <= seconds && t.temperature - s.temperature <= seconds + R(1)
  {
    hide IsFround, Steps, CommandsInRange, TemperatureInRange, ClockRuns, NoKeys, SecondsAt, Rounding, Accurate,
        ReadUpTo;
    var u := Prompt(s, from);
    PromptRun(me, round, s, u, from, es);
    PromptKeeps(round, s, from);
    RateBound32(me, round, u, from, es);
    FroundRounds(round);
    RateBound(me, round, R(2), u, from, es);
    assert OnTime(Steps(me, round, u, es), now);
  }

  // ---- how far fround is off ----

  lemma FroundRounds(round: real -> real)
    requires IsFround(round)
    ensures Rounding(round) && Accurate(round, R(2), 31.0)
  {
    hide Nearest;
    forall x | -31.0 <= x <= 31.0
      ensures -R(2) <= round(x) - x <= R(2)
    {
      GridError(round, x);
    }
  }

  lemma GridError(round: real -> real, x: real)
    requires IsFround(round) && -31.0 <= x <= 31.0
    ensures -R(2) <= round(x) - x <= R(2)
  {
    hide IsFround;
    var k := (x * 1048576.0).Floor;
    assert R(k) <= x < R(k + 1);
    OnGrid(round, k);
    FroundMonotone(round, R(k), x);
    if k < 31 * M {
      OnGrid(round, k + 1);
      FroundMonotone(round, x, R(k + 1));
    } else {
      assert x == R(k);
    }
  }

  lemma FroundMonotone(round: real -> real, x: real, y: real)
    requires IsFround(round) && x <= y
    ensures round(x) <= round(y)
  {
  }

  // ---- a run with a step past one degree ----

  function Command(me: nat, v: real): Event { Set(Place(me, OBJECT_TYPE_ANALOG_OUTPUT, 1, PRESENT_VALUE), Real(v), 1) }

  /** The tick at second `i`, on a clock whose first reading is 0. */
  function TickAt(i: int): Event { Ticked(if i == 1 then 0.0 else 1000.0 * i as real, 1000.0 * i as real, false) }

  function TicksTo(n: nat): seq<Event> { seq(n, i => TickAt(i + 1)) }

  lemma SecondOf(i: int)
    ensures SecondsAt(0.0, 1000.0 * i as real) == i
  {
    assert (1000.0 * i as real - 0.0) / 1000.0 == i as real;
  }

  /** `n` ticks, one each second: every one of them acts and the winner stays. */
  lemma {:induction false} TickRun(me: nat, round: real -> real, s: State, n: nat)
    requires s.Valid() && s.started.None? && s.lastSecond == 0
    ensures var t := Steps(me, round, s, TicksTo(n));
            && t.lastSecond == n && (if n == 0 then t == s else t.started == Some(0.0))
            && t.analog == s.analog
            && Steady(me, round, s, TicksTo(n), s.Winner(Analog)) && ActingTicks(me, round, s, TicksTo(n)) == n
  {
    hide FirstSet, Valve, SecondsAt, SetProperty;
    if n > 0 {
      assert TicksTo(n)[..n - 1] == TicksTo(n - 1);
      TickRun(me, round, s, n - 1);
      SecondOf(n);
    }
  }

  lemma {:induction false} StepsJoin(me: nat, round: real -> real, s: State, a: seq<Event>, b: seq<Event>)
    requires s.Valid()
    ensures Steps(me, round, s, a + b) == Steps(me, round, Steps(me, round, s, a), b)
  {
    hide Step;
    if b == [] {
      assert a + b == a;
    } else {
      assert (a + b)[..|a + b| - 1] == a + b[..|b| - 1];
      StepsJoin(me, round, s, a, b[..|b| - 1]);
    }
  }

  lemma OneStep(me: nat, round: real -> real, s: State, e: Event)
    requires s.Valid()
    ensures Steps(me, round, s, [e]) == Step(me, round, s, e)
  {
    hide Step;
    assert [e][..0] == [];
  }

  lemma Commanded(me: nat, round: real -> real, s: State, v: real)
    requires s.Valid() && 10.0 <= v <= 30.0
    ensures var t := Step(me, round, s, Command(me, v));
            t == s.(analog := t.analog) && t.Winner(Analog) == v
  {
  }

  /** Command R(k), wait seven seconds, command 30. */
  function Approach(me: nat, k: int): seq<Event> { [Command(me, R(k))] + TicksTo(7) + [Command(me, 30.0)] }

  /** Every temperature from which a step is longer than one degree is reached from start-up, and
      the next second takes that step. */
  lemma StepPastOneIsReached(me: nat, round: real -> real, k: int)
    requires IsFround(round) && 15 * M < k < 16 * M && Rest4(k) == 3
    ensures NoKeys(Approach(me, k)) && ClockRuns(0.0, Approach(me, k) + [TickAt(8)])
    ensures var s := Steps(me, round, Initial(round), Approach(me, k));
            var t := Steps(me, round, Initial(round), Approach(me, k) + [TickAt(8)]);
            && s.temperature == R(k) && t.temperature == R(k) + 1.0 + R(1) && t.lastSecond == s.lastSecond + 1
  {
    hide Step, Steps, Steady, ActingTicks, Valve, FirstSet;
    var s0, w := Initial(round), R(k);
    var s1 := Step(me, round, s0, Command(me, w));
    Commanded(me, round, s0, w);
    OneStep(me, round, s0, Command(me, w));
    StartTemperature(round);
    OnGrid32(round, k);
    TickRun(me, round, s1, 7);
    FroundRounds(round);
    SevenSeconds(k);
    Settles(me, round, R(2), 31.0, s1, TicksTo(7), w);
    StepsJoin(me, round, s0, [Command(me, w)], TicksTo(7));
    var s2 := Steps(me, round, s1, TicksTo(7));
    StepsJoin(me, round, s0, [Command(me, w)] + TicksTo(7), [Command(me, 30.0)]);
    OneStep(me, round, s2, Command(me, 30.0));
    Commanded(me, round, s2, 30.0);
    var s3 := Step(me, round, s2, Command(me, 30.0));
    StepsJoin(me, round, s0, Approach(me, k), [TickAt(8)]);
    OneStep(me, round, s3, TickAt(8));
    LastTick(me, round, s3, k);
  }

  lemma LastTick(me: nat, round: real -> real, s: State, k: int)
    requires IsFround(round) && 15 * M < k < 16 * M && Rest4(k) == 3 && s.Valid()
    requires s.started == Some(0.0) && s.lastSecond == 7 && s.Winner(Analog) == 30.0 && s.temperature == R(k)
    ensures var t := Step(me, round, s, TickAt(8)); t.temperature == R(k) + 1.0 + R(1) && t.lastSecond == 8
  {
    hide IsFround, Valve, FirstSet, SecondsAt;
    SecondOf(8);
    FroundRounds(round);
    GridStep(round, k, 30 * M, 30.0);
    Degree(k);
    assert Nearest(k + M) == k + M + 1;
  }

  lemma StartTemperature(round: real -> real)
    requires IsFround(round)
    ensures round(21.5) == 21.5
  {
    OnGrid(round, 22544384);
    assert R(22544384) == 21.5;
  }

  lemma OnGrid32(round: real -> real, k: int)
    requires IsFround(round) && 0 <= k <= 16 * M
    ensures round(R(k)) == R(k)
  {
    OnGrid(round, k);
  }

  lemma SevenSeconds(k: int)
    requires 15 * M < k < 16 * M
    ensures Distance(21.5, R(k)) <= Times(1.0 - R(2), 7) && Distance(21.5, R(k)) <= 31.0
    ensures Within(31.0, 21.5) && Within(31.0, R(k)) && R(2) < 1.0 && 10.0 <= R(k) <= 30.0
  {
    assert Times(1.0 - R(2), 7) == 7.0 - 14.0 / 1048576.0;
  }

  // ---- there is such a rounding ----

  /** The nearest integer, a half going to the even one. */
  function HalfEven(x: real): int {
    var low := x.Floor;
    if x - low as real < 0.5 then low else if x - low as real > 0.5 then low + 1
    else if low % 2 == 0 then low else low + 1
  }

  /** To the nearest grid point up to 16, to the nearest even one beyond. */
  function GridRound(x: real): real {
    var y := x * 1048576.0;
    if -16.0 <= x <= 16.0 then R(HalfEven(y)) else R(2 * HalfEven(y / 2.0))
  }

  lemma HalfEvenMonotone(x: real, y: real)
    requires x <= y
    ensures HalfEven(x) <= HalfEven(y)
  {
  }

  lemma HalfEvenFixed(k: int)
    ensures HalfEven(k as real) == k
  {
  }

  lemma GridRoundPoint(k: int)
    ensures GridRound(R(k)) == R(Nearest(k))
  {
    assert R(k) * 1048576.0 == k as real;
    HalfEvenFixed(k);
    if !(-16 * M <= k <= 16 * M) {
      HalvedPoint(k);
    }
  }

  lemma HalfEvenTie(k: int)
    ensures HalfEven(k as real + 0.5) == if k % 2 == 0 then k else k + 1
  {
    assert (k as real + 0.5).Floor == k;
  }

  lemma HalvedEven(h: int)
    ensures HalfEven((2 * h) as real / 2.0) == h
  {
    assert (2 * h) as real / 2.0 == h as real;
    HalfEvenFixed(h);
  }

  lemma HalvedOdd(h: int)
    ensures HalfEven((2 * h + 1) as real / 2.0) == if h % 2 == 0 then h else h + 1
  {
    assert (2 * h + 1) as real / 2.0 == h as real + 0.5;
    HalfEvenTie(h);
  }

  lemma HalvedPoint(k: int)
    ensures 2 * HalfEven(k as real / 2.0) ==
            if Rest4(k) == 0 || Rest4(k) == 2 then k else if Rest4(k) == 1 then k - 1 else k + 1
  {
    hide HalfEven;
    var q := k / 4;
    HalvedEven(2 * q);
    HalvedOdd(2 * q);
    HalvedEven(2 * q + 1);
    HalvedOdd(2 * q + 1);
    assert k == 2 * (2 * q) || k == 2 * (2 * q) + 1 || k == 2 * (2 * q + 1) || k == 2 * (2 * q + 1) + 1;
  }

  lemma GridRoundMonotone(x: real, y: real)
    requires x <= y
    ensures GridRound(x) <= GridRound(y)
  {
    hide HalfEven;
    HalfEvenMonotone(x * 1048576.0, y * 1048576.0);
    HalfEvenMonotone(x * 1048576.0 / 2.0, y * 1048576.0 / 2.0);
    GridRoundSides(x);
    GridRoundSides(y);
  }

  /** Rounding does not cross 16 or -16. */
  lemma GridRoundSides(x: real)
    ensures x > 16.0 ==> GridRound(x) >= 16.0
    ensures x < -16.0 ==> GridRound(x) <= -16.0
    ensures -16.0 <= x <= 16.0 ==> -16.0 <= GridRound(x) <= 16.0
  {
    hide HalfEven;
    var y := x * 1048576.0;
    HalfEvenFixed(16 * M);
    HalfEvenFixed(-16 * M);
    HalfEvenFixed(8 * M);
    HalfEvenFixed(-8 * M);
    if x > 16.0 {
      HalfEvenMonotone((8 * M) as real, y / 2.0);
    } else if x < -16.0 {
      HalfEvenMonotone(y / 2.0, (-8 * M) as real);
    } else {
      HalfEvenMonotone((-16 * M) as real, y);
      HalfEvenMonotone(y, (16 * M) as real);
    }
  }

  /** The results of rounding are the numbers. */
  lemma GridRoundNumber(x: real) returns (k: int)
    ensures Representable(k) && GridRound(x) == R(k)
  {
    hide HalfEven;
    GridRoundSides(x);
    k := if -16.0 <= x <= 16.0 then HalfEven(x * 1048576.0) else 2 * HalfEven(x * 1048576.0 / 2.0);
    TwiceIsEven(HalfEven(x * 1048576.0 / 2.0));
  }

  lemma TwiceIsEven(h: int)
    ensures Rest4(2 * h) == 0 || Rest4(2 * h) == 2
  {
    SameRest((2 * h) / 4, (2 * h) % 4, h / 2, 2 * (h % 2));
  }

  /** What is asked of Math.fround can be met. */
  lemma FroundExists()
    ensures IsFround(GridRound)
  {
    hide GridRound, Nearest, R, Representable;
    forall x, y | x <= y
      ensures GridRound(x) <= GridRound(y)
    {
      GridRoundMonotone(x, y);
    }
    forall x
      ensures GridRound(GridRound(x)) == GridRound(x)
      ensures exists k :: Representable(k) && GridRound(x) == R(k)
    {
      var k := GridRoundNumber(x);
      GridRoundPoint(k);
      NumbersStay(k);
    }
    forall k
      ensures GridRound(R(k)) == R(Nearest(k))
    {
      GridRoundPoint(k);
    }
    WholeDegrees();
  }

  lemma NumbersStay(k: int)
    requires Representable(k)
    ensures Nearest(k) == k
  {
  }

  lemma WholeDegrees()
    ensures GridRound(1.0) == 1.0 && GridRound(-1.0) == -1.0 && GridRound(10.0) == 10.0 && GridRound(30.0) == 30.0
  {
    hide GridRound;
    assert R(M) == 1.0 && R(-M) == -1.0 && R(10 * M) == 10.0 && R(30 * M) == 30.0;
    GridRoundPoint(M);
    GridRoundPoint(-M);
    GridRoundPoint(10 * M);
    GridRoundPoint(30 * M);
  }
}
