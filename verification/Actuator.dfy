/** The controller of main.ts: three commandable outputs, the write and read callbacks that
    serve them, and the simulated equipment that obeys them once a second.

    Temperatures are reals; `round` stands for Math.fround, of which only what Rounding states
    is used. */
module Actuator {
  import opened Octets
  import opened Commands

  datatype Output = Analog | Binary | MultiState

  const OBJECT_TYPE_ANALOG_OUTPUT := 1
  const OBJECT_TYPE_BINARY_OUTPUT := 4
  const OBJECT_TYPE_MULTI_STATE_OUTPUT := 14
  const PRESENT_VALUE := 85
  const PRIORITY_ARRAY := 87
  const RELINQUISH_DEFAULT := 104
  const VALUE_OUT_OF_RANGE := 37

  /** What a callback is asked about. */
  datatype Place = Place(device: nat, objectType: nat, instance: nat, property: nat)

  datatype Verdict = Accepted | Declined | Refused(errorCode: nat)

  datatype Reliability = NoFaultDetected | NoOutput

  datatype State = State(
    analog: seq<Option<real>>, binary: seq<Option<real>>, multiState: seq<Option<real>>,
    temperature: real, contact: int, speed: int, reliability: Reliability,
    started: Option<real>, lastSecond: int)
  {
    predicate Valid() { |analog| == |binary| == |multiState| == 16 }

    function Slots(o: Output): (s: seq<Option<real>>)
      requires Valid()
      ensures |s| == 16
    {
      match o case Analog => analog case Binary => binary case MultiState => multiState
    }

    function WithSlots(o: Output, s: seq<Option<real>>): (r: State)
      requires Valid() && |s| == 16
      ensures r.Valid()
    {
      match o
      case Analog => this.(analog := s)
      case Binary => this.(binary := s)
      case MultiState => this.(multiState := s)
    }

    function Winner(o: Output): real
      requires Valid()
    {
      FirstSet(Slots(o), Default(o))
    }
  }

  function Default(o: Output): real {
    match o case Analog => 20.0 case Binary => 0.0 case MultiState => 1.0
  }

  function Initial(round: real -> real): (s: State)
    ensures s.Valid()
  {
    State(NoSlots(), NoSlots(), NoSlots(), round(21.5), 0, 1, NoFaultDetected, None, 0)
  }

  function GetCommandable(objectType: nat, instance: nat): Option<Output> {
    if instance != 1 then None
    else if objectType == OBJECT_TYPE_ANALOG_OUTPUT then Some(Analog)
    else if objectType == OBJECT_TYPE_BINARY_OUTPUT then Some(Binary)
    else if objectType == OBJECT_TYPE_MULTI_STATE_OUTPUT then Some(MultiState)
    else None
  }

  /** The values each output takes: 10..30 degrees, inactive or active, states 1..3. */
  predicate InRange(o: Output, v: real) {
    match o
    case Analog => 10.0 <= v <= 30.0
    case Binary => v == 0.0 || v == 1.0
    case MultiState => v == 1.0 || v == 2.0 || v == 3.0
  }

  // ---- write callbacks ----

  /** The value a callback receives, typed as the stack decoded it. */
  datatype Written = Real(r: real) | Enumerated(e: nat) | Unsigned(u: nat) | Null

  /** Which output a written value of this type can be for: there is one callback a type, and
      the one for NULL serves all three. */
  predicate Takes(o: Output, w: Written) {
    match w
    case Real(_) => o.Analog?
    case Enumerated(_) => o.Binary?
    case Unsigned(_) => o.MultiState?
    case Null => true
  }

  function CommandOf(w: Written, priority: int): Command<real> {
    match w
    case Real(v) => Write(priority, v)
    case Enumerated(v) => Write(priority, v as real)
    case Unsigned(v) => Write(priority, v as real)
    case Null => Relinquish(priority)
  }

  predicate OutOfRange(w: Written) {
    match w
    case Real(v) => v < 10.0 || v > 30.0
    case Enumerated(v) => v > 1
    case Unsigned(v) => v < 1 || v > 3
    case Null => false
  }

  /** SetPropertyReal, SetPropertyEnumerated, SetPropertyUnsignedInteger and SetPropertyNull. */
  function SetProperty(me: nat, s: State, p: Place, w: Written, priority: int): (r: (State, Verdict))
    requires s.Valid()
    ensures r.0.Valid()
  {
    var o := GetCommandable(p.objectType, p.instance);
    if p.device != me || o.None? || !Takes(o.value, w) || p.property != PRESENT_VALUE then (s, Declined)
    else if OutOfRange(w) then (s, Refused(VALUE_OUT_OF_RANGE))
    else (s.WithSlots(o.value, Apply(s.Slots(o.value), CommandOf(w, priority))), Accepted)
  }

  // ---- the simulated equipment ----

  /** Math.trunc: the integer next to `x` on the side of zero. */
  function Trunc(x: real): (n: int)
    ensures x >= 0.0 ==> n as real <= x < n as real + 1.0
    ensures x <= 0.0 ==> n as real - 1.0 < x <= n as real
  {
    if x >= 0.0 then x.Floor else -((-x).Floor)
  }

  function Valve(round: real -> real, temperature: real, winner: real): real {
    var setpoint := round(winner);
    var difference := round(setpoint - temperature);
    if difference > 1.0 then round(temperature + 1.0)
    else if difference < -1.0 then round(temperature - 1.0)
    else setpoint
  }

  function SecondsAt(started: real, now: real): int { ((now - started) / 1000.0).Floor }

  /** ActuatorSimulationTick. The clock is read twice on the first tick, then once; `first` is
      used only when nothing has started yet. */
  function Tick(round: real -> real, s: State, first: real, now: real, disconnected: bool): (r: State)
    requires s.Valid()
    ensures r.Valid()
  {
    var started := if s.started.Some? then s.started.value else first;
    var seconds := SecondsAt(started, now);
    var s := s.(started := Some(started));
    if seconds == s.lastSecond then s else
    var reliability := if disconnected then NoOutput else NoFaultDetected;
    var temperature := if disconnected then s.temperature else Valve(round, s.temperature, s.Winner(Analog));
    s.(lastSecond := seconds, reliability := reliability, temperature := temperature,
       contact := Trunc(s.Winner(Binary)), speed := Trunc(s.Winner(MultiState)))
  }

  datatype Event =
    | Set(place: Place, written: Written, priority: int)
    | Ticked(first: real, now: real, disconnected: bool)
    | ArrowUp
    | ArrowDown

  function Step(me: nat, round: real -> real, s: State, e: Event): (r: State)
    requires s.Valid()
    ensures r.Valid()
  {
    match e
    case Set(p, w, priority) => SetProperty(me, s, p, w, priority).0
    case Ticked(first, now, disconnected) => Tick(round, s, first, now, disconnected)
    case ArrowUp => s.(temperature := round(s.temperature + round(1.1)))
    case ArrowDown => s.(temperature := round(s.temperature - round(1.1)))
  }

  function Steps(me: nat, round: real -> real, s: State, es: seq<Event>): (r: State)
    requires s.Valid()
    ensures r.Valid()
  {
    if es == [] then s else Step(me, round, Steps(me, round, s, es[..|es| - 1]), es[|es| - 1])
  }

  // ---- what every step keeps ----

  /** What is used of Math.fround: it is monotone, its results are fixed, and so are these. */
  ghost predicate Rounding(round: real -> real) {
    && (forall x, y :: x <= y ==> round(x) <= round(y))
    && (forall x :: round(round(x)) == round(x))
    && round(1.0) == 1.0 && round(-1.0) == -1.0 && round(10.0) == 10.0 && round(30.0) == 30.0
  }

  ghost predicate SlotsInRange(o: Output, slots: seq<Option<real>>) {
    forall i | 0 <= i < |slots| :: slots[i].Some? ==> InRange(o, slots[i].value)
  }

  /** Every commanded value is in range, and the feedback is. */
  ghost predicate CommandsInRange(s: State) {
    && s.Valid()
    && SlotsInRange(Analog, s.analog) && SlotsInRange(Binary, s.binary) && SlotsInRange(MultiState, s.multiState)
    && 0 <= s.contact <= 1 && 1 <= s.speed <= 3
  }

  /** The temperature is a rounded number within the range of the setpoints. */
  ghost predicate TemperatureInRange(round: real -> real, s: State) {
    10.0 <= s.temperature <= 30.0 && round(s.temperature) == s.temperature
  }

  lemma {:induction false} FirstInRange(o: Output, slots: seq<Option<real>>)
    requires SlotsInRange(o, slots)
    ensures InRange(o, FirstSet(slots, Default(o)))
  {
    if slots != [] && slots[0].None? {
      FirstInRange(o, slots[1..]);
    }
  }

  lemma WinnersInRange(s: State)
    requires CommandsInRange(s)
    ensures forall o :: InRange(o, s.Winner(o))
  {
    FirstInRange(Analog, s.analog);
    FirstInRange(Binary, s.binary);
    FirstInRange(MultiState, s.multiState);
    forall o
      ensures InRange(o, s.Winner(o))
    {
      match o case Analog => case Binary => case MultiState =>
    }
  }

  /** A write is accepted exactly when it is for this device, addresses the Present_Value of the
      output its type belongs to, and is in range; otherwise nothing changes. */
  lemma AcceptedIff(me: nat, s: State, p: Place, w: Written, priority: int)
    requires s.Valid()
    ensures var (t, verdict) := SetProperty(me, s, p, w, priority);
            && (verdict.Accepted? <==>
                && p.device == me && p.property == PRESENT_VALUE
                && exists o :: && GetCommandable(p.objectType, p.instance) == Some(o) && Takes(o, w)
                               && (w.Null? || InRange(o, CommandOf(w, priority).value)))
            && (!verdict.Accepted? ==> t == s)
  {
    var o := GetCommandable(p.objectType, p.instance);
    if o.Some? && Takes(o.value, w) && !w.Null? {
      assert OutOfRange(w) <==> !InRange(o.value, CommandOf(w, priority).value);
    }
  }

  /** Where a written value belongs: REALs to Analog Output 1, ENUMERATED to Binary Output 1,
      Unsigned to Multi-State Output 1, and NULL to each of them. */
  predicate Addressed(me: nat, p: Place, w: Written) {
    && p.device == me && p.instance == 1 && p.property == 85
    && match w
       case Real(_) => p.objectType == 1
       case Enumerated(_) => p.objectType == 4
       case Unsigned(_) => p.objectType == 14
       case Null => p.objectType in {1, 4, 14}
  }

  /** Every write: declined where it does not belong, refused with value-out-of-range outside
      10..30, 0..1 or 1..3, and otherwise accepted. */
  lemma VerdictIs(me: nat, s: State, p: Place, w: Written, priority: int)
    requires s.Valid()
    ensures var (t, verdict) := SetProperty(me, s, p, w, priority);
            var fits := match w
                        case Real(v) => 10.0 <= v <= 30.0
                        case Enumerated(v) => v in {0, 1}
                        case Unsigned(v) => v in {1, 2, 3}
                        case Null => true;
            && verdict == (if !Addressed(me, p, w) then Declined else if fits then Accepted else Refused(37))
            && (verdict != Accepted ==> t == s)
  {
  }

  /** An accepted write puts the number itself into the slot its priority names, or the last one,
      and a NULL empties it; no other slot and no other output changes. */
  lemma WriteReachesSlot(me: nat, s: State, p: Place, w: Written, priority: int, o: Output, slot: int)
    requires s.Valid() && 1 <= slot <= 16 && SetProperty(me, s, p, w, priority).1 == Accepted
    ensures var t := SetProperty(me, s, p, w, priority).0;
            var written := match w
                           case Real(v) => Some(v)
                           case Enumerated(v) => Some(v as real)
                           case Unsigned(v) => Some(v as real)
                           case Null => None;
            var here := match o
                        case Analog => p.objectType == 1
                        case Binary => p.objectType == 4
                        case MultiState => p.objectType == 14;
            && t.Slots(o)[slot - 1] ==
               (if here && (priority == slot || (slot == 16 && !(1 <= priority <= 16)))
                then written else s.Slots(o)[slot - 1])
            && t.temperature == s.temperature && t.contact == s.contact && t.speed == s.speed
  {
    VerdictIs(me, s, p, w, priority);
  }

  lemma SetKeepsCommands(me: nat, s: State, p: Place, w: Written, priority: int)
    requires CommandsInRange(s)
    ensures CommandsInRange(SetProperty(me, s, p, w, priority).0)
  {
    AcceptedIff(me, s, p, w, priority);
    var o := GetCommandable(p.objectType, p.instance);
    if SetProperty(me, s, p, w, priority).1.Accepted? {
      assert SlotsInRange(o.value, Apply(s.Slots(o.value), CommandOf(w, priority)));
    }
  }

  /** Whatever happens - key presses included - every set slot, every winner and the binary and
      multi-state feedback stay in range. */
  lemma StepKeepsCommands(me: nat, round: real -> real, s: State, e: Event)
    requires CommandsInRange(s)
    ensures CommandsInRange(Step(me, round, s, e))
  {
    hide FirstSet, Valve;
    WinnersInRange(s);
    assert InRange(Binary, s.Winner(Binary)) && InRange(MultiState, s.Winner(MultiState));
    if e.Set? {
      SetKeepsCommands(me, s, e.place, e.written, e.priority);
    }
  }

  lemma Monotone(round: real -> real, x: real, y: real)
    requires Rounding(round)
    ensures x <= y ==> round(x) <= round(y)
  {
  }

  /** The valve moves toward the setpoint and not past it, rounding included. */
  lemma ValveStaysBetween(round: real -> real, temperature: real, winner: real)
    requires Rounding(round) && round(temperature) == temperature
    ensures var after, setpoint := Valve(round, temperature, winner), round(winner);
            && (temperature <= setpoint ==> temperature <= after <= setpoint)
            && (temperature >= setpoint ==> temperature >= after >= setpoint)
            && round(after) == after
  {
    var setpoint := round(winner);
    var difference := round(setpoint - temperature);
    Monotone(round, setpoint - temperature, 1.0);
    Monotone(round, -1.0, setpoint - temperature);
    if difference > 1.0 {
      assert round(temperature) <= round(temperature + 1.0) <= round(setpoint);
    } else if difference < -1.0 {
      assert round(setpoint) <= round(temperature - 1.0) <= round(temperature);
    }
  }

  /** Without key presses the temperature stays within the setpoint range. */
  lemma StepKeepsTemperature(me: nat, round: real -> real, s: State, e: Event)
    requires Rounding(round) && CommandsInRange(s) && TemperatureInRange(round, s) && !e.ArrowUp? && !e.ArrowDown?
    ensures TemperatureInRange(round, Step(me, round, s, e))
  {
    hide FirstSet, Valve;
    WinnersInRange(s);
    var w := s.Winner(Analog);
    assert InRange(Analog, w);
    assert round(10.0) <= round(w) <= round(30.0);
    ValveStaysBetween(round, s.temperature, w);
  }

  ghost predicate NoKeys(es: seq<Event>) {
    forall i | 0 <= i < |es| :: !es[i].ArrowUp? && !es[i].ArrowDown?
  }

  /** Run safety: after any interleaving of writes, NULLs, ticks and valve faults from start-up. */
  lemma {:induction false} RunIsSafe(me: nat, round: real -> real, es: seq<Event>)
    requires Rounding(round)
    ensures CommandsInRange(Steps(me, round, Initial(round), es))
    ensures NoKeys(es) ==> TemperatureInRange(round, Steps(me, round, Initial(round), es))
  {
    hide Step;
    if es == [] {
      assert round(10.0) <= round(21.5) <= round(30.0);
    } else {
      var k := |es| - 1;
      RunIsSafe(me, round, es[..k]);
      var s := Steps(me, round, Initial(round), es[..k]);
      StepKeepsCommands(me, round, s, es[k]);
      if NoKeys(es) {
        StepKeepsTemperature(me, round, s, es[k]);
      }
    }
  }

  // ---- the outputs against the history of commands ----

  /** The command an event gives to an output: a write that is accepted, or a NULL. */
  function CommandTo(me: nat, e: Event, o: Output): Option<Command<real>> {
    if e.Set? && e.place.device == me && e.place.property == PRESENT_VALUE
       && GetCommandable(e.place.objectType, e.place.instance) == Some(o) && Takes(o, e.written)
       && !OutOfRange(e.written)
    then Some(CommandOf(e.written, e.priority)) else None
  }

  function CommandsTo(me: nat, es: seq<Event>, o: Output): seq<Command<real>> {
    if es == [] then [] else
    var c := CommandTo(me, es[|es| - 1], o);
    CommandsTo(me, es[..|es| - 1], o) + (if c.Some? then [c.value] else [])
  }

  /** An event moves the slots of an output as the command it gives says, and those of no other. */
  lemma StepSlots(me: nat, round: real -> real, s: State, e: Event, o: Output)
    requires s.Valid()
    ensures Step(me, round, s, e).Slots(o) ==
            match CommandTo(me, e, o) case Some(c) => Apply(s.Slots(o), c) case None => s.Slots(o)
  {
    hide Apply, FirstSet, Valve;
  }

  /** After any run, key presses and ticks included, the winner of each output is the winner of
      clause 19.2 of the commands accepted for it. */
  lemma {:induction false} OutputHistory(me: nat, round: real -> real, es: seq<Event>, o: Output)
    ensures var s := Steps(me, round, Initial(round), es);
            && s.Slots(o) == Run(NoSlots(), CommandsTo(me, es, o))
            && Wins(CommandsTo(me, es, o), Default(o), s.Winner(o))
  {
    hide Step, CommandTo, Apply, FirstSet, Wins;
    if es == [] {
      match o case Analog => case Binary => case MultiState =>
    } else {
      var k := |es| - 1;
      OutputHistory(me, round, es[..k], o);
      StepSlots(me, round, Steps(me, round, Initial(round), es[..k]), es[k], o);
      RunOneMore(CommandsTo(me, es[..k], o), CommandTo(me, es[k], o));
    }
    WinnerOfHistory(CommandsTo(me, es, o), Default(o), Steps(me, round, Initial(round), es).Winner(o));
  }

  // ---- rate ----

  /** Rounding is off by at most `eps` on numbers up to `limit`. For binary32 that is 2^-20 up to
      31; for exact arithmetic it is 0. */
  ghost predicate Accurate(round: real -> real, eps: real, limit: real) {
    eps >= 0.0 && forall x | -limit <= x <= limit :: -eps <= round(x) - x <= eps
  }

  function Distance(x: real, y: real): real { if x <= y then y - x else x - y }

  lemma ValveRate(round: real -> real, eps: real, temperature: real, winner: real)
    requires Rounding(round) && Accurate(round, eps, 31.0) && 10.0 <= temperature <= 30.0 && 10.0 <= winner <= 30.0
    ensures Distance(temperature, Valve(round, temperature, winner)) <= 1.0 + eps
  {
    var setpoint := round(winner);
    assert round(10.0) <= setpoint <= round(30.0);
    assert -eps <= round(setpoint - temperature) - (setpoint - temperature) <= eps;
    assert -eps <= round(temperature + 1.0) - (temperature + 1.0) <= eps;
    assert -eps <= round(temperature - 1.0) - (temperature - 1.0) <= eps;
  }

  /** The readings of the clock never go back, from `from` on. */
  ghost predicate ClockRuns(from: real, es: seq<Event>) {
    && (forall i | 0 <= i < |es| :: es[i].Ticked? ==> from <= es[i].first <= es[i].now)
    && (forall i, j | 0 <= i < j < |es| :: es[i].Ticked? && es[j].Ticked? ==> es[i].now <= es[j].first)
  }

  /** Every reading of the run so far is at most `now`. */
  ghost predicate ReadUpTo(es: seq<Event>, now: real) {
    forall i | 0 <= i < |es| :: es[i].Ticked? ==> es[i].now <= now
  }

  /** The second last acted on is not ahead of the clock. */
  ghost predicate OnTime(s: State, now: real) {
    if s.started.None? then s.lastSecond == 0
    else s.started.value <= now && s.lastSecond <= SecondsAt(s.started.value, now)
  }

  lemma OnTimeLater(s: State, now: real, later: real)
    requires OnTime(s, now) && now <= later
    ensures OnTime(s, later)
  {
    if s.started.Some? {
      FloorMonotone(now - s.started.value, later - s.started.value);
    }
  }

  lemma FloorMonotone(x: real, y: real)
    requires x <= y
    ensures (x / 1000.0).Floor <= (y / 1000.0).Floor
  {
    assert x / 1000.0 <= y / 1000.0;
  }

  function Times(step: real, n: int): real { step * (n as real) }

  lemma NonNegative(x: real, y: real)
    requires x >= 0.0 && y >= 0.0
    ensures x * y >= 0.0
  {
  }

  lemma Scale(step: real, m: int, n: int)
    requires step >= 0.0 && m <= n
    ensures Times(step, m) <= Times(step, n)
    ensures m < n ==> Times(step, m) + step <= Times(step, n)
  {
    var a, b := m as real, n as real;
    if m < n {
      NonNegative(step, b - a - 1.0);
      assert step * (b - a - 1.0) == step * b - step * a - step;
    }
  }

  lemma TickRate(round: real -> real, eps: real, s: State, first: real, now: real, disconnected: bool)
    requires Rounding(round) && Accurate(round, eps, 31.0) && CommandsInRange(s) && TemperatureInRange(round, s)
    requires first <= now && OnTime(s, first)
    ensures var t := Tick(round, s, first, now, disconnected);
            && OnTime(t, now) && s.lastSecond <= t.lastSecond
            && Distance(s.temperature, t.temperature) <= (if s.lastSecond == t.lastSecond then 0.0 else 1.0 + eps)
  {
    hide FirstSet, Valve;
    WinnersInRange(s);
    assert InRange(Analog, s.Winner(Analog));
    ValveRate(round, eps, s.temperature, s.Winner(Analog));
    if s.started.None? {
      FloorMonotone(0.0, now - first);
    } else {
      OnTimeLater(s, first, now);
    }
  }

  /** Between any two points of a run without key presses, with a clock that does not go back,
      the temperature moves at most one degree, up to rounding, for each whole second the
      simulation counted. */
  lemma {:induction false} RateBound(me: nat, round: real -> real, eps: real, s: State, from: real, es: seq<Event>)
    requires Rounding(round) && Accurate(round, eps, 31.0) && s.Valid() && CommandsInRange(s)
             && TemperatureInRange(round, s)
    requires OnTime(s, from) && ClockRuns(from, es) && NoKeys(es)
    ensures var t := Steps(me, round, s, es);
            && CommandsInRange(t) && TemperatureInRange(round, t) && s.lastSecond <= t.lastSecond
            && Distance(s.temperature, t.temperature) <= Times(1.0 + eps, t.lastSecond - s.lastSecond)
            && forall now :: from <= now && ReadUpTo(es, now) ==> OnTime(t, now)
  {
    hide Tick, SetProperty, OnTime, CommandsInRange, TemperatureInRange, Rounding, Accurate;
    if es == [] {
      forall now | from <= now
        ensures OnTime(s, now)
      {
        OnTimeLater(s, from, now);
      }
    } else {
      var k := |es| - 1;
      var before := es[..k];
      RateBound(me, round, eps, s, from, before);
      var m := Steps(me, round, s, before);
      var e := es[k];
      StepKeepsCommands(me, round, m, e);
      StepKeepsTemperature(me, round, m, e);
      var t := Step(me, round, m, e);
      if e.Ticked? {
        assert ReadUpTo(before, e.first);
        TickRate(round, eps, m, e.first, e.now, e.disconnected);
      } else {
        SetKeepsTime(me, m, e.place, e.written, e.priority);
      }
      AccurateSign(round, eps, 31.0);
      AddUp(1.0 + eps, s.temperature, m.temperature, t.temperature, m.lastSecond - s.lastSecond,
            t.lastSecond - s.lastSecond);
      forall now | from <= now && ReadUpTo(es, now)
        ensures OnTime(t, now)
      {
        assert ReadUpTo(before, now) by { assert forall i | 0 <= i < k :: before[i] == es[i]; }
        if e.Ticked? {
          assert es[k].now <= now;
          OnTimeLater(t, e.now, now);
        } else {
          SameTime(m, t, now);
        }
      }
    }
  }

  /** The same against the clock, from its reading `from` to its reading `now`: one degree, up to
      rounding, for each whole second since the second of the last tick before; and for each whole
      second since `from` and one more, because the first tick may be late and its step is due
      already. */
  lemma RateByClock(me: nat, round: real -> real, eps: real, s: State, from: real, es: seq<Event>, now: real)
    requires Rounding(round) && Accurate(round, eps, 31.0)
    requires s.Valid() && CommandsInRange(s) && TemperatureInRange(round, s)
    requires OnTime(s, from) && ClockRuns(from, es) && NoKeys(es) && from <= now && ReadUpTo(es, now)
    ensures var t := Steps(me, round, s, es); var moved := Distance(s.temperature, t.temperature);
            if t.started.None? then moved == 0.0 else
            var second := SecondsAt(t.started.value, now);
            && moved <= Times(1.0 + eps, second - s.lastSecond)
            && (s.started.Some? ==>
                  t.started == s.started && moved <= Times(1.0 + eps, second - SecondsAt(s.started.value, from) + 1))
  {
    hide Rounding, Accurate, CommandsInRange, TemperatureInRange, ClockRuns, Steps, SecondsAt, Times;
    RateToReading(me, round, eps, s, from, es, now);
    if s.started.Some? {
      var u := Prompt(s, from);
      PromptRun(me, round, s, u, from, es);
      PromptKeeps(round, s, from);
      RateToReading(me, round, eps, u, from, es, now);
      var t := Steps(me, round, s, es);
      assert Steps(me, round, u, es).temperature == t.temperature && Steps(me, round, u, es).started == t.started;
      if s.lastSecond >= SecondsAt(s.started.value, from) {
        AccurateSign(round, eps, 31.0);
        var elapsed := SecondsAt(t.started.value, now) - SecondsAt(s.started.value, from);
        Scale(1.0 + eps, SecondsAt(t.started.value, now) - s.lastSecond, elapsed + 1);
      }
    }
  }

  lemma RateToReading(me: nat, round: real -> real, eps: real, s: State, from: real, es: seq<Event>, now: real)
    requires Rounding(round) && Accurate(round, eps, 31.0)
    requires s.Valid() && CommandsInRange(s) && TemperatureInRange(round, s)
    requires OnTime(s, from) && ClockRuns(from, es) && NoKeys(es) && from <= now && ReadUpTo(es, now)
    ensures var t := Steps(me, round, s, es); var moved := Distance(s.temperature, t.temperature);
            if t.started.None? then moved == 0.0
            else moved <= Times(1.0 + eps, SecondsAt(t.started.value, now) - s.lastSecond)
  {
    hide Rounding, Accurate, CommandsInRange, TemperatureInRange, ClockRuns, Steps, SecondsAt, Times;
    RateBound(me, round, eps, s, from, es);
    AccurateSign(round, eps, 31.0);
    var t := Steps(me, round, s, es);
    if t.started.None? {
      NeverStarted(me, round, s, es);
    } else {
      Scale(1.0 + eps, t.lastSecond - s.lastSecond, SecondsAt(t.started.value, now) - s.lastSecond);
    }
  }

  /** The same state as if the second before the reading `from` had been the last acted on, when
      the last one was longer ago. */
  function Prompt(s: State, from: real): State
    requires s.started.Some?
  {
    var second := SecondsAt(s.started.value, from);
    if s.lastSecond < second then s.(lastSecond := second - 1) else s
  }

  /** How long ago the last second was makes no difference to the next tick. */
  lemma {:induction false} PromptRun(me: nat, round: real -> real, s: State, u: State, from: real, es: seq<Event>)
    requires s.Valid() && s.started.Some? && u == Prompt(s, from) && ClockRuns(from, es)
    ensures var a, b := Steps(me, round, s, es), Steps(me, round, u, es);
            && a.started == s.started && b == a.(lastSecond := b.lastSecond)
            && var second := SecondsAt(s.started.value, from);
            && (a == b || (a.lastSecond < second && b.lastSecond < second))
  {
    hide FirstSet, Valve, SecondsAt, Apply;
    if es != [] {
      var k := |es| - 1;
      PromptRun(me, round, s, u, from, es[..k]);
      if es[k].Ticked? {
        ReadLater(s.started.value, from, es[k].now);
      }
    }
  }

  lemma ReadLater(started: real, from: real, now: real)
    requires from <= now
    ensures SecondsAt(started, from) <= SecondsAt(started, now)
  {
    FloorMonotone(from - started, now - started);
  }

  lemma PromptKeeps(round: real -> real, s: State, from: real)
    requires s.started.Some? && CommandsInRange(s) && TemperatureInRange(round, s) && OnTime(s, from)
    ensures var u := Prompt(s, from);
            CommandsInRange(u) && TemperatureInRange(round, u) && OnTime(u, from) && u.temperature == s.temperature
  {
  }

  lemma {:induction false} NeverStarted(me: nat, round: real -> real, s: State, es: seq<Event>)
    requires s.Valid() && NoKeys(es) && Steps(me, round, s, es).started.None?
    ensures Steps(me, round, s, es).temperature == s.temperature
  {
    hide FirstSet, SetProperty, Valve;
    if es != [] {
      var k := |es| - 1;
      var m := Steps(me, round, s, es[..k]);
      if es[k].Set? {
        SetKeepsTime(me, m, es[k].place, es[k].written, es[k].priority);
        NeverStarted(me, round, s, es[..k]);
      }
    }
  }

  lemma AddUp(step: real, x: real, y: real, z: real, m: int, n: int)
    requires step >= 0.0 && m <= n && Distance(x, y) <= Times(step, m)
    requires Distance(y, z) <= if m == n then 0.0 else step
    ensures Distance(x, z) <= Times(step, n)
  {
    hide Times;
    Scale(step, m, n);
    Triangle(x, y, z);
  }

  lemma Triangle(x: real, y: real, z: real)
    ensures Distance(x, z) <= Distance(x, y) + Distance(y, z)
  {
  }

  lemma SetKeepsTime(me: nat, s: State, p: Place, w: Written, priority: int)
    requires s.Valid()
    ensures var t := SetProperty(me, s, p, w, priority).0;
            t.started == s.started && t.lastSecond == s.lastSecond && t.temperature == s.temperature
  {
  }

  lemma SameTime(s: State, t: State, now: real)
    requires OnTime(s, now) && t.started == s.started && t.lastSecond == s.lastSecond
    ensures OnTime(t, now)
  {
  }

  // ---- convergence ----

  /** A tick on which the equipment moves: the second it reads differs from the last one. */
  predicate Acts(s: State, e: Event) {
    e.Ticked? && SecondsAt(if s.started.Some? then s.started.value else e.first, e.now) != s.lastSecond
  }

  function ActingTicks(me: nat, round: real -> real, s: State, es: seq<Event>): nat
    requires s.Valid()
  {
    if es == [] then 0 else
    var k := |es| - 1;
    ActingTicks(me, round, s, es[..k]) + (if Acts(Steps(me, round, s, es[..k]), es[k]) then 1 else 0)
  }

  /** Through the whole run the winner is `w`, the valve is connected and no key is pressed. */
  ghost predicate Steady(me: nat, round: real -> real, s: State, es: seq<Event>, w: real)
    requires s.Valid()
  {
    && Steps(me, round, s, es).Winner(Analog) == w
    && (es != [] ==>
          && Steady(me, round, s, es[..|es| - 1], w)
          && !es[|es| - 1].ArrowUp? && !es[|es| - 1].ArrowDown?
          && (es[|es| - 1].Ticked? ==> !es[|es| - 1].disconnected))
  }

  /** Over a whole run with a steady winner the temperature stays on its side of the setpoint and
      never moves away from it, rounding included. */
  lemma {:induction false} NeverCrosses(me: nat, round: real -> real, s: State, es: seq<Event>, w: real)
    requires s.Valid() && Rounding(round) && round(s.temperature) == s.temperature && Steady(me, round, s, es, w)
    ensures var t := Steps(me, round, s, es).temperature;
            && round(t) == t
            && (s.temperature <= round(w) ==> s.temperature <= t <= round(w))
            && (s.temperature >= round(w) ==> s.temperature >= t >= round(w))
  {
    hide FirstSet, SetProperty, Valve, Rounding;
    if es != [] {
      var k := |es| - 1;
      NeverCrosses(me, round, s, es[..k], w);
      var m := Steps(me, round, s, es[..k]);
      if es[k].Set? {
        SetKeepsTime(me, m, es[k].place, es[k].written, es[k].priority);
      } else {
        ValveStaysBetween(round, m.temperature, w);
      }
    }
  }

  /** What is left of a distance after moving toward its end. */
  function Remaining(distance: real, moved: real): real { if distance <= moved then 0.0 else distance - moved }

  /** A temperature and its neighbours one degree away are numbers that rounding is accurate on. */
  predicate Within(limit: real, temperature: real) { -limit <= temperature - 1.0 && temperature + 1.0 <= limit }

  /** One step of the valve: nearer by one degree, up to rounding, or at the setpoint. */
  lemma ValveProgress(round: real -> real, eps: real, limit: real, temperature: real, winner: real)
    requires Rounding(round) && Accurate(round, eps, limit) && eps < 1.0 && round(temperature) == temperature
    requires Within(limit, temperature) && Distance(temperature, round(winner)) <= limit
    ensures var before := Distance(temperature, round(winner));
            var after := Distance(Valve(round, temperature, winner), round(winner));
            Remaining(before, 1.0 + eps) <= after <= Remaining(before, 1.0 - eps)
  {
    var setpoint := round(winner);
    ValveStaysBetween(round, temperature, winner);
    Monotone(round, setpoint - temperature, 1.0);
    Monotone(round, -1.0, setpoint - temperature);
    assert -eps <= round(setpoint - temperature) - (setpoint - temperature) <= eps;
    assert -eps <= round(temperature + 1.0) - (temperature + 1.0) <= eps;
    assert -eps <= round(temperature - 1.0) - (temperature - 1.0) <= eps;
  }

  /** Two bounds on what remains, before and after one more step. */
  lemma RemainingStep(d: real, slow: real, fast: real, n: nat, before: real, after: real)
    requires d >= 0.0 && 0.0 <= slow <= fast
    requires Remaining(d, Times(fast, n)) <= before <= Remaining(d, Times(slow, n))
    requires Remaining(before, fast) <= after <= Remaining(before, slow)
    ensures Remaining(d, Times(fast, n + 1)) <= after <= Remaining(d, Times(slow, n + 1))
  {
    OneMoreTime(slow, n);
    OneMoreTime(fast, n);
  }

  lemma OneMoreTime(step: real, n: nat)
    ensures Times(step, n + 1) == Times(step, n) + step
  {
    assert (n + 1) as real == n as real + 1.0;
  }

  /** With a steady winner and a connected valve, from any temperature, rounding included: after `n`
      acting ticks at least d - (1 + eps) n and at most d - (1 - eps) n of the distance `d` to the
      setpoint is left. */
  lemma {:induction false} Converges(me: nat, round: real -> real, eps: real, limit: real, s: State, es: seq<Event>,
                                     w: real)
    requires s.Valid() && Rounding(round) && Accurate(round, eps, limit) && eps < 1.0
             && round(s.temperature) == s.temperature
    requires Within(limit, s.temperature) && Within(limit, round(w)) && Distance(s.temperature, round(w)) <= limit
    requires Steady(me, round, s, es, w)
    ensures var d, n := Distance(s.temperature, round(w)), ActingTicks(me, round, s, es);
            Remaining(d, Times(1.0 + eps, n)) <= Distance(Steps(me, round, s, es).temperature, round(w))
                                              <= Remaining(d, Times(1.0 - eps, n))
  {
    hide FirstSet, Step, Valve, Rounding, Accurate, Times, Acts, Remaining;
    AccurateSign(round, eps, limit);
    if es == [] {
      NoTimes(1.0 + eps, Distance(s.temperature, round(w)));
      NoTimes(1.0 - eps, Distance(s.temperature, round(w)));
    } else {
      var k := |es| - 1;
      Converges(me, round, eps, limit, s, es[..k], w);
      NeverCrosses(me, round, s, es[..k], w);
      var m := Steps(me, round, s, es[..k]);
      var n := ActingTicks(me, round, s, es[..k]);
      SteadyStep(me, round, m, es[k]);
      if Acts(m, es[k]) {
        ValveProgress(round, eps, limit, m.temperature, w);
        RemainingStep(Distance(s.temperature, round(w)), 1.0 - eps, 1.0 + eps, n,
                      Distance(m.temperature, round(w)), Distance(Valve(round, m.temperature, w), round(w)));
      }
    }
  }

  /** Only an acting tick moves the temperature, and it moves the valve. */
  lemma SteadyStep(me: nat, round: real -> real, s: State, e: Event)
    requires s.Valid() && !e.ArrowUp? && !e.ArrowDown? && (e.Ticked? ==> !e.disconnected)
    ensures Step(me, round, s, e).temperature ==
            if Acts(s, e) then Valve(round, s.temperature, s.Winner(Analog)) else s.temperature
  {
    hide FirstSet, SetProperty, Valve;
    if e.Set? {
      SetKeepsTime(me, s, e.place, e.written, e.priority);
    }
  }

  lemma AccurateSign(round: real -> real, eps: real, limit: real)
    requires Accurate(round, eps, limit)
    ensures eps >= 0.0
  {
  }

  lemma NoTimes(step: real, d: real)
    requires d >= 0.0
    ensures Remaining(d, Times(step, 0)) == d
  {
  }

  /** Enough acting ticks, and the temperature is the setpoint, exactly and rounding included. */
  lemma Settles(me: nat, round: real -> real, eps: real, limit: real, s: State, es: seq<Event>, w: real)
    requires s.Valid() && Rounding(round) && Accurate(round, eps, limit) && eps < 1.0
             && round(s.temperature) == s.temperature
    requires Within(limit, s.temperature) && Within(limit, round(w)) && Distance(s.temperature, round(w)) <= limit
    requires Steady(me, round, s, es, w)
    requires Distance(s.temperature, round(w)) <= Times(1.0 - eps, ActingTicks(me, round, s, es))
    ensures Steps(me, round, s, es).temperature == round(w)
  {
    hide Steps, Steady, Rounding, Accurate, Times, ActingTicks;
    Converges(me, round, eps, limit, s, es, w);
  }

  /** In exact arithmetic the distance after `n` acting ticks is max(0, d - n). */
  lemma ConvergesExactly(me: nat, round: real -> real, s: State, es: seq<Event>, w: real)
    requires s.Valid() && (forall x :: round(x) == x) && Steady(me, round, s, es, w)
    ensures Distance(Steps(me, round, s, es).temperature, w) ==
            Remaining(Distance(s.temperature, w), ActingTicks(me, round, s, es) as real)
  {
    hide Steps, Steady, ActingTicks;
    var limit := Distance(s.temperature, 0.0) + Distance(w, 0.0) + 1.0;
    Converges(me, round, 0.0, limit, s, es, w);
    var n := ActingTicks(me, round, s, es);
    assert Times(1.0, n) == n as real;
  }

  /** While the valve is disconnected the temperature stays where it is, whatever is commanded. */
  lemma {:induction false} DisconnectedFreezes(me: nat, round: real -> real, s: State, es: seq<Event>)
    requires s.Valid() && NoKeys(es) && forall i | 0 <= i < |es| :: es[i].Ticked? ==> es[i].disconnected
    ensures Steps(me, round, s, es).temperature == s.temperature
  {
    hide FirstSet, SetProperty, Valve;
    if es != [] {
      var k := |es| - 1;
      DisconnectedFreezes(me, round, s, es[..k]);
      if es[k].Set? {
        SetKeepsTime(me, Steps(me, round, s, es[..k]), es[k].place, es[k].written, es[k].priority);
      }
    }
  }

  // ---- read callbacks ----

  /** ReadPrioritySlot: None unless one element of the Priority_Array is read. */
  function ReadPrioritySlot(slots: seq<Option<real>>, property: nat, useIndex: bool, index: int): Option<Option<real>>
    requires |slots| == 16
  {
    if property != PRIORITY_ARRAY || !useIndex || index < 1 || index > 16 then None else Some(slots[index - 1])
  }

  /** What the typed getters answer about an output of their own type: a slot, or the
      Relinquish_Default; None when they decline. */
  function GetTyped<T>(slots: seq<Option<real>>, default: real, convert: real -> T, property: nat, useIndex: bool,
                       index: int): Option<T>
    requires |slots| == 16
  {
    match ReadPrioritySlot(slots, property, useIndex, index)
    case Some(slot) => if slot.Some? then Some(convert(slot.value)) else None
    case None => if property == RELINQUISH_DEFAULT then Some(convert(default)) else None
  }

  /** GetPropertyReal on Analog Output 1, whose slots travel as 32-bit floats. */
  function GetReal(me: nat, round: real -> real, s: State, p: Place, useIndex: bool, index: int): Option<real>
    requires s.Valid()
  {
    if p.device != me || GetCommandable(p.objectType, p.instance) != Some(Analog) then None
    else if p.property == 69 then Some(round(10.0))
    else if p.property == 65 then Some(round(30.0))
    else GetTyped(s.analog, Default(Analog), round, p.property, useIndex, index)
  }

  /** GetPropertyEnumerated on Binary Output 1. */
  function GetEnumerated(me: nat, s: State, p: Place, useIndex: bool, index: int): Option<int>
    requires s.Valid()
  {
    if p.device != me || GetCommandable(p.objectType, p.instance) != Some(Binary) then None
    else GetTyped(s.binary, Default(Binary), Trunc, p.property, useIndex, index)
  }

  /** GetPropertyUnsignedInteger on Multi-State Output 1. */
  function GetUnsigned(me: nat, s: State, p: Place, useIndex: bool, index: int): Option<int>
    requires s.Valid()
  {
    if p.device != me || GetCommandable(p.objectType, p.instance) != Some(MultiState) then None
    else GetTyped(s.multiState, Default(MultiState), Trunc, p.property, useIndex, index)
  }

  /** GetPropertyBool: is this slot null? */
  function GetIsNull(me: nat, s: State, p: Place, useIndex: bool, index: int): Option<bool>
    requires s.Valid()
  {
    var o := GetCommandable(p.objectType, p.instance);
    if p.device != me || o.None? || p.property != PRIORITY_ARRAY || !useIndex || index < 1 || index > 16 then None
    else Some(s.Slots(o.value)[index - 1].None?)
  }

  /** How the stack is documented to find the Present_Value: the first slot, from `i`, that the
      boolean getter does not call null, else the Relinquish_Default. */
  function StackWinner<T>(isNull: int -> Option<bool>, slot: int -> Option<T>, default: Option<T>, i: int): Option<T>
    decreases 17 - i
  {
    if i > 16 then default
    else if isNull(i) == Some(true) then StackWinner(isNull, slot, default, i + 1)
    else slot(i)
  }

  lemma {:induction false} ServedWinner<T>(slots: seq<Option<real>>, default: real, convert: real -> T,
                                           isNull: int -> Option<bool>, slot: int -> Option<T>, i: int)
    requires |slots| == 16 && 1 <= i <= 17
    requires forall j | 1 <= j <= 16 :: isNull(j) == Some(slots[j - 1].None?)
    requires forall j | 1 <= j <= 16 :: slot(j) == GetTyped(slots, default, convert, PRIORITY_ARRAY, true, j)
    ensures StackWinner(isNull, slot, Some(convert(default)), i) == Some(convert(FirstSet(slots[i - 1..], default)))
    decreases 17 - i
  {
    if i <= 16 {
      ServedWinner(slots, default, convert, isNull, slot, i + 1);
      assert slots[i - 1..][1..] == slots[i..];
      assert isNull(i) == Some(slots[i - 1].None?);
    }
  }

  /** The Present_Value rebuilt from the callbacks of one output, one read at a time. */
  function ServedReal(me: nat, round: real -> real, s: State): Option<real>
    requires s.Valid()
  {
    var a := Place(me, OBJECT_TYPE_ANALOG_OUTPUT, 1, PRIORITY_ARRAY);
    var default := GetReal(me, round, s, a.(property := RELINQUISH_DEFAULT), false, 0);
    StackWinner(i => GetIsNull(me, s, a, true, i), i => GetReal(me, round, s, a, true, i), default, 1)
  }

  function ServedEnumerated(me: nat, s: State): Option<int>
    requires s.Valid()
  {
    var a := Place(me, OBJECT_TYPE_BINARY_OUTPUT, 1, PRIORITY_ARRAY);
    var default := GetEnumerated(me, s, a.(property := RELINQUISH_DEFAULT), false, 0);
    StackWinner(i => GetIsNull(me, s, a, true, i), i => GetEnumerated(me, s, a, true, i), default, 1)
  }

  function ServedUnsigned(me: nat, s: State): Option<int>
    requires s.Valid()
  {
    var a := Place(me, OBJECT_TYPE_MULTI_STATE_OUTPUT, 1, PRIORITY_ARRAY);
    var default := GetUnsigned(me, s, a.(property := RELINQUISH_DEFAULT), false, 0);
    StackWinner(i => GetIsNull(me, s, a, true, i), i => GetUnsigned(me, s, a, true, i), default, 1)
  }

  /** The null getter says null exactly when the typed getter of that output declines. */
  lemma NullExactlyWhenDeclined(me: nat, round: real -> real, s: State, p: Place, index: int)
    requires s.Valid() && p.device == me && p.property == PRIORITY_ARRAY && 1 <= index <= 16
    requires GetCommandable(p.objectType, p.instance).Some?
    ensures GetIsNull(me, s, p, true, index) == Some(
              match GetCommandable(p.objectType, p.instance).value
              case Analog => GetReal(me, round, s, p, true, index).None?
              case Binary => GetEnumerated(me, s, p, true, index).None?
              case MultiState => GetUnsigned(me, s, p, true, index).None?)
  {
  }

  /** The piecemeal view serves the winner: what the stack computes from the getters is the
      value the equipment obeys, rounded or truncated to the type it travels as. */
  lemma ServedViewIsWinner(me: nat, round: real -> real, s: State)
    requires s.Valid()
    ensures ServedReal(me, round, s) == Some(round(s.Winner(Analog)))
    ensures ServedEnumerated(me, s) == Some(Trunc(s.Winner(Binary)))
    ensures ServedUnsigned(me, s) == Some(Trunc(s.Winner(MultiState)))
  {
    hide StackWinner, FirstSet, Trunc;
    var a := Place(me, OBJECT_TYPE_ANALOG_OUTPUT, 1, PRIORITY_ARRAY);
    var b := Place(me, OBJECT_TYPE_BINARY_OUTPUT, 1, PRIORITY_ARRAY);
    var m := Place(me, OBJECT_TYPE_MULTI_STATE_OUTPUT, 1, PRIORITY_ARRAY);
    assert s.analog[0..] == s.analog && s.binary[0..] == s.binary && s.multiState[0..] == s.multiState;
    ServedWinner(s.analog, Default(Analog), round, i => GetIsNull(me, s, a, true, i),
                 i => GetReal(me, round, s, a, true, i), 1);
    ServedWinner(s.binary, Default(Binary), Trunc, i => GetIsNull(me, s, b, true, i),
                 i => GetEnumerated(me, s, b, true, i), 1);
    ServedWinner(s.multiState, Default(MultiState), Trunc, i => GetIsNull(me, s, m, true, i),
                 i => GetUnsigned(me, s, m, true, i), 1);
  }

  /** After an acting tick the feedback is what the stack serves as the outputs' Present_Value,
      and Reliability says whether the valve is connected; a tick that does not act changes
      nothing but the start of the clock. */
  lemma FeedbackFollowsServed(me: nat, round: real -> real, s: State, e: Event)
    requires s.Valid() && e.Ticked?
    ensures var t := Step(me, round, s, e);
            if Acts(s, e) then
              && ServedEnumerated(me, t) == Some(t.contact) && ServedUnsigned(me, t) == Some(t.speed)
              && (t.reliability == NoOutput <==> e.disconnected)
            else t == s.(started := t.started)
  {
    hide Valve, FirstSet, Trunc, StackWinner;
    ServedViewIsWinner(me, round, Step(me, round, s, e));
  }

  lemma TruncOf(n: int)
    ensures Trunc(n as real) == n
  {
  }

  /** What the stack serves as the Present_Value of the binary and multi-state outputs is, as a
      number, exactly the winner. */
  lemma ServedExactly(me: nat, s: State)
    requires CommandsInRange(s)
    ensures var b, m := ServedEnumerated(me, s), ServedUnsigned(me, s);
            && b.Some? && b.value as real == s.Winner(Binary) && b.value in {0, 1}
            && m.Some? && m.value as real == s.Winner(MultiState) && m.value in {1, 2, 3}
  {
    hide FirstSet, StackWinner, Trunc;
    WinnersInRange(s);
    assert InRange(Binary, s.Winner(Binary)) && InRange(MultiState, s.Winner(MultiState));
    ServedViewIsWinner(me, x => x, s);
    TruncOf(0);
    TruncOf(1);
    TruncOf(2);
    TruncOf(3);
  }

  /** After an acting tick the relay contact and the drive speed are exactly the winners. */
  lemma FeedbackExactly(me: nat, round: real -> real, s: State, e: Event)
    requires CommandsInRange(s) && Acts(s, e)
    ensures var t := Step(me, round, s, e);
            t.contact as real == t.Winner(Binary) && t.speed as real == t.Winner(MultiState)
  {
    hide Valve, FirstSet, Trunc, StackWinner;
    StepKeepsCommands(me, round, s, e);
    FeedbackFollowsServed(me, round, s, e);
    ServedExactly(me, Step(me, round, s, e));
  }

  /** Each element of the served Priority_Array is what the history of commands says: the value
      last written at that priority, and null exactly if nothing is held there. */
  lemma ServedSlots(me: nat, round: real -> real, es: seq<Event>, index: int, v: real)
    requires 1 <= index <= 16
    ensures var s := Steps(me, round, Initial(round), es);
            && (Commanded(CommandsTo(me, es, Analog), index, v) ==>
                  GetReal(me, round, s, Place(me, 1, 1, 87), true, index) == Some(round(v)))
            && (Commanded(CommandsTo(me, es, Binary), index, v) ==>
                  GetEnumerated(me, s, Place(me, 4, 1, 87), true, index) == Some(Trunc(v)))
            && (Commanded(CommandsTo(me, es, MultiState), index, v) ==>
                  GetUnsigned(me, s, Place(me, 14, 1, 87), true, index) == Some(Trunc(v)))
            && (GetIsNull(me, s, Place(me, 1, 1, 87), true, index) == Some(!Held(CommandsTo(me, es, Analog), index)))
            && (GetIsNull(me, s, Place(me, 4, 1, 87), true, index) == Some(!Held(CommandsTo(me, es, Binary), index)))
            && (GetIsNull(me, s, Place(me, 14, 1, 87), true, index) ==
                Some(!Held(CommandsTo(me, es, MultiState), index)))
  {
    hide Steps, CommandsTo, Commanded, Held, Run, Wins, FirstSet, Trunc;
    forall o: Output
      ensures Steps(me, round, Initial(round), es).Slots(o) == Run(NoSlots(), CommandsTo(me, es, o))
      ensures Run(NoSlots(), CommandsTo(me, es, o))[index - 1].Some? <==> Held(CommandsTo(me, es, o), index)
      ensures Run(NoSlots(), CommandsTo(me, es, o))[index - 1] == Some(v) <==>
              Commanded(CommandsTo(me, es, o), index, v)
    {
      OutputHistory(me, round, es, o);
      HeldIff(CommandsTo(me, es, o), index);
      SlotHistory(CommandsTo(me, es, o), index, v);
    }
  }

  /** What each getter answers about the outputs and what it declines: only about this device and its
      own output, the Relinquish_Default, and single elements 1..16 of the Priority_Array that are
      set; the boolean getter about every such element, set or not. */
  lemma GettersAnswerOnly(me: nat, round: real -> real, s: State, p: Place, useIndex: bool, index: int)
    requires s.Valid()
    ensures var here := p.device == me && p.instance == 1;
            var element := p.property == 87 && useIndex && 1 <= index <= 16;
            && (GetReal(me, round, s, p, useIndex, index).Some? <==>
                here && p.objectType == 1 && (p.property in {65, 69, 104} || (element && s.analog[index - 1].Some?)))
            && (GetEnumerated(me, s, p, useIndex, index).Some? <==>
                here && p.objectType == 4 && (p.property == 104 || (element && s.binary[index - 1].Some?)))
            && (GetUnsigned(me, s, p, useIndex, index).Some? <==>
                here && p.objectType == 14 && (p.property == 104 || (element && s.multiState[index - 1].Some?)))
            && (GetIsNull(me, s, p, useIndex, index).Some? <==> here && p.objectType in {1, 4, 14} && element)
  {
  }

  /** The limits served for Analog Output 1 are the ones a write is held to. */
  lemma LimitsAreServed(me: nat, round: real -> real, s: State, v: real, priority: int)
    requires s.Valid() && Rounding(round)
    ensures var low := GetReal(me, round, s, Place(me, 1, 1, 69), false, 0);
            var high := GetReal(me, round, s, Place(me, 1, 1, 65), false, 0);
            && low.Some? && high.Some?
            && (SetProperty(me, s, Place(me, 1, 1, 85), Real(v), priority).1 == Refused(37)
                <==> v < low.value || v > high.value)
  {
    VerdictIs(me, s, Place(me, 1, 1, 85), Real(v), priority);
  }

  /** At start-up the defaults win, and the feedback agrees with them. */
  lemma AtStartUp(round: real -> real)
    ensures var s := Initial(round);
            && s.Winner(Analog) == 20.0 && s.Winner(Binary) == 0.0 && s.Winner(MultiState) == 1.0
            && s.contact as real == s.Winner(Binary) && s.speed as real == s.Winner(MultiState)
            && s.temperature == round(21.5) && s.started.None? && s.reliability == NoFaultDetected
  {
    FirstSetCases(NoSlots<real>(), 20.0);
    FirstSetCases(NoSlots<real>(), 0.0);
    FirstSetCases(NoSlots<real>(), 1.0);
  }

  /** A press of Arrow-Up raises the temperature by 1.1 degrees up to rounding, one of Arrow-Down
      lowers it as much, and neither touches a command or the feedback. */
  lemma KeysMove(me: nat, round: real -> real, eps: real, limit: real, s: State)
    requires s.Valid() && Accurate(round, eps, limit) && Within(limit - 1.0 - eps, s.temperature) && limit >= 1.1
    ensures var up, down := Step(me, round, s, ArrowUp), Step(me, round, s, ArrowDown);
            && -2.0 * eps <= up.temperature - s.temperature - 1.1 <= 2.0 * eps
            && -2.0 * eps <= s.temperature - down.temperature - 1.1 <= 2.0 * eps
            && up == s.(temperature := up.temperature) && down == s.(temperature := down.temperature)
  {
    var step := round(1.1);
    assert -eps <= step - 1.1 <= eps;
    assert -eps <= round(s.temperature + step) - (s.temperature + step) <= eps;
    assert -eps <= round(s.temperature - step) - (s.temperature - step) <= eps;
  }

  // ---- the program's own form ----

  /** main.ts's globals and the callbacks that change them. */
  class Controller {
    const me: nat
    const analogOutput: Commandable
    const binaryOutput: Commandable
    const multiStateOutput: Commandable
    var temperature: real
    var contact: int
    var speed: int
    var reliability: Reliability
    var started: Option<real>
    var lastSecond: int

    ghost predicate Valid()
      reads this, analogOutput, binaryOutput, multiStateOutput
    {
      && analogOutput.Valid() && binaryOutput.Valid() && multiStateOutput.Valid()
      && analogOutput.relinquishDefault == 20.0 && binaryOutput.relinquishDefault == 0.0
      && multiStateOutput.relinquishDefault == 1.0
      && analogOutput.isSet != binaryOutput.isSet && analogOutput.isSet != multiStateOutput.isSet
      && binaryOutput.isSet != multiStateOutput.isSet
      && analogOutput.value != binaryOutput.value && analogOutput.value != multiStateOutput.value
      && binaryOutput.value != multiStateOutput.value
    }

    ghost function View(): (s: State)
      requires Valid()
      reads this, analogOutput, binaryOutput, multiStateOutput, analogOutput.isSet, analogOutput.value,
            binaryOutput.isSet, binaryOutput.value, multiStateOutput.isSet, multiStateOutput.value
      ensures s.Valid()
    {
      State(analogOutput.Slots(), binaryOutput.Slots(), multiStateOutput.Slots(),
            temperature, contact, speed, reliability, started, lastSecond)
    }

    constructor (device: nat, round: real -> real)
      ensures Valid() && me == device && View() == Initial(round)
    {
      me := device;
      analogOutput := new Commandable(20.0);
      binaryOutput := new Commandable(0.0);
      multiStateOutput := new Commandable(1.0);
      temperature, contact, speed := round(21.5), 0, 1;
      reliability, started, lastSecond := NoFaultDetected, None, 0;
    }

    method SetPropertyReal(p: Place, value: real, priority: int) returns (verdict: Verdict)
      requires Valid()
      modifies analogOutput.isSet, analogOutput.value
      ensures (View(), verdict) == SetProperty(me, old(View()), p, Real(value), priority)
    {
      if p.device != me {
        return Declined;
      }
      var c := GetCommandable(p.objectType, p.instance);
      if c.Some? && p.objectType == OBJECT_TYPE_ANALOG_OUTPUT && p.property == PRESENT_VALUE {
        if value < 10.0 || value > 30.0 {
          return Refused(VALUE_OUT_OF_RANGE);
        }
        analogOutput.CommandWrite(priority, value);
        return Accepted;
      }
      return Declined;
    }

    method SetPropertyEnumerated(p: Place, value: nat, priority: int) returns (verdict: Verdict)
      requires Valid()
      modifies binaryOutput.isSet, binaryOutput.value
      ensures (View(), verdict) == SetProperty(me, old(View()), p, Enumerated(value), priority)
    {
      if p.device != me {
        return Declined;
      }
      var c := GetCommandable(p.objectType, p.instance);
      if c.Some? && p.objectType == OBJECT_TYPE_BINARY_OUTPUT && p.property == PRESENT_VALUE {
        if value > 1 {
          return Refused(VALUE_OUT_OF_RANGE);
        }
        binaryOutput.CommandWrite(priority, value as real);
        return Accepted;
      }
      return Declined;
    }

    method SetPropertyUnsignedInteger(p: Place, value: nat, priority: int) returns (verdict: Verdict)
      requires Valid()
      modifies multiStateOutput.isSet, multiStateOutput.value
      ensures (View(), verdict) == SetProperty(me, old(View()), p, Unsigned(value), priority)
    {
      if p.device != me {
        return Declined;
      }
      var c := GetCommandable(p.objectType, p.instance);
      if c.Some? && p.objectType == OBJECT_TYPE_MULTI_STATE_OUTPUT && p.property == PRESENT_VALUE {
        if value < 1 || value > 3 {
          return Refused(VALUE_OUT_OF_RANGE);
        }
        multiStateOutput.CommandWrite(priority, value as real);
        return Accepted;
      }
      return Declined;
    }

    method SetPropertyNull(p: Place, priority: int) returns (verdict: Verdict)
      requires Valid()
      modifies analogOutput.isSet, binaryOutput.isSet, multiStateOutput.isSet
      ensures (View(), verdict) == SetProperty(me, old(View()), p, Null, priority)
    {
      if p.device != me {
        return Declined;
      }
      var c := GetCommandable(p.objectType, p.instance);
      if c.Some? && p.property == PRESENT_VALUE {
        match c.value {
          case Analog => analogOutput.CommandRelinquish(priority);
          case Binary => binaryOutput.CommandRelinquish(priority);
          case MultiState => multiStateOutput.CommandRelinquish(priority);
        }
        return Accepted;
      }
      return Declined;
    }

    method MoveValve(round: real -> real, command: real)
      modifies this`temperature
      ensures temperature == Valve(round, old(temperature), command)
    {
      var setpoint := round(command);
      var difference := round(setpoint - temperature);
      if difference > 1.0 {
        temperature := round(temperature + 1.0);
      } else if difference < -1.0 {
        temperature := round(temperature - 1.0);
      } else {
        temperature := setpoint;
      }
    }

    /** The part of the tick after the second has changed. */
    method Act(round: real -> real, disconnected: bool)
      requires Valid()
      modifies this`temperature, this`contact, this`speed, this`reliability
      ensures reliability == if disconnected then NoOutput else NoFaultDetected
      ensures temperature == if disconnected then old(temperature)
                             else Valve(round, old(temperature), FirstSet(analogOutput.Slots(), 20.0))
      ensures contact == Trunc(FirstSet(binaryOutput.Slots(), 0.0))
      ensures speed == Trunc(FirstSet(multiStateOutput.Slots(), 1.0))
    {
      hide Valve, FirstSet, Trunc;
      reliability := if disconnected then NoOutput else NoFaultDetected;
      if reliability == NoFaultDetected {
        var command := analogOutput.ResolvedCommand();
        MoveValve(round, command);
      }
      var b := binaryOutput.ResolvedCommand();
      contact := Trunc(b);
      var m := multiStateOutput.ResolvedCommand();
      speed := Trunc(m);
    }

    method ActuatorSimulationTick(round: real -> real, first: real, now: real, disconnected: bool)
      requires Valid()
      modifies this
      ensures View() == Tick(round, old(View()), first, now, disconnected)
    {
      hide Valve, FirstSet, Trunc, SecondsAt;
      if started.None? {
        started := Some(first);
      }
      var secondsRunning := SecondsAt(started.value, now);
      if secondsRunning == lastSecond {
        return;
      }
      lastSecond := secondsRunning;
      Act(round, disconnected);
    }
  }
}
