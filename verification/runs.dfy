/**
 * Sequences of ticks, as the update timer produces them for the lifetime
 * of the process, and the properties that only show across several ticks:
 * the counter's wrap, the monotone energy registers, and the fact that the
 * forward-Euler sums telescope, so the energy booked does not depend on how
 * the elapsed time is cut into ticks or on failed ticks in between.
 */
module Runs {
  import opened Results
  import opened Startup
  import opened Meter

  /** One timer firing: what the fetch returned and what the clock read. */
  datatype Event = Event(fetch: FetchOutcome, now: real)

  /** The service state after the ticks of `events`, in order. */
  function Run(pi: seq<nat>, svc: Service, events: seq<Event>): Service
    requires IsPhasePermutation(pi)
    decreases |events|
  {
    if |events| == 0 then svc
    else Run(pi, Tick(pi, svc, events[0].fetch, events[0].now), events[1..])
  }

  /** How many of the ticks of `events` take a branch that advances the counter. */
  function Advances(pi: seq<nat>, svc: Service, events: seq<Event>): nat
    requires IsPhasePermutation(pi)
    decreases |events|
  {
    if |events| == 0 then 0
    else
      var e := events[0];
      (if AdvancesIndex(Classify(pi, svc, e.fetch, e.now)) then 1 else 0)
        + Advances(pi, Tick(pi, svc, e.fetch, e.now), events[1..])
  }

  /** Every clock reading in `events` is later than the one before it, the first later than `t`. */
  predicate Chronological(t: real, events: seq<Event>)
    decreases |events|
  {
    |events| == 0 || (t < events[0].now && Chronological(events[0].now, events[1..]))
  }

  /** Every received document that carries a total power reports `p`. */
  predicate SteadyPower(events: seq<Event>, p: real) {
    forall i :: 0 <= i < |events| && events[i].fetch.Received? && events[i].fetch.reading.totalPower.Some?
      ==> events[i].fetch.reading.totalPower.value == p
  }

  lemma WrapAdd(a: int, n: int)
    ensures ((a + 1) % IndexModulus + n) % IndexModulus == (a + 1 + n) % IndexModulus
  {
  }

  /** After any run the counter has moved by the number of advancing ticks, modulo 256. */
  lemma {:induction false} RunCountsAdvances(pi: seq<nat>, svc: Service, events: seq<Event>)
    requires IsPhasePermutation(pi)
    ensures Advances(pi, svc, events) > 0 ==>
      Run(pi, svc, events).slots.updateIndex
        == (svc.slots.updateIndex + Advances(pi, svc, events)) % IndexModulus
    ensures Advances(pi, svc, events) == 0 ==>
      Run(pi, svc, events).slots.updateIndex == svc.slots.updateIndex
    decreases |events|
  {
    if |events| > 0 {
      var e := events[0];
      var next := Tick(pi, svc, e.fetch, e.now);
      var rest := events[1..];
      RunCountsAdvances(pi, next, rest);
      if AdvancesIndex(Classify(pi, svc, e.fetch, e.now)) {
        WrapAdd(svc.slots.updateIndex, Advances(pi, next, rest));
      }
    }
  }

  /** A counter that starts in range stays in range, whatever the ticks do. */
  lemma {:induction false} RunKeepsIndexInRange(pi: seq<nat>, svc: Service, events: seq<Event>)
    requires IsPhasePermutation(pi)
    requires IndexInRange(svc.slots)
    ensures IndexInRange(Run(pi, svc, events).slots)
    decreases |events|
  {
    if |events| > 0 {
      RunKeepsIndexInRange(pi, Tick(pi, svc, events[0].fetch, events[0].now), events[1..]);
    }
  }

  lemma ChronologicalFromEarlier(t: real, u: real, events: seq<Event>)
    requires u <= t
    requires Chronological(t, events)
    ensures Chronological(u, events)
  {
  }

  lemma BookedNonNegative(c: real, dt: real)
    requires c >= 0.0 && dt > 0.0
    ensures c * dt / WattSecondsPerKWh >= 0.0
  {
  }

  /** A tick whose clock reading is later than the last update lowers neither register, and leaves the timestamp no later than now. */
  lemma TickEnergyMonotone(pi: seq<nat>, svc: Service, fetch: FetchOutcome, now: real, next: Service)
    requires IsPhasePermutation(pi)
    requires svc.lastUpdate < now
    requires next == Tick(pi, svc, fetch, now)
    ensures next.slots.energyForward >= svc.slots.energyForward
    ensures next.slots.energyReverse >= svc.slots.energyReverse
    ensures next.lastUpdate <= now
  {
    if Classify(pi, svc, fetch, now).Published? {
      var p := fetch.reading.totalPower.value;
      BookedNonNegative(ForwardPart(p), now - svc.lastUpdate);
      BookedNonNegative(ReversePart(p), now - svc.lastUpdate);
    }
  }

  /** With a clock that only moves forward, neither energy register ever decreases. */
  lemma {:induction false} RunEnergyMonotone(pi: seq<nat>, svc: Service, events: seq<Event>, final: Service)
    requires IsPhasePermutation(pi)
    requires Chronological(svc.lastUpdate, events)
    requires final == Run(pi, svc, events)
    ensures final.slots.energyForward >= svc.slots.energyForward
    ensures final.slots.energyReverse >= svc.slots.energyReverse
    decreases |events|
  {
    if |events| > 0 {
      var e := events[0];
      var next := Tick(pi, svc, e.fetch, e.now);
      assert final == Run(pi, next, events[1..]);
      TickEnergyMonotone(pi, svc, e.fetch, e.now, next);
      ChronologicalFromEarlier(e.now, next.lastUpdate, events[1..]);
      RunEnergyMonotone(pi, next, events[1..], final);
    }
  }

  lemma SteadyPowerTail(events: seq<Event>, p: real)
    requires |events| > 0 && SteadyPower(events, p)
    ensures SteadyPower(events[1..], p)
  {
    var rest := events[1..];
    forall i | 0 <= i < |rest| && rest[i].fetch.Received? && rest[i].fetch.reading.totalPower.Some?
      ensures rest[i].fetch.reading.totalPower.value == p
    {
      assert rest[i] == events[i + 1];
    }
  }

  /** One tick books the given power over the interval its last-update time moves by. */
  lemma TickIntegratesSteadyPower(pi: seq<nat>, svc: Service, fetch: FetchOutcome, now: real, p: real, next: Service)
    requires IsPhasePermutation(pi)
    requires fetch.Received? && fetch.reading.totalPower.Some? ==> fetch.reading.totalPower.value == p
    requires next == Tick(pi, svc, fetch, now)
    ensures next.slots.energyForward
         == svc.slots.energyForward + ForwardPart(p) * (next.lastUpdate - svc.lastUpdate) / WattSecondsPerKWh
    ensures next.slots.energyReverse
         == svc.slots.energyReverse + ReversePart(p) * (next.lastUpdate - svc.lastUpdate) / WattSecondsPerKWh
  {
    if !Classify(pi, svc, fetch, now).Published? {
      assert next.lastUpdate - svc.lastUpdate == 0.0;
    }
  }

  /** Energy booked over [t0, t1] and then over [t1, t2] is the energy booked over [t0, t2]. */
  lemma Telescope(c: real, e0: real, e1: real, e2: real, t0: real, t1: real, t2: real)
    requires e1 == e0 + c * (t1 - t0) / WattSecondsPerKWh
    requires e2 == e1 + c * (t2 - t1) / WattSecondsPerKWh
    ensures e2 == e0 + c * (t2 - t0) / WattSecondsPerKWh
  {
    assert c * (t1 - t0) + c * (t2 - t1) == c * (t2 - t0);
  }

  /** Booking over one tick and then over the rest of a run is booking over the whole span. */
  lemma StepThenRest(svc: Service, next: Service, final: Service, p: real)
    requires next.slots.energyForward
          == svc.slots.energyForward + ForwardPart(p) * (next.lastUpdate - svc.lastUpdate) / WattSecondsPerKWh
    requires next.slots.energyReverse
          == svc.slots.energyReverse + ReversePart(p) * (next.lastUpdate - svc.lastUpdate) / WattSecondsPerKWh
    requires final.slots.energyForward
          == next.slots.energyForward + ForwardPart(p) * (final.lastUpdate - next.lastUpdate) / WattSecondsPerKWh
    requires final.slots.energyReverse
          == next.slots.energyReverse + ReversePart(p) * (final.lastUpdate - next.lastUpdate) / WattSecondsPerKWh
    ensures final.slots.energyForward
         == svc.slots.energyForward + ForwardPart(p) * (final.lastUpdate - svc.lastUpdate) / WattSecondsPerKWh
    ensures final.slots.energyReverse
         == svc.slots.energyReverse + ReversePart(p) * (final.lastUpdate - svc.lastUpdate) / WattSecondsPerKWh
  {
    Telescope(ForwardPart(p), svc.slots.energyForward, next.slots.energyForward, final.slots.energyForward,
              svc.lastUpdate, next.lastUpdate, final.lastUpdate);
    Telescope(ReversePart(p), svc.slots.energyReverse, next.slots.energyReverse, final.slots.energyReverse,
              svc.lastUpdate, next.lastUpdate, final.lastUpdate);
  }

  /**
   * Under steady power the registers gain exactly the energy of that power
   * over the span between the starting and the final last-update times,
   * however the span is divided into ticks and whatever failures lie in
   * between.
   */
  lemma {:induction false} RunIntegratesSteadyPower(
    pi: seq<nat>, svc: Service, events: seq<Event>, p: real, final: Service)
    requires IsPhasePermutation(pi)
    requires SteadyPower(events, p)
    requires final == Run(pi, svc, events)
    ensures final.slots.energyForward
         == svc.slots.energyForward + ForwardPart(p) * (final.lastUpdate - svc.lastUpdate) / WattSecondsPerKWh
    ensures final.slots.energyReverse
         == svc.slots.energyReverse + ReversePart(p) * (final.lastUpdate - svc.lastUpdate) / WattSecondsPerKWh
    decreases |events|
  {
    if |events| == 0 {
      assert final == svc;
    } else {
      var e := events[0];
      var next := Tick(pi, svc, e.fetch, e.now);
      assert final == Run(pi, next, events[1..]);
      SteadyPowerTail(events, p);
      RunIntegratesSteadyPower(pi, next, events[1..], p, final);
      TickIntegratesSteadyPower(pi, svc, e.fetch, e.now, p, next);
      StepThenRest(svc, next, final, p);
    }
  }

  /** A clock stepped backwards makes a forward-flowing tick lower the forward register. */
  lemma ClockStepBackLowersForward(pi: seq<nat>, svc: Service, rd: Reading, now: real)
    requires IsPhasePermutation(pi)
    requires Indexable(pi, rd)
    requires rd.totalPower.value > 0.0
    requires now < svc.lastUpdate
    ensures Tick(pi, svc, Received(rd), now).slots.energyForward < svc.slots.energyForward
  {
    var dt := now - svc.lastUpdate;
    assert rd.totalPower.value * dt < 0.0;
  }

  // ---------------------------------------------------------------------
  // Worked scenarios
  // ---------------------------------------------------------------------

  /** Three identical channels: 230 V, 2.1 A, 500 W, 1000 Wh imported, nothing exported. */
  function EvenReading(): Reading {
    var c := Channel(230.0, 2.1, 500.0, 1000.0, 0.0);
    Reading(Some(1500.0), [c, c, c])
  }

  /**
   * The earliest first tick: the timer fires one period after construction
   * at `t`, so against the back-dated last update one second has elapsed,
   * and 1500 W for 1 s is booked as forward energy.
   */
  lemma FirstTickScenario(t: real)
    ensures var next := Tick(PhaseIndex(None), Start(t), Received(EvenReading()), t + PollPeriod);
      && next.slots.power == 1500.0
      && next.slots.l1.power == 500.0
      && next.slots.l1.energyForward == 1.0
      && next.slots.energyForward == 1500.0 * 1.0 / 3600000.0
      && next.slots.energyReverse == 0.0
      && next.slots.updateIndex == 1
      && next.lastUpdate == t + PollPeriod
  {
    var pi := PhaseIndex(None);
    assert Classify(pi, Start(t), Received(EvenReading()), t + PollPeriod).Published?;
  }

  /** With L1 on the meter's second channel, channels 0 and 1 trade places and channel 2 stays on L3. */
  lemma SecondPositionScenario(svc: Service, a: Channel, b: Channel, c: Channel, now: real)
    ensures var next := Tick(PhaseIndex(Some(2)), svc, Received(Reading(Some(0.0), [a, b, c])), now);
      && next.slots.l1.voltage == b.voltage
      && next.slots.l2.voltage == a.voltage
      && next.slots.l3.voltage == c.voltage
  {
    var pi := PhaseIndex(Some(2));
    assert pi == [1, 0, 2];
    var rd := Reading(Some(0.0), [a, b, c]);
    assert Indexable(pi, rd);
    var next := Tick(pi, svc, Received(rd), now);
    assert next.slots.LineAt(0).voltage == rd.emeters[pi[0]].voltage;
    assert next.slots.LineAt(1).voltage == rd.emeters[pi[1]].voltage;
    assert next.slots.LineAt(2).voltage == rd.emeters[pi[2]].voltage;
  }
}
