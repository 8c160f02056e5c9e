/**
 * One poll of the meter: the published slot record, the outcome of the
 * HTTP fetch, and the transition the update timer performs on every tick.
 * The clock reading and the fetch outcome are parameters; the bus is a
 * plain record of slots.
 */
module Meter {
  import opened Results
  import opened Startup

  /** Watt-seconds in one kilowatt-hour: the divisor of the forward-Euler step. */
  const WattSecondsPerKWh: real := 3600000.0
  /** The meter reports per-channel energy in Wh; the bus carries kWh. */
  const WhPerKWh: real := 1000.0
  /** The update counter wraps at this value. */
  const IndexModulus: int := 256
  /**
   * The update timer period, in seconds. Construction back-dates the last
   * update by one period, so the first tick, which fires one period after
   * construction and reads the clock after the fetch, sees at least two
   * periods elapsed.
   */
  const PollPeriod: real := 0.5

  /** One entry of the meter's `emeters` array, as raw as the meter reports it. */
  datatype Channel = Channel(voltage: real, current: real, power: real, total: real, totalReturned: real)

  /** The decoded status document; `total_power` may be missing and `emeters` may be short. */
  datatype Reading = Reading(totalPower: Option<real>, emeters: seq<Channel>)

  /**
   * How the fetch ended: a decoded document, one of the failures the tick
   * degrades on (connection error, timeout, error status, undecodable or
   * empty JSON), or any other exception, which the tick swallows.
   */
  datatype FetchOutcome = Received(reading: Reading) | TransportOrValueError | OtherError

  /** The five slots published for one logical line. */
  datatype Line = Line(voltage: real, current: real, power: real, energyForward: real, energyReverse: real)

  /** Every slot the tick can touch, plus the two aggregate slots it never writes. */
  datatype Slots = Slots(
    power: real,
    current: real,
    voltage: real,
    l1: Line,
    l2: Line,
    l3: Line,
    energyForward: real,
    energyReverse: real,
    updateIndex: int)
  {
    /** Line L(k+1). */
    function LineAt(k: nat): Line
      requires k < 3
    {
      if k == 0 then l1 else if k == 1 then l2 else l3
    }
  }

  /** The service state a tick reads and writes: the slots and the time of the last accepted reading. */
  datatype Service = Service(slots: Slots, lastUpdate: real)

  /** Which way a tick ends. */
  datatype Branch =
    | Published      // everything written, energy integrated, counter advanced
    | ZeroInterval   // slots and timestamp written, then the 3600000/dt division fails
    | Degraded       // a transport or value failure: power slots zeroed, counter advanced
    | Swallowed      // any other failure before the first write: nothing changes

  predicate AdvancesIndex(b: Branch) {
    b.Published? || b.Degraded?
  }

  predicate RefreshesTimestamp(b: Branch) {
    b.Published? || b.ZeroInterval?
  }

  /** The update counter stays within the values the bus protocol allows. */
  predicate IndexInRange(s: Slots) {
    0 <= s.updateIndex < IndexModulus
  }

  /** The share of a signed total power that flows forward (bought from the grid). */
  function ForwardPart(p: real): real {
    if p > 0.0 then p else 0.0
  }

  /** The share of a signed total power that flows in reverse (sold to the grid). */
  function ReversePart(p: real): real {
    if p < 0.0 then -p else 0.0
  }

  /** The slot values right after construction, with the clock reading taken then. */
  function Start(now: real): (svc: Service)
    ensures svc.slots.updateIndex == 0 && IndexInRange(svc.slots)
    ensures now - svc.lastUpdate == PollPeriod
    ensures svc.slots.energyForward == 0.0 && svc.slots.energyReverse == 0.0
    ensures svc.slots.power == 0.0 && svc.slots.current == 0.0 && svc.slots.voltage == 0.0
    ensures forall k :: 0 <= k < 3 ==>
      var line := svc.slots.LineAt(k);
      && line.voltage == 0.0 && line.current == 0.0 && line.power == 0.0
      && line.energyForward == 0.0 && line.energyReverse == 0.0
  {
    var zero := Line(0.0, 0.0, 0.0, 0.0, 0.0);
    Service(Slots(0.0, 0.0, 0.0, zero, zero, zero, 0.0, 0.0, 0), now - PollPeriod)
  }

  /** Every channel the phase index names exists, and the total power is present. */
  predicate Indexable(pi: seq<nat>, rd: Reading)
    requires IsPhasePermutation(pi)
  {
    rd.totalPower.Some? && forall k :: 0 <= k < 3 ==> pi[k] < |rd.emeters|
  }

  /** Because the phase index is a permutation, the reading is indexable exactly when it has three channels. */
  lemma IndexableIffThreeChannels(pi: seq<nat>, rd: Reading)
    requires IsPhasePermutation(pi)
    ensures Indexable(pi, rd) <==> rd.totalPower.Some? && |rd.emeters| >= 3
  {
    if rd.totalPower.Some? && |rd.emeters| < 3 {
      // the channel index 2 is named by some line, and it is out of range
      assert pi[0] == 2 || pi[1] == 2 || pi[2] == 2;
    }
  }

  /** A meter channel as published: Wh totals become kWh. */
  function Publish(c: Channel): Line {
    Line(c.voltage, c.current, c.power, c.total / WhPerKWh, c.totalReturned / WhPerKWh)
  }

  /** The writes that precede the energy step: total power and the three remapped lines. */
  function CopyReading(s: Slots, pi: seq<nat>, rd: Reading): (s': Slots)
    requires IsPhasePermutation(pi)
    requires Indexable(pi, rd)
    ensures s'.power == rd.totalPower.value
    ensures forall k :: 0 <= k < 3 ==>
      var c := rd.emeters[pi[k]];
      && s'.LineAt(k).voltage == c.voltage
      && s'.LineAt(k).current == c.current
      && s'.LineAt(k).power == c.power
      && s'.LineAt(k).energyForward == c.total / WhPerKWh
      && s'.LineAt(k).energyReverse == c.totalReturned / WhPerKWh
    ensures s' == s.(power := s'.power, l1 := s'.l1, l2 := s'.l2, l3 := s'.l3)
  {
    s.(power := rd.totalPower.value,
       l1 := Publish(rd.emeters[pi[0]]),
       l2 := Publish(rd.emeters[pi[1]]),
       l3 := Publish(rd.emeters[pi[2]]))
  }

  /**
   * The forward-Euler step as the service computes it: the factor
   * 3600000/dt, then the signed power divided by it, added to the register
   * the power's sign selects.
   */
  function Accumulate(s: Slots, power: real, dt: real): (s': Slots)
    requires dt != 0.0
    ensures s'.energyForward == s.energyForward + ForwardPart(power) * dt / WattSecondsPerKWh
    ensures s'.energyReverse == s.energyReverse + ReversePart(power) * dt / WattSecondsPerKWh
    ensures s' == s.(energyForward := s'.energyForward, energyReverse := s'.energyReverse)
  {
    var f := WattSecondsPerKWh / dt;
    EulerFactor(power, dt);
    if power > 0.0 then s.(energyForward := s.energyForward + power / f)
    else if power < 0.0 then s.(energyReverse := s.energyReverse - power / f)
    else s
  }

  /** Dividing by 3600000/dt is multiplying by dt/3600000. */
  lemma EulerFactor(p: real, dt: real)
    requires dt != 0.0
    ensures p / (WattSecondsPerKWh / dt) == p * dt / WattSecondsPerKWh
  {
  }

  /** The counter value after one increment, with the wrap at 256. */
  function Bump(i: int): (j: int)
    ensures 0 <= j < IndexModulus
    ensures 0 <= i < IndexModulus - 1 ==> j == i + 1
    ensures i == IndexModulus - 1 ==> j == 0
  {
    (i + 1) % IndexModulus
  }

  /** The failure path for transport and value errors: power reads zero, everything measured stays. */
  function Degrade(s: Slots): (s': Slots)
    ensures s'.power == 0.0
    ensures forall k :: 0 <= k < 3 ==> s'.LineAt(k) == s.LineAt(k).(power := 0.0)
    ensures s'.updateIndex == (s.updateIndex + 1) % IndexModulus
    ensures s' == s.(power := 0.0, l1 := s'.l1, l2 := s'.l2, l3 := s'.l3, updateIndex := s'.updateIndex)
  {
    s.(power := 0.0,
       l1 := s.l1.(power := 0.0),
       l2 := s.l2.(power := 0.0),
       l3 := s.l3.(power := 0.0),
       updateIndex := Bump(s.updateIndex))
  }

  /** The branch a tick takes, from the fetch outcome, the reading's shape and the elapsed time. */
  function Classify(pi: seq<nat>, svc: Service, fetch: FetchOutcome, now: real): (b: Branch)
    requires IsPhasePermutation(pi)
    ensures b.Degraded? <==> fetch.TransportOrValueError?
    ensures b.Swallowed? <==> fetch.OtherError? || (fetch.Received? && !Indexable(pi, fetch.reading))
    ensures b.ZeroInterval? <==> fetch.Received? && Indexable(pi, fetch.reading) && now == svc.lastUpdate
    ensures b.Published? <==> fetch.Received? && Indexable(pi, fetch.reading) && now != svc.lastUpdate
  {
    match fetch
    case TransportOrValueError => Degraded
    case OtherError => Swallowed
    case Received(rd) =>
      if !Indexable(pi, rd) then Swallowed
      else if now - svc.lastUpdate == 0.0 then ZeroInterval
      else Published
  }

  /** One run of the update timer callback. */
  function Tick(pi: seq<nat>, svc: Service, fetch: FetchOutcome, now: real): (next: Service)
    requires IsPhasePermutation(pi)
    // the counter advances by one, modulo 256, exactly on the publishing and degrading branches
    ensures AdvancesIndex(Classify(pi, svc, fetch, now)) ==>
      next.slots.updateIndex == (svc.slots.updateIndex + 1) % IndexModulus
    ensures !AdvancesIndex(Classify(pi, svc, fetch, now)) ==>
      next.slots.updateIndex == svc.slots.updateIndex
    // the last-update time moves to now only when a reading was accepted
    ensures RefreshesTimestamp(Classify(pi, svc, fetch, now)) ==> next.lastUpdate == now
    ensures !RefreshesTimestamp(Classify(pi, svc, fetch, now)) ==> next.lastUpdate == svc.lastUpdate
    // the aggregate voltage and current slots are never written
    ensures next.slots.current == svc.slots.current && next.slots.voltage == svc.slots.voltage
    // an accepted reading is published through the phase index, per-phase energy in kWh
    ensures RefreshesTimestamp(Classify(pi, svc, fetch, now)) ==>
      && next.slots.power == fetch.reading.totalPower.value
      && forall k :: 0 <= k < 3 ==>
           var c := fetch.reading.emeters[pi[k]];
           && next.slots.LineAt(k).voltage == c.voltage
           && next.slots.LineAt(k).current == c.current
           && next.slots.LineAt(k).power == c.power
           && next.slots.LineAt(k).energyForward == c.total / WhPerKWh
           && next.slots.LineAt(k).energyReverse == c.totalReturned / WhPerKWh
    // the aggregate registers integrate total power over the elapsed time, by sign
    ensures Classify(pi, svc, fetch, now).Published? ==>
      && next.slots.energyForward == svc.slots.energyForward
           + ForwardPart(fetch.reading.totalPower.value) * (now - svc.lastUpdate) / WattSecondsPerKWh
      && next.slots.energyReverse == svc.slots.energyReverse
           + ReversePart(fetch.reading.totalPower.value) * (now - svc.lastUpdate) / WattSecondsPerKWh
    ensures !Classify(pi, svc, fetch, now).Published? ==>
      next.slots.energyForward == svc.slots.energyForward
      && next.slots.energyReverse == svc.slots.energyReverse
    // degrading zeroes exactly the four power slots
    ensures Classify(pi, svc, fetch, now).Degraded? ==>
      && next.slots.power == 0.0
      && forall k :: 0 <= k < 3 ==>
           next.slots.LineAt(k) == svc.slots.LineAt(k).(power := 0.0)
    // a swallowed failure changes nothing at all
    ensures Classify(pi, svc, fetch, now).Swallowed? ==> next == svc
  {
    match fetch
    case OtherError => svc
    case TransportOrValueError => Service(Degrade(svc.slots), svc.lastUpdate)
    case Received(rd) =>
      if !Indexable(pi, rd) then svc
      else
        var copied := CopyReading(svc.slots, pi, rd);
        var dt := now - svc.lastUpdate;
        if dt == 0.0 then
          Service(copied, now)
        else
          var integrated := Accumulate(copied, rd.totalPower.value, dt);
          Service(integrated.(updateIndex := Bump(svc.slots.updateIndex)), now)
  }
}
