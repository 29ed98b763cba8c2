/**
 * The write half of one update cycle, as a function of the store before
 * the cycle and the eight readings: the electrical paths, then the status
 * code derived from the stored power, then the update counter. Python's
 * TypeErrors on the way end the cycle early and are part of its outcome.
 */
module UpdateCycle {
  import opened Values
  import opened Paths
  import opened Meter

  /** The statement at which a cycle raises. */
  datatype RaiseSite =
    | FormatNone       // the debug line formats power factor, voltage and current with `{:.1f}`; None cannot be
    | CompareNone      // the stored power is not a number, so `>= 10` cannot compare it
    | IndexNotNumeric  // the stored update counter is not a number, so `+ 1` cannot add to it

  /** How a cycle ends: by returning True to the timer, or by raising. */
  datatype Outcome = Completed | Raised(site: RaiseSite)

  datatype Step = Step(outcome: Outcome, store: Store)

  /** What a cycle writes for one reading: its two-decimal rounding, or None when it is absent. */
  function Published(x: Option<real>): (v: Value)
    ensures v == Null <==> x.None?
    ensures x.Some? ==> v.Real? && x.value - 0.005 <= v.x <= x.value + 0.005
  {
    if x.Some? then Real(Round2(x.value)) else Null
  }

  /** The reading a cycle publishes under each field name. */
  function FieldReading(s: Snapshot, f: Field): Option<real> {
    match f
    case Power => s.a
    case Current => s.c
    case Voltage => s.v
    case EnergyForward => s.i
    case Frequency => s.f
    case PowerFactor => s.p
    case EnergyUsed => s.e
  }

  /**
   * The value each electrical path carries: an aggregate path and its
   * phase-1 twin publish the same field, so they share one reading.
   */
  function ElectricalValue(s: Snapshot, p: Path): Value
    requires IsElectrical(p)
  {
    Published(FieldReading(s, if p.Ac? then p.field else p.phaseField))
  }

  /** The store once the eleven electrical paths are written. */
  function WriteElectrical(store: Store, s: Snapshot): (r: Store)
    ensures r.Keys == store.Keys
    ensures forall p | p in store && !IsElectrical(p) :: r[p] == store[p]
    ensures forall p | p in store && IsElectrical(p) :: r[p] == Null <==> FieldReading(s, if p.Ac? then p.field else p.phaseField).None?
    ensures forall f | Ac(f) in store && Phase(L1, f) in store && IsAggregateField(f) :: r[Ac(f)] == r[Phase(L1, f)]
  {
    map p | p in store :: if IsElectrical(p) then ElectricalValue(s, p) else store[p]
  }

  /** The status code for a power comparison: 7 (running) from 10 W up, 8 (standby) below. */
  function StatusFor(running: bool): int {
    if running then 7 else 8
  }

  /**
   * The next update counter: the stored value plus one, back to 0 once it
   * passes 255; None when the stored value is not a number.
   */
  function NextIndex(v: Value): (r: Option<Value>)
    ensures r.Some? <==> IsNumber(v)
    ensures v.Int? && 0 <= v.n <= 255 ==> r == Some(Int((v.n + 1) % 256))
    ensures r.Some? ==> r.value == Int(0) || AtLeast(r.value, 256) == Some(false)
  {
    match v
    case Int(n) => Some(if n + 1 > 255 then Int(0) else Int(n + 1))
    case Real(x) => Some(if x + 1.0 > 255.0 then Int(0) else Real(x + 1.0))
    case _ => None
  }

  /**
   * One update cycle on `store` with the readings `s`: the eleven
   * readings are published, then the debug line needs power factor,
   * voltage and current, then the cycle concludes.
   */
  function Cycle(store: Store, s: Snapshot): (r: Step)
    requires HoldsCyclePaths(store)
    ensures r.store.Keys == store.Keys
  {
    var written := WriteElectrical(store, s);
    if s.p.None? || s.v.None? || s.c.None? then Step(Raised(FormatNone), written)
    else Conclude(written)
  }

  /**
   * The end of a cycle, once the readings are published: the status code
   * from the stored power, rewritten only when it differs, then the update
   * counter.
   */
  function Conclude(written: Store): (r: Step)
    requires Ac(Power) in written && StatusCode in written && UpdateIndex in written
    ensures r.store.Keys == written.Keys
    ensures forall p | p in written && p != StatusCode && p != UpdateIndex :: r.store[p] == written[p]
    ensures r.outcome == Raised(CompareNone) <==> !IsNumber(written[Ac(Power)])
    ensures r.outcome == Raised(CompareNone) ==> r.store == written
    ensures r.outcome.Completed? <==> IsNumber(written[Ac(Power)]) && IsNumber(written[UpdateIndex])
    ensures IsNumber(written[Ac(Power)]) ==>
      EqualsInt(r.store[StatusCode], StatusFor(AtLeast(written[Ac(Power)], 10).value))
  {
    match AtLeast(written[Ac(Power)], 10)
    case None => Step(Raised(CompareNone), written)
    case Some(running) =>
      var code := StatusFor(running);
      var marked := if EqualsInt(written[StatusCode], code) then written
                    else written[StatusCode := Int(code)];
      match NextIndex(marked[UpdateIndex])
      case None => Step(Raised(IndexNotNumeric), marked)
      case Some(index) => Step(Completed, marked[UpdateIndex := index])
  }

  /** Whatever the readings, a cycle writes each electrical path's reading before it can raise. */
  lemma CycleWritesElectrical(store: Store, s: Snapshot, p: Path)
    requires HoldsCyclePaths(store) && IsElectrical(p)
    ensures Cycle(store, s).store[p] == ElectricalValue(s, p)
  {
  }

  /**
   * Each aggregate path and its phase-1 twin get the same value; an absent
   * reading is written as None and a present one as its rounding; the
   * export energy appears on the phase-1 "used" energy only, which has no
   * aggregate twin.
   */
  lemma CyclePublishesSnapshot(store: Store, s: Snapshot)
    requires HoldsCyclePaths(store)
    ensures var w := Cycle(store, s).store;
      && (forall f | IsAggregateField(f) :: w[Ac(f)] == w[Phase(L1, f)] == Published(FieldReading(s, f)))
      && w[Phase(L1, Field.Frequency)] == Published(s.f)
      && w[Phase(L1, Field.PowerFactor)] == Published(s.p)
      && w[Phase(L1, EnergyUsed)] == Published(s.e)
  {
    forall f | IsAggregateField(f)
      ensures Cycle(store, s).store[Ac(f)] == Cycle(store, s).store[Phase(L1, f)] == Published(FieldReading(s, f))
    {
      CycleWritesElectrical(store, s, Ac(f));
      CycleWritesElectrical(store, s, Phase(L1, f));
    }
    CycleWritesElectrical(store, s, Phase(L1, Field.Frequency));
    CycleWritesElectrical(store, s, Phase(L1, Field.PowerFactor));
    CycleWritesElectrical(store, s, Phase(L1, EnergyUsed));
  }

  /**
   * A cycle writes nothing but the electrical paths, the status code and
   * the update counter: the identity and management paths, the phase-2
   * and phase-3 paths, the maximum power, the position and the aggregate
   * status code keep their values.
   */
  lemma CycleFrame(store: Store, s: Snapshot)
    requires HoldsCyclePaths(store)
    ensures forall p | p in store && !IsCyclePath(p) :: Cycle(store, s).store[p] == store[p]
  {
  }

  /** The total energy is read but never published: it has no effect on a cycle. */
  lemma TotalEnergyUnpublished(store: Store, s: Snapshot, t: Option<real>)
    requires HoldsCyclePaths(store)
    ensures Cycle(store, s.(t := t)) == Cycle(store, s)
  {
    forall p | IsElectrical(p)
      ensures ElectricalValue(s.(t := t), p) == ElectricalValue(s, p)
    {
    }
    assert WriteElectrical(store, s.(t := t)) == WriteElectrical(store, s);
  }

  /**
   * Without a power factor, a voltage or a current the cycle raises at the
   * debug line: the electrical paths are already written, but the status
   * code and the update counter keep their old values.
   */
  lemma AbortedCycleKeepsStatusAndIndex(store: Store, s: Snapshot)
    requires HoldsCyclePaths(store)
    requires s.p.None? || s.v.None? || s.c.None?
    ensures Cycle(store, s).outcome == Raised(FormatNone)
    ensures Cycle(store, s).store[StatusCode] == store[StatusCode]
    ensures Cycle(store, s).store[UpdateIndex] == store[UpdateIndex]
  {
  }

  /**
   * Once power factor, voltage, current and power are all present, the
   * status code is 7 exactly when the rounded, stored power is at least
   * 10 W and 8 exactly when it is below; it is rewritten only when it
   * does not already equal that code.
   */
  lemma StatusFollowsStoredPower(store: Store, s: Snapshot)
    requires HoldsCyclePaths(store)
    requires s.p.Some? && s.v.Some? && s.c.Some? && s.a.Some?
    ensures Cycle(store, s).outcome != Raised(FormatNone) && Cycle(store, s).outcome != Raised(CompareNone)
    ensures var status := Cycle(store, s).store[StatusCode];
      && (EqualsInt(status, 7) <==> Round2(s.a.value) >= 10.0)
      && (EqualsInt(status, 8) <==> Round2(s.a.value) < 10.0)
      && (EqualsInt(store[StatusCode], StatusFor(Round2(s.a.value) >= 10.0)) ==> status == store[StatusCode])
  {
  }

  /**
   * Once the status code is derived, the cycle completes exactly when the
   * stored update counter is a number; a counter in 0..255 becomes its
   * successor modulo 256, so 255 goes to 0.
   */
  lemma IndexWrapsAt256(store: Store, s: Snapshot)
    requires HoldsCyclePaths(store)
    requires s.p.Some? && s.v.Some? && s.c.Some? && s.a.Some?
    ensures Cycle(store, s).outcome == Completed <==> IsNumber(store[UpdateIndex])
    ensures store[UpdateIndex].Int? && 0 <= store[UpdateIndex].n <= 255 ==>
      Cycle(store, s).store[UpdateIndex] == Int((store[UpdateIndex].n + 1) % 256)
  {
  }

  /**
   * Repeating a completed cycle with the same readings changes nothing but
   * the update counter; in particular the status code is not written again.
   */
  lemma RepeatedCycleChangesOnlyIndex(store: Store, s: Snapshot)
    requires HoldsCyclePaths(store)
    requires Cycle(store, s).outcome == Completed
    ensures var once := Cycle(store, s).store;
      forall p | p in store && p != UpdateIndex :: Cycle(once, s).store[p] == once[p]
  {
    var once := Cycle(store, s).store;
    assert WriteElectrical(once, s) == once;
  }

  /** The threshold applies to the rounded power: 9.996 W is stored as 10.0 W and reads as running. */
  lemma RoundedPowerDecidesStatus()
    ensures Published(Some(9.996)) == Real(10.0)
    ensures StatusFor(Round2(9.996) >= 10.0) == 7
  {
    assert (9.996 * 100.0).Floor == 999;
    assert Hundredths(9.996) == 1000;
  }

  /**
   * For readings the meter actually produces, a cycle raises at the debug
   * line exactly when one of the first four reads failed, never at the
   * power comparison, and completes exactly when in addition the stored
   * update counter is a number.
   */
  lemma MeterCycleOutcome(store: Store, bus: Bus, offset: real)
    requires HoldsCyclePaths(store)
    ensures var r := Cycle(store, Acquired(bus, offset));
      && (r.outcome == Raised(FormatNone) <==> !SucceededBefore(bus, 4))
      && r.outcome != Raised(CompareNone)
      && (r.outcome == Completed <==> SucceededBefore(bus, 4) && IsNumber(store[UpdateIndex]))
  {
    var s := Acquired(bus, offset);
    PresentIffReadsSucceeded(bus, offset, Quantity.Voltage);
    PresentIffReadsSucceeded(bus, offset, Quantity.Current);
    PresentIffReadsSucceeded(bus, offset, ActivePower);
    PresentIffReadsSucceeded(bus, offset, Quantity.PowerFactor);
    assert SucceededBefore(bus, 4) ==> SucceededBefore(bus, 3) && SucceededBefore(bus, 2) && SucceededBefore(bus, 1);
    if SucceededBefore(bus, 4) {
      IndexWrapsAt256(store, s);
    }
  }

  /**
   * With the update counter at `n` in 0..255, whatever the readings, a
   * cycle moves it to its successor modulo 256 when it completes and
   * leaves it at `n` when it raises.
   */
  lemma CycleAdvancesIndex(store: Store, s: Snapshot, n: int)
    requires HoldsCyclePaths(store)
    requires 0 <= n <= 255 && store[UpdateIndex] == Int(n)
    ensures var r := Cycle(store, s);
      r.store[UpdateIndex] == if r.outcome.Completed? then Int((n + 1) % 256) else Int(n)
  {
    if s.p.None? || s.v.None? || s.c.None? {
      AbortedCycleKeepsStatusAndIndex(store, s);
    } else if s.a.Some? {
      IndexWrapsAt256(store, s);
    } else {
      var written := WriteElectrical(store, s);
      assert written[Ac(Power)] == Null && written[UpdateIndex] == Int(n);
    }
  }

  /**
   * As written, a cycle in which all eight reads return publishes the raw
   * import energy, rounded, on /Ac/Energy/Forward; the corrected cycle
   * publishes the rounded sum of the reading and the offset.
   */
  lemma PublishedImportAsWritten(store: Store, bus: Bus, offset: real)
    requires HoldsCyclePaths(store) && SucceededBefore(bus, |ReadOrder|)
    ensures Read(bus, ImportEnergy).Some?
    ensures Cycle(store, AcquiredAsWritten(bus)).store[Ac(EnergyForward)] == Real(Round2(Read(bus, ImportEnergy).value))
    ensures Cycle(store, Acquired(bus, offset)).store[Ac(EnergyForward)]
         == Real(Round2(Read(bus, ImportEnergy).value + offset))
  {
    SucceededBeforeEach(bus, |ReadOrder|);
    CycleWritesElectrical(store, AcquiredAsWritten(bus), Ac(EnergyForward));
    CycleWritesElectrical(store, Acquired(bus, offset), Ac(EnergyForward));
  }

  /** A meter whose every register reads `x`. */
  function SteadyMeter(x: real): Bus {
    (address: nat) => Some(x)
  }

  /**
   * The discrepancy on one input: every read returns 100.0 and the offset
   * is 0.5; as written /Ac/Energy/Forward becomes 100.0, corrected 100.5.
   */
  lemma OffsetLostOnSteadyMeter(store: Store)
    requires HoldsCyclePaths(store)
    ensures Cycle(store, AcquiredAsWritten(SteadyMeter(100.0))).store[Ac(EnergyForward)] == Real(100.0)
    ensures Cycle(store, Acquired(SteadyMeter(100.0), 0.5)).store[Ac(EnergyForward)] == Real(100.5)
  {
    var bus := SteadyMeter(100.0);
    SucceededBeforeEach(bus, |ReadOrder|);
    PublishedImportAsWritten(store, bus, 0.5);
    assert Hundredths(100.0) == 10000;
    assert Hundredths(100.5) == 10050;
  }
}
