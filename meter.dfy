/**
 * The read half of one update cycle: eight floating-point input registers
 * of the SDM120 meter, read one after another inside a single `try` block,
 * so that the first read that raises leaves every later quantity unread.
 * Each read is function code 4 (read input registers) for two registers
 * holding one IEEE-754 float; the serial transport is not modelled, only
 * whether each read returns a value or raises.
 */
module Meter {
  import opened Values

  datatype Quantity =
    | Voltage | Current | ActivePower | PowerFactor
    | Frequency | ImportEnergy | ExportEnergy | TotalEnergy

  /** The order in which a cycle reads the quantities. */
  const ReadOrder: seq<Quantity> :=
    [Voltage, Current, ActivePower, PowerFactor, Frequency, ImportEnergy, ExportEnergy, TotalEnergy]

  /** The position of a quantity in the read order. */
  function Rank(q: Quantity): (k: nat)
    ensures k < |ReadOrder| && ReadOrder[k] == q
  {
    match q
    case Voltage => 0
    case Current => 1
    case ActivePower => 2
    case PowerFactor => 3
    case Frequency => 4
    case ImportEnergy => 5
    case ExportEnergy => 6
    case TotalEnergy => 7
  }

  /** The input-register address of the float that holds each quantity. */
  function Address(q: Quantity): nat {
    match q
    case Voltage => 0x0000
    case Current => 0x0006
    case ActivePower => 0x000C
    case PowerFactor => 0x001E
    case Frequency => 0x0046
    case ImportEnergy => 0x0048
    case ExportEnergy => 0x004A
    case TotalEnergy => 0x0156
  }

  /**
   * What reading the float at each input-register address gives during one
   * cycle: `None` when the read raises (timeout, bad checksum, malformed
   * reply).
   */
  type Bus = nat -> Option<real>

  function Read(bus: Bus, q: Quantity): Option<real> {
    bus(Address(q))
  }

  /** The first `k` reads of the cycle all return a value. */
  predicate SucceededBefore(bus: Bus, k: nat)
    requires k <= |ReadOrder|
  {
    k == 0 || (SucceededBefore(bus, k - 1) && Read(bus, ReadOrder[k - 1]).Some?)
  }

  /** The first `k` reads all return a value exactly when each one of them does. */
  lemma {:induction false} SucceededBeforeEach(bus: Bus, k: nat)
    requires k <= |ReadOrder|
    ensures SucceededBefore(bus, k) <==> forall j | 0 <= j < k :: Read(bus, ReadOrder[j]).Some?
  {
    if k > 0 {
      SucceededBeforeEach(bus, k - 1);
    }
  }

  /** The `k`-th read's result if the cycle gets that far, else nothing. */
  function Reached(bus: Bus, k: nat): Option<real>
    requires k < |ReadOrder|
  {
    if SucceededBefore(bus, k) then Read(bus, ReadOrder[k]) else None
  }

  /** The eight local variables of one cycle, in read order. */
  datatype Snapshot = Snapshot(v: Option<real>, c: Option<real>, a: Option<real>, p: Option<real>,
                               f: Option<real>, i: Option<real>, e: Option<real>, t: Option<real>)
  {
    function Get(q: Quantity): Option<real> {
      match q
      case Voltage => v
      case Current => c
      case ActivePower => a
      case PowerFactor => p
      case Frequency => f
      case ImportEnergy => i
      case ExportEnergy => e
      case TotalEnergy => t
    }
  }

  /**
   * The locals as the code leaves them. The constructor's `offset`
   * parameter is never stored on the object, so the name is unbound where
   * the cycle adds it to the import energy: that statement raises
   * NameError, the surrounding `except Exception` swallows it, and the
   * import energy keeps its raw reading.
   */
  function AcquiredAsWritten(bus: Bus): (s: Snapshot)
    ensures forall q :: s.Get(q) == if SucceededBefore(bus, Rank(q) + 1) then Read(bus, q) else None
  {
    Snapshot(Reached(bus, 0), Reached(bus, 1), Reached(bus, 2), Reached(bus, 3),
             Reached(bus, 4), Reached(bus, 5), Reached(bus, 6), Reached(bus, 7))
  }

  /**
   * The locals as the code evidently means to leave them: the meter
   * calibration `offset` (which the model keeps on the service object,
   * where the code fails to) is added to the import energy once all eight
   * reads have returned.
   */
  function Acquired(bus: Bus, offset: real): (s: Snapshot)
    ensures var raw := AcquiredAsWritten(bus);
      && (forall q | q != ImportEnergy :: s.Get(q) == raw.Get(q))
      && (s.i.Some? <==> raw.i.Some?)
      && (SucceededBefore(bus, |ReadOrder|) ==> s.i.Some? && s.i.value == raw.i.value + offset)
      && (!SucceededBefore(bus, |ReadOrder|) ==> s.i == raw.i)
  {
    var raw := AcquiredAsWritten(bus);
    if SucceededBefore(bus, |ReadOrder|) then
      SucceededBeforeEach(bus, |ReadOrder|);
      raw.(i := Some(raw.i.value + offset))
    else raw
  }

  /** The `try` block of a cycle with the offset applied: the first read that raises ends the reads. */
  method ReadMeter(bus: Bus, offset: real) returns (s: Snapshot)
    ensures s == Acquired(bus, offset)
  {
    var v, c, a, p, f, i, e, t: Option<real> := None, None, None, None, None, None, None, None;
    v := Read(bus, Voltage);
    if v.Some? { c := Read(bus, Current); }
    if c.Some? { a := Read(bus, ActivePower); }
    if a.Some? { p := Read(bus, PowerFactor); }
    if p.Some? { f := Read(bus, Frequency); }
    if f.Some? { i := Read(bus, ImportEnergy); }
    if i.Some? { e := Read(bus, ExportEnergy); }
    if e.Some? { t := Read(bus, TotalEnergy); }
    if t.Some? { i := Some(i.value + offset); }
    s := Snapshot(v, c, a, p, f, i, e, t);
  }

  /** A quantity is present exactly when its own read and every earlier one returned a value. */
  lemma PresentIffReadsSucceeded(bus: Bus, offset: real, q: Quantity)
    ensures Acquired(bus, offset).Get(q).Some? <==> SucceededBefore(bus, Rank(q) + 1)
  {
    var k := Rank(q);
    assert SucceededBefore(bus, k + 1) <==> SucceededBefore(bus, k) && Read(bus, ReadOrder[k]).Some?;
  }

  /** The present quantities always form a prefix of the read order. */
  lemma PresentFormPrefix(bus: Bus, offset: real)
    ensures var s := Acquired(bus, offset);
      forall j, k | 0 <= j <= k < |ReadOrder| && s.Get(ReadOrder[k]).Some? :: s.Get(ReadOrder[j]).Some?
  {
    var s := Acquired(bus, offset);
    forall j, k | 0 <= j <= k < |ReadOrder| && s.Get(ReadOrder[k]).Some?
      ensures s.Get(ReadOrder[j]).Some?
    {
      PresentIffReadsSucceeded(bus, offset, ReadOrder[k]);
      PresentIffReadsSucceeded(bus, offset, ReadOrder[j]);
    }
  }

  /** A read that raises leaves its own quantity and every later one absent. */
  lemma FirstFailureAbortsRest(bus: Bus, offset: real, k: nat)
    requires k < |ReadOrder| && Read(bus, ReadOrder[k]).None?
    ensures forall j | k <= j < |ReadOrder| :: Acquired(bus, offset).Get(ReadOrder[j]) == None
  {
    forall j | k <= j < |ReadOrder|
      ensures Acquired(bus, offset).Get(ReadOrder[j]) == None
    {
      PresentIffReadsSucceeded(bus, offset, ReadOrder[j]);
    }
  }

  /** Every present quantity other than the import energy is exactly what its read returned. */
  lemma PresentReadingsAreMeterValues(bus: Bus, offset: real, q: Quantity)
    requires q != ImportEnergy
    ensures Acquired(bus, offset).Get(q).Some? ==> Acquired(bus, offset).Get(q) == Read(bus, q)
  {
  }

  /**
   * The offset touches the import energy only, is never added to an absent
   * reading, and is added exactly when all eight reads returned.
   */
  lemma OffsetOnlyOnImport(bus: Bus, offset: real)
    ensures var s, raw := Acquired(bus, offset), AcquiredAsWritten(bus);
      && s.(i := raw.i) == raw
      && (s.i.Some? <==> raw.i.Some?)
      && (SucceededBefore(bus, |ReadOrder|) ==> s.i == Some(Read(bus, ImportEnergy).value + offset))
      && (!SucceededBefore(bus, |ReadOrder|) ==> s.i == raw.i)
  {
    SucceededBeforeEach(bus, |ReadOrder|);
  }

  /**
   * As written, a cycle in which every read returns publishes the raw
   * import energy: whenever the configured offset is not zero, the value
   * differs from the corrected one.
   */
  lemma OffsetDroppedAsWritten(bus: Bus, offset: real)
    requires SucceededBefore(bus, |ReadOrder|) && offset != 0.0
    ensures AcquiredAsWritten(bus).i.Some?
    ensures Acquired(bus, offset).i == Some(AcquiredAsWritten(bus).i.value + offset)
    ensures AcquiredAsWritten(bus).i != Acquired(bus, offset).i
  {
    SucceededBeforeEach(bus, |ReadOrder|);
  }
}
