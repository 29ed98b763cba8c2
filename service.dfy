/**
 * The service object itself: the path store it publishes on D-Bus, the
 * set of paths registered as writable, and the three things that happen
 * to it — construction, the one-second update timer, and a write from
 * another D-Bus client.
 */
module Service {
  import opened Values
  import opened Paths
  import opened Meter
  import opened UpdateCycle
  import Runs

  class DbusSdm120PvService {
    /** The value of every registered path. */
    var store: Store
    /** The paths registered with `writeable = True`; registration happens once, in the constructor. */
    const writeable: set<Path>
    /**
     * The meter calibration added to the import energy. The constructor
     * takes it as a parameter but the code never keeps it; the model keeps
     * it here so that the update cycle can apply it as intended.
     */
    const offset: real

    /** The store is fit for an update cycle and every writable path is registered. */
    ghost predicate Valid()
      reads this
    {
      HoldsCyclePaths(store) && writeable <= store.Keys
    }

    /**
     * Registers the management and identity paths, then every path of the
     * table, as writable, with its initial value. The service is fit for
     * update cycles once the table supplies every path a cycle touches that
     * the constructor does not register itself.
     */
    constructor (setup: Setup, paths: Table, offset: real)
      ensures store == FixedStore(setup) + paths
      ensures writeable == paths.Keys
      ensures this.offset == offset
      ensures (forall p | IsCyclePath(p) && !IsFixed(p) :: p in paths) ==> Valid()
    {
      var registered, writable := AddTable(FixedStore(setup), paths);
      store, writeable, this.offset := registered, writable, offset;
    }

    /**
     * One tick of the update timer: read the meter, publish the eleven
     * readings, derive the status code from the stored power, and step the
     * update counter, stopping at the first statement that raises.
     */
    method Update(bus: Bus) returns (outcome: Outcome)
      requires Valid()
      modifies this`store
      ensures Valid()
      ensures Step(outcome, store) == Cycle(old(store), Acquired(bus, offset))
    {
      var s := ReadMeter(bus, offset);
      store := WriteElectrical(store, s);
      if s.p.None? || s.v.None? || s.c.None? {
        return Raised(FormatNone);
      }
      outcome := Conclude();
    }

    /**
     * The end of a cycle, after the debug line: status code 7 from 10 W of
     * stored power up and 8 below, written only when the stored code
     * differs; then the update counter plus one, back to 0 past 255.
     */
    method Conclude() returns (outcome: Outcome)
      requires Valid()
      modifies this`store
      ensures Valid()
      ensures Step(outcome, store) == UpdateCycle.Conclude(old(store))
    {
      var running := AtLeast(store[Ac(Power)], 10);
      if running.None? {
        return Raised(CompareNone);
      }
      if running.value {
        if !EqualsInt(store[StatusCode], 7) {
          store := store[StatusCode := Int(7)];
        }
      } else {
        if !EqualsInt(store[StatusCode], 8) {
          store := store[StatusCode := Int(8)];
        }
      }
      match store[UpdateIndex]
      case Int(n) =>
        var index := n + 1;
        if index > 255 {
          index := 0;
        }
        store := store[UpdateIndex := Int(index)];
        outcome := Completed;
      case Real(x) =>
        var index := x + 1.0;
        store := store[UpdateIndex := if index > 255.0 then Int(0) else Real(index)];
        outcome := Completed;
      case _ =>
        outcome := Raised(IndexNotNumeric);
    }

    /** The change hook: every change another client asks for is accepted. */
    method HandleChangedValue(path: Path, value: Value) returns (accepted: bool)
      ensures accepted
    {
      accepted := true;
    }

    /**
     * Another D-Bus client sets `path` to `value`: a path that is not
     * writable refuses the change; otherwise the change hook is asked and,
     * since it accepts, the value is stored.
     */
    method SetFromOutside(path: Path, value: Value) returns (accepted: bool)
      requires Valid()
      modifies this`store
      ensures Valid()
      ensures accepted <==> path in writeable
      ensures store == Runs.ExternalChange(old(store), writeable, path, value)
    {
      accepted := false;
      if path in writeable {
        accepted := HandleChangedValue(path, value);
        if accepted {
          store := store[path := value];
        }
      }
    }
  }

  /**
   * The entry point's start-up: the service built from the configuration
   * (device instance, device name, maximum power, inverter position and
   * meter offset) and the entry-point table starts from the program's
   * initial store, with exactly the table's paths writable.
   */
  method StartService(processName: string, pythonVersion: string, deviceInstance: int, deviceName: string,
                      maxPower: int, inverterPosition: int, offset: real)
    returns (service: DbusSdm120PvService)
    ensures fresh(service) && service.Valid()
    ensures service.store == MainStore(MainSetup(processName, pythonVersion, deviceInstance, deviceName, inverterPosition),
                                       maxPower, inverterPosition)
    ensures service.writeable == MainTable(maxPower, inverterPosition).Keys
    ensures service.offset == offset
  {
    var setup := MainSetup(processName, pythonVersion, deviceInstance, deviceName, inverterPosition);
    service := new DbusSdm120PvService(setup, MainTable(maxPower, inverterPosition), offset);
  }

  /**
   * The constructor's loop over the path table: each path is added to the
   * store with its initial value and registered as writable.
   */
  method AddTable(registered0: Store, paths: Table) returns (registered: Store, writable: set<Path>)
    ensures registered == registered0 + paths
    ensures writable == paths.Keys
  {
    registered, writable := registered0, {};
    var pending := paths.Keys;
    while pending != {}
      invariant pending <= paths.Keys
      invariant writable == paths.Keys - pending
      invariant registered == registered0 + Restrict(paths, writable)
      decreases |pending|
    {
      var p :| p in pending;
      RegisterOne(registered0, paths, writable, p);
      registered := registered[p := paths[p]];
      writable := writable + {p};
      pending := pending - {p};
    }
    AllRegistered(paths, writable);
  }

  /** The entries of `paths` whose path is in `done`. */
  function Restrict(paths: Table, done: set<Path>): (r: Table)
    ensures forall q :: q in r <==> q in paths && q in done
  {
    map q | q in paths && q in done :: paths[q]
  }

  /** Registering one more path of the table. */
  lemma RegisterOne(fixed: Store, paths: Table, done: set<Path>, p: Path)
    requires p in paths
    ensures (fixed + Restrict(paths, done))[p := paths[p]] == fixed + Restrict(paths, done + {p})
  {
    var l := (fixed + Restrict(paths, done))[p := paths[p]];
    var r := fixed + Restrict(paths, done + {p});
    assert forall q :: q in l <==> q in r;
  }

  /** Once every path of the table is registered, the whole table is in the store. */
  lemma AllRegistered(paths: Table, done: set<Path>)
    requires done == paths.Keys
    ensures Restrict(paths, done) == paths
  {
  }
}
