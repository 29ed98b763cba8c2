/**
 * Runs of the service: the timer's update cycles interleaved with changes
 * an outside writer makes to the writable paths. A run stops at the first
 * cycle that raises; what the event loop does with the timer after that is
 * not part of the model.
 */
module Runs {
  import opened Values
  import opened Paths
  import opened Meter
  import opened UpdateCycle

  /** One thing that happens to the service: a timer tick, or a write from outside. */
  datatype Event = Tick(bus: Bus) | Change(path: Path, value: Value)

  /**
   * A write from outside: the change hook accepts every change, so a
   * writable path takes the new value; any other path is refused before
   * the hook is asked.
   */
  function ExternalChange(store: Store, writeable: set<Path>, path: Path, value: Value): (r: Store)
    requires writeable <= store.Keys
    ensures r.Keys == store.Keys
    ensures path in writeable ==> r == store[path := value]
    ensures path !in writeable ==> r == store
  {
    if path in writeable then store[path := value] else store
  }

  /** Where a run ends, how many cycles completed on the way, and whether a cycle raised. */
  datatype Trace = Trace(store: Store, completed: nat, halted: bool)

  function Run(store: Store, writeable: set<Path>, offset: real, events: seq<Event>): (t: Trace)
    requires HoldsCyclePaths(store) && writeable <= store.Keys
    ensures t.store.Keys == store.Keys
    ensures t.completed <= |events|
    decreases |events|, 1
  {
    if events == [] then Trace(store, 0, false)
    else Advance(store, writeable, offset, events)
  }

  /** The first event of a non-empty run, then the rest of the run unless a cycle raised. */
  function Advance(store: Store, writeable: set<Path>, offset: real, events: seq<Event>): (t: Trace)
    requires HoldsCyclePaths(store) && writeable <= store.Keys && events != []
    ensures t.store.Keys == store.Keys
    ensures t.completed <= |events|
    decreases |events|, 0
  {
    match events[0]
    case Change(p, v) => Run(ExternalChange(store, writeable, p, v), writeable, offset, events[1..])
    case Tick(bus) =>
      var r := Cycle(store, Acquired(bus, offset));
      if r.outcome.Completed? then
        var rest := Run(r.store, writeable, offset, events[1..]);
        Trace(rest.store, rest.completed + 1, rest.halted)
      else Trace(r.store, 0, true)
  }

  /** No event of the run writes `p` from outside. */
  predicate LeavesAlone(events: seq<Event>, p: Path) {
    forall k | 0 <= k < |events| && events[k].Change? :: events[k].path != p
  }

  lemma LeavesAloneTail(events: seq<Event>, p: Path)
    requires events != [] && LeavesAlone(events, p)
    ensures LeavesAlone(events[1..], p)
    ensures events[0].Change? ==> events[0].path != p
  {
    forall k | 0 <= k < |events[1..]| && events[1..][k].Change?
      ensures events[1..][k].path != p
    {
      assert events[1..][k] == events[k + 1];
    }
  }

  /** One step of the update counter: plus one, back to 0 once past 255. */
  function CounterStep(n: int): int {
    if n + 1 > 255 then 0 else n + 1
  }

  /** The update counter after `k` completed cycles, starting from `n`. */
  function Advanced(n: int, k: nat): int
    decreases k
  {
    if k == 0 then n else Advanced(CounterStep(n), k - 1)
  }

  /** Stepping from a counter in 0..255 is counting modulo 256. */
  lemma {:induction false} AdvancedIsModulo(n: int, k: nat)
    requires 0 <= n <= 255
    ensures Advanced(n, k) == (n + k) % 256
    decreases k
  {
    if k > 0 {
      AdvancedIsModulo(CounterStep(n), k - 1);
      if n == 255 {
        assert n + k == (k - 1) + 1 * 256;
      }
    }
  }

  /**
   * The counting step on traces: a trace one completed cycle longer than
   * `rest` and ending in the same store has counted one step more.
   */
  lemma CountOneMore(t: Trace, rest: Trace, n: int)
    requires t.store == rest.store && t.completed == rest.completed + 1
    requires UpdateIndex in rest.store && rest.store[UpdateIndex] == Int(Advanced(CounterStep(n), rest.completed))
    ensures t.store[UpdateIndex] == Int(Advanced(n, t.completed))
  {
  }

  /**
   * When nobody writes the update counter from outside, it counts the
   * completed cycles: each completed cycle steps it once, a cycle that
   * raises leaves it alone.
   */
  lemma {:induction false} RunCountsCompletedCycles(store: Store, writeable: set<Path>, offset: real,
                                                    events: seq<Event>, n: int)
    requires HoldsCyclePaths(store) && writeable <= store.Keys
    requires 0 <= n <= 255 && store[UpdateIndex] == Int(n)
    requires LeavesAlone(events, UpdateIndex)
    ensures var t := Run(store, writeable, offset, events);
      t.store[UpdateIndex] == Int(Advanced(n, t.completed))
    decreases |events|, 1
  {
    if events != [] {
      LeavesAloneTail(events, UpdateIndex);
      match events[0]
      case Change(p, v) =>
        var next := ExternalChange(store, writeable, p, v);
        assert next[UpdateIndex] == Int(n);
        RunCountsCompletedCycles(next, writeable, offset, events[1..], n);
        assert Run(store, writeable, offset, events) == Run(next, writeable, offset, events[1..]);
      case Tick(bus) =>
        TickCountsCompletedCycle(store, writeable, offset, events, n);
    }
  }

  /** The step of the induction above for a run that starts with a timer tick. */
  lemma {:induction false} TickCountsCompletedCycle(store: Store, writeable: set<Path>, offset: real,
                                                    events: seq<Event>, n: int)
    requires HoldsCyclePaths(store) && writeable <= store.Keys
    requires 0 <= n <= 255 && store[UpdateIndex] == Int(n)
    requires events != [] && events[0].Tick? && LeavesAlone(events[1..], UpdateIndex)
    ensures var t := Run(store, writeable, offset, events);
      t.store[UpdateIndex] == Int(Advanced(n, t.completed))
    decreases |events|, 0
  {
    var completed, next := TickAdvancesIndex(store, writeable, offset, events, n);
    if completed {
      RunCountsCompletedCycles(next, writeable, offset, events[1..], CounterStep(n));
      CountOneMore(Run(store, writeable, offset, events), Run(next, writeable, offset, events[1..]), n);
    }
  }

  /**
   * A run that starts with a tick, seen from the update counter: either the
   * cycle raises, the run ends and the counter is unchanged, or the cycle
   * completes with the counter one step on and the run goes on from there.
   */
  lemma TickAdvancesIndex(store: Store, writeable: set<Path>, offset: real, events: seq<Event>, n: int)
    returns (completed: bool, next: Store)
    requires HoldsCyclePaths(store) && writeable <= store.Keys
    requires 0 <= n <= 255 && store[UpdateIndex] == Int(n)
    requires events != [] && events[0].Tick?
    ensures var t := Run(store, writeable, offset, events);
      if completed then
        && HoldsCyclePaths(next) && writeable <= next.Keys && next[UpdateIndex] == Int(CounterStep(n))
        && t.store == Run(next, writeable, offset, events[1..]).store
        && t.completed == Run(next, writeable, offset, events[1..]).completed + 1
      else t.store[UpdateIndex] == Int(n) && t.completed == 0
  {
    var r := Cycle(store, Acquired(events[0].bus, offset));
    CycleAdvancesIndex(store, Acquired(events[0].bus, offset), n);
    completed, next := r.outcome.Completed?, r.store;
  }

  /**
   * A path that no cycle writes and that is not writable from outside keeps
   * its value through any run.
   */
  lemma {:induction false} RunKeepsReadOnlyPaths(store: Store, writeable: set<Path>, offset: real,
                                                 events: seq<Event>, p: Path)
    requires HoldsCyclePaths(store) && writeable <= store.Keys
    requires p in store && p !in writeable && !IsCyclePath(p)
    ensures Run(store, writeable, offset, events).store[p] == store[p]
    decreases |events|
  {
    if events != [] {
      match events[0]
      case Change(q, v) =>
        RunKeepsReadOnlyPaths(ExternalChange(store, writeable, q, v), writeable, offset, events[1..], p);
      case Tick(bus) =>
        var r := Cycle(store, Acquired(bus, offset));
        CycleFrame(store, Acquired(bus, offset));
        if r.outcome.Completed? {
          RunKeepsReadOnlyPaths(r.store, writeable, offset, events[1..], p);
        }
    }
  }

  /**
   * From a store whose update counter is 0, with every fixed path other
   * than the status code out of reach of outside writers: the counter is
   * the number of completed cycles modulo 256 and those paths keep their
   * values.
   */
  lemma RunFromZero(store: Store, writeable: set<Path>, offset: real, events: seq<Event>)
    requires HoldsCyclePaths(store) && writeable <= store.Keys
    requires store[UpdateIndex] == Int(0) && LeavesAlone(events, UpdateIndex)
    requires forall p | IsFixed(p) && p != StatusCode :: p in store && p !in writeable
    ensures var t := Run(store, writeable, offset, events);
      && t.store[UpdateIndex] == Int(t.completed % 256)
      && forall p | IsFixed(p) && p != StatusCode :: t.store[p] == store[p]
  {
    RunCountsCompletedCycles(store, writeable, offset, events, 0);
    CountedFromZero(Run(store, writeable, offset, events));
    forall p | IsFixed(p) && p != StatusCode
      ensures Run(store, writeable, offset, events).store[p] == store[p]
    {
      RunKeepsReadOnlyPaths(store, writeable, offset, events, p);
    }
  }

  /** Counting from 0 is counting modulo 256. */
  lemma CountedFromZero(t: Trace)
    requires UpdateIndex in t.store && t.store[UpdateIndex] == Int(Advanced(0, t.completed))
    ensures t.store[UpdateIndex] == Int(t.completed % 256)
  {
    AdvancedIsModulo(0, t.completed);
  }

  /**
   * From the program's initial store, with the main table's paths writable
   * and the update counter left alone from outside: the counter is the
   * number of completed cycles modulo 256, and every identity and
   * management path still holds what the constructor registered.
   */
  lemma MainRun(setup: Setup, maxPower: int, inverterPosition: int, offset: real, events: seq<Event>)
    requires LeavesAlone(events, UpdateIndex)
    ensures var start := MainStore(setup, maxPower, inverterPosition);
      var t := Run(start, MainTable(maxPower, inverterPosition).Keys, offset, events);
      && t.store[UpdateIndex] == Int(t.completed % 256)
      && forall p | IsFixed(p) && p != StatusCode :: t.store[p] == FixedValue(setup, p)
  {
    MainStoreInitialSettings(setup, maxPower, inverterPosition);
    RunFromZero(MainStore(setup, maxPower, inverterPosition), MainTable(maxPower, inverterPosition).Keys, offset, events);
  }
}
