/**
 * The D-Bus paths of the PV-inverter service: the management and identity
 * paths the service object registers itself, and the path table the
 * program's entry point hands to it (initial values; the text formatters
 * only render values and are not modelled).
 */
module Paths {
  import opened Values

  /** Paths under /Mgmt. */
  datatype MgmtItem = ProcessName | ProcessVersion | Connection

  /** The identity paths at the root of the tree. */
  datatype DeviceItem =
    | DeviceInstance | ProductId | ProductName | CustomName
    | FirmwareVersion | Connected | Latency | ErrorCode

  /** The phases of an AC connection. */
  datatype Line = L1 | L2 | L3

  /** The readings published under /Ac and under /Ac/L1, /Ac/L2, /Ac/L3. */
  datatype Field = Power | Current | Voltage | Frequency | PowerFactor | EnergyForward | EnergyUsed

  datatype Path =
    | Mgmt(mgmt: MgmtItem)              // /Mgmt/<item>
    | Device(device: DeviceItem)        // /<item>
    | Position                          // /Position
    | StatusCode                        // /StatusCode
    | UpdateIndex                       // /UpdateIndex
    | AcMaxPower                        // /Ac/MaxPower
    | AcPosition                        // /Ac/Position
    | AcStatusCode                      // /Ac/StatusCode
    | Ac(field: Field)                  // /Ac/<field>
    | Phase(line: Line, phaseField: Field)  // /Ac/L<n>/<field>

  /** The path store of one published service. */
  type Store = map<Path, Value>

  /** The paths the service object registers itself; they are not writable from outside. */
  predicate IsFixed(p: Path) {
    p.Mgmt? || p.Device? || p == Position || p == StatusCode
  }

  /** The readings the aggregate view publishes. */
  predicate IsAggregateField(f: Field) {
    f == Power || f == Current || f == Voltage || f == EnergyForward
  }

  /**
   * The eleven paths one update cycle publishes readings on: four
   * aggregate paths and all seven phase-1 paths.
   */
  predicate IsElectrical(p: Path) {
    (p.Ac? && IsAggregateField(p.field)) || (p.Phase? && p.line == L1)
  }

  /** Every path an update cycle reads or writes. */
  predicate IsCyclePath(p: Path) {
    IsElectrical(p) || p == StatusCode || p == UpdateIndex
  }

  /** The store holds every path an update cycle reads or writes. */
  ghost predicate HoldsCyclePaths(s: Store) {
    forall p | IsCyclePath(p) :: p in s
  }

  /** A path table: the initial value of each path it registers. */
  type Table = map<Path, Value>

  /**
   * What the service is told about itself when it is created: the script's
   * file name and the Python version stand for what the running process
   * reports, the rest are constructor arguments.
   */
  datatype Setup = Setup(processName: string, pythonVersion: string, connection: string,
                         deviceInstance: int, productName: string, customName: string,
                         position: int)

  /**
   * The arguments the entry point passes: the product name and the
   * connection keep the constructor's defaults, the custom name is the
   * configured device name, and /Position is the configured inverter
   * position.
   */
  function MainSetup(processName: string, pythonVersion: string, deviceInstance: int,
                     deviceName: string, inverterPosition: int): Setup
  {
    Setup(processName, pythonVersion, "SDM120 PV service", deviceInstance, "SDM120 PV", deviceName,
          inverterPosition)
  }

  /** The value the constructor registers on each of its own paths. */
  function FixedValue(setup: Setup, p: Path): Value {
    match p
    case Mgmt(ProcessName) => Str(setup.processName)
    case Mgmt(ProcessVersion) => Str("Unknown version, and running on Python " + setup.pythonVersion)
    case Mgmt(Connection) => Str(setup.connection)
    case Device(DeviceInstance) => Int(setup.deviceInstance)
    case Device(ProductId) => Int(0xFFFF)
    case Device(ProductName) => Str(setup.productName)
    case Device(CustomName) => Str(setup.customName)
    case Device(FirmwareVersion) => Str("0.1")
    case Device(Connected) => Int(1)
    case Device(Latency) => Null
    case Device(ErrorCode) => Int(0)
    case Position => Int(setup.position)
    case StatusCode => Int(0)
    case _ => Null
  }

  /** The management and identity paths with the values the constructor gives them. */
  function FixedStore(setup: Setup): (s: Store)
    ensures forall p :: p in s <==> IsFixed(p)
  {
    var paths := (set m: MgmtItem :: Mgmt(m)) + (set d: DeviceItem :: Device(d)) + {Position, StatusCode};
    map p | p in paths :: FixedValue(setup, p)
  }

  /** The paths of the program's entry-point table. */
  predicate InMainTable(p: Path) {
    match p
    case UpdateIndex | AcMaxPower | AcPosition | AcStatusCode => true
    case Ac(f) => IsAggregateField(f)
    case Phase(L1, _) => true
    case Phase(_, f) => f != PowerFactor && f != EnergyUsed
    case _ => false
  }

  /** The initial value the entry-point table gives each of its paths. */
  function MainTableValue(maxPower: int, inverterPosition: int, p: Path): Value {
    match p
    case Ac(Power) | Ac(Current) | Ac(Voltage) | AcStatusCode | UpdateIndex => Int(0)
    case AcMaxPower => Int(maxPower)
    case AcPosition => Int(inverterPosition)
    case _ => Null
  }

  /**
   * The path table of the program's entry point; `maxPower` and
   * `inverterPosition` come from its configuration file. None of its paths
   * is one the service registers itself, and together with those it holds
   * every path an update cycle writes.
   */
  function MainTable(maxPower: int, inverterPosition: int): (t: Table)
    ensures forall p :: p in t <==> InMainTable(p)
    ensures forall p | p in t :: !IsFixed(p)
    ensures forall p | IsCyclePath(p) :: p in t || IsFixed(p)
  {
    var paths := {UpdateIndex, AcMaxPower, AcPosition, AcStatusCode, Ac(Power), Ac(Current), Ac(Voltage), Ac(EnergyForward)}
      + (set l: Line, f: Field | InMainTable(Phase(l, f)) :: Phase(l, f));
    map p | p in paths :: MainTableValue(maxPower, inverterPosition, p)
  }

  /** The store the program starts with: the fixed paths, then the entry-point table. */
  function MainStore(setup: Setup, maxPower: int, inverterPosition: int): (s: Store)
    ensures HoldsCyclePaths(s)
    ensures forall p :: p in s <==> IsFixed(p) || InMainTable(p)
    ensures forall p | IsFixed(p) :: p in s && s[p] == FixedValue(setup, p)
    ensures forall p | p in s && !IsFixed(p) :: s[p] == MainTableValue(maxPower, inverterPosition, p)
  {
    FixedStore(setup) + MainTable(maxPower, inverterPosition)
  }

  /**
   * At start the update counter and both status codes are 0, and the
   * configured maximum power and position are in place.
   */
  lemma MainStoreInitialSettings(setup: Setup, maxPower: int, inverterPosition: int)
    ensures var s := MainStore(setup, maxPower, inverterPosition);
      && s[UpdateIndex] == Int(0) && s[StatusCode] == Int(0) && s[AcStatusCode] == Int(0)
      && s[AcMaxPower] == Int(maxPower) && s[AcPosition] == Int(inverterPosition)
  {
  }

  /** At start the aggregate power, current and voltage are 0 and the aggregate energy is absent. */
  lemma MainStoreInitialReadings(setup: Setup, maxPower: int, inverterPosition: int)
    ensures var s := MainStore(setup, maxPower, inverterPosition);
      && s[Ac(Power)] == Int(0) && s[Ac(Current)] == Int(0) && s[Ac(Voltage)] == Int(0)
      && s[Ac(EnergyForward)] == Null
  {
  }

  /** At start every phase-1 reading is absent. */
  lemma MainStorePhaseOneAbsent(setup: Setup, maxPower: int, inverterPosition: int)
    ensures var s := MainStore(setup, maxPower, inverterPosition);
      forall f :: Phase(L1, f) in s && s[Phase(L1, f)] == Null
  {
    var s := MainStore(setup, maxPower, inverterPosition);
    forall f ensures Phase(L1, f) in s && s[Phase(L1, f)] == Null {
      assert InMainTable(Phase(L1, f));
    }
  }

  /** The entry point starts /Position and /Ac/Position at the same configured inverter position. */
  lemma MainPositionsAgree(processName: string, pythonVersion: string, deviceInstance: int,
                           deviceName: string, maxPower: int, inverterPosition: int)
    ensures var s := MainStore(MainSetup(processName, pythonVersion, deviceInstance, deviceName, inverterPosition),
                               maxPower, inverterPosition);
      s[Position] == s[AcPosition] == Int(inverterPosition)
  {
    MainStoreInitialSettings(MainSetup(processName, pythonVersion, deviceInstance, deviceName, inverterPosition),
                             maxPower, inverterPosition);
  }
}
