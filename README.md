# SDM120 PV-inverter service — a Dafny model

The modelled program is a small Venus OS driver. It reads an Eastron SDM120
energy meter over Modbus RTU once a second. It publishes the readings as a
PV inverter on the D-Bus service `com.victronenergy.pvinverter.*`.

The model covers the service object `DbusSdm120PvService` from
`sdm120pv.py`:

- the paths the constructor registers, and the path table the entry point
  hands to it;
- the once-a-second update cycle `_update`: eight meter reads in one `try`
  block, eleven published readings, the status code (7 running, 8 standby)
  and the wrapping update counter;
- the change hook `_handlechangedvalue`, and writes from other D-Bus
  clients to the writable paths.

The values on the paths are dynamically typed Python values (`Values.Value`:
None, int, float, str). The Python operators the cycle applies to them are
spelt out, including the TypeErrors they raise on None or on a string.

The modules follow the structure of the program:

- `Values`: path values, Python's `>=` / `==` against an int, and
  `round(x, 2)`.
- `Paths`: the path tree, the constructor's own paths, the entry-point
  table and the initial store.
- `Meter`: the eight reads, in order, stopping at the first read that
  raises, and the meter offset.
- `UpdateCycle`: one cycle, as a function of the store before it and of
  the readings.
- `Runs`: a sequence of timer ticks and outside writes.
- `Service`: the class with its store, its writable paths, the
  constructor, `Update`, `HandleChangedValue` and the outside write.

`Service.DbusSdm120PvService.Update` is proved equal to
`UpdateCycle.Cycle` applied to the meter's readings. The properties of a
cycle are stated as lemmas about `Cycle`.

## Model

| member | source | states |
|---|---|---|
| Values.AtLeast | sdm120pv.py:143 | `v >= 10`: a number compares by value; None and str give no answer, because Python raises TypeError |
| Values.EqualsInt | sdm120pv.py:144-148 | `!= 7` / `!= 8` are numeric comparisons: a stored value equals the code exactly when it is that int or the same float, and never when it is None or a str |
| Values.Round2 | sdm120pv.py:127-138 | `round(x, 2)` is within half a hundredth of `x` and is a whole number of hundredths |
| Values.Round2Idempotent | sdm120pv.py:127-138 | rounding an already rounded reading changes nothing |
| Paths.FixedStore | sdm120pv.py:71-87 | the constructor registers exactly the three management paths, the eight identity paths, /Position and /StatusCode |
| Paths.MainTable | sdm120pv.py:182-218 | the entry-point table holds exactly its 25 paths: L1 has all seven readings, L2 and L3 lack power factor and used energy. None of them is a constructor path, and together with those they cover every path a cycle touches |
| Paths.MainStore | sdm120pv.py:71-96 | the initial store: its paths are the constructor's plus the table's; constructor paths hold the constructor values and table paths hold the table's initial values |
| Paths.MainStoreInitialSettings | sdm120pv.py:182-191 | at start /UpdateIndex, /StatusCode and /Ac/StatusCode are 0; /Ac/MaxPower and /Ac/Position hold the configured values |
| Paths.MainStoreInitialReadings | sdm120pv.py:183-186 | at start aggregate power, current and voltage are 0 and the aggregate forward energy is None |
| Paths.MainStorePhaseOneAbsent | sdm120pv.py:194-202 | at start every phase-1 reading is None |
| Paths.MainPositionsAgree | sdm120pv.py:220-229 | the entry point passes the inverter position to the constructor, so /Position and /Ac/Position start equal |
| Meter.Rank | sdm120pv.py:111-118 | every quantity has a place in the read order: voltage, current, power, power factor, frequency, import, export, total |
| Meter.SucceededBeforeEach | sdm120pv.py:110-118 | the first k reads all succeed exactly when each of them returns a value |
| Meter.AcquiredAsWritten | sdm120pv.py:110-125 | the locals as the code leaves them: each quantity holds what its read returned exactly when its own read and every earlier read returned, and None otherwise; the offset statement raises and changes nothing |
| Meter.Acquired | sdm120pv.py:110-120 | the corrected locals: every quantity other than the import energy is as the code leaves it; the import energy is present in the same cases; it is the raw reading plus the offset when all eight reads returned, and the raw value otherwise |
| Meter.ReadMeter | sdm120pv.py:101-125 | the locals after the `try` block are the corrected readings `Meter.Acquired` |
| Meter.PresentIffReadsSucceeded | sdm120pv.py:110-118 | a quantity is not None exactly when its own read and every earlier read returned |
| Meter.PresentFormPrefix | sdm120pv.py:110-118 | the quantities that are present form a prefix of the read order |
| Meter.FirstFailureAbortsRest | sdm120pv.py:110-121 | a read that raises leaves its own quantity and every later one None |
| Meter.PresentReadingsAreMeterValues | sdm120pv.py:111-118 | every present quantity other than import energy is the meter's value |
| Meter.OffsetOnlyOnImport | sdm120pv.py:120 | the offset changes only the import energy, and only when all eight reads returned |
| Meter.OffsetDroppedAsWritten | sdm120pv.py:120-125 | when all eight reads return, the import-energy local is the raw reading as written and the reading plus the offset when corrected; the two locals differ whenever the offset is not 0 |
| UpdateCycle.Published | sdm120pv.py:127-138 | a reading is written as None exactly when it is absent, otherwise as its two-decimal rounding |
| UpdateCycle.NextIndex | sdm120pv.py:152-154 | `+ 1` fails exactly on a value that is not a number; a counter n in 0..255 becomes (n + 1) mod 256; any result is 0 or below 256 |
| UpdateCycle.WriteElectrical | sdm120pv.py:127-138 | the eleven writes add no path and change no path outside the eleven; an electrical path becomes None exactly when its reading is absent; each aggregate path gets the same value as its phase-1 twin |
| UpdateCycle.Conclude | sdm120pv.py:142-156 | the status and counter statements change only /StatusCode and /UpdateIndex; they raise at the power comparison exactly when the stored power is not a number, and then change nothing; they complete exactly when the stored power and the counter are both numbers; once the power compares, the stored status equals 7 or 8 as the comparison says |
| UpdateCycle.Cycle | sdm120pv.py:126-156 | a cycle neither adds nor removes a path |
| UpdateCycle.CycleWritesElectrical | sdm120pv.py:127-138 | whatever happens later in the cycle, each of the eleven electrical paths holds its published reading |
| UpdateCycle.CyclePublishesSnapshot | sdm120pv.py:127-138 | each aggregate path and its phase-1 twin carry the same reading; frequency, power factor and export energy appear only on phase 1, export energy as /Ac/L1/Energy/Used |
| UpdateCycle.CycleFrame | sdm120pv.py:126-156 | a cycle writes only the eleven electrical paths, /StatusCode and /UpdateIndex |
| UpdateCycle.TotalEnergyUnpublished | sdm120pv.py:118 | the total energy has no effect on a cycle |
| UpdateCycle.AbortedCycleKeepsStatusAndIndex | sdm120pv.py:140 | without power factor, voltage or current the cycle raises at the debug line; /StatusCode and /UpdateIndex keep their values |
| UpdateCycle.StatusFollowsStoredPower | sdm120pv.py:142-149 | the status is 7 exactly when the rounded, stored power is at least 10 W and 8 exactly when it is below; it is left alone when it already holds the right code |
| UpdateCycle.IndexWrapsAt256 | sdm120pv.py:151-155 | after the status step the cycle completes exactly when the stored counter is a number; a counter in 0..255 moves to its successor mod 256 |
| UpdateCycle.RepeatedCycleChangesOnlyIndex | sdm120pv.py:142-155 | a second cycle with the same readings changes nothing but the counter, so the status code is not written again |
| UpdateCycle.RoundedPowerDecidesStatus | sdm120pv.py:143 | the threshold applies to the rounded power: 9.996 W is stored as 10.0 and reads as running |
| UpdateCycle.MeterCycleOutcome | sdm120pv.py:101-156 | on the meter's readings a cycle raises at the debug line exactly when one of the first four reads failed, never at the power comparison, and completes exactly when the first four reads succeeded and the counter is a number |
| UpdateCycle.CycleAdvancesIndex | sdm120pv.py:140-155 | whatever the readings, a counter n in 0..255 ends at (n + 1) mod 256 when the cycle completes and stays n when it raises |
| UpdateCycle.PublishedImportAsWritten | sdm120pv.py:120-130 | when all eight reads return, /Ac/Energy/Forward holds round(raw, 2) as written and round(raw + offset, 2) when corrected; an offset below half a hundredth can vanish in the rounding |
| UpdateCycle.OffsetLostOnSteadyMeter | sdm120pv.py:120-130 | every read returning 100.0 with an offset of 0.5: as written /Ac/Energy/Forward becomes 100.0, corrected 100.5 |
| Runs.ExternalChange | sdm120pv.py:89-96 | an outside write sets a writable path and leaves the store alone otherwise; it never adds a path |
| Runs.Run | sdm120pv.py:98 | a run of ticks and outside writes keeps the set of paths, and counts at most one completed cycle per event |
| Runs.AdvancedIsModulo | sdm120pv.py:152-154 | stepping the counter k times from n in 0..255 gives (n + k) mod 256 |
| Runs.RunCountsCompletedCycles | sdm120pv.py:151-155 | when no outside write touches /UpdateIndex, the counter advances once per completed cycle and never for a cycle that raises |
| Runs.RunKeepsReadOnlyPaths | sdm120pv.py:71-96 | a path that no cycle writes and that is not writable keeps its value through any run |
| Runs.RunFromZero | sdm120pv.py:151-155 | from a counter of 0, the counter is the number of completed cycles mod 256, and the fixed paths other than /StatusCode keep their values |
| Runs.MainRun | sdm120pv.py:182-234 | from the program's initial store, /UpdateIndex counts completed cycles mod 256, and every management and identity path and /Position keeps the value the constructor gave it |
| Service.DbusSdm120PvService.constructor | sdm120pv.py:71-96 | the store is the constructor's paths plus the table; exactly the table's paths are writable; the service is ready for cycles when the table covers the cycle paths |
| Service.AddTable | sdm120pv.py:89-96 | the loop over the table adds every entry with its initial value and registers exactly the table's paths as writable |
| Service.DbusSdm120PvService.Update | sdm120pv.py:100-156 | one timer tick is `UpdateCycle.Cycle` on the old store and the meter's corrected readings, outcome included, and the store stays fit for the next cycle |
| Service.DbusSdm120PvService.Conclude | sdm120pv.py:142-156 | the status and counter statements are `UpdateCycle.Conclude` on the store after publishing |
| Service.DbusSdm120PvService.HandleChangedValue | sdm120pv.py:158-160 | every change is accepted |
| Service.DbusSdm120PvService.SetFromOutside | sdm120pv.py:89-96 | an outside write is accepted exactly on a writable path, and the store becomes `Runs.ExternalChange` of the old one |
| Service.StartService | sdm120pv.py:182-230 | the entry point's service starts from `Paths.MainStore`, with exactly the table's paths writable, and is ready for cycles |

## Left out

- The Modbus RTU transport is not modelled: serial settings, slave address 1, function code 4 and the two-register IEEE-754 decoding. A read is a value or a failure (`Meter.Bus`), and each quantity's register address is recorded in `Meter.Address`.
- D-Bus, GLib and `vedbus` are not part of this model. The service is a path store plus a set of writable paths. Text formatters, the bus name built from the device instance, and the `servicename` and `serial_port` parameters are omitted.
- The GLib timer is not modelled. `Runs.Run` is a sequence of ticks that ends at the first cycle that raises, because a callback that raises ends its timer. The one-second period is not modelled, and neither are the outside writes D-Bus still accepts after the timer has stopped.
- Reading `config.ini` is not modelled. Its values are parameters (device instance, device name, maximum power, inverter position, meter offset).
- `__file__` and `platform.python_version()` are parameters in `Paths.Setup`.
- Logging, the traceback `print` in the `except` block and the debug line's output are not modelled. Only the TypeError the debug line raises on None is kept.
- Floating point is not modelled: readings are exact reals, and `round(x, 2)` is round-half-even on exact hundredths. Binary rounding artefacts of Python floats are not captured.
- `Values.Value` holds None, int, float and str only. The other values D-Bus can carry are not modelled: bool, byte strings, arrays and dictionaries. An outside client writing one of them to a writable path, /UpdateIndex included, falls outside the model.
- Service.DbusSdm120PvService.Update: the eleven assignments of lines 127-138 are one store update (`UpdateCycle.WriteElectrical`). They write distinct paths and read nothing in between, so their order is not observable in the model.
- Service.DbusSdm120PvService.constructor: when a table names a path the constructor already registered, what `vedbus` does is not part of this model. The model lets the table's entry replace it. The entry point's table never does this (`Paths.MainTable`).
- /Ac/L1/Frequency is published rounded to two decimals, as the code does. Only its text formatter shows four.

## Findings

| source | as written | input that shows it | evidently intended | confidence | as-written member | corrected member |
|---|---|---|---|---|---|---|
| sdm120pv.py:120 | `i = i + offset` names `offset`, which is a constructor parameter and never stored. In `_update` it is unbound, so the statement raises NameError. `except Exception` swallows it, and the import energy is published without the offset | every read returns 100.0 and `meter_offset` is 0.5: /Ac/Energy/Forward becomes 100.0 | the configured offset is added to the import energy (100.5), e.g. kept as `self._offset` in the constructor | not executed | Meter.AcquiredAsWritten, shown by UpdateCycle.OffsetLostOnSteadyMeter and UpdateCycle.PublishedImportAsWritten | Meter.Acquired, with Meter.OffsetOnlyOnImport; used by Service.DbusSdm120PvService.Update |
