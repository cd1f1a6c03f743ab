# LiTime BLE status parser, modelled in Dafny

This project models how the LiTime Bluetooth battery driver of
dbus-serialbattery handles one reply to its status query. The driver is the
`LiTime_Ble` class in `etc/dbus-serialbattery/bms/litime.py`, and the method
is `parse_status`. It also models the three naming functions of that class.

A status reply is a byte buffer. `parse_status` does the following:
- It unpacks fields at fixed offsets (little-endian, as on the target host).
- It walks the sixteen cell-voltage slots and writes each non-zero slot into
  the driver's cell list, together with that cell's bit of the balancing mask.
- It sets the pack values.
- It runs a current estimator. The estimator derives a current from how fast
  the reported remaining capacity changes. It publishes that derived current
  or the mean of the last five raw readings.
- Last, it sets the temperatures, the FET flags, the remaining capacity and
  two lifetime counters.

The project has five modules:

- `Bytes` reads the unsigned and signed 16- and 32-bit little-endian fields
  that Python's `struct.unpack_from` reads with the codes `H`, `I`, `h` and
  `i`. It also holds the encoders used to build buffers.
- `StatusLayout` holds the reply record `StatusFrame` and `Decode`. `Decode`
  fails with the `struct.error` of the first unpack that runs out of bytes.
  An encoder lays the fields out back to back, and round-trip lemmas show
  that the driver's offsets form that gap-free layout.
- `CellCompaction` defines which slots become cells (`LiveCells`) and the
  balancing bit of each cell (`Balancing`).
- `CurrentEstimator` is the estimator as a pure state machine. `Step` is one
  poll, and `Run` is many polls that stop at the first one that raises.
- `LiTime` holds the driver object, the class `LiTimeBle`. Its fields are
  the driver's attributes. `ParseStatus` and its helper methods update those
  fields in place, statement by statement, as the Python method does. Each
  method is proved against the specification functions above.

## Model

| member | source | states |
|---|---|---|
| Bytes.U16At | etc/dbus-serialbattery/bms/litime.py:186 | an unsigned 16-bit field read is below 2^16 |
| Bytes.U32At | etc/dbus-serialbattery/bms/litime.py:176 | an unsigned 32-bit field read is below 2^32 |
| Bytes.I16At | etc/dbus-serialbattery/bms/litime.py:206 | a signed 16-bit field lies in [-2^15, 2^15) and is negative exactly when the high byte has its top bit set |
| Bytes.I32At | etc/dbus-serialbattery/bms/litime.py:206 | a signed 32-bit field lies in [-2^31, 2^31) and is negative exactly when the last byte has its top bit set |
| StatusLayout.CellSlots | etc/dbus-serialbattery/bms/litime.py:185-186 | helper, the comprehension unfolded: there are exactly sixteen slots, and slot k is the u16 at offset 16 + 2k |
| StatusLayout.Decode | etc/dbus-serialbattery/bms/litime.py:176-206 | decoding fails exactly when the buffer is shorter than 104 bytes; the error names 16 bytes for a buffer that cannot hold the first unpack and 104 bytes otherwise; every decoded field fits its wire width |
| StatusLayout.DecodeEncode | etc/dbus-serialbattery/bms/litime.py:176-206 | any record whose fields fit their widths encodes to 104 bytes and decodes back to itself |
| StatusLayout.EncodeDecode | etc/dbus-serialbattery/bms/litime.py:176-206 | any buffer of at least 104 bytes decodes, and re-encoding gives back its bytes 8..104, so the fields read cover that range with no gap and no overlap |
| CellCompaction.LiveCellsExtend | etc/dbus-serialbattery/bms/litime.py:185-194 | helper for the loop proof, `LiveCells` unfolded once: scanning one more slot appends that slot's voltage when it is non-zero and nothing otherwise |
| CellCompaction.LiveCells | etc/dbus-serialbattery/bms/litime.py:185-196 | definition: the voltages of the cells present, that is the non-zero slots in slot order; never more cells than slots; characterised by `LiveCellsCount`, `LiveCellsEmpty` and `SlotOrder` |
| CellCompaction.LiveCellsNonZero | etc/dbus-serialbattery/bms/litime.py:187 | every cell present has a non-zero voltage |
| CellCompaction.LiveCellsCount | etc/dbus-serialbattery/bms/litime.py:183-196 | the cell count is the number of non-zero slots, and the cells carry exactly the non-zero slot values with their multiplicities |
| CellCompaction.LiveCellsEmpty | etc/dbus-serialbattery/bms/litime.py:183-196 | there are no cells exactly when every slot is zero |
| CellCompaction.LiveCellsPrefix | etc/dbus-serialbattery/bms/litime.py:185-194 | the cells found in the first k slots are a prefix of all the cells |
| CellCompaction.SlotOrder | etc/dbus-serialbattery/bms/litime.py:185-194 | a non-zero slot j becomes the cell whose number is the count of non-zero slots before j, so the cells keep slot order |
| CellCompaction.Balancing | etc/dbus-serialbattery/bms/litime.py:192 | definition: the balancing flag of cell i, read by shifting the mask right i times and testing the low bit; `BalancingBit` proves it equals the source's `mask & pow(2, i) != 0` |
| CellCompaction.BalancingBit | etc/dbus-serialbattery/bms/litime.py:192 | cell i is balancing exactly when binary digit i of the mask, (mask / 2^i) % 2, is 1, as `mask & pow(2, i) != 0` tests |
| CellCompaction.BalancingNeedsMask | etc/dbus-serialbattery/bms/litime.py:192 | a cell can only be balancing when the mask is non-zero, so the pack's balance flag (lines 228-231) is set whenever some cell is balancing |
| CurrentEstimator.Trunc | etc/dbus-serialbattery/bms/litime.py:246 | Python's `int()` of a float rounds toward zero |
| CurrentEstimator.Recent | etc/dbus-serialbattery/bms/litime.py:262-264 | definition: the last five elements of a sequence, or all of them when there are fewer; `Push` and `RunWindow` state the window in its terms |
| CurrentEstimator.Mean | etc/dbus-serialbattery/bms/litime.py:266 | definition: the sum of the window divided by its length; `MeanBounds` and `MeanOfSteady` state its properties |
| CurrentEstimator.Push | etc/dbus-serialbattery/bms/litime.py:262-264 | the new reading ends the window, and a window of at most five stays at most five and holds the last five readings |
| CurrentEstimator.MeanBounds | etc/dbus-serialbattery/bms/litime.py:266 | the rolling mean lies between the smallest and the largest reading in the window |
| CurrentEstimator.Published | etc/dbus-serialbattery/bms/litime.py:270-284 | the value published is either the derived current or the rolling mean, chosen by the elif chain; `PublishedChoice` states which |
| CurrentEstimator.Rebase | etc/dbus-serialbattery/bms/litime.py:240-244 | definition: with no stored capacity, the reading and the time become the baseline and the published current is reset to 0; `StepBaseline` states the outcome |
| CurrentEstimator.Record | etc/dbus-serialbattery/bms/litime.py:247-258 | definition: a changed reading is stored with its time, and the flag goes to 1 or the current is derived from the change and the flag goes to 2; `StepInitiation` and `StepDerivedCurrent` state its properties |
| CurrentEstimator.Publish | etc/dbus-serialbattery/bms/litime.py:262-284 | definition: push the raw reading into the window, then publish the value `Published` chooses; `StepWindow` and `StepPublished` state its properties |
| CurrentEstimator.Step | etc/dbus-serialbattery/bms/litime.py:238-284 | one poll of the estimator; after it, whether it completes or raises, the stored capacity is the new reading, and a completed poll stores either the new time or keeps the old one |
| CurrentEstimator.PublishedChoice | etc/dbus-serialbattery/bms/litime.py:270-284 | the published value is the derived current exactly when it is fresh (at most 120 s), ready (flag 2), and either confirmed recently (at most 5 s) or within 3 A of the current published before; otherwise it is the rolling mean |
| CurrentEstimator.StepStages | etc/dbus-serialbattery/bms/litime.py:240-284 | helper for `EstimateCurrent`, `Step` unfolded once: a poll that does not raise sets the baseline, then records the change, then publishes, with the elapsed seconds taken after the baseline |
| CurrentEstimator.StepRaises | etc/dbus-serialbattery/bms/litime.py:247-256 | a poll raises ZeroDivisionError exactly when a capacity change arrives after the first change, at the same instant as the stored one; the stored capacity and time are then already updated and nothing else is |
| CurrentEstimator.StepTotalWhenTimeAdvances | etc/dbus-serialbattery/bms/litime.py:246-256 | a clock past the stored time never makes the poll raise |
| CurrentEstimator.StepBaseline | etc/dbus-serialbattery/bms/litime.py:240-244 | with no baseline the reading and the time become the baseline; the flag and the derived current keep their values; the mean is published unless the flag is already 2 |
| CurrentEstimator.StepInitiation | etc/dbus-serialbattery/bms/litime.py:253-258 | the flag goes from 0 to 1 on the first capacity change and to 2 on every later one, stays put otherwise, never decreases and stays in 0..2 |
| CurrentEstimator.StepDerivedCurrent | etc/dbus-serialbattery/bms/litime.py:249-256 | the derived current changes only on a change after the first one, and then it times the hours elapsed equals the change in amp-hours |
| CurrentEstimator.StepWindow | etc/dbus-serialbattery/bms/litime.py:262-264 | after a poll the window holds the last one to five raw readings, the new one last |
| CurrentEstimator.StepPublished | etc/dbus-serialbattery/bms/litime.py:270-284 | the published current is the derived one exactly when it is trusted and the rolling mean otherwise; a derived current older than 120 s is never published |
| CurrentEstimator.RunValid | etc/dbus-serialbattery/bms/litime.py:238-284 | over any run of polls the flag stays in 0..2 and never decreases, and the window never holds more than five readings |
| CurrentEstimator.RunWindow | etc/dbus-serialbattery/bms/litime.py:262-264 | over any run the window is the last five raw readings in arrival order |
| CurrentEstimator.RunFirst | etc/dbus-serialbattery/bms/litime.py:238-284 | a completed run is its first poll followed by the rest; that poll keeps the ranges and pushes its reading |
| CurrentEstimator.RecentAfterPush | etc/dbus-serialbattery/bms/litime.py:262-264 | pushing one reading and then a batch leaves the same last five as pushing them all at once |
| CurrentEstimator.RecentOfAppend | etc/dbus-serialbattery/bms/litime.py:262-264 | trimming the window to five before appending more readings does not change the last five |
| CurrentEstimator.RunNeverRaises | etc/dbus-serialbattery/bms/litime.py:246-256 | with a strictly advancing clock no poll of a run raises |
| CurrentEstimator.RunPublishesMeanUntilReady | etc/dbus-serialbattery/bms/litime.py:274-276 | until the flag reaches 2, every poll publishes the rolling mean |
| CurrentEstimator.RunSteadyCapacity | etc/dbus-serialbattery/bms/litime.py:247-258 | while the capacity reading stays at the baseline, the flag does not move |
| CurrentEstimator.MeanOfSteady | etc/dbus-serialbattery/bms/litime.py:266 | a window of equal readings averages to that reading |
| CurrentEstimator.RawsExample | etc/dbus-serialbattery/bms/litime.py:262-264 | six readings 1..6 leave 2..6 as the last five |
| CurrentEstimator.MeanExample | etc/dbus-serialbattery/bms/litime.py:266 | the mean of 2, 3, 4, 5 and 6 is 4 |
| CurrentEstimator.RollingMeanExample | etc/dbus-serialbattery/bms/litime.py:262-276 | raw currents 1..6 A at a steady 50 Ah, ten seconds apart, leave 2..6 in the window and publish 4 A |
| CurrentEstimator.CapacityScenarioFirst | etc/dbus-serialbattery/bms/litime.py:240-276 | the first poll sets the baseline and publishes the mean of its one reading |
| CurrentEstimator.CapacityScenarioSecond | etc/dbus-serialbattery/bms/litime.py:247-276 | an unchanged capacity keeps the flag at 0 and publishes the mean |
| CurrentEstimator.CapacityScenarioThird | etc/dbus-serialbattery/bms/litime.py:247-276 | the first change records 49 Ah at 10 s, sets the flag to 1 and derives nothing yet |
| CurrentEstimator.CapacityScenarioFourth | etc/dbus-serialbattery/bms/litime.py:247-282 | the second change derives -60 A (1 Ah in a minute); because that is more than 3 A from the published -1 A and 60 s have passed, the mean is published |
| LiTime.StoredCells | etc/dbus-serialbattery/bms/litime.py:185-194 | each poll adds exactly one cell to the list per cell present |
| LiTime.StoredCellsContents | etc/dbus-serialbattery/bms/litime.py:185-194 | after the cell loop, cell i is the i-th present cell with its voltage and balancing bit; older cells beyond keep their contents, and appended cells beyond stay blank |
| LiTime.StoredCellsStep | etc/dbus-serialbattery/bms/litime.py:188-194 | helper for the loop proof, `StoredCells` unfolded once: one more present cell is one blank cell appended, then cell number nr overwritten |
| LiTime.StoredCellsSlot | etc/dbus-serialbattery/bms/litime.py:185-194 | a zero slot leaves the cells as they are; a non-zero slot is one more present cell, stored as the loop body stores it |
| LiTime.StoredCellsFirstPoll | etc/dbus-serialbattery/bms/litime.py:185-194 | on the first poll the list is exactly the present cells in slot order |
| LiTime.StoredCellsRepoll | etc/dbus-serialbattery/bms/litime.py:185-194 | a later poll rewrites the leading cells, keeps the old cells after them, and leaves one more batch of blank cells at the end |
| LiTime.Volts | etc/dbus-serialbattery/bms/litime.py:190 | definition: millivolts to volts (also line 177), an exact division by 1000 |
| LiTime.Amps | etc/dbus-serialbattery/bms/litime.py:208 | definition: milliamperes to amperes, an exact division by 1000 |
| LiTime.AmpHours | etc/dbus-serialbattery/bms/litime.py:210-211 | definition: centi-amp-hours to amp-hours, an exact division by 100 |
| LiTime.PackOf | etc/dbus-serialbattery/bms/litime.py:196-231 | definition: the pack values a reply sets: cell count, the per-cell limits times the cell count, full-charge capacity, total voltage, state of charge, and a balance flag that is on exactly when the mask is non-zero; `StorePack` is proved to set them |
| LiTime.HistoryOf | etc/dbus-serialbattery/bms/litime.py:291-315 | definition: the values a reply sets after the estimator: the raw temperatures on channels 1, 2 and 0, charging off exactly in battery state 4, discharging on, the remaining capacity and both lifetime counters; `StoreHistory` is proved to set them |
| LiTime.ValidAfterStep | etc/dbus-serialbattery/bms/litime.py:238-284 | a poll that completes or raises keeps the estimator fields in range |
| LiTime.LiTimeBle.constructor | etc/dbus-serialbattery/bms/litime.py:21-47 | a new driver has the given address, type "Litime", a 2000 ms poll interval, no cells, and the class-default estimator fields (lines 43-47); the published current starts at 0.0, a value the model chooses because it comes from the `Battery` base class, and the first poll resets it to 0 anyway (line 241) |
| LiTime.LiTimeBle.UniqueIdentifier | etc/dbus-serialbattery/bms/litime.py:156-166 | definition: the identifier is the BLE address (line 166) |
| LiTime.LiTimeBle.ConnectionName | etc/dbus-serialbattery/bms/litime.py:168-169 | definition: the name is "BLE " followed by the whole address |
| LiTime.LiTimeBle.CustomName | etc/dbus-serialbattery/bms/litime.py:171-172 | the name is "Bat: Litime " followed by the last five characters of the address, or all of it when it is shorter |
| LiTime.LiTimeBle.StoreCells | etc/dbus-serialbattery/bms/litime.py:183-194 | the loop returns the number of non-zero slots and leaves the cell list that `StoredCells` describes |
| LiTime.LiTimeBle.EstimateCurrent | etc/dbus-serialbattery/bms/litime.py:238-284 | the estimator fields end as one `Step` leaves them, and the method reports a raise exactly when `Step` raises |
| LiTime.LiTimeBle.StorePack | etc/dbus-serialbattery/bms/litime.py:196-231 | sets the cell count, the count-scaled voltage limits, the capacity, the voltage and the state of charge; the balance flag is set exactly when the mask is non-zero |
| LiTime.LiTimeBle.StoreHistory | etc/dbus-serialbattery/bms/litime.py:291-315 | sets the raw temperatures (cell, unknown, MOSFET) and the remaining capacity; charging is off exactly in battery state 4; discharging is always on; sets both lifetime counters |
| LiTime.LiTimeBle.StoreReadings | etc/dbus-serialbattery/bms/litime.py:183-231 | the cell loop, then the pack values, for the cells present |
| LiTime.LiTimeBle.StoreEstimate | etc/dbus-serialbattery/bms/litime.py:238-315 | one estimator step; on completion the reply's remaining values and the outcome Parsed; on ZeroDivisionError the later values stay unchanged |
| LiTime.LiTimeBle.StoreStatus | etc/dbus-serialbattery/bms/litime.py:183-315 | a decoded reply always updates the cells and the pack values, then runs the estimator; the later values are written only when the estimator completes; the estimator ranges are kept |
| LiTime.LiTimeBle.ParseStatus | etc/dbus-serialbattery/bms/litime.py:174-315 | a reply shorter than 104 bytes raises `struct.error` and changes nothing; a longer one is stored as `StoreStatus` states |

## Left out

- The Bluetooth connection, its background thread, the request/notification
  hand-off and `send_com` (lines 50-154) are I/O. The reply buffer is a
  parameter of `ParseStatus`.
- The charge log appended to `/data/charge_log.txt` (lines 233-236), the
  `cellv_str` text it includes, and the logger calls are output and are not
  modelled. Opening or writing the log file can also raise. That happens
  after the cells and the pack values are written and before the estimator
  runs, so those fields would stay half updated. The model does not include
  that error path.
- The format strings of `struct.unpack_from` have no byte-order prefix, so
  Python reads the fields in the host's native order and alignment. The
  model fixes a little-endian host with native alignment. That is why the
  block `IIIIIHHIII` at 68 ends at byte 104. A big-endian host is not
  modelled.
- `time.time()` is called up to three times in one poll (lines 243, 246 and
  248). The model takes one clock reading, `now`, per poll.
- `to_temp` belongs to the `Battery` base class and is not part of this
  model. The fields `temp1`, `temp2` and `tempMos` hold the raw values passed
  to it, and the channels 1, 2 and 0 are named in comments.
- `utils.MAX_CELL_VOLTAGE` and `utils.MIN_CELL_VOLTAGE` are configuration.
  They are parameters of `ParseStatus`.
- Python floats are modelled as exact reals, so rounding is not modelled.
  The unit conversions divide by 1000 and 100 exactly.
- `ParseStatus` decodes the whole reply before it changes anything. The
  source interleaves its unpacks with the writes (lines 176, 180, 186, 206,
  217 and 219). But the unpack at offset 68 needs the full 104 bytes and
  runs before the first write, so every later unpack succeeds once it has.
  The two orders have the same effects.
- The byte-wise unpacks at offsets 84 and 68 (lines 217 and 219) are
  unused: the logger calls that would print them are commented out. The sum
  of cell voltages (line 176) is decoded, but only the charge log uses it,
  and the charge log is not modelled. The local `current_based_on_remaning`
  (line 238) is never read.
- The estimator lists (`last_few_currents`) and defaults are class
  attributes, shared by every instance in Python. `last_few_currents` is
  appended to in place, so two drivers in one process would share one
  window. The model gives each object its own window.
- Cells are values in a sequence, not `Cell` objects, so aliasing between
  cell objects is not modelled. Nothing else holds a reference to them.
- `get_settings`, `refresh_data`, `read_status_data` and `test_connection`
  depend on the Bluetooth link and on the base class. They are not part of
  this model.
- `ParseStatus` takes a byte sequence. How the reply reaches it is left
  out with the connection code.
- CurrentEstimator.Run: stops at the first poll that raises, so the
  multi-poll lemmas (`RunValid`, `RunWindow`, `RunPublishesMeanUntilReady`,
  `RunSteadyCapacity`) cover raise-free runs only. `RunNeverRaises` shows
  every run is raise-free when the clock advances. After a raise the driver
  carries on from the partial state (`StepRaises`, `ValidAfterStep`), and
  the raising poll's reading never enters the window; runs across a raise
  are not stated.
- The other attributes the `Battery` base class initialises are not part of
  this model.

### Behaviour kept as written

These facts about the code are easy to miss; the model has each of them:
- The discharge FET flag is always set to true (line 301). The heat and
  protection codes are decoded but never consulted.
- The block at offset 48 has two unknown u16 words before the remaining
  capacity (line 206).
- The staleness threshold is fixed at 120 s (line 270).
- The cell list is never rebuilt. The guard at line 188 always
  holds, so every present cell appends a blank cell, and then the leading
  cells are overwritten (lines 188-192). The list therefore grows by the
  cell count on every poll. `StoredCellsRepoll` states this.
- The divergence test compares the derived current with the previously
  published `self.current` (line 278).
- The elapsed seconds are taken before this poll's capacity change is
  recorded (line 246). On a poll that sees a change, they count from the
  previous change.
- A second capacity change at the same instant as the stored one divides
  by zero hours (line 256) and raises `ZeroDivisionError`. By then the
  pack values and the new capacity and time are already stored.
  `StepRaises` and `StoreEstimate` state this.
