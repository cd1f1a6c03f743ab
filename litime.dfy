/** The LiTime BLE battery driver object: the telemetry attributes that
    `parse_status` overwrites on every poll, the per-cell objects, and the
    estimator fields it carries from one poll to the next. */
module LiTime {
  import opened Bytes
  import opened StatusLayout
  import opened CellCompaction
  import CurrentEstimator

  datatype Option<T> = None | Some(value: T)

  /** One cell of the pack: its voltage in volts, once known, and whether it
      is being balanced. The driver overwrites both in place on every poll. */
  datatype Cell = Cell(voltage: Option<real>, balance: bool)

  /** A cell as `Cell(False)` creates it. */
  const Blank: Cell := Cell(None, false)

  /** The cell for the i-th present slot, holding `mv` millivolts. */
  function Stored(mv: nat, mask: nat, i: nat): Cell {
    Cell(Some(Volts(mv)), Balancing(mask, i))
  }

  /** The cell list after the cell loop, built the way the loop builds it:
      for each present cell, append a blank cell and then overwrite cell
      number i (counting present cells only). The cells written are therefore
      the first ones of the list, old or new, while each poll appends as many
      blank cells as it finds present cells. */
  function StoredCells(before: seq<Cell>, live: seq<nat>, mask: nat): (after: seq<Cell>)
    ensures |after| == |before| + |live|
  {
    if |live| == 0 then before
    else
      var n := |live| - 1;
      (StoredCells(before, live[..n], mask) + [Blank])[n := Stored(live[n], mask, n)]
  }

  /** What the list holds after the loop: cell i is the i-th present cell for
      every i below the number of present cells, an old cell keeps its contents
      beyond that, and an appended cell beyond that stays blank. */
  lemma {:induction false} StoredCellsContents(before: seq<Cell>, live: seq<nat>, mask: nat)
    ensures var after := StoredCells(before, live, mask);
            && (forall i :: 0 <= i < |live| ==> after[i] == Stored(live[i], mask, i))
            && (forall i :: |live| <= i < |before| ==> after[i] == before[i])
            && (forall i :: |before| <= i < |after| && |live| <= i ==> after[i] == Blank)
  {
    if |live| > 0 {
      StoredCellsContents(before, live[..|live| - 1], mask);
    }
  }

  /** One more present cell: append a blank cell, then overwrite cell number |live|. */
  lemma StoredCellsStep(before: seq<Cell>, live: seq<nat>, v: nat, mask: nat)
    ensures StoredCells(before, live + [v], mask)
            == (StoredCells(before, live, mask) + [Blank])[|live| := Stored(v, mask, |live|)]
  {
    assert (live + [v])[..|live|] == live;
  }

  /** One more slot scanned: a zero slot changes nothing, a non-zero one is
      one more present cell, stored as the loop stores it. */
  lemma StoredCellsSlot(before: seq<Cell>, slots: seq<nat>, k: nat, mask: nat)
    requires k < |slots|
    ensures var live, next := LiveCells(slots[..k]), LiveCells(slots[..k + 1]);
            && |StoredCells(before, live, mask)| >= |live|
            && (slots[k] == 0 ==> next == live)
            && (slots[k] != 0 ==> |next| == |live| + 1)
            && (slots[k] != 0 ==>
                  StoredCells(before, next, mask)
                  == (StoredCells(before, live, mask) + [Blank])[|live| := Stored(slots[k], mask, |live|)])
  {
    var live := LiveCells(slots[..k]);
    LiveCellsExtend(slots, k);
    if slots[k] != 0 {
      assert LiveCells(slots[..k + 1]) == live + [slots[k]];
      StoredCellsStep(before, live, slots[k], mask);
    }
  }

  /** On the first poll (no cells yet) the list is exactly the present cells,
      in slot order, each with its voltage and flag. */
  lemma StoredCellsFirstPoll(live: seq<nat>, mask: nat)
    ensures StoredCells([], live, mask) == seq(|live|, i requires 0 <= i < |live| => Stored(live[i], mask, i))
  {
    StoredCellsContents([], live, mask);
  }

  /** Every later poll with the same cells rewrites the same leading cells and
      leaves one more batch of blank cells at the end. */
  lemma StoredCellsRepoll(before: seq<Cell>, live: seq<nat>, mask: nat)
    requires |live| <= |before|
    ensures StoredCells(before, live, mask)[..|live|] == StoredCells([], live, mask)
    ensures StoredCells(before, live, mask)[|live|..|before|] == before[|live|..]
    ensures StoredCells(before, live, mask)[|before|..] == seq(|live|, i => Blank)
  {
    StoredCellsContents(before, live, mask);
    StoredCellsContents([], live, mask);
  }

  /** Unit conversions of the raw fields: millivolts, milliamperes and
      centi-amp-hours to volts, amperes and amp-hours. */
  function Volts(mv: nat): (v: real)
    ensures v * 1000.0 == mv as real
  {
    mv as real / 1000.0
  }

  function Amps(ma: int): (a: real)
    ensures a * 1000.0 == ma as real
  {
    ma as real / 1000.0
  }

  function AmpHours(cah: nat): (ah: real)
    ensures ah * 100.0 == cah as real
  {
    cah as real / 100.0
  }

  /** What a call of `ParseStatus` ends with. */
  datatype ParseOutcome =
    | Parsed
    | DecodeFailed(error: DecodeError)   // struct.error: the reply is too short
    | ZeroDivision                       // ZeroDivisionError in the derived current

  const BatteryType: string := "Litime"

  /** The pack values a status reply sets whether or not the estimator raises. */
  datatype PackValues = PackValues(
    cellCount: nat,
    maxBatteryVoltage: real,
    minBatteryVoltage: real,
    capacity: real,
    voltage: real,
    soc: nat,
    balanceFet: bool
  )

  /** The pack values for reply `f` with `cellCount` cells present and the
      configured per-cell voltage limits. */
  function PackOf(f: StatusFrame, cellCount: nat, maxCellVoltage: real, minCellVoltage: real): PackValues {
    PackValues(cellCount, maxCellVoltage * cellCount as real, minCellVoltage * cellCount as real,
               AmpHours(f.fullChargeCah), Volts(f.totalVoltageMv), f.soc, f.balancingMask != 0)
  }

  /** The values a status reply sets only after the estimator has completed. */
  datatype HistoryValues = HistoryValues(
    temp1: int,
    temp2: int,
    tempMos: int,
    chargeFet: bool,
    dischargeFet: bool,
    capacityRemaining: real,
    historyTotalAhDrawn: nat,
    historyFullDischarges: nat
  )

  /** Those values for reply `f`: the raw cell, unknown and MOSFET
      temperatures, charging off exactly in battery state 4, discharging
      always on, the remaining capacity and the two lifetime counters. */
  function HistoryOf(f: StatusFrame): HistoryValues {
    HistoryValues(f.cellTemp, f.unknownTemp, f.mosfetTemp, f.batteryState != 4, true,
                  AmpHours(f.remainingCah), f.dischargedAh, f.fullDischarges)
  }

  class LiTimeBle {
    const address: string
    const batteryType: string := BatteryType
    const pollInterval: int

    // public telemetry
    var cells: seq<Cell>
    var cellCount: nat
    var maxBatteryVoltage: real
    var minBatteryVoltage: real
    var capacity: real
    var voltage: real
    var soc: nat
    var balanceFet: bool
    var chargeFet: bool
    var dischargeFet: bool
    var capacityRemaining: real
    var temp1: int              // raw value passed to to_temp(1, ...)
    var temp2: int              // raw value passed to to_temp(2, ...)
    var tempMos: int            // raw value passed to to_temp(0, ...)
    var historyTotalAhDrawn: nat
    var historyFullDischarges: nat

    // estimator
    var lastRemainAh: real
    var lastRemainAhTime: real
    var lastRemainAhInitiation: int
    var currentBasedOnRemaining: real
    var lastFewCurrents: seq<real>
    var current: real

    /** The estimator fields stay within their ranges: the flag is 0, 1 or 2
        and the window holds at most five readings. */
    ghost predicate Valid()
      reads this`lastRemainAh, this`lastRemainAhTime, this`lastRemainAhInitiation,
            this`currentBasedOnRemaining, this`lastFewCurrents, this`current
    {
      CurrentEstimator.Valid(Estimator())
    }

    /** The estimator fields as one value. */
    function Estimator(): CurrentEstimator.State
      reads this`lastRemainAh, this`lastRemainAhTime, this`lastRemainAhInitiation,
            this`currentBasedOnRemaining, this`lastFewCurrents, this`current
    {
      CurrentEstimator.State(lastRemainAh, lastRemainAhTime, lastRemainAhInitiation,
                             currentBasedOnRemaining, lastFewCurrents, current)
    }

    /** The pack fields as one value. */
    function Pack(): PackValues
      reads this`cellCount, this`maxBatteryVoltage, this`minBatteryVoltage,
            this`capacity, this`voltage, this`soc, this`balanceFet
    {
      PackValues(cellCount, maxBatteryVoltage, minBatteryVoltage, capacity, voltage, soc, balanceFet)
    }

    /** The fields written after the estimator, as one value. */
    function History(): HistoryValues
      reads this`temp1, this`temp2, this`tempMos, this`chargeFet, this`dischargeFet,
            this`capacityRemaining, this`historyTotalAhDrawn, this`historyFullDischarges
    {
      HistoryValues(temp1, temp2, tempMos, chargeFet, dischargeFet, capacityRemaining,
                    historyTotalAhDrawn, historyFullDischarges)
    }

    constructor (address: string)
      ensures this.address == address && batteryType == BatteryType && pollInterval == 2000
      ensures cells == [] && Valid()
      ensures Estimator() == CurrentEstimator.Initial
    {
      this.address := address;
      pollInterval := 2000;
      cells := [];
      lastRemainAh := 0.0;
      lastRemainAhTime := 0.0;
      lastRemainAhInitiation := 0;
      currentBasedOnRemaining := 0.0;
      lastFewCurrents := [];
      current := 0.0;
    }

    /** The identifier that tells several batteries apart: the BLE address. */
    function UniqueIdentifier(): string {
      address
    }

    /** "BLE " followed by the address; the address is recovered by dropping the prefix. */
    function ConnectionName(): (r: string)
      ensures |r| == |address| + 4 && r[..4] == "BLE " && r[4..] == address
    {
      "BLE " + address
    }

    /** "Bat: Litime " followed by the last five characters of the address
        (all of it when it is shorter), as Python's `address[-5:]`. */
    function CustomName(): (r: string)
      ensures |r| == 12 + (if |address| < 5 then |address| else 5)
      ensures r[..12] == "Bat: Litime "
      ensures address[|address| - (|r| - 12)..] == r[12..]
    {
      var tail := if |address| <= 5 then address else address[|address| - 5..];
      "Bat: " + batteryType + " " + tail
    }

    /** The cell loop over the sixteen slots at 16, 18, ..., 46: each non-zero
        slot appends a blank cell (the guard `len(self.cells) >= nr_of_cells`
        always holds) and then writes the voltage and balance flag of cell
        number `nr`, counting present cells only. Returns the number of cells
        present. */
    method StoreCells(slots: seq<nat>, mask: nat) returns (nr: nat)
      modifies this`cells
      ensures nr == |LiveCells(slots)|
      ensures cells == StoredCells(old(cells), LiveCells(slots), mask)
    {
      nr := 0;
      var k := 0;
      while k < |slots|
        invariant 0 <= k <= |slots|
        invariant nr == |LiveCells(slots[..k])|
        invariant cells == StoredCells(old(cells), LiveCells(slots[..k]), mask)
      {
        var cellVolt := slots[k];
        StoredCellsSlot(old(cells), slots, k, mask);
        if cellVolt != 0 {
          if |cells| >= nr {
            cells := cells + [Blank];
          }
          cells := cells[nr := Cell(Some(Volts(cellVolt)), Balancing(mask, nr))];
          nr := nr + 1;
        }
        k := k + 1;
      }
      assert slots[..k] == slots;
    }

    /** The estimator, lines for lines: set the baseline if there is none,
        take the truncated seconds since the last capacity change, record a
        change (deriving the current from it once the flag is past 0), push
        the raw reading into the window and choose what to publish. Returns
        whether the division by the elapsed hours raised. */
    method EstimateCurrent(remaining: real, raw: real, now: real) returns (raised: bool)
      modifies this`lastRemainAh, this`lastRemainAhTime, this`lastRemainAhInitiation,
               this`currentBasedOnRemaining, this`lastFewCurrents, this`current
      ensures raised == CurrentEstimator.Step(old(Estimator()), remaining, raw, now).ZeroDivision?
      ensures Estimator() == CurrentEstimator.Step(old(Estimator()), remaining, raw, now).After()
    {
      ghost var st := Estimator();
      if lastRemainAh == 0.0 {
        current := 0.0;
        lastRemainAh := remaining;
        lastRemainAhTime := now;
      }
      ghost var s0 := Estimator();
      assert s0 == CurrentEstimator.Rebase(st, remaining, now);
      var timeSinceLastUpdate := CurrentEstimator.Trunc(now - lastRemainAhTime);
      if lastRemainAh != remaining {
        var nowTime := now;
        var timeDiff := (nowTime - lastRemainAhTime) / CurrentEstimator.SecondsPerHour;
        var changeDiff := remaining - lastRemainAh;
        lastRemainAh := remaining;
        lastRemainAhTime := nowTime;
        if lastRemainAhInitiation == 0 {
          lastRemainAhInitiation := 1;
        } else {
          if timeDiff == 0.0 {
            assert CurrentEstimator.Raises(s0, remaining, now);
            return true;
          }
          currentBasedOnRemaining := changeDiff / timeDiff;
          lastRemainAhInitiation := 2;
        }
      }
      assert !CurrentEstimator.Raises(s0, remaining, now);
      ghost var s1 := Estimator();
      assert s1 == CurrentEstimator.Record(s0, remaining, now);
      lastFewCurrents := lastFewCurrents + [raw];
      if |lastFewCurrents| > CurrentEstimator.WindowSize {
        lastFewCurrents := lastFewCurrents[1..];
      }
      assert lastFewCurrents == CurrentEstimator.Push(s1.lastFewCurrents, raw);
      var lastFewAvg := CurrentEstimator.Mean(lastFewCurrents);
      if timeSinceLastUpdate > CurrentEstimator.StaleSeconds {
        current := lastFewAvg;
      } else if lastRemainAhInitiation != 2 {
        current := lastFewAvg;
      } else if timeSinceLastUpdate > CurrentEstimator.ConfirmSeconds
                && (currentBasedOnRemaining + CurrentEstimator.MaxDivergence < current
                    || currentBasedOnRemaining - CurrentEstimator.MaxDivergence > current) {
        current := lastFewAvg;
      } else {
        current := currentBasedOnRemaining;
      }
      assert current == CurrentEstimator.Published(timeSinceLastUpdate, s1.initiation, s1.basedOnRemaining,
                                                   s1.current, lastFewAvg);
      assert Estimator() == CurrentEstimator.Publish(s1, raw, timeSinceLastUpdate);
      CurrentEstimator.StepStages(st, remaining, raw, now, timeSinceLastUpdate);
      return false;
    }

    /** The pack values written right after the cell loop: the cell count, the
        pack voltage limits scaled by it, the capacity, the voltage, the state
        of charge and whether any cell is balancing. */
    method StorePack(f: StatusFrame, nrOfCells: nat, maxCellVoltage: real, minCellVoltage: real)
      modifies this`cellCount, this`maxBatteryVoltage, this`minBatteryVoltage,
               this`capacity, this`voltage, this`soc, this`balanceFet
      ensures Pack() == PackOf(f, nrOfCells, maxCellVoltage, minCellVoltage)
    {
      cellCount := nrOfCells;
      maxBatteryVoltage := maxCellVoltage * cellCount as real;
      minBatteryVoltage := minCellVoltage * cellCount as real;
      capacity := AmpHours(f.fullChargeCah);
      voltage := Volts(f.totalVoltageMv);
      soc := f.soc;
      if f.balancingMask != 0 {
        balanceFet := true;
      } else {
        balanceFet := false;
      }
    }

    /** The values written once the estimator has completed. */
    method StoreHistory(f: StatusFrame)
      modifies this`temp1, this`chargeFet, this`dischargeFet, this`capacityRemaining,
               this`temp2, this`tempMos, this`historyTotalAhDrawn, this`historyFullDischarges
      ensures History() == HistoryOf(f)
    {
      temp1 := f.cellTemp;
      chargeFet := true;
      if f.batteryState == 4 {
        chargeFet := false;
      }
      dischargeFet := true;
      capacityRemaining := AmpHours(f.remainingCah);
      temp2 := f.unknownTemp;
      tempMos := f.mosfetTemp;
      historyTotalAhDrawn := f.dischargedAh;
      historyFullDischarges := f.fullDischarges;
    }

    /** The cell loop and the pack values that follow it: the cells, the
        cell count, the pack voltage limits scaled by it, the capacity, the
        voltage, the state of charge and whether any cell is balancing. */
    method StoreReadings(f: StatusFrame, maxCellVoltage: real, minCellVoltage: real)
      modifies this`cells, this`cellCount, this`maxBatteryVoltage, this`minBatteryVoltage,
               this`capacity, this`voltage, this`soc, this`balanceFet
      ensures cells == StoredCells(old(cells), LiveCells(f.cellSlotsMv), f.balancingMask)
      ensures Pack() == PackOf(f, |LiveCells(f.cellSlotsMv)|, maxCellVoltage, minCellVoltage)
    {
      var nrOfCells := StoreCells(f.cellSlotsMv, f.balancingMask);
      StorePack(f, nrOfCells, maxCellVoltage, minCellVoltage);
    }

    /** The estimator step for reply `f` and, unless it raised, the values
        written after it. */
    method StoreEstimate(f: StatusFrame, now: real) returns (outcome: ParseOutcome)
      requires Valid()
      modifies this`lastRemainAh, this`lastRemainAhTime, this`lastRemainAhInitiation,
               this`currentBasedOnRemaining, this`lastFewCurrents, this`current,
               this`temp1, this`chargeFet, this`dischargeFet, this`capacityRemaining,
               this`temp2, this`tempMos, this`historyTotalAhDrawn, this`historyFullDischarges
      ensures Valid()
      ensures EstimateStored(f, now, outcome)
    {
      ghost var before := Estimator();
      var remainingAmph := AmpHours(f.remainingCah);
      var currentA := Amps(f.currentMa);
      var raised := EstimateCurrent(remainingAmph, currentA, now);
      ValidAfterStep(before, remainingAmph, currentA, now);
      if raised {
        return ZeroDivision;
      }
      ghost var estimated := Estimator();
      StoreHistory(f);
      assert Estimator() == estimated;
      return Parsed;
    }

    /** The estimator fields after one step for reply `f`; the outcome
        `Parsed` when that step completes and `ZeroDivision` when it raises;
        the values from the reply when it completes, unchanged when it raises. */
    twostate predicate EstimateStored(f: StatusFrame, now: real, outcome: ParseOutcome)
      reads this
    {
      var step := CurrentEstimator.Step(old(Estimator()), AmpHours(f.remainingCah), Amps(f.currentMa), now);
      && Estimator() == step.After()
      && outcome == (if step.Stepped? then Parsed else ZeroDivision)
      && History() == (if step.Stepped? then HistoryOf(f) else old(History()))
    }

    /** What storing the decoded reply `f` leaves behind, compared with the
        state before: the cells and the pack values always, then the estimator
        step and what depends on it. */
    twostate predicate StatusStored(f: StatusFrame, now: real, maxCellVoltage: real, minCellVoltage: real,
                                    outcome: ParseOutcome)
      reads this
    {
      && cells == StoredCells(old(cells), LiveCells(f.cellSlotsMv), f.balancingMask)
      && Pack() == PackOf(f, |LiveCells(f.cellSlotsMv)|, maxCellVoltage, minCellVoltage)
      && EstimateStored(f, now, outcome)
    }

    /** Everything `parse_status` does once the unpacks have succeeded: the cell
        loop, the pack values, the estimator and, unless the estimator raised,
        the temperatures, FET flags and counters. */
    method StoreStatus(f: StatusFrame, now: real, maxCellVoltage: real, minCellVoltage: real)
      returns (outcome: ParseOutcome)
      requires Valid()
      modifies this
      ensures Valid()
      ensures StatusStored(f, now, maxCellVoltage, minCellVoltage, outcome)
    {
      ghost var live := LiveCells(f.cellSlotsMv);
      StoreReadings(f, maxCellVoltage, minCellVoltage);
      ghost var storedCells, pack := cells, Pack();
      assert pack == PackOf(f, |live|, maxCellVoltage, minCellVoltage);
      outcome := StoreEstimate(f, now);
      assert cells == storedCells && Pack() == pack;
    }

    /** One status reply: the unpacks either fail with `struct.error`, leaving
        everything as it was, or succeed, and then the reply is stored. */
    method ParseStatus(data: seq<byte>, now: real, maxCellVoltage: real, minCellVoltage: real)
      returns (outcome: ParseOutcome)
      requires Valid()
      modifies this
      ensures Valid()
      ensures Decode(data).Failure? ==> outcome == DecodeFailed(Decode(data).error) && unchanged(this)
      ensures Decode(data).Success? ==>
                StatusStored(Decode(data).value, now, maxCellVoltage, minCellVoltage, outcome)
    {
      var decoded := Decode(data);
      if decoded.Failure? {
        return DecodeFailed(decoded.error);
      }
      outcome := StoreStatus(decoded.value, now, maxCellVoltage, minCellVoltage);
    }
  }

  /** A poll, whether it completes or raises, keeps the estimator fields
      within their ranges. */
  lemma ValidAfterStep(st: CurrentEstimator.State, remaining: real, raw: real, now: real)
    requires CurrentEstimator.Valid(st)
    ensures CurrentEstimator.Valid(CurrentEstimator.Step(st, remaining, raw, now).After())
  {
    if CurrentEstimator.Step(st, remaining, raw, now).Stepped? {
      CurrentEstimator.StepInitiation(st, remaining, raw, now);
    }
  }
}
