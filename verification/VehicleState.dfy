/** The latest sample of each sensor (vehicle_state.cpp of the aggregator), one slot a sensor.
    Times are nanoseconds of the steady clock. */
module VehicleState {
  import opened Options

  datatype Sample =
    | GpsSample(lat: real, lon: real, altM: real, fixQuality: int)
    | ImuSample(accel: (real, real, real), gyro: (real, real, real))
    | EncoderSample(leftTicks: int, rightTicks: int, speedMps: real)

  datatype Slot = Slot(sample: Option<Sample>, lastUpdate: int, sourceTsMs: int)

  const EMPTY_SLOT := Slot(None, 0, -1)

  /** One entry a sensor: samples, source timestamps and staleness. */
  datatype Snapshot = Snapshot(samples: seq<Option<Sample>>, sourceTsMs: seq<int>, stale: seq<bool>)

  function Ms(n: int): int {
    n * 1_000_000
  }

  /** Nothing received, or received longer ago than the threshold. */
  predicate IsStale(slot: Slot, staleAfterMs: int, now: int) {
    slot.sample.None? || now - slot.lastUpdate > Ms(staleAfterMs)
  }

  function SnapshotOf(staleAfterMs: seq<int>, slots: seq<Slot>, now: int): Snapshot
    requires |staleAfterMs| == |slots|
  {
    Snapshot(
      seq(|slots|, i requires 0 <= i < |slots| => slots[i].sample),
      seq(|slots|, i requires 0 <= i < |slots| => slots[i].sourceTsMs),
      seq(|slots|, i requires 0 <= i < |slots| => IsStale(slots[i], staleAfterMs[i], now)))
  }

  const GPS_STALE_AFTER := 500
  const IMU_STALE_AFTER := 50
  const ENCODER_STALE_AFTER := 100

  /** The manager's methods, each one critical section; now is what Clock::now() returns
      inside it. */
  class VehicleStateManager {
    var gps: Slot
    var imu: Slot
    var encoder: Slot

    function Slots(): seq<Slot>
      reads this
    {
      [gps, imu, encoder]
    }

    constructor ()
      ensures Slots() == [EMPTY_SLOT, EMPTY_SLOT, EMPTY_SLOT]
      ensures gps.sample == imu.sample == encoder.sample == None
      ensures gps.sourceTsMs == imu.sourceTsMs == encoder.sourceTsMs == -1
    {
      gps, imu, encoder := EMPTY_SLOT, EMPTY_SLOT, EMPTY_SLOT;
    }

    method UpdateGps(s: Sample, sourceTsMs: int, now: int)
      modifies `gps
      ensures Slots() == old(Slots())[0 := Slot(Some(s), now, sourceTsMs)]
    {
      gps := gps.(sample := Some(s));
      gps := gps.(lastUpdate := now);
      gps := gps.(sourceTsMs := sourceTsMs);
    }

    method UpdateImu(s: Sample, sourceTsMs: int, now: int)
      modifies `imu
      ensures Slots() == old(Slots())[1 := Slot(Some(s), now, sourceTsMs)]
    {
      imu := imu.(sample := Some(s));
      imu := imu.(lastUpdate := now);
      imu := imu.(sourceTsMs := sourceTsMs);
    }

    method UpdateEncoder(s: Sample, sourceTsMs: int, now: int)
      modifies `encoder
      ensures Slots() == old(Slots())[2 := Slot(Some(s), now, sourceTsMs)]
    {
      encoder := encoder.(sample := Some(s));
      encoder := encoder.(lastUpdate := now);
      encoder := encoder.(sourceTsMs := sourceTsMs);
    }

    method TakeSnapshot(now: int) returns (snap: Snapshot)
      ensures snap == SnapshotOf([GPS_STALE_AFTER, IMU_STALE_AFTER, ENCODER_STALE_AFTER], Slots(), now)
      ensures snap.samples == [gps.sample, imu.sample, encoder.sample]
      ensures snap.sourceTsMs == [gps.sourceTsMs, imu.sourceTsMs, encoder.sourceTsMs]
      ensures snap.stale == [
        gps.sample.None? || now - gps.lastUpdate > 500_000_000,
        imu.sample.None? || now - imu.lastUpdate > 50_000_000,
        encoder.sample.None? || now - encoder.lastUpdate > 100_000_000]
    {
      var gpsStale := gps.sample.None? || now - gps.lastUpdate > Ms(GPS_STALE_AFTER);
      var imuStale := imu.sample.None? || now - imu.lastUpdate > Ms(IMU_STALE_AFTER);
      var encoderStale := encoder.sample.None? || now - encoder.lastUpdate > Ms(ENCODER_STALE_AFTER);
      snap := Snapshot(
        [gps.sample, imu.sample, encoder.sample],
        [gps.sourceTsMs, imu.sourceTsMs, encoder.sourceTsMs],
        [gpsStale, imuStale, encoderStale]);
    }
  }
}
