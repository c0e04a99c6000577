/** The telescope simulator's mount (examples/telescope_device.py): slewing the short way
    round, drift, guiding, and parking. Hours and degrees are reals. */
module Telescope {
  import opened Wire

  datatype SlewRate = Guide | Centering | Find | Max

  datatype TrackMode = Sidereal | Solar | Lunar

  /** Degrees a second (lines 43-49). */
  function SpeedOf(rate: SlewRate): (speed: real)
    ensures speed >= 0.05
  {
    match rate
    case Guide => 0.05
    case Centering => 0.5
    case Find => 5.0
    case Max => 30.0
  }

  /** Arcseconds a second (lines 52-56). */
  function TrackRate(mode: TrackMode): real {
    match mode
    case Sidereal => 15.041
    case Solar => 15.0
    case Lunar => 14.511
  }

  const SIDEREAL_ARCSEC := 15.041

  /** `x % 24.0`. */
  function Mod24(x: real): (r: real)
    ensures 0.0 <= r < 24.0
  {
    x - 24.0 * (x / 24.0).Floor as real
  }

  function Min(x: real, y: real): real {
    if x <= y then x else y
  }

  /** `min(90.0, max(-90.0, x))`. */
  function Clamp(x: real): (r: real)
    ensures -90.0 <= r <= 90.0 && (-90.0 <= x <= 90.0 ==> r == x)
  {
    if x < -90.0 then -90.0 else if x > 90.0 then 90.0 else x
  }

  // ------------------------------------------------------------------------ //
  // Slewing                                                                   //
  // ------------------------------------------------------------------------ //

  /** How far apart two right ascensions are, the short way round. */
  function RaDistance(ra: real, target: real): (d: real)
    ensures 0.0 <= d <= 12.0
  {
    var delta := Mod24(target - ra);
    Min(delta, 24.0 - delta)
  }

  function DecDistance(dec: real, target: real): real {
    if target >= dec then target - dec else dec - target
  }

  function SlewedRa(ra: real, target: real, step: real): real {
    var delta := Mod24(target - ra);
    if Min(delta, 24.0 - delta) <= step then target
    else Mod24(ra + if delta <= 12.0 then step else -step)
  }

  function SlewedDec(dec: real, target: real, step: real): real {
    if DecDistance(dec, target) <= step then target
    else if target > dec then dec + step else dec - step
  }

  /** What is left of a distance after a step of one tick. */
  function Left(distance: real, step: real): real {
    if distance <= step then 0.0 else distance - step
  }

  lemma Mod24Near(x: real)
    ensures 0.0 <= x < 24.0 ==> Mod24(x) == x
    ensures -24.0 <= x < 0.0 ==> Mod24(x) == x + 24.0
    ensures 24.0 <= x < 48.0 ==> Mod24(x) == x - 24.0
  {
  }

  /** One tick takes exactly a step off the distance and never goes past the target. */
  lemma RaApproaches(ra: real, target: real, step: real)
    requires 0.0 <= ra < 24.0 && 0.0 <= target < 24.0 && step > 0.0
    ensures var next := SlewedRa(ra, target, step);
            0.0 <= next < 24.0 && RaDistance(next, target) == Left(RaDistance(ra, target), step)
  {
    var delta := Mod24(target - ra);
    Mod24Near(target - ra);
    Mod24Near(0.0);
    var moved := ra + if delta <= 12.0 then step else -step;
    if RaDistance(ra, target) > step {
      Mod24Near(moved);
      Mod24Near(target - Mod24(moved));
    }
  }

  lemma DecApproaches(dec: real, target: real, step: real)
    requires -90.0 <= dec <= 90.0 && -90.0 <= target <= 90.0 && step > 0.0
    ensures var next := SlewedDec(dec, target, step);
            -90.0 <= next <= 90.0 && DecDistance(next, target) == Left(DecDistance(dec, target), step)
  {
  }

  lemma RaArrived(ra: real, target: real)
    requires 0.0 <= ra < 24.0 && 0.0 <= target < 24.0
    ensures RaDistance(ra, target) == 0.0 <==> ra == target
  {
    Mod24Near(target - ra);
  }

  function Ceil(x: real): int {
    -(-x).Floor
  }

  lemma CeilCovers(total: real, step: real, n: int)
    requires step > 0.0 && n >= Ceil(total / step)
    ensures n as real * step >= total
  {
    var q := total / step;
    assert q * step == total;
    assert n as real >= q;
    MoreSteps(n as real, q, step);
  }

  lemma MoreSteps(x: real, y: real, step: real)
    requires x >= y && step > 0.0
    ensures x * step >= y * step
  {
    assert (x - y) * step >= 0.0;
  }

  lemma OneMoreStep(n: int, step: real)
    ensures (n + 1) as real * step == n as real * step + step
  {
    assert (n + 1) as real == n as real + 1.0;
  }

  /** The arcseconds a guide pulse of some milliseconds moves the mount. */
  function Pulse(rate: real, ms: real): real {
    rate * SIDEREAL_ARCSEC * ms / 1000.0
  }

  /** A second's pulse at the full sidereal rate moves the mount as far as the sky moves in
      one, and pulses add up. */
  lemma PulseIs(rate: real, ms: real, more: real)
    ensures Pulse(1.0, 1000.0) == 15.041
    ensures Pulse(rate, ms + more) == Pulse(rate, ms) + Pulse(rate, more)
    ensures Pulse(rate, 1000.0) == rate * Pulse(1.0, 1000.0)
  {
    assert rate * SIDEREAL_ARCSEC * (ms + more) == rate * SIDEREAL_ARCSEC * ms + rate * SIDEREAL_ARCSEC * more;
  }

  /** A second of the paddles, at rates in degrees. */
  function Paddled(from: (real, real), ns: real, we: real): (real, real) {
    if ns == 0.0 && we == 0.0 then from else (Mod24(from.0 + we / 15.0), Clamp(from.1 + ns))
  }

  /** A second of the sky going past: nothing while PARK is on or the sidereal rate is
      tracked. */
  function Drifted(from: (real, real), park: bool, tracking: bool, mode: TrackMode): (real, real) {
    if park || (tracking && mode == Sidereal) then from
    else (Mod24(from.0 + (SIDEREAL_ARCSEC - if tracking then TrackRate(mode) else 0.0) / 54000.0), from.1)
  }

  lemma Mod24Advances(ra: real, far: real)
    requires 0.0 <= ra < 24.0 && 0.0 <= far < 24.0
    ensures Mod24(Mod24(ra + far) - ra) == far && Mod24(ra - Mod24(ra - far)) == far
  {
    Mod24Near(ra + far);
    Mod24Near(ra - far);
    Mod24Near(Mod24(ra + far) - ra);
    Mod24Near(ra - Mod24(ra - far));
  }

  /** The sky goes past a mount that does not follow it at 15.041 arcseconds a second, the
      right ascension rising; one that follows the sun or the moon is left behind by what
      their rates lack of that, one that follows the stars or is parked by nothing. */
  lemma DriftIs(from: (real, real), park: bool, tracking: bool, mode: TrackMode)
    requires 0.0 <= from.0 < 24.0
    ensures var next := Drifted(from, park, tracking, mode);
            && next.1 == from.1
            && Mod24(next.0 - from.0) * 54000.0
               == if park || (tracking && mode == Sidereal) then 0.0
                  else if !tracking then 15.041 else if mode == Solar then 0.041 else 0.53
  {
    Mod24Near(0.0);
    Mod24Advances(from.0, (SIDEREAL_ARCSEC - if tracking then TrackRate(mode) else 0.0) / 54000.0);
  }

  /** The paddles: north raises the declination and south lowers it, as far as the pole;
      west raises the right ascension and east lowers it, an hour for fifteen degrees. */
  lemma PaddlesMove(from: (real, real), ns: real, we: real)
    requires 0.0 <= from.0 < 24.0 && -90.0 <= from.1 <= 90.0 && -360.0 < we < 360.0
    ensures var next := Paddled(from, ns, we);
            && (ns >= 0.0 ==> next.1 == if from.1 + ns > 90.0 then 90.0 else from.1 + ns)
            && (ns <= 0.0 ==> next.1 == if from.1 + ns < -90.0 then -90.0 else from.1 + ns)
            && (we >= 0.0 ==> 15.0 * Mod24(next.0 - from.0) == we)
            && (we <= 0.0 ==> 15.0 * Mod24(from.0 - next.0) == -we)
  {
    Mod24Near(0.0);
    Mod24Near(from.0);
    Mod24Advances(from.0, if we >= 0.0 then we / 15.0 else -we / 15.0);
  }

  // ------------------------------------------------------------------------ //
  // The mount                                                                 //
  // ------------------------------------------------------------------------ //

  datatype Member = Named(name: string) | NoneSelected

  class TelescopeSimulator {
    var ra: real
    var dec: real
    var target: Option<(real, real)>
    var trackAfterSlew: bool
    var parking: bool
    var nsRate: real
    var weRate: real
    /** The switches and numbers the handlers read: CONNECTION, TELESCOPE_PARK's PARK and
        the vector's state, TELESCOPE_TRACK_STATE, the selected members, GUIDE_RATE and
        the site's latitude. */
    var connected: bool
    var park: bool
    var parkState: IPState
    var tracking: bool
    var slewRate: SlewRate
    var trackMode: TrackMode
    var onCoordSet: string
    var guideRateWe: real
    var guideRateNs: real
    var latitude: real

    constructor ()
      ensures Valid() && ra == 0.0 && dec == 90.0 && target.None? && !park && !tracking && !connected
    {
      ra, dec, target, trackAfterSlew, parking, nsRate, weRate := 0.0, 90.0, None, false, false, 0.0, 0.0;
      connected, park, parkState, tracking := false, false, Idle, false;
      slewRate, trackMode, onCoordSet := Max, Sidereal, "TRACK";
      guideRateWe, guideRateNs, latitude := 0.5, 0.5, 32.0;
    }

    /** The pointing and any target are in range, a park under way has a target and shows
        so, the paddles are at rest while PARK is on, and PARK with Ok means at rest. */
    predicate Valid()
      reads this
    {
      && 0.0 <= ra < 24.0 && -90.0 <= dec <= 90.0
      && (target.Some? ==> 0.0 <= target.value.0 < 24.0 && -90.0 <= target.value.1 <= 90.0)
      && (parking ==> park && target.Some? && parkState == Busy)
      && (park ==> nsRate == 0.0 && weRate == 0.0)
      && (park && target.Some? ==> parking)
      && (park && parkState == Ok ==> !tracking && target.None?)
    }

    /** The park vector is PARK and Ok. */
    predicate Parked()
      reads this
    {
      park && parkState == Ok
    }

    function Pointing(): (real, real)
      reads this
    {
      (ra, dec)
    }

    /** One second of the simulation. */
    method Tick()
      requires Valid()
      modifies this`ra, this`dec, this`target, this`parking, this`park, this`parkState, this`tracking
      ensures Valid() && (old(Parked()) ==> AtRest(old(Pointing())))
      ensures !connected ==> unchanged(this)
      ensures connected && old(target).Some? ==>
                && Slewed(old(Pointing()), old(target).value, SpeedOf(slewRate))
                && Arrived(old(target).value, old(parking), old((park, parkState, tracking)))
      ensures connected && old(target).None? ==>
                && Pointing() == Drifted(Paddled(old(Pointing()), nsRate, weRate), park, tracking, trackMode)
                && target.None? && parking == old(parking) && park == old(park) && parkState == old(parkState)
                && tracking == old(tracking)
    {
      if !connected {
        return;
      }
      if target.Some? {
        TickSlew();
        return;
      }
      TickManualMotion();
      TickDrift();
    }

    /** What arriving does: a park ends with the mount parked there, any other slew with
        tracking on if it was asked for or was on; before that, nothing. */
    predicate Arrived(at: (real, real), wasParking: bool, before: (bool, IPState, bool))
      reads this
    {
      if target.Some? then parking == wasParking && (park, parkState, tracking) == before
      else if wasParking then AtRest(at) && !parking
      else !parking && (park, parkState, tracking) == (before.0, before.1, trackAfterSlew || before.2)
    }

    /** Nothing has moved, and nothing is about to. */
    predicate AtRest(pointing: (real, real))
      reads this
    {
      Parked() && Pointing() == pointing && !tracking && target.None? && nsRate == 0.0 && weRate == 0.0
    }

    /** One tick of a slew was taken: both axes a step on, done when both have arrived. */
    predicate Slewed(from: (real, real), to: (real, real), speed: real)
      reads this
    {
      && ra == SlewedRa(from.0, to.0, speed / 15.0) && dec == SlewedDec(from.1, to.1, speed)
      && target == if (ra, dec) == to then None else Some(to)
    }

    method TickSlew()
      requires Valid() && target.Some?
      modifies this`ra, this`dec, this`target, this`parking, this`park, this`parkState, this`tracking
      ensures Valid() && Slewed(old(Pointing()), old(target).value, SpeedOf(slewRate))
      ensures Arrived(old(target).value, old(parking), old((park, parkState, tracking)))
    {
      hide Mod24, RaDistance, Left, SpeedOf, Clamp;
      var targetRa, targetDec := target.value.0, target.value.1;
      var speed := SpeedOf(slewRate);
      var raStep, decStep := speed / 15.0, speed;
      RaApproaches(ra, targetRa, raStep);
      DecApproaches(dec, targetDec, decStep);
      var delta := Mod24(targetRa - ra);
      if Min(delta, 24.0 - delta) <= raStep {
        ra := targetRa;
      } else {
        ra := Mod24(ra + if delta <= 12.0 then raStep else -raStep);
      }
      if DecDistance(dec, targetDec) <= decStep {
        dec := targetDec;
      } else {
        dec := dec + if targetDec > dec then decStep else -decStep;
      }
      if ra == targetRa && dec == targetDec {
        target := None;
        if parking {
          parking := false;
          tracking := false;
          park, parkState := true, Ok;
        } else if trackAfterSlew {
          tracking := true;
        }
      }
    }

    /** The paddles, for one second. */
    method TickManualMotion()
      requires Valid()
      modifies this`ra, this`dec
      ensures Valid() && Pointing() == Paddled(old(Pointing()), nsRate, weRate)
    {
      if nsRate == 0.0 && weRate == 0.0 {
        return;
      }
      dec := Clamp(dec + nsRate);
      ra := Mod24(ra + weRate / 15.0);
    }

    /** The sky's drift past the mount, for one second; none while PARK is on, and none
        in the sidereal rate. */
    method TickDrift()
      requires Valid()
      modifies this`ra
      ensures Valid()
      ensures Pointing() == Drifted(old(Pointing()), park, tracking, trackMode)
    {
      if park {
        return;
      }
      var arcsec := if tracking then SIDEREAL_ARCSEC - TrackRate(trackMode) else SIDEREAL_ARCSEC;
      if arcsec == 0.0 {
        return;
      }
      ra := Mod24(ra + arcsec / 15.0 / 3600.0);
    }

    method StartSlew(toRa: real, toDec: real, trackAfter: bool)
      modifies this`target, this`trackAfterSlew
      ensures target == Some((Mod24(toRa), Clamp(toDec))) && trackAfterSlew == trackAfter
    {
      target := Some((Mod24(toRa), Clamp(toDec)));
      trackAfterSlew := trackAfter;
    }

    /** The link goes down: all motion halts, and a park that never arrived is retracted. */
    method OnDisconnect()
      requires Valid()
      modifies this`target, this`parking, this`nsRate, this`weRate, this`park, this`parkState
      ensures Valid() && (old(Parked()) ==> AtRest(old(Pointing())))
      ensures target.None? && !parking && nsRate == 0.0 && weRate == 0.0
      ensures (park, parkState) == if old(parking) then (false, Idle) else old((park, parkState))
    {
      var wasParking := parking;
      target := None;
      parking := false;
      nsRate, weRate := 0.0, 0.0;
      if wasParking {
        park, parkState := false, Idle;
      }
    }

    /** A CONNECTION write. */
    method Connection(connect: bool)
      requires Valid()
      modifies this`connected, this`target, this`parking, this`nsRate, this`weRate, this`park, this`parkState
      ensures Valid() && connected == connect && (old(Parked()) ==> AtRest(old(Pointing())))
      ensures connect ==> target == old(target) && parking == old(parking) && nsRate == old(nsRate)
                          && weRate == old(weRate) && (park, parkState) == old((park, parkState))
      ensures !connect ==> target.None? && !parking && nsRate == 0.0 && weRate == 0.0
                           && (park, parkState) == if old(parking) then (false, Idle) else old((park, parkState))
    {
      connected := connect;
      if !connect {
        OnDisconnect();
      }
    }

    predicate Refused(needsUnparked: bool)
      reads this
    {
      !connected || (needsUnparked && park)
    }

    /** An EQUATORIAL_EOD_COORD write: go there, or declare to be there. */
    method Coords(toRa: Option<real>, toDec: Option<real>)
      requires Valid()
      modifies this`ra, this`dec, this`target, this`trackAfterSlew
      ensures Valid() && (old(Parked()) ==> AtRest(old(Pointing())))
      ensures Refused(true) ==> unchanged(this)
      ensures !Refused(true) ==>
                var to := (Mod24(if toRa.Some? then toRa.value else old(ra)),
                           Clamp(if toDec.Some? then toDec.value else old(dec)));
                if onCoordSet == "SYNC" then Pointing() == to && target.None? && trackAfterSlew == old(trackAfterSlew)
                else Pointing() == old(Pointing()) && target == Some(to) && trackAfterSlew == (onCoordSet == "TRACK")
    {
      if !connected || park {
        return;
      }
      var r := Mod24(if toRa.Some? then toRa.value else ra);
      var d := Clamp(if toDec.Some? then toDec.value else dec);
      if onCoordSet == "SYNC" {
        ra, dec := r, d;
        target := None;
        return;
      }
      Mod24Near(r);
      StartSlew(r, d, onCoordSet == "TRACK");
    }

    method OnCoordSet(selected: Member)
      requires Valid() && (selected.Named? ==> selected.name in {"TRACK", "SLEW", "SYNC"})
      modifies this`onCoordSet
      ensures Valid() && (old(Parked()) ==> AtRest(old(Pointing())))
      ensures onCoordSet == if connected && selected.Named? then selected.name else old(onCoordSet)
    {
      if connected && selected.Named? {
        onCoordSet := selected.name;
      }
    }

    method TrackState(selected: Member)
      requires Valid()
      modifies this`tracking
      ensures Valid() && (old(Parked()) ==> AtRest(old(Pointing())))
      ensures tracking == if Refused(true) then old(tracking) else selected == Named("TRACK_ON")
    {
      if !connected || park {
        return;
      }
      tracking := selected == Named("TRACK_ON");
    }

    method SetTrackMode(mode: Option<TrackMode>)
      requires Valid()
      modifies this`trackMode
      ensures Valid() && (old(Parked()) ==> AtRest(old(Pointing())))
      ensures trackMode == if connected && mode.Some? then mode.value else old(trackMode)
    {
      if connected && mode.Some? {
        trackMode := mode.value;
      }
    }

    method SetSlewRate(rate: Option<SlewRate>)
      requires Valid()
      modifies this`slewRate
      ensures Valid() && (old(Parked()) ==> AtRest(old(Pointing())))
      ensures slewRate == if connected && rate.Some? then rate.value else old(slewRate)
    {
      if connected && rate.Some? {
        slewRate := rate.value;
      }
    }

    method MotionNs(selected: Member)
      requires Valid()
      modifies this`nsRate
      ensures Valid() && (old(Parked()) ==> AtRest(old(Pointing())))
      ensures nsRate == if Refused(true) then old(nsRate)
                        else if selected.NoneSelected? then 0.0
                        else if selected.name == "MOTION_NORTH" then SpeedOf(slewRate) else -SpeedOf(slewRate)
    {
      if !connected || park {
        return;
      }
      var speed := SpeedOf(slewRate);
      nsRate := if selected.NoneSelected? then 0.0 else if selected.name == "MOTION_NORTH" then speed else -speed;
    }

    method MotionWe(selected: Member)
      requires Valid()
      modifies this`weRate
      ensures Valid() && (old(Parked()) ==> AtRest(old(Pointing())))
      ensures weRate == if Refused(true) then old(weRate)
                        else if selected.NoneSelected? then 0.0
                        else if selected.name == "MOTION_WEST" then SpeedOf(slewRate) else -SpeedOf(slewRate)
    {
      if !connected || park {
        return;
      }
      var speed := SpeedOf(slewRate);
      weRate := if selected.NoneSelected? then 0.0 else if selected.name == "MOTION_WEST" then speed else -speed;
    }

    /** A TELESCOPE_PARK write: slew to the pole and stop, or, with anything but PARK
        selected, unpark. */
    method Park(selected: Member)
      requires Valid()
      modifies this`target, this`trackAfterSlew, this`parking, this`nsRate, this`weRate, this`park, this`parkState
      ensures Valid()
      ensures old(Parked()) && (selected == Named("PARK") || !connected) ==> AtRest(old(Pointing()))
      ensures connected && selected == Named("PARK") && !old(park) ==>
                && park && parking && parkState == Busy && nsRate == 0.0 && weRate == 0.0 && !trackAfterSlew
                && target == Some((ra, if latitude >= 0.0 then 90.0 else -90.0))
      ensures connected && selected != Named("PARK") ==>
                && !park && !parking && parkState == Ok && target == old(target)
                && trackAfterSlew == old(trackAfterSlew) && nsRate == old(nsRate) && weRate == old(weRate)
      ensures !connected || (selected == Named("PARK") && old(park)) ==> unchanged(this)
    {
      if !connected {
        return;
      }
      if selected == Named("PARK") {
        if park {
          return;
        }
        parking := true;
        nsRate, weRate := 0.0, 0.0;
        park, parkState := true, Busy;
        Mod24Near(ra);
        StartSlew(ra, if latitude >= 0.0 then 90.0 else -90.0, false);
      } else {
        parking := false;
        park, parkState := false, Ok;
      }
    }

    /** Stop any slew and paddle; tracking is left as it is. */
    method Abort()
      requires Valid()
      modifies this`target, this`parking, this`nsRate, this`weRate
      ensures Valid() && (old(Parked()) ==> AtRest(old(Pointing())))
      ensures if connected then target.None? && !parking && nsRate == 0.0 && weRate == 0.0 else unchanged(this)
    {
      if !connected {
        return;
      }
      target := None;
      parking := false;
      nsRate, weRate := 0.0, 0.0;
    }

    method GuideRate(we: Option<real>, ns: Option<real>)
      requires Valid()
      modifies this`guideRateWe, this`guideRateNs
      ensures Valid() && (old(Parked()) ==> AtRest(old(Pointing())))
      ensures guideRateWe == if connected && we.Some? then Unit(we.value) else old(guideRateWe)
      ensures guideRateNs == if connected && ns.Some? then Unit(ns.value) else old(guideRateNs)
    {
      if connected {
        guideRateWe := if we.Some? then Unit(we.value) else guideRateWe;
        guideRateNs := if ns.Some? then Unit(ns.value) else guideRateNs;
      }
    }

    /** A timed pulse north or south, finished at once. */
    method GuideNs(north: real, south: real)
      requires Valid()
      modifies this`dec
      ensures Valid() && (old(Parked()) ==> AtRest(old(Pointing())))
      ensures dec == if Refused(true) then old(dec)
                     else Clamp(old(dec) + Pulse(guideRateNs, north - south) / 3600.0)
    {
      if !connected || park {
        return;
      }
      dec := Clamp(dec + Pulse(guideRateNs, north - south) / 3600.0);
    }

    /** A timed pulse west or east, finished at once. */
    method GuideWe(west: real, east: real)
      requires Valid()
      modifies this`ra
      ensures Valid() && (old(Parked()) ==> AtRest(old(Pointing())))
      ensures ra == if Refused(true) then old(ra)
                    else Mod24(old(ra) + Pulse(guideRateWe, west - east) / 3600.0 / 15.0)
    {
      if !connected || park {
        return;
      }
      ra := Mod24(ra + Pulse(guideRateWe, west - east) / 3600.0 / 15.0);
    }

    method Location(lat: Option<real>)
      requires Valid()
      modifies this`latitude
      ensures Valid() && (old(Parked()) ==> AtRest(old(Pointing())))
      ensures latitude == if connected && lat.Some? then Clamp(lat.value) else if connected then Clamp(old(latitude)) else old(latitude)
    {
      if connected {
        latitude := Clamp(if lat.Some? then lat.value else latitude);
      }
    }
  }

  /** `min(1.0, max(0.0, x))`. */
  function Unit(x: real): (r: real)
    ensures 0.0 <= r <= 1.0 && (0.0 <= x <= 1.0 ==> r == x)
  {
    if x < 0.0 then 0.0 else if x > 1.0 then 1.0 else x
  }

  // ------------------------------------------------------------------------ //
  // Slews to the end, and whole runs                                          //
  // ------------------------------------------------------------------------ //

  /** What is left of a distance after n ticks. */
  function LeftAfter(distance: real, step: real, n: int): real {
    if n as real * step >= distance then 0.0 else distance - n as real * step
  }

  lemma LeftAfterNext(distance: real, step: real, n: int)
    requires distance >= 0.0 && step > 0.0 && n >= 0
    ensures Left(LeftAfter(distance, step, n), step) == LeftAfter(distance, step, n + 1)
  {
    OneMoreStep(n, step);
    assert n as real * step >= 0.0;
  }

  lemma NothingLeft(distance: real, total: real, step: real, n: int)
    requires distance <= total && step > 0.0 && n >= Ceil(total / step)
    ensures LeftAfter(distance, step, n) == 0.0
  {
    CeilCovers(total, step, n);
  }

  lemma NoneTaken(distance: real, step: real)
    requires distance >= 0.0
    ensures LeftAfter(distance, step, 0) == distance
  {
    assert 0 as real * step == 0.0;
  }

  lemma EnoughFor(distance: real, step: real, n: int)
    requires step > 0.0 && distance >= 0.0 && LeftAfter(distance, step, n) == 0.0
    ensures n >= Ceil(distance / step)
  {
    var q := distance / step;
    assert q * step == distance;
    if n as real < q {
      FewerSteps(n as real, q, step);
      assert false;
    }
  }

  lemma FewerSteps(x: real, y: real, step: real)
    requires x < y && step > 0.0
    ensures x * step < y * step
  {
    assert (y - x) * step > 0.0;
  }

  /** One tick of a slew that is still n ticks under way leaves what n + 1 ticks leave on
      both axes, and ends the slew exactly when that is nothing. */
  method TickOn(t: TelescopeSimulator, ghost far: real, ghost high: real, ghost n: int)
    requires t.Valid() && t.connected && t.target.Some? && far >= 0.0 && high >= 0.0 && n >= 0
    requires RaDistance(t.ra, t.target.value.0) == LeftAfter(far, SpeedOf(t.slewRate) / 15.0, n)
    requires DecDistance(t.dec, t.target.value.1) == LeftAfter(high, SpeedOf(t.slewRate), n)
    modifies t
    ensures t.Valid() && t.connected && t.slewRate == old(t.slewRate)
    ensures var left := LeftAfter(far, SpeedOf(t.slewRate) / 15.0, n + 1);
            var up := LeftAfter(high, SpeedOf(t.slewRate), n + 1);
            && RaDistance(t.ra, old(t.target).value.0) == left && DecDistance(t.dec, old(t.target).value.1) == up
            && t.target == (if left == 0.0 && up == 0.0 then None else old(t.target))
            && (t.target.None? ==> t.Pointing() == old(t.target).value)
            && t.Arrived(old(t.target).value, old(t.parking), old((t.park, t.parkState, t.tracking)))
            && t.trackAfterSlew == old(t.trackAfterSlew)
  {
    hide LeftAfter, SpeedOf, Mod24, Min, Left;
    ghost var to, raStep, decStep := t.target.value, SpeedOf(t.slewRate) / 15.0, SpeedOf(t.slewRate);
    RaApproaches(t.ra, to.0, raStep);
    DecApproaches(t.dec, to.1, decStep);
    LeftAfterNext(far, raStep, n);
    LeftAfterNext(high, decStep, n);
    t.Tick();
    RaArrived(t.ra, to.0);
  }

  /** The ticks a slew over these distances takes: enough for the longer of the two axes,
      and at least the one that sees it has arrived. */
  function TicksFor(far: real, high: real, speed: real): (n: int)
    requires speed > 0.0
    ensures n >= 1 && n >= Ceil(far / (speed / 15.0)) && n >= Ceil(high / speed)
    ensures n == 1 || n == Ceil(far / (speed / 15.0)) || n == Ceil(high / speed)
  {
    var axes := if Ceil(far / (speed / 15.0)) >= Ceil(high / speed) then Ceil(far / (speed / 15.0)) else Ceil(high / speed);
    if axes >= 1 then axes else 1
  }

  /** Nothing is left on either axis from exactly that tick on. */
  lemma NothingLeftExactly(far: real, high: real, speed: real, n: int)
    requires far >= 0.0 && high >= 0.0 && speed > 0.0 && n >= 1
    ensures LeftAfter(far, speed / 15.0, n) == 0.0 && LeftAfter(high, speed, n) == 0.0
            <==> n >= TicksFor(far, high, speed)
  {
    hide LeftAfter, Ceil;
    if n >= TicksFor(far, high, speed) {
      NothingLeft(far, far, speed / 15.0, n);
      NothingLeft(high, high, speed, n);
    } else if LeftAfter(far, speed / 15.0, n) == 0.0 && LeftAfter(high, speed, n) == 0.0 {
      EnoughFor(far, speed / 15.0, n);
      EnoughFor(high, speed, n);
    }
  }

  /** No slew takes more than a half turn, or pole to pole. */
  lemma TicksBounded(far: real, high: real, speed: real)
    requires 0.0 <= far <= 12.0 && 0.0 <= high <= 180.0 && speed > 0.0
    ensures TicksFor(far, high, speed) <= TicksFor(12.0, 180.0, speed)
  {
    hide LeftAfter, Ceil, TicksFor;
    NothingLeft(far, 12.0, speed / 15.0, TicksFor(12.0, 180.0, speed));
    NothingLeft(high, 180.0, speed, TicksFor(12.0, 180.0, speed));
    NothingLeftExactly(far, high, speed, TicksFor(12.0, 180.0, speed));
  }

  /** The farthest slew there is: an hour at the slowest rate, six seconds at the fastest. */
  lemma FarthestSlew(rate: SlewRate)
    ensures TicksFor(12.0, 180.0, SpeedOf(rate))
            == match rate { case Guide => 3600 case Centering => 360 case Find => 36 case Max => 6 }
  {
    var ticks := match rate { case Guide => 3600 case Centering => 360 case Find => 36 case Max => 6 };
    var speed := SpeedOf(rate);
    assert speed * ticks as real == 180.0;
    CeilExact(180.0, speed, ticks);
    CeilExact(12.0, speed / 15.0, ticks);
  }

  lemma CeilExact(total: real, step: real, n: int)
    requires step > 0.0 && n as real * step == total
    ensures Ceil(total / step) == n
  {
    var q := total / step;
    assert q * step == total;
    if q < n as real {
      FewerSteps(q, n as real, step);
      assert false;
    } else if q > n as real {
      FewerSteps(n as real, q, step);
      assert false;
    }
  }

  /** An uninterrupted slew: every tick takes a whole step off each axis's distance until
      the axis is there, so neither overshoots, and the slew ends on the first tick both
      are there. A park ends parked. */
  method SlewOut(t: TelescopeSimulator) returns (ticks: int)
    requires t.Valid() && t.connected && t.target.Some?
    modifies t
    ensures t.Valid() && t.target.None? && t.Pointing() == old(t.target).value
    ensures t.Arrived(old(t.target).value, old(t.parking), old((t.park, t.parkState, t.tracking)))
    ensures ticks == TicksFor(RaDistance(old(t.ra), old(t.target).value.0), DecDistance(old(t.dec), old(t.target).value.1),
                              SpeedOf(old(t.slewRate)))
    ensures ticks <= TicksFor(12.0, 180.0, SpeedOf(old(t.slewRate)))
  {
    hide LeftAfter, RaDistance, DecDistance, SlewedRa, SlewedDec, Mod24, Left, Ceil, SpeedOf, TicksFor;
    ghost var to := t.target.value;
    ghost var speed := SpeedOf(t.slewRate);
    ghost var raStep, far, high := speed / 15.0, RaDistance(t.ra, to.0), DecDistance(t.dec, to.1);
    DecWithin(t.dec, to.1);
    NoneTaken(far, raStep);
    NoneTaken(high, speed);
    TicksBounded(far, high, speed);
    ticks := 0;
    while t.target.Some?
      invariant t.Valid() && t.connected && SpeedOf(t.slewRate) == speed && ticks >= 0
      invariant t.target.Some? ==> t.target.value == to && ticks < TicksFor(far, high, speed)
      invariant t.trackAfterSlew == old(t.trackAfterSlew)
      invariant t.Arrived(to, old(t.parking), old((t.park, t.parkState, t.tracking)))
      invariant t.target.None? ==> t.Pointing() == to && ticks == TicksFor(far, high, speed)
      invariant RaDistance(t.ra, to.0) == LeftAfter(far, raStep, ticks)
      invariant DecDistance(t.dec, to.1) == LeftAfter(high, speed, ticks)
      decreases TicksFor(far, high, speed) - ticks, t.target.Some?
    {
      TickOn(t, far, high, ticks);
      ticks := ticks + 1;
      NothingLeftExactly(far, high, speed, ticks);
    }
  }

  lemma DecWithin(dec: real, target: real)
    requires -90.0 <= dec <= 90.0 && -90.0 <= target <= 90.0
    ensures 0.0 <= DecDistance(dec, target) <= 180.0
  {
  }

  /** A tick, or a client's write. */
  datatype Event =
    | Ticking
    | Connecting(connect: bool)
    | Going(ra: Option<real>, dec: Option<real>)
    | Choosing(what: string)
    | Tracking(selected: Member)
    | Mode(mode: Option<TrackMode>)
    | Rate(rate: Option<SlewRate>)
    | PaddleNs(selected: Member)
    | PaddleWe(selected: Member)
    | Parking(selected: Member)
    | Aborting
    | GuideRates(we: Option<real>, ns: Option<real>)
    | PulseNs(north: real, south: real)
    | PulseWe(west: real, east: real)
    | Site(lat: Option<real>)

  predicate Unparks(e: Event) {
    e.Parking? && e.selected != Named("PARK")
  }

  method Perform(t: TelescopeSimulator, e: Event)
    requires t.Valid()
    modifies t
    ensures t.Valid()
    ensures old(t.Parked()) && !Unparks(e) ==> t.AtRest(old(t.Pointing()))
  {
    match e {
      case Ticking => t.Tick();
      case Connecting(connect) => t.Connection(connect);
      case Going(ra, dec) => t.Coords(ra, dec);
      case Choosing(what) => if what in {"TRACK", "SLEW", "SYNC"} { t.OnCoordSet(Named(what)); }
      case Tracking(selected) => t.TrackState(selected);
      case Mode(mode) => t.SetTrackMode(mode);
      case Rate(rate) => t.SetSlewRate(rate);
      case PaddleNs(selected) => t.MotionNs(selected);
      case PaddleWe(selected) => t.MotionWe(selected);
      case Parking(selected) => t.Park(selected);
      case Aborting => t.Abort();
      case GuideRates(we, ns) => t.GuideRate(we, ns);
      case PulseNs(north, south) => t.GuideNs(north, south);
      case PulseWe(west, east) => t.GuideWe(west, east);
      case Site(lat) => t.Location(lat);
    }
  }

  /** Any run keeps the mount in range; one that starts parked and is never unparked ends
      parked, where it was, with tracking off. */
  method Run(t: TelescopeSimulator, events: seq<Event>)
    requires t.Valid()
    modifies t
    ensures t.Valid()
    ensures old(t.Parked()) && (forall i :: 0 <= i < |events| ==> !Unparks(events[i])) ==> t.AtRest(old(t.Pointing()))
  {
    var i := 0;
    while i < |events|
      invariant 0 <= i <= |events| && t.Valid()
      invariant old(t.Parked()) && (forall j :: 0 <= j < i ==> !Unparks(events[j])) ==> t.AtRest(old(t.Pointing()))
    {
      Perform(t, events[i]);
      i := i + 1;
    }
  }
}
