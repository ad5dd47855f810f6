/**
 * One AirTouch 4 zone exposed as a climate entity: the displayed state it
 * derives from its cached zone record and the owning AC unit, and the
 * ordered vendor calls each user command turns into.
 *
 * Every vendor call the entity makes, and every state write it makes to the
 * platform (`async_write_ha_state`), is appended to a ghost command log, so
 * that ordering and "nothing happens on rejection" are postconditions.
 * The record a vendor call returns is not computed here: it is the `reply`
 * parameter of the command that makes the call.
 */
module Climate {
  import opened Wrappers
  import opened Translation
  import opened Vendor

  /** One entry of the entity's command log. */
  datatype Command =
    | SetGroupToTemperature(group: int, temperature: int)
    | SetFanSpeedByGroup(group: int, speed: string)
    | SetCoolingModeByGroup(group: int, mode: string)
    | TurnGroupOn(group: int)
    | TurnGroupOff(group: int)
    | TurnAcOn(ac: int)
    | Publish

  /** Python's `int()` of a float: the integer part, truncated towards zero. */
  function Trunc(x: real): (r: int)
    ensures 0.0 <= x ==> r as real <= x < r as real + 1.0
    ensures x < 0.0 ==> r as real - 1.0 < x <= r as real
  {
    if x >= 0.0 then x.Floor else -((-x).Floor)
  }

  /**
   * `[table[x] for x in xs]`: every element translated in order, or a
   * lookup error as soon as one element is not a key of the table.
   */
  function TranslateAll(table: map<string, string>, xs: seq<string>): (r: Result<seq<string>>)
    ensures r.Ok? <==> forall i :: 0 <= i < |xs| ==> xs[i] in table
    ensures r.Raised? ==> r.error == LookupError
    ensures r.Ok? ==> |r.value| == |xs| && forall i :: 0 <= i < |xs| ==> r.value[i] == table[xs[i]]
  {
    if xs == [] then Ok([])
    else if xs[0] !in table then Raised(LookupError)
    else match TranslateAll(table, xs[1..])
      case Ok(rest) => Ok([table[xs[0]]] + rest)
      case Raised(e) => Raised(e)
  }

  /** The climate entity of one zone. */
  class AirtouchGroup {
    const groupNumber: int
    const airtouch: Airtouch
    /** The cached zone record, replaced by the record each command returns. */
    var unit: Group
    ghost var log: seq<Command>

    /** The zone is one the vendor client discovered, so its lookups by group number succeed. */
    ghost predicate Valid()
      reads this, airtouch
    {
      && groupNumber in airtouch.groups
      && groupNumber in airtouch.supportedModes
      && groupNumber in airtouch.supportedFanSpeeds
    }

    constructor (airtouch: Airtouch, groupNumber: int)
      requires groupNumber in airtouch.groups
      requires groupNumber in airtouch.supportedModes && groupNumber in airtouch.supportedFanSpeeds
      ensures this.airtouch == airtouch && this.groupNumber == groupNumber
      ensures Valid() && unit == airtouch.groups[groupNumber] && log == []
    {
      this.airtouch := airtouch;
      this.groupNumber := groupNumber;
      unit := airtouch.groups[groupNumber];
      log := [];
    }

    /** On a coordinator update the cached record is fetched again from the vendor client. */
    method HandleCoordinatorUpdate()
      requires Valid()
      modifies this
      ensures Valid()
      ensures unit == airtouch.groups[groupNumber] && log == old(log)
    {
      unit := airtouch.groups[groupNumber];
    }

    /** The lowest setpoint of the AC unit that owns the cached zone record. */
    function MinTemp(): (r: Result<int>)
      reads this, airtouch
      ensures r.Ok? <==> unit.BelongsToAc in airtouch.acs
      ensures r.Ok? ==> r.value == airtouch.acs[unit.BelongsToAc].MinSetpoint
      ensures r.Raised? ==> r.error == LookupError
    {
      if unit.BelongsToAc in airtouch.acs then Ok(airtouch.acs[unit.BelongsToAc].MinSetpoint)
      else Raised(LookupError)
    }

    /** The highest setpoint of the AC unit that owns the cached zone record. */
    function MaxTemp(): (r: Result<int>)
      reads this, airtouch
      ensures r.Ok? <==> unit.BelongsToAc in airtouch.acs
      ensures r.Ok? ==> r.value == airtouch.acs[unit.BelongsToAc].MaxSetpoint
      ensures r.Raised? ==> r.error == LookupError
    {
      if unit.BelongsToAc in airtouch.acs then Ok(airtouch.acs[unit.BelongsToAc].MaxSetpoint)
      else Raised(LookupError)
    }

    /**
     * The displayed HVAC mode: off exactly when the cached zone is not on;
     * otherwise the owning AC's mode in the platform's vocabulary, which is
     * always a mode that SetHvacMode accepts and sends back unchanged.
     */
    function HvacMode(): (r: Result<string>)
      reads this, airtouch
      ensures r == Ok(HVAC_MODE_OFF) <==> unit.PowerState != "On"
      ensures unit.PowerState == "On" ==>
        (r.Ok? <==> unit.BelongsToAc in airtouch.acs && airtouch.acs[unit.BelongsToAc].AcMode in AtToHaState)
      ensures unit.PowerState == "On" && r.Ok? ==>
        && r.value == AtToHaState[airtouch.acs[unit.BelongsToAc].AcMode]
        && r.value in HaStateToAt && HaStateToAt[r.value] in AtToHaState
        && AtToHaState[HaStateToAt[r.value]] == r.value
      ensures r.Raised? ==> r.error == LookupError
    {
      if unit.PowerState != "On" then Ok(HVAC_MODE_OFF)
      else if unit.BelongsToAc !in airtouch.acs then Raised(LookupError)
      else
        var mode := airtouch.acs[unit.BelongsToAc].AcMode;
        if mode !in AtToHaState then Raised(LookupError)
        else
          HvacForward();
          HvacInverse();
          Ok(AtToHaState[mode])
    }

    /**
     * The selectable HVAC modes: the zone's supported vendor modes translated
     * in order, then off, which occurs nowhere else in the list.
     */
    function HvacModes(): (r: Result<seq<string>>)
      requires Valid()
      reads this, airtouch
      ensures var supported := airtouch.supportedModes[groupNumber];
        && (r.Ok? <==> forall i :: 0 <= i < |supported| ==> supported[i] in AtToHaState)
        && (r.Ok? ==>
              && |r.value| == |supported| + 1
              && r.value[|supported|] == HVAC_MODE_OFF
              && forall i :: 0 <= i < |supported| ==>
                   r.value[i] == AtToHaState[supported[i]] && r.value[i] != HVAC_MODE_OFF)
      ensures r.Raised? ==> r.error == LookupError
    {
      HvacForward();
      match TranslateAll(AtToHaState, airtouch.supportedModes[groupNumber])
      case Ok(modes) => Ok(modes + [HVAC_MODE_OFF])
      case Raised(e) => Raised(e)
    }

    /**
     * The displayed fan mode: the owning AC's fan speed in the platform's
     * vocabulary, which the inverse table maps back to that same speed.
     */
    function FanMode(): (r: Result<string>)
      reads this, airtouch
      ensures r.Ok? <==> unit.BelongsToAc in airtouch.acs && airtouch.acs[unit.BelongsToAc].AcFanSpeed in AtToHaFanSpeed
      ensures r.Ok? ==> r.value in HaFanSpeedToAt && HaFanSpeedToAt[r.value] == airtouch.acs[unit.BelongsToAc].AcFanSpeed
      ensures r.Raised? ==> r.error == LookupError
    {
      if unit.BelongsToAc !in airtouch.acs then Raised(LookupError)
      else
        var speed := airtouch.acs[unit.BelongsToAc].AcFanSpeed;
        if speed !in AtToHaFanSpeed then Raised(LookupError)
        else
          FanRoundTrip();
          Ok(AtToHaFanSpeed[speed])
    }

    /**
     * The selectable fan modes: the zone's supported vendor fan speeds
     * translated in order; the inverse table maps each back to its speed.
     */
    function FanModes(): (r: Result<seq<string>>)
      requires Valid()
      reads this, airtouch
      ensures var speeds := airtouch.supportedFanSpeeds[groupNumber];
        && (r.Ok? <==> forall i :: 0 <= i < |speeds| ==> speeds[i] in AtToHaFanSpeed)
        && (r.Ok? ==>
              && |r.value| == |speeds|
              && forall i :: 0 <= i < |speeds| ==>
                   r.value[i] in HaFanSpeedToAt && HaFanSpeedToAt[r.value[i]] == speeds[i])
      ensures r.Raised? ==> r.error == LookupError
    {
      FanRoundTrip();
      TranslateAll(AtToHaFanSpeed, airtouch.supportedFanSpeeds[groupNumber])
    }

    /** `async_write_ha_state`: the entity's state is written to the platform. */
    method WriteState()
      requires Valid()
      modifies this
      ensures Valid()
      ensures unit == old(unit) && log == old(log) + [Publish]
    {
      log := log + [Publish];
    }

    /**
     * Sets the zone's target temperature, truncated to an integer, when a
     * temperature is given; with none, nothing is called and nothing is
     * written.
     */
    method SetTemperature(temperature: Option<real>, reply: Group)
      requires Valid()
      modifies this
      ensures Valid()
      ensures temperature.None? ==> unit == old(unit) && log == old(log)
      ensures temperature.Some? ==>
        && unit == reply
        && log == old(log) + [SetGroupToTemperature(groupNumber, Trunc(temperature.value)), Publish]
    {
      if temperature.Some? {
        log := log + [SetGroupToTemperature(groupNumber, Trunc(temperature.value))];
        unit := reply;
        WriteState();
      }
    }

    /**
     * Sets the fan speed of the zone's AC. A mode that is not a platform fan
     * mode, or not among the zone's fan modes, raises before any call; on
     * success the vendor speed sent is one the zone supports.
     */
    method SetFanMode(fanMode: string, reply: Group) returns (r: Result<()>)
      requires Valid()
      modifies this
      ensures Valid()
      ensures r.Ok? <==> fanMode in HaFanSpeedToAt && old(FanModes()).Ok? && fanMode in old(FanModes()).value
      ensures fanMode !in HaFanSpeedToAt ==> r == Raised(ValueError)
      ensures old(FanModes()).Ok? && fanMode !in old(FanModes()).value ==> r == Raised(ValueError)
      ensures fanMode in HaFanSpeedToAt && old(FanModes()).Raised? ==> r == Raised(LookupError)
      ensures r.Raised? ==> unit == old(unit) && log == old(log)
      ensures r.Ok? ==>
        && unit == reply
        && log == old(log) + [SetFanSpeedByGroup(groupNumber, HaFanSpeedToAt[fanMode]), Publish]
        && HaFanSpeedToAt[fanMode] in airtouch.supportedFanSpeeds[groupNumber]
    {
      if fanMode !in HaFanSpeedToAt {
        return Raised(ValueError);
      }
      var modes := FanModes();
      if modes.Raised? {
        return Raised(modes.error);
      }
      if fanMode !in modes.value {
        return Raised(ValueError);
      }
      var k :| 0 <= k < |modes.value| && modes.value[k] == fanMode;
      assert HaFanSpeedToAt[fanMode] == airtouch.supportedFanSpeeds[groupNumber][k];
      log := log + [SetFanSpeedByGroup(groupNumber, HaFanSpeedToAt[fanMode])];
      unit := reply;
      WriteState();
      r := Ok(());
    }

    /**
     * Sets the mode of the zone's AC. Only keys of HA_STATE_TO_AT are
     * accepted, so off raises as well. A zone whose cached record is off is
     * turned on first; the vendor mode sent always reads back as the mode
     * asked for.
     */
    method SetHvacMode(hvacMode: string, reply: Group) returns (r: Result<()>)
      requires Valid()
      modifies this
      ensures Valid()
      ensures hvacMode !in HaStateToAt ==> r == Raised(ValueError)
      ensures hvacMode == HVAC_MODE_OFF ==> r == Raised(ValueError)
      ensures hvacMode in HaStateToAt && old(HvacMode()).Raised? ==> r == Raised(LookupError)
      ensures r.Raised? ==> unit == old(unit) && log == old(log)
      ensures hvacMode in HaStateToAt && old(unit).PowerState != "On" ==>
        && r == Ok(())
        && log == old(log) + [
             TurnGroupOn(groupNumber), TurnAcOn(airtouch.groups[groupNumber].BelongsToAc), Publish,
             SetCoolingModeByGroup(groupNumber, HaStateToAt[hvacMode]), Publish]
      ensures hvacMode in HaStateToAt && old(unit).PowerState == "On" && old(HvacMode()).Ok? ==>
        && r == Ok(())
        && log == old(log) + [SetCoolingModeByGroup(groupNumber, HaStateToAt[hvacMode]), Publish]
      ensures r.Ok? ==>
        && unit == reply
        && HaStateToAt[hvacMode] in AtToHaState
        && AtToHaState[HaStateToAt[hvacMode]] == hvacMode
    {
      if hvacMode !in HaStateToAt {
        return Raised(ValueError);
      }
      if hvacMode == HVAC_MODE_OFF {
        // The source would delegate to turn-off here, but off is never a key
        // of HA_STATE_TO_AT, so this branch cannot run.
        OffIsNotAKey();
        assert false;
      }
      var current := HvacMode();
      if current.Raised? {
        return Raised(current.error);
      }
      if current.value == HVAC_MODE_OFF {
        TurnOn();
      }
      HvacModeRoundTrip(hvacMode);
      log := log + [SetCoolingModeByGroup(groupNumber, HaStateToAt[hvacMode])];
      unit := reply;
      WriteState();
      r := Ok(());
    }

    /**
     * Turns the zone on and then, whatever the AC's state, the AC that the
     * vendor's current record of the zone names; the cached record is kept.
     */
    method TurnOn()
      requires Valid()
      modifies this
      ensures Valid()
      ensures unit == old(unit)
      ensures log == old(log) + [
        TurnGroupOn(groupNumber), TurnAcOn(airtouch.groups[groupNumber].BelongsToAc), Publish]
    {
      log := log + [TurnGroupOn(groupNumber)];
      log := log + [TurnAcOn(airtouch.groups[groupNumber].BelongsToAc)];
      WriteState();
    }

    /** Turns the zone off and leaves its AC alone; the cached record is kept. */
    method TurnOff()
      requires Valid()
      modifies this
      ensures Valid()
      ensures unit == old(unit)
      ensures log == old(log) + [TurnGroupOff(groupNumber), Publish]
    {
      log := log + [TurnGroupOff(groupNumber)];
      WriteState();
    }

    /**
     * set_hvac_mode as evidently intended: off turns the zone off, and
     * every other mode is handled as SetHvacMode handles it. Every mode that
     * HvacModes offers then gets past the validation.
     */
    method SetHvacModeCorrected(hvacMode: string, reply: Group) returns (r: Result<()>)
      requires Valid()
      modifies this
      ensures Valid()
      ensures hvacMode == HVAC_MODE_OFF ==>
        && r == Ok(())
        && unit == old(unit)
        && log == old(log) + [TurnGroupOff(groupNumber), Publish]
      ensures old(HvacModes()).Ok? && hvacMode in old(HvacModes()).value ==> r != Raised(ValueError)
      ensures hvacMode != HVAC_MODE_OFF && hvacMode !in HaStateToAt ==>
        r == Raised(ValueError) && unit == old(unit) && log == old(log)
      ensures hvacMode in HaStateToAt && old(HvacMode()).Raised? ==> r == Raised(LookupError)
      ensures r.Raised? ==> unit == old(unit) && log == old(log)
      ensures hvacMode in HaStateToAt && old(unit).PowerState != "On" ==>
        && r == Ok(())
        && unit == reply
        && log == old(log) + [
             TurnGroupOn(groupNumber), TurnAcOn(airtouch.groups[groupNumber].BelongsToAc), Publish,
             SetCoolingModeByGroup(groupNumber, HaStateToAt[hvacMode]), Publish]
      ensures hvacMode in HaStateToAt && old(unit).PowerState == "On" && old(HvacMode()).Ok? ==>
        && r == Ok(())
        && unit == reply
        && log == old(log) + [SetCoolingModeByGroup(groupNumber, HaStateToAt[hvacMode]), Publish]
    {
      if hvacMode == HVAC_MODE_OFF {
        OffIsNotAKey();
        TurnOff();
        return Ok(());
      }
      if HvacModes().Ok? && hvacMode in HvacModes().value {
        OfferedModesAccepted(this);
      }
      r := SetHvacMode(hvacMode, reply);
    }
  }

  /**
   * Off is the last of the modes HvacModes offers, yet it is not a key of
   * HA_STATE_TO_AT, so SetHvacMode rejects it with a ValueError.
   */
  lemma OffOfferedButRejected(g: AirtouchGroup)
    requires g.Valid() && g.HvacModes().Ok?
    ensures HVAC_MODE_OFF in g.HvacModes().value
    ensures HVAC_MODE_OFF !in HaStateToAt
  {
    var modes := g.HvacModes().value;
    assert modes[|modes| - 1] == HVAC_MODE_OFF;
    OffIsNotAKey();
  }

  /** Every mode HvacModes offers is either off or a key of HA_STATE_TO_AT. */
  lemma OfferedModesAccepted(g: AirtouchGroup)
    requires g.Valid() && g.HvacModes().Ok?
    ensures forall m :: m in g.HvacModes().value ==> m == HVAC_MODE_OFF || m in HaStateToAt
  {
    HvacForward();
    var supported := g.airtouch.supportedModes[g.groupNumber];
    var modes := g.HvacModes().value;
    forall m | m in modes ensures m == HVAC_MODE_OFF || m in HaStateToAt {
      var i :| 0 <= i < |modes| && modes[i] == m;
      if i < |supported| {
        assert m in AtToHaState.Values;
      }
    }
  }
}
