# AirTouch 4 climate integration, modelled in Dafny

This project models the climate platform of the AirTouch 4 integration for
a home-automation platform (`custom_components/airtouch4/climate.py`). It
has two parts.

- **Vocabulary tables** (`translation.dfy`, module `Translation`). These are
  the fixed maps between vendor mode and fan-speed names and the platform's
  HVAC-mode and fan-mode names, and their inverses. Each table is given by
  its entries in order. `DictOf` builds the dict the way a Python dict
  display or comprehension does: a later entry overrides an earlier one
  with the same key. The inverses are `DictOf` of the swapped entries, as
  `{value: key for key, value in d.items()}` builds them. The proofs cover:
  - the general facts about such dicts (keys, last-wins, size, inverse
    keys, left and right inverse);
  - the concrete facts about the four tables.
- **The zone entity** (`climate.dfy`, module `Climate`, class
  `AirtouchGroup`). This is one zone ("group") of the bridge exposed as a
  climate entity.
  - It keeps a cached zone record (`unit`).
  - Its displayed mode, mode list, fan mode, fan-mode list and setpoint
    bounds are derived from that record, from the owning AC unit, and from
    the vendor client's state (`vendor.dfy`, class `Vendor.Airtouch`).
  - Each user command is validated first. It then becomes an ordered
    sequence of vendor calls followed by a state write to the platform
    (`async_write_ha_state`).
  - Calls and writes are appended to a ghost command log
    (`AirtouchGroup.log`). The postconditions state the ordering and the
    "no call on rejection" rules against that log.
  - The record a vendor call returns is not computed; it is the `reply`
    parameter of the command that makes the call.

Python exceptions are modelled as values (`Wrappers.Result`):
- `ValueError` stands for rejected command arguments.
- `LookupError` stands for the `KeyError` or `IndexError` of a table or
  vendor lookup.

Behaviour of the code that the model keeps as written:
- `async_set_hvac_mode("off")` raises `ValueError`
  (`climate.py:193`). It does not turn the zone off: `"off"` is not a key of
  `HA_STATE_TO_AT`, so the turn-off branch at `climate.py:196-197` never
  runs. See "## Findings".
- Three vendor modes share `heat_cool`. The inverse sends `heat_cool` back
  to `"Auto"`, the LAST of the three (`climate.py:37`), not the first.
- Setting the mode of a zone that is off calls `async_turn_on`, which
  writes state itself. The log therefore holds two `Publish` entries:
  one after `TurnAcOn`, one after `SetCoolingModeByGroup`.

## Model

| member | source | states |
|---|---|---|
| `Translation.DictOfKeys` | custom_components/airtouch4/climate.py:27-49 | the keys of a dict built from entries are exactly the keys of those entries |
| `Translation.DictOfLastWins` | custom_components/airtouch4/climate.py:37 | an entry whose key does not occur later decides that key's value (later entries win) |
| `Translation.DictOfFromEntry` | custom_components/airtouch4/climate.py:37 | every key-value pair of the dict comes from one of its entries |
| `Translation.DictOfSize` | custom_components/airtouch4/climate.py:49 | with distinct keys the dict has exactly one key per entry |
| `Translation.InverseKeys` | custom_components/airtouch4/climate.py:37 | with distinct keys the inverse comprehension's keys are exactly the dict's values |
| `Translation.InverseIsRightInverse` | custom_components/airtouch4/climate.py:37 | with distinct keys, the vendor name the inverse gives translates back to the platform name looked up, even on a many-to-one table |
| `Translation.InverseIsLeftInverse` | custom_components/airtouch4/climate.py:49 | with distinct keys and values, the inverse undoes the dict |
| `Translation.TablesHaveDistinctKeys` | custom_components/airtouch4/climate.py:27-47 | both tables have distinct vendor keys; the fan table also has distinct values |
| `Translation.AtToHaStateKeys` | custom_components/airtouch4/climate.py:27-35 | AT_TO_HA_STATE has exactly the seven vendor modes as keys |
| `Translation.AtToHaStateIs` | custom_components/airtouch4/climate.py:27-35 | AT_TO_HA_STATE has the seven vendor modes as keys; AutoHeat, AutoCool and Auto all map to heat_cool |
| `Translation.HaStateToAtKeys` | custom_components/airtouch4/climate.py:37 | HA_STATE_TO_AT has exactly the five platform modes heat, cool, heat_cool, dry, fan_only as keys |
| `Translation.HaStateToAtIs` | custom_components/airtouch4/climate.py:37 | HA_STATE_TO_AT's five keys and their vendor modes, with heat_cool mapped to Auto, the last of its three vendor modes |
| `Translation.AtToHaFanSpeedKeys` | custom_components/airtouch4/climate.py:39-47 | AT_TO_HA_FAN_SPEED has exactly the seven vendor speeds as keys |
| `Translation.AtToHaFanSpeedIs` | custom_components/airtouch4/climate.py:39-47 | AT_TO_HA_FAN_SPEED has the seven vendor speeds as keys, with their platform names |
| `Translation.HaFanSpeedToAtKeys` | custom_components/airtouch4/climate.py:49 | HA_FAN_SPEED_TO_AT has the seven platform fan modes as keys |
| `Translation.HvacForward` | custom_components/airtouch4/climate.py:27-37 | the forward HVAC table collapses three vendor modes onto heat_cool; every translation is a key of the inverse; none is off |
| `Translation.HvacInverse` | custom_components/airtouch4/climate.py:27-37 | the HVAC inverse has exactly five keys, maps heat_cool to Auto, has no off key, and each vendor mode it gives translates back to the key |
| `Translation.OffIsNotAKey` | custom_components/airtouch4/climate.py:37 | off is not a key of HA_STATE_TO_AT |
| `Translation.HvacModeRoundTrip` | custom_components/airtouch4/climate.py:27-37 | every key of HA_STATE_TO_AT gives a vendor mode that AT_TO_HA_STATE sends back to that key |
| `Translation.FanInverseKeys` | custom_components/airtouch4/climate.py:39-49 | the fan inverse has exactly seven keys, the forward table's values |
| `Translation.FanRoundTrip` | custom_components/airtouch4/climate.py:39-49 | each fan table undoes the other: every vendor speed and every platform fan mode survives the round trip |
| `Climate.Trunc` | custom_components/airtouch4/climate.py:176 | `int()` of a temperature truncates towards zero |
| `Climate.TranslateAll` | custom_components/airtouch4/climate.py:153 | a list comprehension of table lookups succeeds exactly when every element is a key, keeps length and order, and otherwise raises a lookup error |
| `Climate.AirtouchGroup.constructor` | custom_components/airtouch4/climate.py:75-81 | the entity starts with the vendor's current record of its zone and an empty log |
| `Climate.AirtouchGroup.HandleCoordinatorUpdate` | custom_components/airtouch4/climate.py:83-86 | on a coordinator update the cached record is fetched again from the vendor client |
| `Climate.AirtouchGroup.MinTemp` | custom_components/airtouch4/climate.py:103-106 | the lowest setpoint comes from the AC that owns the cached record, with a lookup error when that AC is unknown |
| `Climate.AirtouchGroup.MaxTemp` | custom_components/airtouch4/climate.py:108-111 | the highest setpoint comes from the AC that owns the cached record, with a lookup error when that AC is unknown |
| `Climate.AirtouchGroup.HvacMode` | custom_components/airtouch4/climate.py:138-145 | the mode is off exactly when the cached PowerState is not "On"; otherwise it is the owning AC's mode translated, which SetHvacMode accepts and sends back unchanged |
| `Climate.AirtouchGroup.HvacModes` | custom_components/airtouch4/climate.py:147-155 | the supported vendor modes translated in order, then exactly one off at the end: length is supported count plus one |
| `Climate.AirtouchGroup.FanMode` | custom_components/airtouch4/climate.py:157-160 | the owning AC's fan speed translated; the inverse maps it back to that speed |
| `Climate.AirtouchGroup.FanModes` | custom_components/airtouch4/climate.py:162-168 | the supported vendor speeds translated in order; each maps back to its speed through the inverse |
| `Climate.AirtouchGroup.WriteState` | custom_components/airtouch4/climate.py:178 | a state write appends one Publish to the log and changes nothing else |
| `Climate.AirtouchGroup.SetTemperature` | custom_components/airtouch4/climate.py:170-178 | no temperature: no call, no write; otherwise one SetGroupToTemperature with the truncated value, the cached record replaced by the reply, then one write |
| `Climate.AirtouchGroup.SetFanMode` | custom_components/airtouch4/climate.py:180-189 | succeeds exactly when the mode is a key of the inverse fan table and among the zone's fan modes; otherwise raises with no call (LookupError when the zone's fan-mode list itself fails, ValueError otherwise); on success one SetFanSpeedByGroup with a speed the zone supports, then one write |
| `Climate.AirtouchGroup.SetHvacMode` | custom_components/airtouch4/climate.py:191-206 | any mode outside HA_STATE_TO_AT, off included, raises with no call; a zone that is off gets TurnGroupOn, TurnAcOn, a write, then SetCoolingModeByGroup and a write; a zone that is on gets only SetCoolingModeByGroup and a write |
| `Climate.AirtouchGroup.TurnOn` | custom_components/airtouch4/climate.py:208-217 | TurnGroupOn then TurnAcOn for the AC of the vendor's current record of the zone, unconditionally, then a write; the cached record is unchanged |
| `Climate.AirtouchGroup.TurnOff` | custom_components/airtouch4/climate.py:219-223 | only TurnGroupOff and a write, no AC command; the cached record is unchanged |
| `Climate.OffOfferedButRejected` | custom_components/airtouch4/climate.py:148-155 | off is offered by the mode list but is not a key of HA_STATE_TO_AT, so SetHvacMode rejects it |
| `Climate.OfferedModesAccepted` | custom_components/airtouch4/climate.py:147-155 | every offered mode is off or a key of HA_STATE_TO_AT |
| `Climate.AirtouchGroup.SetHvacModeCorrected` | custom_components/airtouch4/climate.py:191-206 | the intended mode command: off turns the zone off; no offered mode raises a ValueError; other modes outside HA_STATE_TO_AT raise ValueError, a failing displayed-mode lookup raises LookupError, both with no call, and valid modes give the same log as SetHvacMode |

## Left out

- The refresh coordinator, setup and unload (`custom_components/airtouch4/__init__.py`, with an identical copy at `custom_components/__init__.py`). They call the vendor's network refresh and framework registries. Keeping the last good snapshot on failure is done by the framework's coordinator class, which is not part of this model.
- The configuration flow (`custom_components/airtouch4/config_flow.py`): a form step and a network connection probe.
- `async_setup_entry` and `_build_entity` (`climate.py:54-69`): they only build one entity per discovered group. `AirtouchGroup.Valid` records that the entity's group was discovered.
- `device_info`, `unique_id`, `supported_features`, `name`, `temperature_unit`, `current_temperature`, `target_temperature`: constants or fields of the cached record read unchanged.
- Logging, and async scheduling: each command runs to completion in one step.
- The vendor client's behaviour. Its replies to commands are parameters. Commands do not change the modelled vendor state, and vendor I/O errors are not modelled.
- Climate.AirtouchGroup.HandleCoordinatorUpdate: the base-class update handler it calls (`climate.py:86`) belongs to the framework and is not modelled, so no state write is logged there.
- Climate.Trunc: temperatures are reals, so Python's errors for `int()` of NaN or infinity are not modelled; temperatures and setpoints in the zone and AC records are integers.
- Climate.TranslateAll: `KeyError` and `IndexError` are both modelled as `LookupError`.

## Findings

| source | as written | input that shows it | evidently intended | confidence | as-written member | corrected member |
|---|---|---|---|---|---|---|
| custom_components/airtouch4/climate.py:193-197 | the guard accepts only keys of HA_STATE_TO_AT, which never contain off, so the turn-off branch is dead, yet hvac_modes offers off | `async_set_hvac_mode("off")` on any zone raises ValueError and the zone stays on | off turns the zone off (TurnGroupOff, then a state write) | high; not executed | `Climate.AirtouchGroup.SetHvacMode`, `Climate.OffOfferedButRejected` | `Climate.AirtouchGroup.SetHvacModeCorrected`, `Climate.OfferedModesAccepted` |
