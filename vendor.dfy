/**
 * The part of the AirTouch 4 vendor client that the climate integration
 * reads: the AC units and zones ("groups") it last reported, and the modes
 * and fan speeds each zone supports. How the client talks to the bridge is
 * not part of this model; its commands appear only as entries in the
 * integration's command log (see module Climate).
 */
module Vendor {

  /** An AC unit as the vendor client reports it. */
  datatype Ac = Ac(AcMode: string, AcFanSpeed: string, MinSetpoint: int, MaxSetpoint: int)

  /** A zone as the vendor client reports it; `BelongsToAc` names the owning AC unit. */
  datatype Group = Group(
    GroupName: string,
    Temperature: int,
    TargetSetpoint: int,
    PowerState: string,
    BelongsToAc: int)

  /** The vendor client's current picture of one installation. */
  class Airtouch {
    var acs: map<int, Ac>
    var groups: map<int, Group>
    /** What GetSupportedCoolingModesByGroup answers, per group number. */
    var supportedModes: map<int, seq<string>>
    /** What GetSupportedFanSpeedsByGroup answers, per group number. */
    var supportedFanSpeeds: map<int, seq<string>>

    constructor (
      acs: map<int, Ac>,
      groups: map<int, Group>,
      supportedModes: map<int, seq<string>>,
      supportedFanSpeeds: map<int, seq<string>>)
      ensures this.acs == acs && this.groups == groups
      ensures this.supportedModes == supportedModes && this.supportedFanSpeeds == supportedFanSpeeds
    {
      this.acs := acs;
      this.groups := groups;
      this.supportedModes := supportedModes;
      this.supportedFanSpeeds := supportedFanSpeeds;
    }
  }
}
