/**
 * The fixed vocabulary tables between the AirTouch 4 vendor names and the
 * home-automation platform's HVAC-mode and fan-mode names, and their
 * inverses built by dict comprehension.
 *
 * A Python dict display or comprehension is modelled by `DictOf` applied
 * to its entries in iteration order: each later entry overrides an earlier
 * one with the same key.
 */
module Translation {

  // The platform's HVAC-mode names.
  const HVAC_MODE_OFF := "off"
  const HVAC_MODE_HEAT := "heat"
  const HVAC_MODE_COOL := "cool"
  const HVAC_MODE_HEAT_COOL := "heat_cool"
  const HVAC_MODE_DRY := "dry"
  const HVAC_MODE_FAN_ONLY := "fan_only"

  // The platform's fan-mode names.
  const FAN_DIFFUSE := "diffuse"
  const FAN_LOW := "low"
  const FAN_MEDIUM := "medium"
  const FAN_HIGH := "high"
  const FAN_FOCUS := "focus"
  const FAN_AUTO := "auto"

  /** The entries of a dict, in insertion order. */
  type Entries = seq<(string, string)>

  /** The entries of AT_TO_HA_STATE: vendor mode to platform HVAC mode. */
  const AtToHaStateEntries: Entries := [
    ("Heat", HVAC_MODE_HEAT),
    ("Cool", HVAC_MODE_COOL),
    ("AutoHeat", HVAC_MODE_HEAT_COOL),
    ("AutoCool", HVAC_MODE_HEAT_COOL),
    ("Auto", HVAC_MODE_HEAT_COOL),
    ("Dry", HVAC_MODE_DRY),
    ("Fan", HVAC_MODE_FAN_ONLY)
  ]

  /** The entries of AT_TO_HA_FAN_SPEED: vendor fan speed to platform fan mode. */
  const AtToHaFanSpeedEntries: Entries := [
    ("Quiet", FAN_DIFFUSE),
    ("Low", FAN_LOW),
    ("Medium", FAN_MEDIUM),
    ("High", FAN_HIGH),
    ("Powerful", FAN_FOCUS),
    ("Auto", FAN_AUTO),
    ("Turbo", "turbo")
  ]

  /** The dict built from `es` in order; on a repeated key the later entry wins. */
  function DictOf(es: Entries): map<string, string>
  {
    if es == [] then map[] else map[es[0].0 := es[0].1] + DictOf(es[1..])
  }

  /** Each entry with key and value exchanged, as `{value: key for key, value in d.items()}` visits them. */
  // The two ensures clauses restate the comprehension in a form whose
  // quantifier gives the lemmas below a trigger on `r[i]`; without them the
  // concrete table lemmas run out of resource.
  function Swapped(es: Entries): (r: Entries)
    ensures |r| == |es|
    ensures forall i :: 0 <= i < |es| ==> r[i] == (es[i].1, es[i].0)
  {
    seq(|es|, i requires 0 <= i < |es| => (es[i].1, es[i].0))
  }

  /** No key occurs twice among the entries. */
  predicate DistinctKeys(es: Entries)
  {
    forall i, j :: 0 <= i < j < |es| ==> es[i].0 != es[j].0
  }

  const AtToHaState: map<string, string> := DictOf(AtToHaStateEntries)
  const HaStateToAt: map<string, string> := DictOf(Swapped(AtToHaStateEntries))
  const AtToHaFanSpeed: map<string, string> := DictOf(AtToHaFanSpeedEntries)
  const HaFanSpeedToAt: map<string, string> := DictOf(Swapped(AtToHaFanSpeedEntries))

  /** The keys of the dict are exactly the keys of its entries. */
  lemma {:induction false} DictOfKeys(es: Entries)
    ensures DictOf(es).Keys == set i | 0 <= i < |es| :: es[i].0
  {
    if es != [] {
      DictOfKeys(es[1..]);
      var tail := set i | 0 <= i < |es[1..]| :: es[1..][i].0;
      var all := set i | 0 <= i < |es| :: es[i].0;
      assert all == {es[0].0} + tail by {
        forall k | k in all ensures k in {es[0].0} + tail {
          var i :| 0 <= i < |es| && es[i].0 == k;
          if i > 0 { assert es[1..][i - 1].0 == k; }
        }
        forall k | k in tail ensures k in all {
          var i :| 0 <= i < |es[1..]| && es[1..][i].0 == k;
          assert es[i + 1].0 == k;
        }
      }
    }
  }

  /** An entry whose key does not occur again later gives that key's value. */
  lemma {:induction false} DictOfLastWins(es: Entries, i: nat)
    requires i < |es|
    requires forall j :: i < j < |es| ==> es[j].0 != es[i].0
    ensures es[i].0 in DictOf(es) && DictOf(es)[es[i].0] == es[i].1
  {
    if i > 0 {
      DictOfLastWins(es[1..], i - 1);
    } else if |es| > 1 {
      DictOfKeys(es[1..]);
      assert es[0].0 !in DictOf(es[1..]);
    }
  }

  /** With distinct keys, the dict has one key per entry. */
  lemma {:induction false} DictOfSize(es: Entries)
    requires DistinctKeys(es)
    ensures |DictOf(es)| == |es|
  {
    if es != [] {
      assert DistinctKeys(es[1..]) by {
        forall i, j | 0 <= i < j < |es[1..]| ensures es[1..][i].0 != es[1..][j].0 {
          assert es[1..][i] == es[i + 1] && es[1..][j] == es[j + 1];
        }
      }
      DictOfSize(es[1..]);
      DictOfKeys(es[1..]);
      assert es[0].0 !in DictOf(es[1..]);
      assert DictOf(es).Keys == DictOf(es[1..]).Keys + {es[0].0};
    }
  }

  /** Every key-value pair of the dict comes from one of its entries. */
  lemma {:induction false} DictOfFromEntry(es: Entries, k: string)
    requires k in DictOf(es)
    ensures exists i :: 0 <= i < |es| && es[i] == (k, DictOf(es)[k])
  {
    if k in DictOf(es[1..]) {
      DictOfFromEntry(es[1..], k);
      var i :| 0 <= i < |es[1..]| && es[1..][i] == (k, DictOf(es[1..])[k]);
      assert es[i + 1] == (k, DictOf(es)[k]);
    } else {
      assert es[0] == (k, DictOf(es)[k]);
    }
  }

  /** With distinct keys, the inverse's keys are exactly the values of the dict. */
  lemma {:induction false} InverseKeys(es: Entries)
    requires DistinctKeys(es)
    ensures DictOf(Swapped(es)).Keys == DictOf(es).Values
  {
    var sw := Swapped(es);
    DictOfKeys(sw);
    forall v | v in DictOf(sw) ensures v in DictOf(es).Values {
      var i :| 0 <= i < |sw| && sw[i].0 == v;
      DictOfLastWins(es, i);
      assert DictOf(es)[es[i].0] == v;
    }
    forall v | v in DictOf(es).Values ensures v in DictOf(sw) {
      var k :| k in DictOf(es) && DictOf(es)[k] == v;
      DictOfFromEntry(es, k);
      var i :| 0 <= i < |es| && es[i] == (k, v);
      assert sw[i].0 == v;
    }
  }

  /**
   * With distinct keys, looking a platform name up in the inverse gives a
   * vendor name that translates back to it, even where several vendor
   * names share that platform name.
   */
  lemma {:induction false} InverseIsRightInverse(es: Entries, v: string)
    requires DistinctKeys(es)
    requires v in DictOf(Swapped(es))
    ensures DictOf(Swapped(es))[v] in DictOf(es)
    ensures DictOf(es)[DictOf(Swapped(es))[v]] == v
  {
    var sw := Swapped(es);
    DictOfFromEntry(sw, v);
    var i :| 0 <= i < |sw| && sw[i] == (v, DictOf(sw)[v]);
    DictOfLastWins(es, i);
  }

  /** With distinct keys and distinct values, the inverse undoes the dict. */
  lemma {:induction false} InverseIsLeftInverse(es: Entries, k: string)
    requires DistinctKeys(es) && DistinctKeys(Swapped(es))
    requires k in DictOf(es)
    ensures DictOf(es)[k] in DictOf(Swapped(es))
    ensures DictOf(Swapped(es))[DictOf(es)[k]] == k
  {
    DictOfFromEntry(es, k);
    var i :| 0 <= i < |es| && es[i] == (k, DictOf(es)[k]);
    DictOfLastWins(Swapped(es), i);
  }

  /** The entries of AT_TO_HA_STATE have distinct keys, and so have those of AT_TO_HA_FAN_SPEED and its swap. */
  lemma TablesHaveDistinctKeys()
    ensures DistinctKeys(AtToHaStateEntries)
    ensures DistinctKeys(AtToHaFanSpeedEntries)
    ensures DistinctKeys(Swapped(AtToHaFanSpeedEntries))
  {
  }

  /** AT_TO_HA_STATE has the seven vendor modes as its keys. */
  lemma AtToHaStateKeys()
    ensures AtToHaState.Keys == {"Heat", "Cool", "AutoHeat", "AutoCool", "Auto", "Dry", "Fan"}
  {
    var es := AtToHaStateEntries;
    assert DictOf(es[7..]).Keys == {};
    assert DictOf(es[6..]).Keys == {"Fan"};
    assert DictOf(es[5..]).Keys == {"Dry", "Fan"};
    assert DictOf(es[4..]).Keys == {"Auto", "Dry", "Fan"};
    assert DictOf(es[3..]).Keys == {"AutoCool", "Auto", "Dry", "Fan"};
    assert DictOf(es[2..]).Keys == {"AutoHeat", "AutoCool", "Auto", "Dry", "Fan"};
    assert DictOf(es[1..]).Keys == {"Cool", "AutoHeat", "AutoCool", "Auto", "Dry", "Fan"};
  }

  /** AT_TO_HA_STATE: its seven keys and what each translates to. */
  lemma AtToHaStateIs()
    ensures AtToHaState.Keys == {"Heat", "Cool", "AutoHeat", "AutoCool", "Auto", "Dry", "Fan"}
    ensures AtToHaState["Heat"] == HVAC_MODE_HEAT && AtToHaState["Cool"] == HVAC_MODE_COOL
    ensures AtToHaState["AutoHeat"] == AtToHaState["AutoCool"] == AtToHaState["Auto"] == HVAC_MODE_HEAT_COOL
    ensures AtToHaState["Dry"] == HVAC_MODE_DRY && AtToHaState["Fan"] == HVAC_MODE_FAN_ONLY
  {
    var es := AtToHaStateEntries;
    AtToHaStateKeys();
    TablesHaveDistinctKeys();
    assert DictOf(es)[es[0].0] == es[0].1 by { DictOfLastWins(es, 0); }
    assert DictOf(es)[es[1].0] == es[1].1 by { DictOfLastWins(es, 1); }
    assert DictOf(es)[es[2].0] == es[2].1 by { DictOfLastWins(es, 2); }
    assert DictOf(es)[es[3].0] == es[3].1 by { DictOfLastWins(es, 3); }
    assert DictOf(es)[es[4].0] == es[4].1 by { DictOfLastWins(es, 4); }
    assert DictOf(es)[es[5].0] == es[5].1 by { DictOfLastWins(es, 5); }
    assert DictOf(es)[es[6].0] == es[6].1 by { DictOfLastWins(es, 6); }
  }

  /** HA_STATE_TO_AT has the five platform modes that AT_TO_HA_STATE produces as its keys. */
  lemma HaStateToAtKeys()
    ensures HaStateToAt.Keys == {HVAC_MODE_HEAT, HVAC_MODE_COOL, HVAC_MODE_HEAT_COOL, HVAC_MODE_DRY, HVAC_MODE_FAN_ONLY}
  {
    var es := Swapped(AtToHaStateEntries);
    assert DictOf(es[7..]).Keys == {};
    assert DictOf(es[6..]).Keys == {HVAC_MODE_FAN_ONLY};
    assert DictOf(es[5..]).Keys == {HVAC_MODE_DRY, HVAC_MODE_FAN_ONLY};
    assert DictOf(es[4..]).Keys == {HVAC_MODE_HEAT_COOL, HVAC_MODE_DRY, HVAC_MODE_FAN_ONLY};
    assert DictOf(es[3..]).Keys == DictOf(es[4..]).Keys;
    assert DictOf(es[2..]).Keys == DictOf(es[4..]).Keys;
    assert DictOf(es[1..]).Keys == {HVAC_MODE_COOL, HVAC_MODE_HEAT_COOL, HVAC_MODE_DRY, HVAC_MODE_FAN_ONLY};
  }

  /**
   * HA_STATE_TO_AT: five keys, and what each gives back. The comprehension
   * meets heat_cool three times and keeps the last vendor mode, Auto.
   */
  lemma HaStateToAtIs()
    ensures HaStateToAt.Keys == {HVAC_MODE_HEAT, HVAC_MODE_COOL, HVAC_MODE_HEAT_COOL, HVAC_MODE_DRY, HVAC_MODE_FAN_ONLY}
    ensures HaStateToAt[HVAC_MODE_HEAT] == "Heat" && HaStateToAt[HVAC_MODE_COOL] == "Cool"
    ensures HaStateToAt[HVAC_MODE_HEAT_COOL] == "Auto"
    ensures HaStateToAt[HVAC_MODE_DRY] == "Dry" && HaStateToAt[HVAC_MODE_FAN_ONLY] == "Fan"
  {
    var es := Swapped(AtToHaStateEntries);
    HaStateToAtKeys();
    assert DictOf(es)[es[0].0] == es[0].1 by { DictOfLastWins(es, 0); }
    assert DictOf(es)[es[1].0] == es[1].1 by { DictOfLastWins(es, 1); }
    assert DictOf(es)[es[4].0] == es[4].1 by { DictOfLastWins(es, 4); }
    assert DictOf(es)[es[5].0] == es[5].1 by { DictOfLastWins(es, 5); }
    assert DictOf(es)[es[6].0] == es[6].1 by { DictOfLastWins(es, 6); }
  }


  /** AT_TO_HA_FAN_SPEED has the seven vendor fan speeds as its keys. */
  lemma AtToHaFanSpeedKeys()
    ensures AtToHaFanSpeed.Keys == {"Quiet", "Low", "Medium", "High", "Powerful", "Auto", "Turbo"}
  {
    var es := AtToHaFanSpeedEntries;
    assert DictOf(es[7..]).Keys == {};
    assert DictOf(es[6..]).Keys == {"Turbo"};
    assert DictOf(es[5..]).Keys == {"Auto", "Turbo"};
    assert DictOf(es[4..]).Keys == {"Powerful", "Auto", "Turbo"};
    assert DictOf(es[3..]).Keys == {"High", "Powerful", "Auto", "Turbo"};
    assert DictOf(es[2..]).Keys == {"Medium", "High", "Powerful", "Auto", "Turbo"};
    assert DictOf(es[1..]).Keys == {"Low", "Medium", "High", "Powerful", "Auto", "Turbo"};
  }

  /** AT_TO_HA_FAN_SPEED: its seven keys and what each translates to. */
  lemma AtToHaFanSpeedIs()
    ensures AtToHaFanSpeed.Keys == {"Quiet", "Low", "Medium", "High", "Powerful", "Auto", "Turbo"}
    ensures AtToHaFanSpeed["Quiet"] == FAN_DIFFUSE && AtToHaFanSpeed["Low"] == FAN_LOW
    ensures AtToHaFanSpeed["Medium"] == FAN_MEDIUM && AtToHaFanSpeed["High"] == FAN_HIGH
    ensures AtToHaFanSpeed["Powerful"] == FAN_FOCUS && AtToHaFanSpeed["Auto"] == FAN_AUTO
    ensures AtToHaFanSpeed["Turbo"] == "turbo"
  {
    var es := AtToHaFanSpeedEntries;
    AtToHaFanSpeedKeys();
    TablesHaveDistinctKeys();
    assert DictOf(es)[es[0].0] == es[0].1 by { DictOfLastWins(es, 0); }
    assert DictOf(es)[es[1].0] == es[1].1 by { DictOfLastWins(es, 1); }
    assert DictOf(es)[es[2].0] == es[2].1 by { DictOfLastWins(es, 2); }
    assert DictOf(es)[es[3].0] == es[3].1 by { DictOfLastWins(es, 3); }
    assert DictOf(es)[es[4].0] == es[4].1 by { DictOfLastWins(es, 4); }
    assert DictOf(es)[es[5].0] == es[5].1 by { DictOfLastWins(es, 5); }
    assert DictOf(es)[es[6].0] == es[6].1 by { DictOfLastWins(es, 6); }
  }


  /**
   * AT_TO_HA_STATE: seven vendor modes, of which AutoHeat, AutoCool and Auto
   * all become heat_cool; every translation is a key of the inverse, and
   * none is off.
   */
  lemma HvacForward()
    ensures AtToHaState.Keys == {"Heat", "Cool", "AutoHeat", "AutoCool", "Auto", "Dry", "Fan"}
    ensures AtToHaState["AutoHeat"] == AtToHaState["AutoCool"] == AtToHaState["Auto"] == HVAC_MODE_HEAT_COOL
    ensures AtToHaState.Values == HaStateToAt.Keys
    ensures HVAC_MODE_OFF !in AtToHaState.Values
  {
    AtToHaStateIs();
    HaStateToAtIs();
    TablesHaveDistinctKeys();
    InverseKeys(AtToHaStateEntries);
  }

  /**
   * HA_STATE_TO_AT: five platform modes; heat_cool goes back to Auto, the
   * last of the three vendor modes that share it; off is not a key; and
   * every vendor mode it gives translates back to the mode looked up.
   */
  lemma HvacInverse()
    ensures HaStateToAt.Keys == {HVAC_MODE_HEAT, HVAC_MODE_COOL, HVAC_MODE_HEAT_COOL, HVAC_MODE_DRY, HVAC_MODE_FAN_ONLY}
    ensures |HaStateToAt| == 5
    ensures HaStateToAt[HVAC_MODE_HEAT_COOL] == "Auto"
    ensures HVAC_MODE_OFF !in HaStateToAt
    ensures forall m :: m in HaStateToAt ==> HaStateToAt[m] in AtToHaState && AtToHaState[HaStateToAt[m]] == m
  {
    HaStateToAtIs();
    TablesHaveDistinctKeys();
    forall m | m in HaStateToAt ensures HaStateToAt[m] in AtToHaState && AtToHaState[HaStateToAt[m]] == m {
      InverseIsRightInverse(AtToHaStateEntries, m);
    }
  }

  /** HA_FAN_SPEED_TO_AT has the seven platform fan modes as its keys. */
  lemma HaFanSpeedToAtKeys()
    ensures HaFanSpeedToAt.Keys == {FAN_DIFFUSE, FAN_LOW, FAN_MEDIUM, FAN_HIGH, FAN_FOCUS, FAN_AUTO, "turbo"}
  {
    var es := Swapped(AtToHaFanSpeedEntries);
    assert DictOf(es[7..]).Keys == {};
    assert DictOf(es[6..]).Keys == {"turbo"};
    assert DictOf(es[5..]).Keys == {FAN_AUTO, "turbo"};
    assert DictOf(es[4..]).Keys == {FAN_FOCUS, FAN_AUTO, "turbo"};
    assert DictOf(es[3..]).Keys == {FAN_HIGH, FAN_FOCUS, FAN_AUTO, "turbo"};
    assert DictOf(es[2..]).Keys == {FAN_MEDIUM, FAN_HIGH, FAN_FOCUS, FAN_AUTO, "turbo"};
    assert DictOf(es[1..]).Keys == {FAN_LOW, FAN_MEDIUM, FAN_HIGH, FAN_FOCUS, FAN_AUTO, "turbo"};
  }

  /** HA_FAN_SPEED_TO_AT has seven keys, exactly the platform names AT_TO_HA_FAN_SPEED produces. */
  lemma FanInverseKeys()
    ensures |HaFanSpeedToAt| == 7
    ensures HaFanSpeedToAt.Keys == AtToHaFanSpeed.Values
  {
    TablesHaveDistinctKeys();
    DictOfSize(Swapped(AtToHaFanSpeedEntries));
    InverseKeys(AtToHaFanSpeedEntries);
  }

  /**
   * The seven vendor fan speeds and the seven platform fan modes correspond
   * one to one: each table undoes the other.
   */
  lemma FanRoundTrip()
    ensures forall x :: x in AtToHaFanSpeed ==> AtToHaFanSpeed[x] in HaFanSpeedToAt && HaFanSpeedToAt[AtToHaFanSpeed[x]] == x
    ensures forall y :: y in HaFanSpeedToAt ==> HaFanSpeedToAt[y] in AtToHaFanSpeed && AtToHaFanSpeed[HaFanSpeedToAt[y]] == y
  {
    TablesHaveDistinctKeys();
    forall x | x in AtToHaFanSpeed ensures AtToHaFanSpeed[x] in HaFanSpeedToAt && HaFanSpeedToAt[AtToHaFanSpeed[x]] == x {
      InverseIsLeftInverse(AtToHaFanSpeedEntries, x);
    }
    forall y | y in HaFanSpeedToAt ensures HaFanSpeedToAt[y] in AtToHaFanSpeed && AtToHaFanSpeed[HaFanSpeedToAt[y]] == y {
      InverseIsRightInverse(AtToHaFanSpeedEntries, y);
    }
  }

  /** Off is not a key of HA_STATE_TO_AT. */
  lemma OffIsNotAKey()
    ensures HVAC_MODE_OFF !in HaStateToAt
  {
    HaStateToAtIs();
  }

  /** Every key of HA_STATE_TO_AT gives a vendor mode that AT_TO_HA_STATE sends back to that key. */
  lemma HvacModeRoundTrip(m: string)
    requires m in HaStateToAt
    ensures HaStateToAt[m] in AtToHaState && AtToHaState[HaStateToAt[m]] == m
  {
    TablesHaveDistinctKeys();
    InverseIsRightInverse(AtToHaStateEntries, m);
  }
}
