/**
 * The two inventories the script ships with, and worked examples of the
 * parser, the PSIRT scan and the audit of single inventory rows.
 */
module Inventories {
  import opened Wrappers
  import opened Text
  import opened VersionTuple
  import opened Psirt
  import opened Recommend
  import opened Audit

  /** `INVENTORY` of Network-equipment-version.py. */
  const NetworkInventory: seq<Device> := [
    Device("C5FIRSIT01", "FortiGate 61E", "FortiOS 7.4.7M"),
    Device("C6FIRSIT01", "FortiGate 61E", "FortiOS 7.4.7M"),
    Device("FW-MAIN-ONEDC-1", "FortiGate 1100E", "FortiOS 7.4.7M"),
    Device("FW-MAIN-ONEDC-2", "FortiGate 1100E", "FortiOS 7.4.7M"),
    Device("FW-EDGE-ONEDC-1", "FortiGate 200F", "FortiOS 7.4.7M"),
    Device("FW-EDGE-ONEDC-2", "FortiGate 200F", "FortiOS 7.4.7M"),
    Device("FORTIMANAGER", "FortiManager VM64", "FortiManager 7.6.4"),
    Device("C5_RV_SW01", "Cisco Catalyst 9410R", "IOS-XE 17.9.4"),
    Device("C6_RV_SW01", "Cisco Catalyst 9410R", "IOS-XE 17.9.4"),
    Device("CS-ONEDC-1", "Cisco Nexus 93240YC-FX2", "NX-OS 10.3(6)(M)"),
    Device("CS-ONEDC-1-spare", "Cisco Nexus 93240YC-FX2", "NX-OS 10.4(5)(M)"),
    Device("CS-ONEDC-2", "Cisco Nexus 93240YC-FX2", "NX-OS 10.3(6)(M)"),
    Device("CS-ONEDC-2-spare", "Cisco Nexus 93240YC-FX2", "NX-OS 10.4(5)(M)"),
    Device("RP-ONEDC-1", "F5 BIG-IP VE-200M", "BIG-IP 17.1.3"),
    Device("RP-ONEDC-2", "F5 BIG-IP VE-200M", "BIG-IP 17.1.3")
  ]

  /** `INVENTORY` of Aegis-SentinelScanner.py. */
  const AegisInventory: seq<Device> := [
    Device("US-EDGE-FW01", "FortiGate 100F", "FortiOS 7.0.12M"),
    Device("EU-DC-CLUSTER-A", "FortiGate 1500D", "FortiOS 7.2.5M"),
    Device("LAB-SANDBOX-FG", "FortiGate VM64-KVM", "FortiOS 6.4.14M"),
    Device("GLOBAL-FMG-01", "FortiManager 3000G", "FortiManager 7.4.2"),
    Device("FLOOR1-ASW-01", "Cisco Catalyst 9300-48P", "IOS-XE 17.6.5"),
    Device("CORE-VSS-STACK", "Cisco Catalyst 9500", "IOS-XE 17.3.3"),
    Device("LEAF-POD1-101", "Cisco Nexus 93180YC-EX", "NX-OS 9.3(10)"),
    Device("SPINE-CORE-201", "Cisco Nexus 9504", "NX-OS 10.2(3)M"),
    Device("PROD-LTM-LB01", "F5 BIG-IP i5800", "BIG-IP 15.1.8"),
    Device("EDGE-WAF-02", "F5 BIG-IP i2800", "BIG-IP 16.1.3"),
    Device("GLOBAL-GTM-VE", "F5 BIG-IP VE-1G", "BIG-IP 17.0.0")
  ]

  /** A network on which every request fails. */
  function Offline(url: string): Option<string> {
    None
  }

  /** A network on which only the FortiManager advisory page answers. */
  function FortiManagerPageOnly(url: string): Option<string> {
    if url == PsirtUrl("FortiManager") then Some(Advisory) else None
  }

  /** The FortiManager advisory page of `FortiManagerPageOnly`: 7.4.5 twice, 7.6.3 once. */
  const Advisory: string := "7.4.5 7.6.3 7.4.5"

  // Helpers for evaluating the definitions on literals.
  //
  // The worked examples below take the string as a parameter pinned by
  // `requires s == "..."` rather than stating the fact about the literal
  // directly. A function applied to a literal argument is evaluated by the
  // verifier as far as it can go, and for the scans over whole inventory
  // strings that evaluation is far more costly than the few steps each
  // example spells out with the generic lemmas here. Calling an example on
  // the literal (`ToTupleFortiOS(NetworkInventory[0].current)`) gives the
  // fact about the literal itself.

  /**
   * `s` does not contain `t` when, at every place `t` could start, the
   * character that would face `t[j]` differs from it.
   */
  lemma {:induction false} NotContainsChar(s: string, t: string, j: nat)
    requires j < |t|
    requires forall i :: j <= i < |s| && i - j + |t| <= |s| ==> s[i] != t[j]
    ensures !Contains(s, t)
    decreases |s|
  {
    PrefixAgrees(s, t, j);
    if |s| > 0 {
      assert forall i :: j <= i < |s| - 1 && i - j + |t| <= |s| - 1 ==> s[1..][i] == s[i + 1];
      NotContainsChar(s[1..], t, j);
    }
  }

  /** A prefix agrees with the string at each of its positions. */
  lemma PrefixAgrees(s: string, t: string, j: nat)
    requires j < |t|
    ensures t <= s ==> s[j] == t[j]
  {
  }

  /** `t` occurring at a known place is contained. */
  lemma ContainsAt(s: string, t: string, i: nat)
    requires OccursAt(s, t, i)
    ensures Contains(s, t)
  {
    ContainsIff(s, t);
  }

  /** The digit scan passes over a block of non-digits without finding a run. */
  lemma {:induction false} SkipNonDigits(s: string, i: nat, j: nat)
    requires i <= j <= |s|
    requires forall k :: i <= k < j ==> !IsDigit(s[k])
    ensures RunsFrom(s, i) == RunsFrom(s, j)
    decreases j - i
  {
    if i < j {
      SkipNonDigits(s, i + 1, j);
    }
  }

  /** The scan at the start `i` of a run `s[i..j]` reports that run, then resumes at `j`. */
  lemma RunAt(s: string, i: nat, j: nat)
    requires i < j <= |s|
    requires forall k :: i <= k < j ==> IsDigit(s[k])
    requires j < |s| ==> !IsDigit(s[j])
    ensures RunsFrom(s, i) == [s[i..j]] + RunsFrom(s, j)
  {
    RunEndIs(s, i, j);
  }

  /** A slice equals the string its characters spell. */
  lemma SliceIs(s: string, i: nat, t: string)
    requires i + |t| <= |s|
    requires forall k :: 0 <= k < |t| ==> s[i + k] == t[k]
    ensures s[i..i + |t|] == t
  {
  }

  /**
   * A string made of three digit runs `s[i0..i1]`, `s[j0..j1]`, `s[k0..k1]`
   * separated, led and trailed by non-digits yields exactly those runs.
   */
  lemma ThreeRuns(s: string, i0: nat, i1: nat, j0: nat, j1: nat, k0: nat, k1: nat)
    requires i0 < i1 < j0 < j1 < k0 < k1 <= |s|
    requires forall k :: 0 <= k < i0 ==> !IsDigit(s[k])
    requires forall k :: i0 <= k < i1 ==> IsDigit(s[k])
    requires forall k :: i1 <= k < j0 ==> !IsDigit(s[k])
    requires forall k :: j0 <= k < j1 ==> IsDigit(s[k])
    requires forall k :: j1 <= k < k0 ==> !IsDigit(s[k])
    requires forall k :: k0 <= k < k1 ==> IsDigit(s[k])
    requires forall k :: k1 <= k < |s| ==> !IsDigit(s[k])
    ensures DigitRuns(s) == [s[i0..i1], s[j0..j1], s[k0..k1]]
  {
    SkipNonDigits(s, 0, i0);
    RunAt(s, i0, i1);
    SkipNonDigits(s, i1, j0);
    RunAt(s, j0, j1);
    SkipNonDigits(s, j1, k0);
    RunAt(s, k0, k1);
    SkipNonDigits(s, k1, |s|);
  }

  // The parser on the examples the script's data holds.

  lemma RunsOfFortiOS(s: string)
    requires s == "FortiOS 7.4.7M"
    ensures DigitRuns(s) == ["7", "4", "7"]
  {
    ThreeRuns(s, 8, 9, 10, 11, 12, 13);
    SliceIs(s, 8, "7");
    SliceIs(s, 10, "4");
    SliceIs(s, 12, "7");
  }

  /** A FortiOS build with the "M" marker parses as its three numbers. */
  lemma ToTupleFortiOS(s: string)
    requires s == "FortiOS 7.4.7M"
    ensures ToTuple(s) == [7, 4, 7]
  {
    RunsOfFortiOS(s);
    assert Values(["7", "4", "7"]) == [7, 4, 7];
  }

  lemma RunsOfNxOs(s: string)
    requires s == "NX-OS 10.3(6)(M)"
    ensures DigitRuns(s) == ["10", "3", "6"]
  {
    ThreeRuns(s, 6, 8, 9, 10, 11, 12);
    SliceIs(s, 6, "10");
    SliceIs(s, 9, "3");
    SliceIs(s, 11, "6");
  }

  /** An NX-OS release with parentheses parses as its three numbers. */
  lemma ToTupleNxOs(s: string)
    requires s == "NX-OS 10.3(6)(M)"
    ensures ToTuple(s) == [10, 3, 6]
  {
    RunsOfNxOs(s);
    assert Values(["10", "3", "6"]) == [10, 3, 6];
  }

  lemma RunsOfCatalystTarget(s: string)
    requires s == "17.9.6a"
    ensures DigitRuns(s) == ["17", "9", "6"]
  {
    ThreeRuns(s, 0, 2, 3, 4, 5, 6);
    SliceIs(s, 0, "17");
    SliceIs(s, 3, "9");
    SliceIs(s, 5, "6");
  }

  /** A trailing letter is dropped: the Catalyst target parses as (17, 9, 6). */
  lemma ToTupleCatalystTarget(s: string)
    requires s == "17.9.6a"
    ensures ToTuple(s) == [17, 9, 6]
  {
    RunsOfCatalystTarget(s);
    assert Values(["17", "9", "6"]) == [17, 9, 6];
  }

  lemma RunsOfNexusTarget(s: string)
    requires s == "10.4(6)M"
    ensures DigitRuns(s) == ["10", "4", "6"]
  {
    ThreeRuns(s, 0, 2, 3, 4, 5, 6);
    SliceIs(s, 0, "10");
    SliceIs(s, 3, "4");
    SliceIs(s, 5, "6");
  }

  /** The Nexus maintenance target parses as (10, 4, 6). */
  lemma ToTupleNexusTarget(s: string)
    requires s == "10.4(6)M"
    ensures ToTuple(s) == [10, 4, 6]
  {
    RunsOfNexusTarget(s);
    assert Values(["10", "4", "6"]) == [10, 4, 6];
  }

  // The PSIRT scan.

  /**
   * Matches do not overlap: in "7.1.7.2.3" the scan takes "7.1.7" and
   * resumes after it, so "7.2.3" is never seen.
   */
  lemma MatchesDoNotOverlap(s: string)
    requires s == "7.1.7.2.3"
    ensures FindVersions(s) == ["7.1.7"]
  {
    MatchHere(s, 0);
    assert s[0..5] == "7.1.7";
  }

  // Single rows of the inventories.

  /** A "FortiGate ..." name takes the Fortinet branch, keyed "FortiOS", with the " (M)" suffix. */
  lemma FortiGateDispatch(hw: string)
    requires "FortiGate" <= hw
    ensures Contains(hw, "Forti") && ProductKey(hw) == "FortiOS" && SuffixFor(hw) == FortiGateSuffix
  {
    ContainsPrefix(hw, "FortiGate", "Forti");
    assert OccursAt(hw, "Gate", 5) by {
      assert hw[5..9] == "FortiGate"[5..9];
    }
    ContainsAt(hw, "Gate", 5);
  }

  /** A FortiGate whose FortiOS fetch fails is recommended the suffixed fallbacks. */
  lemma FortiGateFallbackPair(hw: string, current: string, session: string -> Option<string>)
    requires "FortiGate" <= hw && session(PsirtUrl("FortiOS")) == None
    ensures Recommendation(hw, current, session) == ("7.4.8 (M)", "7.6.4 (M)")
  {
    FortiGateDispatch(hw);
    FetchFailureFallbacks(hw, current, session);
    SuffixedFallbacks();
  }

  lemma SuffixedFallbacks()
    ensures MaintenanceFallback + FortiGateSuffix == "7.4.8 (M)"
    ensures EvolutionFallback + FortiGateSuffix == "7.6.4 (M)"
  {
  }

  /** The suffixed maintenance fallback parses as (7, 4, 8). */
  lemma ToTupleFallback(s: string)
    requires s == "7.4.8 (M)"
    ensures ToTuple(s) == [7, 4, 8]
  {
    assert IsSevenVersion("7.4.8") && NoDigits(" (M)");
    assert s == "" + "7.4.8" + " (M)";
    ToTupleIgnoresDecoration("7.4.8", "", " (M)");
    SevenVersionTuple("7.4.8");
  }

  /**
   * A FortiGate on a 7.4.7 build whose FortiOS fetch fails is held against
   * the fallbacks 7.4.8 (M) and 7.6.4 (M), and needs an upgrade.
   */
  lemma FortiGateOnFallbacks(d: Device, session: string -> Option<string>)
    requires "FortiGate" <= d.hardware && !Contains(d.hardware, "FortiManager")
    requires ToTuple(d.current) == [7, 4, 7]
    requires session(PsirtUrl("FortiOS")) == None
    ensures AuditDevice(d, session) == AuditRow(d, "7.4.8 (M)", "7.6.4 (M)", UpgradeNeeded)
  {
    FortiGateFallbackPair(d.hardware, d.current, session);
    ToTupleFallback("7.4.8 (M)");
    assert Less([7, 4, 7], [7, 4, 8]);
    UpgradeRow(d, session, "7.4.8 (M)", "7.6.4 (M)");
  }

  lemma FortiGate61E(hw: string)
    requires hw == "FortiGate 61E"
    ensures "FortiGate" <= hw && !Contains(hw, "FortiManager")
  {
    NotContainsChar(hw, "FortiManager", 5);
  }

  /** With the network down, the first FortiGate of the first inventory needs an upgrade. */
  lemma FortiGateOffline()
    ensures AuditDevice(NetworkInventory[0], Offline)
      == AuditRow(NetworkInventory[0], "7.4.8 (M)", "7.6.4 (M)", UpgradeNeeded)
  {
    FortiGate61E(NetworkInventory[0].hardware);
    ToTupleFortiOS(NetworkInventory[0].current);
    FortiGateOnFallbacks(NetworkInventory[0], Offline);
  }

  lemma ManagerOnSevenSixFour(hw: string, current: string)
    requires hw == "FortiManager VM64" && current == "FortiManager 7.6.4"
    ensures Contains(hw, "FortiManager") && Contains(current, "7.6.4")
  {
    assert OccursAt(hw, "FortiManager", 0);
    ContainsAt(hw, "FortiManager", 0);
    assert OccursAt(current, "7.6.4", 13) by {
      assert current[13..18] == "7.6.4";
    }
    ContainsAt(current, "7.6.4", 13);
  }

  /**
   * The FortiManager of the first inventory, on 7.6.4, is overridden: it is
   * reported OK against 7.6.4 and "N/A" on any network.
   */
  lemma FortiManagerOverride(session: string -> Option<string>)
    ensures AuditDevice(NetworkInventory[6], session) == AuditRow(NetworkInventory[6], "7.6.4", "N/A", Ok)
  {
    ManagerOnSevenSixFour(NetworkInventory[6].hardware, NetworkInventory[6].current);
  }

  /**
   * A Nexus switch on 10.3(6) is held against the fixed pair 10.4(6)M and
   * 10.5(1)M, and needs an upgrade, whatever the network answers.
   */
  lemma NexusOnFixedPair(d: Device, session: string -> Option<string>)
    requires !Contains(d.hardware, "Forti") && !Contains(d.hardware, "Catalyst") && Contains(d.hardware, "Nexus")
    requires ToTuple(d.current) == [10, 3, 6]
    ensures AuditDevice(d, session) == AuditRow(d, "10.4(6)M", "10.5(1)M", UpgradeNeeded)
  {
    assert !Override(d) by {
      if Contains(d.hardware, "FortiManager") {
        ContainsPrefix(d.hardware, "FortiManager", "Forti");
      }
    }
    UpgradeIffOlderThanMaintenance(d, session);
    ToTupleNexusTarget("10.4(6)M");
    assert Less([10, 3, 6], [10, 4, 6]);
    var r := AuditDevice(d, session);
    assert r.maint == "10.4(6)M" && r.evo == "10.5(1)M";
  }

  lemma NexusIsNotForti(hw: string)
    requires hw == "Cisco Nexus 93240YC-FX2"
    ensures !Contains(hw, "Forti")
  {
    NotContainsChar(hw, "Forti", 2);
  }

  lemma NexusIsNotCatalyst(hw: string)
    requires hw == "Cisco Nexus 93240YC-FX2"
    ensures !Contains(hw, "Catalyst")
  {
    NotContainsChar(hw, "Catalyst", 1);
  }

  lemma NexusIsNexus(hw: string)
    requires hw == "Cisco Nexus 93240YC-FX2"
    ensures Contains(hw, "Nexus")
  {
    SliceIs(hw, 6, "Nexus");
    ContainsAt(hw, "Nexus", 6);
  }

  /** The Nexus model name of the first inventory takes the fixed Nexus pair. */
  lemma NexusHardware(hw: string)
    requires hw == "Cisco Nexus 93240YC-FX2"
    ensures !Contains(hw, "Forti") && !Contains(hw, "Catalyst") && Contains(hw, "Nexus")
  {
    NexusIsNotForti(hw);
    NexusIsNotCatalyst(hw);
    NexusIsNexus(hw);
  }

  /** The first Nexus row of the first inventory needs an upgrade on any network. */
  lemma NexusRow(session: string -> Option<string>)
    ensures AuditDevice(NetworkInventory[9], session)
      == AuditRow(NetworkInventory[9], "10.4(6)M", "10.5(1)M", UpgradeNeeded)
  {
    var d := NetworkInventory[9];
    NexusHardware(d.hardware);
    ToTupleNxOs(d.current);
    NexusOnFixedPair(d, session);
  }

  // A FortiManager answered from the network.

  /** The scan reports a match at `i` and resumes after it. */
  lemma MatchHere(s: string, i: nat)
    requires MatchAt(s, i)
    ensures MatchesFrom(s, i) == [s[i..i + 5]] + MatchesFrom(s, i + 5)
  {
  }

  /** The scan moves past an index where the pattern does not match. */
  lemma NoMatchHere(s: string, i: nat)
    requires i + 5 <= |s| && !MatchAt(s, i)
    ensures MatchesFrom(s, i) == MatchesFrom(s, i + 1)
  {
  }

  lemma AdvisoryFirst(s: string)
    requires s == "7.4.5 7.6.3 7.4.5"
    ensures MatchesFrom(s, 0) == ["7.4.5"] + MatchesFrom(s, 6)
  {
    MatchHere(s, 0);
    NoMatchHere(s, 5);
    assert s[0..5] == "7.4.5";
  }

  lemma AdvisorySecond(s: string)
    requires s == "7.4.5 7.6.3 7.4.5"
    ensures MatchesFrom(s, 6) == ["7.6.3"] + MatchesFrom(s, 12)
  {
    MatchHere(s, 6);
    NoMatchHere(s, 11);
    assert s[6..11] == "7.6.3";
  }

  lemma AdvisoryThird(s: string)
    requires s == "7.4.5 7.6.3 7.4.5"
    ensures MatchesFrom(s, 12) == ["7.4.5"]
  {
    MatchHere(s, 12);
    assert s[12..17] == "7.4.5";
  }

  /** The scan of the advisory text finds 7.4.5, 7.6.3 and 7.4.5 again. */
  lemma AdvisoryMatches(s: string)
    requires s == "7.4.5 7.6.3 7.4.5"
    ensures FindVersions(s) == ["7.4.5", "7.6.3", "7.4.5"]
  {
    AdvisoryFirst(s);
    AdvisorySecond(s);
    AdvisoryThird(s);
  }

  /** Two 7.x versions, newest first. */
  lemma NewestFirstPair(l: seq<string>)
    requires l == ["7.6.3", "7.4.5"]
    ensures StrictlyDecreasing(l)
  {
    SevenVersionTuple(l[0]);
    SevenVersionTuple(l[1]);
    assert Less(ToTuple(l[1]), ToTuple(l[0]));
  }

  /** An advisory page mentioning 7.4.5 twice and 7.6.3 once yields [7.6.3, 7.4.5]. */
  lemma AdvisoryCandidates(session: string -> Option<string>, text: string)
    requires session(PsirtUrl("FortiManager")) == Some(text)
    requires text == "7.4.5 7.6.3 7.4.5"
    ensures FetchedFor(session, "FortiManager") == ["7.6.3", "7.4.5"]
  {
    AdvisoryMatches(text);
    var l := ["7.6.3", "7.4.5"];
    NewestFirstPair(l);
    StrictlyDecreasingUnique(l, FetchedFor(session, "FortiManager"));
  }

  /** Two candidates, a 7.6 release before a 7.4 release. */
  predicate SixThenFour(data: seq<string>) {
    && |data| == 2 && IsSevenVersion(data[0]) && IsSevenVersion(data[1])
    && data[0][2] == '6' && data[1][2] == '4'
  }

  /** On a 7.4 build the 7.4 release is the maintenance pick. */
  lemma ManagerMaintenance(current: string, data: seq<string>)
    requires Branch(ToTuple(current)) == [7, 4] && SixThenFour(data)
    ensures MaintenanceCandidate(data, current) == data[1]
  {
    SevenVersionTuple(data[0]);
    SevenVersionTuple(data[1]);
    assert !OnBranch(data[0], [7, 4]) && OnBranch(data[1], [7, 4]);
  }

  /** On a 7.4 build the 7.6 release is the evolution pick. */
  lemma ManagerEvolution(current: string, data: seq<string>)
    requires Branch(ToTuple(current)) == [7, 4] && SixThenFour(data)
    ensures EvolutionCandidate(data, current) == data[0]
  {
    SevenVersionTuple(data[0]);
    assert AboveBranch(data[0], [7, 4]);
  }

  /**
   * With that advisory page, a FortiManager on a 7.4 build is pointed to
   * 7.4.5 for maintenance and 7.6.3 for evolution.
   */
  lemma AdvisoryPicks(session: string -> Option<string>, current: string)
    requires session(PsirtUrl("FortiManager")) == Some(Advisory)
    requires Branch(ToTuple(current)) == [7, 4]
    ensures MaintenanceCandidate(FetchedFor(session, "FortiManager"), current) == "7.4.5"
    ensures EvolutionCandidate(FetchedFor(session, "FortiManager"), current) == "7.6.3"
  {
    AdvisoryCandidates(session, Advisory);
    var data := FetchedFor(session, "FortiManager");
    assert SixThenFour(data);
    ManagerMaintenance(current, data);
    ManagerEvolution(current, data);
  }

  lemma FortiManager3000G(hw: string)
    requires hw == "FortiManager 3000G"
    ensures Contains(hw, "Forti") && !Contains(hw, "Gate")
  {
    assert OccursAt(hw, "Forti", 0);
    ContainsAt(hw, "Forti", 0);
    NotContainsChar(hw, "Gate", 0);
  }

  lemma FortiManagerSevenFourTwo(current: string)
    requires current == "FortiManager 7.4.2"
    ensures !Contains(current, "7.6.4")
  {
    NotContainsChar(current, "7.6.4", 2);
  }

  lemma ToTupleFortiManager(current: string)
    requires current == "FortiManager 7.4.2"
    ensures ToTuple(current) == [7, 4, 2]
  {
    assert NoDigits("FortiManager ") && IsSevenVersion("7.4.2");
    assert current == "FortiManager " + "7.4.2" + "";
    ToTupleIgnoresDecoration("7.4.2", "FortiManager ", "");
    SevenVersionTuple("7.4.2");
  }


  /**
   * A FortiManager (no "Gate" in its name, not overridden) on a 7.4.2 build,
   * on a network whose FortiManager advisory page reads like
   * `FortiManagerPageOnly`'s, is recommended 7.4.5 and 7.6.3 and needs an
   * upgrade.
   */
  lemma FortiManagerOnAdvisory(d: Device, session: string -> Option<string>)
    requires Contains(d.hardware, "Forti") && !Contains(d.hardware, "Gate") && !Override(d)
    requires ToTuple(d.current) == [7, 4, 2]
    requires session(PsirtUrl("FortiManager")) == Some(Advisory)
    ensures AuditDevice(d, session) == AuditRow(d, "7.4.5", "7.6.3", UpgradeNeeded)
  {
    assert Branch([7, 4, 2]) == [7, 4];
    AdvisoryPicks(session, d.current);
    UnsuffixedPair(d.hardware, d.current, FetchedFor(session, "FortiManager"));
    assert IsSevenVersion("7.4.5");
    SevenVersionTuple("7.4.5");
    assert Less([7, 4, 2], [7, 4, 5]);
    UpgradeRow(d, session, "7.4.5", "7.6.3");
  }

  /**
   * On such a network the FortiManager of the second inventory needs an
   * upgrade to 7.4.5, with 7.6.3 as its evolution.
   */
  lemma FortiManagerRow(session: string -> Option<string>)
    requires session(PsirtUrl("FortiManager")) == Some(Advisory)
    ensures AuditDevice(AegisInventory[3], session)
      == AuditRow(AegisInventory[3], "7.4.5", "7.6.3", UpgradeNeeded)
  {
    var d := AegisInventory[3];
    FortiManager3000G(d.hardware);
    FortiManagerSevenFourTwo(d.current);
    ToTupleFortiManager(d.current);
    FortiManagerOnAdvisory(d, session);
  }

  /** `FortiManagerPageOnly` is such a network. */
  lemma PageOnlyAnswersAdvisory()
    ensures FortiManagerPageOnly(PsirtUrl("FortiManager")) == Some(Advisory)
  {
  }
}
