/**
 * The `InfrastructureAudit` object: its per-object cache of fetched
 * candidate lists, `get_recommendations`, and the `run` loop that turns an
 * inventory into result rows with a status each.
 */
module Audit {
  import opened Wrappers
  import opened Text
  import opened VersionTuple
  import opened Psirt
  import opened Recommend

  /** One inventory entry: its `Name`, `Hardware` and `Current` fields. */
  datatype Device = Device(name: string, hardware: string, current: string)

  /** The two values the `status` field of a result row can take. */
  datatype Status = Ok | UpgradeNeeded {
    /** The text the row carries. */
    function Label(): (s: string)
      ensures s == "OK" || s == "Upgrade Needed"
      ensures s == "OK" <==> this == Ok
    {
      match this
      case Ok => "OK"
      case UpgradeNeeded => "Upgrade Needed"
    }
  }

  /** A result row: the inventory entry's fields plus `maint`, `evo` and `status`. */
  datatype AuditRow = AuditRow(device: Device, maint: string, evo: string, status: Status)

  /** The status before the override: current at least the maintenance version is OK. */
  function StatusFor(current: string, maint: string): Status {
    if LessEq(ToTuple(maint), ToTuple(current)) then Ok else UpgradeNeeded
  }

  /** The FortiManager already on 7.6.4 is reported as up to date, whatever was recommended. */
  predicate Override(d: Device) {
    Contains(d.hardware, "FortiManager") && Contains(d.current, "7.6.4")
  }

  /**
   * The row `run` produces for one device, given the network: the
   * recommendation and the tuple comparison first, the override after.
   */
  function AuditDevice(d: Device, session: string -> Option<string>): (r: AuditRow)
    ensures r.device == d
    ensures Override(d) ==> r.maint == "7.6.4" && r.evo == "N/A" && r.status == Ok
    ensures !Override(d) ==> (r.maint, r.evo) == Recommendation(d.hardware, d.current, session)
    ensures !Override(d) ==> r.status == StatusFor(d.current, r.maint)
  {
    var (maint, evo) := Recommendation(d.hardware, d.current, session);
    if Override(d) then AuditRow(d, "7.6.4", "N/A", Ok)
    else AuditRow(d, maint, evo, StatusFor(d.current, maint))
  }

  /** `audit` applied to each device in turn: the list `run` appends to, in order. */
  function Rows(devices: seq<Device>, audit: Device -> AuditRow): seq<AuditRow> {
    if |devices| == 0 then []
    else Rows(devices[..|devices| - 1], audit) + [audit(devices[|devices| - 1])]
  }

  /** One row per device, in the inventory's order. */
  lemma {:induction false} RowsSpec(devices: seq<Device>, audit: Device -> AuditRow)
    ensures |Rows(devices, audit)| == |devices|
    ensures forall k :: 0 <= k < |devices| ==> Rows(devices, audit)[k] == audit(devices[k])
  {
    if |devices| > 0 {
      var front := devices[..|devices| - 1];
      RowsSpec(front, audit);
      assert forall k :: 0 <= k < |front| ==> front[k] == devices[k];
    }
  }

  /** Extending an inventory by one device appends that device's row. */
  lemma RowsStep(devices: seq<Device>, audit: Device -> AuditRow, i: nat)
    requires i < |devices|
    ensures Rows(devices[..i + 1], audit) == Rows(devices[..i], audit) + [audit(devices[i])]
  {
    assert devices[..i + 1][..i] == devices[..i];
  }

  /** The audit of one device against a given network, as a value. */
  function Auditor(session: string -> Option<string>): Device -> AuditRow {
    d => AuditDevice(d, session)
  }

  /** The rows `run` produces for an inventory. */
  function AuditAll(devices: seq<Device>, session: string -> Option<string>): seq<AuditRow> {
    Rows(devices, Auditor(session))
  }

  /** `run` yields one row per device, in order, each the row `AuditDevice` gives. */
  lemma AuditAllRows(devices: seq<Device>, session: string -> Option<string>)
    ensures |AuditAll(devices, session)| == |devices|
    ensures forall k :: 0 <= k < |devices| ==> AuditAll(devices, session)[k] == AuditDevice(devices[k], session)
  {
    RowsSpec(devices, Auditor(session));
  }

  /** The cache key a recommendation for this hardware needs, if it is Fortinet hardware. */
  function KeyOf(hw: string): set<string> {
    if Contains(hw, "Forti") then {ProductKey(hw)} else {}
  }

  /** The cache keys an inventory fills. */
  function FortiKeys(devices: seq<Device>): set<string> {
    if |devices| == 0 then {}
    else FortiKeys(devices[..|devices| - 1]) + KeyOf(devices[|devices| - 1].hardware)
  }

  /**
   * The keys an inventory fills are among the two Fortinet families: the
   * key of every Fortinet device, and nothing a device did not need.
   */
  lemma {:induction false} FortiKeysSpec(devices: seq<Device>)
    ensures FortiKeys(devices) <= {"FortiOS", "FortiManager"}
    ensures forall k :: 0 <= k < |devices| && Contains(devices[k].hardware, "Forti") ==>
                          ProductKey(devices[k].hardware) in FortiKeys(devices)
    ensures forall key :: key in FortiKeys(devices) ==>
                            exists k :: 0 <= k < |devices| && key in KeyOf(devices[k].hardware)
  {
    if |devices| > 0 {
      var front := devices[..|devices| - 1];
      FortiKeysSpec(front);
      assert forall k :: 0 <= k < |front| ==> front[k] == devices[k];
    }
  }

  /** Extending an inventory by one device adds that device's key. */
  lemma FortiKeysStep(devices: seq<Device>, i: nat)
    requires i < |devices|
    ensures FortiKeys(devices[..i + 1]) == FortiKeys(devices[..i]) + KeyOf(devices[i].hardware)
  {
    assert devices[..i + 1][..i] == devices[..i];
  }

  /** The row the loop body of `run` builds from a device's recommendation. */
  lemma RowOfRecommendation(d: Device, session: string -> Option<string>, maint: string, evo: string)
    requires (maint, evo) == Recommendation(d.hardware, d.current, session)
    ensures AuditDevice(d, session)
      == if Override(d) then AuditRow(d, "7.6.4", "N/A", Ok) else AuditRow(d, maint, evo, StatusFor(d.current, maint))
  {
  }

  /** A device outside the override whose current tuple is below its maintenance pick needs an upgrade. */
  lemma UpgradeRow(d: Device, session: string -> Option<string>, maint: string, evo: string)
    requires !Override(d)
    requires (maint, evo) == Recommendation(d.hardware, d.current, session)
    requires Less(ToTuple(d.current), ToTuple(maint))
    ensures AuditDevice(d, session) == AuditRow(d, maint, evo, UpgradeNeeded)
  {
    AtLeastIffNotLess(ToTuple(d.current), ToTuple(maint));
    RowOfRecommendation(d, session, maint, evo);
  }

  // Properties of the status rule.

  /**
   * Outside the override, a device needs an upgrade exactly when its current
   * version is older than the recommended maintenance version.
   */
  lemma UpgradeIffOlderThanMaintenance(d: Device, session: string -> Option<string>)
    requires !Override(d)
    ensures AuditDevice(d, session).status == UpgradeNeeded
            <==> Less(ToTuple(d.current), ToTuple(AuditDevice(d, session).maint))
  {
    var r := AuditDevice(d, session);
    AtLeastIffNotLess(ToTuple(d.current), ToTuple(r.maint));
  }

  /**
   * A Fortinet device outside the override, whose branch has fetched
   * candidates, needs an upgrade exactly when a newer release of its own
   * major.minor branch was fetched.
   */
  lemma FortinetUpgradeIffNewerOnBranch(d: Device, session: string -> Option<string>)
    requires Contains(d.hardware, "Forti") && !Override(d)
    requires exists k :: 0 <= k < |FetchedFor(session, ProductKey(d.hardware))|
                         && OnBranch(FetchedFor(session, ProductKey(d.hardware))[k], Branch(ToTuple(d.current)))
    ensures AuditDevice(d, session).status == UpgradeNeeded
            <==> exists w :: w in FetchedFor(session, ProductKey(d.hardware))
                             && OnBranch(w, Branch(ToTuple(d.current))) && Less(ToTuple(d.current), ToTuple(w))
  {
    var data := FetchedFor(session, ProductKey(d.hardware));
    var branch := Branch(ToTuple(d.current));
    var cur := ToTuple(d.current);
    var m := MaintenanceCandidate(data, d.current);
    MaintenanceIsNewestOnBranch(data, d.current);
    SuffixKeepsTuples(d.hardware, d.current, data);
    UpgradeIffOlderThanMaintenance(d, session);
    var r := AuditDevice(d, session);
    assert ToTuple(r.maint) == ToTuple(m);
    if r.status == UpgradeNeeded {
      assert m in data && OnBranch(m, branch) && Less(cur, ToTuple(m));
    }
    forall w | w in data && OnBranch(w, branch) && Less(cur, ToTuple(w))
      ensures r.status == UpgradeNeeded
    {
      if ToTuple(w) != ToTuple(m) {
        LessTransitive(cur, ToTuple(w), ToTuple(m));
      }
    }
  }

  /**
   * When no fetched candidate is on the device's branch (in particular when
   * the fetch failed), the device is compared against the literal 7.4.8.
   */
  lemma FortinetFallbackStatus(d: Device, session: string -> Option<string>)
    requires Contains(d.hardware, "Forti") && !Override(d)
    requires forall k :: 0 <= k < |FetchedFor(session, ProductKey(d.hardware))|
                         ==> !OnBranch(FetchedFor(session, ProductKey(d.hardware))[k], Branch(ToTuple(d.current)))
    ensures AuditDevice(d, session).maint == MaintenanceFallback + SuffixFor(d.hardware)
    ensures AuditDevice(d, session).status == UpgradeNeeded <==> Less(ToTuple(d.current), [7, 4, 8])
  {
    var data := FetchedFor(session, ProductKey(d.hardware));
    MaintenanceFallbackOffBranch(data, d.current);
    var m := MaintenanceCandidate(data, d.current);
    SuffixKeepsTuple(m, d.hardware);
    UpgradeIffOlderThanMaintenance(d, session);
    var r := AuditDevice(d, session);
    assert r.maint == m + SuffixFor(d.hardware);
  }

  /**
   * Hardware of no known family is recommended "N/A" twice, which parses as
   * (0, 0, 0): only a current version whose tuple is below that, such as a
   * lone "0", is reported as needing an upgrade.
   */
  lemma UnknownHardwareStatus(d: Device, session: string -> Option<string>)
    requires !Contains(d.hardware, "Forti") && !Contains(d.hardware, "Catalyst")
    requires !Contains(d.hardware, "Nexus") && !Contains(d.hardware, "BIG-IP")
    ensures AuditDevice(d, session).maint == "N/A" && AuditDevice(d, session).evo == "N/A"
    ensures AuditDevice(d, session).status == UpgradeNeeded <==> Less(ToTuple(d.current), [0, 0, 0])
  {
    assert !Override(d) by {
      if Contains(d.hardware, "FortiManager") {
        ContainsPrefix(d.hardware, "FortiManager", "Forti");
      }
    }
    assert NoDigits("N/A");
    UpgradeIffOlderThanMaintenance(d, session);
  }

  class InfrastructureAudit {
    /** The HTTP session, seen as what each URL answers: a body, or a failure. */
    const session: string -> Option<string>
    /** `self.cache`: product family to its candidate list. */
    var cache: map<string, seq<string>>
    /** Every product family fetched so far, in order. */
    ghost var fetches: seq<string>

    /**
     * The cache holds only the two Fortinet families, each fetched exactly
     * once and holding exactly what the fetch returned.
     */
    ghost predicate Valid()
      reads this
    {
      && NoDup(fetches)
      && (forall key :: key in cache <==> key in fetches)
      && (forall key :: key in cache ==> key == "FortiOS" || key == "FortiManager")
      && (forall key {:trigger cache[key]} :: key in cache ==> cache[key] == FetchedFor(session, key))
    }

    constructor(session: string -> Option<string>)
      ensures Valid()
      ensures this.session == session && cache == map[] && fetches == []
    {
      this.session := session;
      cache := map[];
      fetches := [];
    }

    /** `fetch_fortinet_versions(product)`: one request, then normalisation of what matched. */
    method FetchFortinetVersions(product: string) returns (versions: seq<string>)
      modifies this
      ensures versions == FetchedFor(session, product)
      ensures session(PsirtUrl(product)).None? ==> versions == []
      ensures NoDup(versions) && StrictlyDecreasing(versions)
      ensures cache == old(cache) && fetches == old(fetches) + [product]
    {
      var response := session(PsirtUrl(product));
      fetches := fetches + [product];
      versions := FortinetVersions(response);
    }

    /**
     * `get_recommendations(hw, current)`: the Fortinet branch fetches the
     * family's list only when it is not cached yet; the answer is the same
     * whether or not it was.
     */
    method GetRecommendations(hw: string, current: string) returns (maint: string, evo: string)
      requires Valid()
      modifies this
      ensures Valid()
      ensures (maint, evo) == Recommendation(hw, current, session)
      ensures Contains(hw, "Forti") && ProductKey(hw) !in old(cache) ==>
                && cache == old(cache)[ProductKey(hw) := FetchedFor(session, ProductKey(hw))]
                && fetches == old(fetches) + [ProductKey(hw)]
      ensures !(Contains(hw, "Forti") && ProductKey(hw) !in old(cache)) ==>
                cache == old(cache) && fetches == old(fetches)
      ensures cache.Keys == old(cache.Keys) + KeyOf(hw)
    {
      var currT := ToTuple(current);
      if Contains(hw, "Forti") {
        var key := ProductKey(hw);
        if key !in cache {
          var fetched := FetchFortinetVersions(key);
          cache := cache[key := fetched];
        }
        var data := cache[key];
        var maintV := Next(data, SameBranch(Branch(currT)), MaintenanceFallback);
        var evoV := Next(data, NewerBranch(Branch(currT)), EvolutionFallback);
        var suffix := SuffixFor(hw);
        maint, evo := maintV + suffix, evoV + suffix;
      } else {
        var pair := FixedPair(hw);
        maint, evo := pair.0, pair.1;
      }
    }

    /** The body of `run`'s loop for one inventory entry. */
    method AuditItem(item: Device) returns (row: AuditRow)
      requires Valid()
      modifies this
      ensures Valid()
      ensures row == AuditDevice(item, session)
      ensures cache.Keys == old(cache.Keys) + KeyOf(item.hardware)
    {
      var maint, evo := GetRecommendations(item.hardware, item.current);
      RowOfRecommendation(item, session, maint, evo);
      var vCurr := ToTuple(item.current);
      var vMaint := ToTuple(maint);
      var status := if LessEq(vMaint, vCurr) then Ok else UpgradeNeeded;
      if Contains(item.hardware, "FortiManager") && Contains(item.current, "7.6.4") {
        status := Ok;
        maint := "7.6.4";
        evo := "N/A";
      }
      row := AuditRow(item, maint, evo, status);
    }

    /**
     * `run()` over an inventory: one row per device, in order, each the row
     * `AuditDevice` describes; the cache ends up holding the families the
     * inventory's Fortinet devices needed.
     */
    method Run(inventory: seq<Device>) returns (results: seq<AuditRow>)
      requires Valid()
      modifies this
      ensures Valid()
      ensures results == AuditAll(inventory, session)
      ensures cache.Keys == old(cache.Keys) + FortiKeys(inventory)
    {
      results := [];
      var i := 0;
      while i < |inventory|
        invariant 0 <= i <= |inventory|
        invariant Valid()
        invariant results == AuditAll(inventory[..i], session)
        invariant cache.Keys == old(cache.Keys) + FortiKeys(inventory[..i])
      {
        ghost var before, added := FortiKeys(inventory[..i]), KeyOf(inventory[i].hardware);
        var row := AuditItem(inventory[i]);
        FortiKeysStep(inventory, i);
        assert cache.Keys == old(cache.Keys) + (before + added);
        RowsStep(inventory, Auditor(session), i);
        results := results + [row];
        i := i + 1;
      }
      assert inventory[..|inventory|] == inventory;
    }
  }
}
