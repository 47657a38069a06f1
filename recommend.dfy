/**
 * The recommendation rule of `get_recommendations`, as pure functions of the
 * hardware name, the current version and (for Fortinet devices) the list of
 * candidate versions fetched for the device's product family.
 */
module Recommend {
  import opened Wrappers
  import opened Text
  import opened VersionTuple
  import opened Psirt

  /** Maintenance recommendation when no candidate is on the current branch. */
  const MaintenanceFallback: string := "7.4.8"
  /** Evolution recommendation when no candidate is on a newer branch. */
  const EvolutionFallback: string := "7.6.4"
  /** Appended to both Fortinet recommendations for FortiGate hardware. */
  const FortiGateSuffix: string := " (M)"

  /** The PSIRT product family a Fortinet device is looked up under (the cache key). */
  function ProductKey(hw: string): string {
    if Contains(hw, "Gate") then "FortiOS" else "FortiManager"
  }

  /** `to_tuple(v)[:2] == branch`: the candidate is on the given major.minor branch. */
  predicate OnBranch(v: string, branch: seq<nat>) {
    Branch(ToTuple(v)) == branch
  }

  /** `to_tuple(v)[:2] > branch`: the candidate is on a newer branch. */
  predicate AboveBranch(v: string, branch: seq<nat>) {
    Less(branch, Branch(ToTuple(v)))
  }

  /** The filter of the maintenance generator, as a value. */
  function SameBranch(branch: seq<nat>): string -> bool {
    v => OnBranch(v, branch)
  }

  /** The filter of the evolution generator, as a value. */
  function NewerBranch(branch: seq<nat>): string -> bool {
    v => AboveBranch(v, branch)
  }

  /**
   * Where the generator `(v for v in data if test(v))`, resumed at index
   * `from`, stops; `|data|` if it runs out.
   */
  function IndexWhere(data: seq<string>, test: string -> bool, from: nat): (i: nat)
    requires from <= |data|
    ensures from <= i <= |data|
    ensures i < |data| ==> test(data[i])
    ensures forall k :: from <= k < i ==> !test(data[k])
    decreases |data| - from
  {
    if from == |data| || test(data[from]) then from
    else IndexWhere(data, test, from + 1)
  }

  /**
   * `next((v for v in data if test(v)), fallback)`: the first entry that
   * passes the test, or the fallback when none does.
   */
  function Next(data: seq<string>, test: string -> bool, fallback: string): (v: string)
    ensures || (v == fallback && forall k :: 0 <= k < |data| ==> !test(data[k]))
            || (exists i :: 0 <= i < |data| && data[i] == v && test(v)
                  && forall k :: 0 <= k < i ==> !test(data[k]))
  {
    var i := IndexWhere(data, test, 0);
    if i < |data| then data[i] else fallback
  }

  /** The maintenance candidate for a device on version `current`, before any suffix. */
  function MaintenanceCandidate(data: seq<string>, current: string): string {
    Next(data, SameBranch(Branch(ToTuple(current))), MaintenanceFallback)
  }

  /** The evolution candidate for a device on version `current`, before any suffix. */
  function EvolutionCandidate(data: seq<string>, current: string): string {
    Next(data, NewerBranch(Branch(ToTuple(current))), EvolutionFallback)
  }

  /** The suffix the Fortinet branch appends for this hardware. */
  function SuffixFor(hw: string): string {
    if Contains(hw, "Gate") then FortiGateSuffix else ""
  }

  /** The Fortinet branch of `get_recommendations`, given the cached candidate list. */
  function FortinetPair(hw: string, current: string, data: seq<string>): (string, string) {
    (MaintenanceCandidate(data, current) + SuffixFor(hw),
     EvolutionCandidate(data, current) + SuffixFor(hw))
  }

  /** The fixed answers for the other families, tried in the source's order. */
  function FixedPair(hw: string): (string, string) {
    if Contains(hw, "Catalyst") then ("17.9.6a", "17.12.4")
    else if Contains(hw, "Nexus") then ("10.4(6)M", "10.5(1)M")
    else if Contains(hw, "BIG-IP") then ("17.1.4", "18.1.0")
    else ("N/A", "N/A")
  }

  /** What the candidate list of a product family is, fetched through `session`. */
  function FetchedFor(session: string -> Option<string>, product: string): seq<string> {
    FortinetVersions(session(PsirtUrl(product)))
  }

  /**
   * `get_recommendations(hw, current)` as a function of the session: the
   * Fortinet branch is taken first, whatever else the name contains.
   */
  function Recommendation(hw: string, current: string, session: string -> Option<string>): (string, string) {
    if Contains(hw, "Forti") then FortinetPair(hw, current, FetchedFor(session, ProductKey(hw)))
    else FixedPair(hw)
  }

  // Properties of the selections.

  /**
   * On a newest-first list the first candidate on the current branch is the
   * newest one there: the maintenance version is the latest release of the
   * device's major.minor branch.
   */
  lemma MaintenanceIsNewestOnBranch(data: seq<string>, current: string)
    requires NonIncreasing(data)
    requires exists k :: 0 <= k < |data| && OnBranch(data[k], Branch(ToTuple(current)))
    ensures var m := MaintenanceCandidate(data, current);
      && m in data && OnBranch(m, Branch(ToTuple(current)))
      && forall w :: w in data && OnBranch(w, Branch(ToTuple(current))) ==> LessEq(ToTuple(w), ToTuple(m))
  {
    var branch := Branch(ToTuple(current));
    var m := MaintenanceCandidate(data, current);
    var i :| 0 <= i < |data| && data[i] == m && OnBranch(m, branch)
               && forall k :: 0 <= k < i ==> !OnBranch(data[k], branch);
    forall w | w in data && OnBranch(w, branch) ensures LessEq(ToTuple(w), ToTuple(m)) {
      var k :| 0 <= k < |data| && data[k] == w;
      if k != i {
        assert i < k;
      }
    }
  }

  /**
   * On a newest-first list the first candidate on a newer branch is the
   * newest candidate on any newer branch.
   */
  lemma EvolutionIsNewestAbove(data: seq<string>, current: string)
    requires NonIncreasing(data)
    requires exists k :: 0 <= k < |data| && AboveBranch(data[k], Branch(ToTuple(current)))
    ensures var e := EvolutionCandidate(data, current);
      && e in data && AboveBranch(e, Branch(ToTuple(current)))
      && forall w :: w in data && AboveBranch(w, Branch(ToTuple(current))) ==> LessEq(ToTuple(w), ToTuple(e))
  {
    var branch := Branch(ToTuple(current));
    var e := EvolutionCandidate(data, current);
    var i :| 0 <= i < |data| && data[i] == e && AboveBranch(e, branch)
               && forall k :: 0 <= k < i ==> !AboveBranch(data[k], branch);
    forall w | w in data && AboveBranch(w, branch) ensures LessEq(ToTuple(w), ToTuple(e)) {
      var k :| 0 <= k < |data| && data[k] == w;
      if k != i {
        assert i < k;
      }
    }
  }

  /** A candidate on a newer branch is a newer version than one on the current branch. */
  lemma NewerBranchIsNewer(m: string, e: string, current: string)
    requires OnBranch(m, Branch(ToTuple(current)))
    requires AboveBranch(e, Branch(ToTuple(current)))
    ensures Less(ToTuple(m), ToTuple(e))
  {
    TakeLess(ToTuple(m), ToTuple(e), 2);
  }

  /**
   * When both selections find a candidate, the evolution version is strictly
   * newer than the maintenance version.
   */
  lemma EvolutionNewerThanMaintenance(data: seq<string>, current: string)
    requires exists k :: 0 <= k < |data| && OnBranch(data[k], Branch(ToTuple(current)))
    requires exists k :: 0 <= k < |data| && AboveBranch(data[k], Branch(ToTuple(current)))
    ensures Less(ToTuple(MaintenanceCandidate(data, current)), ToTuple(EvolutionCandidate(data, current)))
  {
    NewerBranchIsNewer(MaintenanceCandidate(data, current), EvolutionCandidate(data, current), current);
  }

  /** The scan only finds minors up to 6, so no candidate lies above the 7.6 branch. */
  lemma NothingAboveSevenSix(data: seq<string>)
    requires forall k :: 0 <= k < |data| ==> IsSevenVersion(data[k])
    ensures forall k :: 0 <= k < |data| ==> !AboveBranch(data[k], [7, 6])
  {
    forall k | 0 <= k < |data| ensures !AboveBranch(data[k], [7, 6]) {
      SevenVersionTuple(data[k]);
    }
  }

  /** Without a candidate on a newer branch, evolution falls back to 7.6.4. */
  lemma EvolutionFallbackOnTop(data: seq<string>, current: string)
    requires forall k :: 0 <= k < |data| ==> !AboveBranch(data[k], Branch(ToTuple(current)))
    ensures EvolutionCandidate(data, current) == EvolutionFallback
    ensures ToTuple(EvolutionCandidate(data, current)) == [7, 6, 4]
  {
    assert IsSevenVersion(EvolutionFallback);
    SevenVersionTuple(EvolutionFallback);
  }

  /**
   * A device on 7.6 always gets the literal 7.6.4 as its evolution version,
   * which trails any newer 7.6 release picked for maintenance.
   */
  lemma EvolutionFallbackTrailsMaintenance(data: seq<string>, current: string, w: string)
    requires forall k :: 0 <= k < |data| ==> IsSevenVersion(data[k])
    requires NonIncreasing(data)
    requires Branch(ToTuple(current)) == [7, 6]
    requires w in data && OnBranch(w, [7, 6]) && Less([7, 6, 4], ToTuple(w))
    ensures EvolutionCandidate(data, current) == EvolutionFallback
    ensures Less(ToTuple(EvolutionCandidate(data, current)), ToTuple(MaintenanceCandidate(data, current)))
  {
    NothingAboveSevenSix(data);
    EvolutionFallbackOnTop(data, current);
    MaintenanceIsNewestOnBranch(data, current);
    var m := MaintenanceCandidate(data, current);
    if ToTuple(w) != ToTuple(m) {
      LessTransitive([7, 6, 4], ToTuple(w), ToTuple(m));
    }
  }

  /** Without a candidate on the current branch, maintenance falls back to 7.4.8. */
  lemma MaintenanceFallbackOffBranch(data: seq<string>, current: string)
    requires forall k :: 0 <= k < |data| ==> !OnBranch(data[k], Branch(ToTuple(current)))
    ensures MaintenanceCandidate(data, current) == MaintenanceFallback
    ensures ToTuple(MaintenanceCandidate(data, current)) == [7, 4, 8]
  {
    assert IsSevenVersion(MaintenanceFallback);
    SevenVersionTuple(MaintenanceFallback);
  }

  /** With an empty candidate list (a failed fetch), both literals are returned. */
  lemma EmptyDataFallbacks(hw: string, current: string)
    ensures FortinetPair(hw, current, []) == (MaintenanceFallback + SuffixFor(hw), EvolutionFallback + SuffixFor(hw))
  {
  }

  /** A failed request for the device's family yields both literal fallbacks. */
  lemma FetchFailureFallbacks(hw: string, current: string, session: string -> Option<string>)
    requires Contains(hw, "Forti") && session(PsirtUrl(ProductKey(hw))) == None
    ensures Recommendation(hw, current, session)
      == (MaintenanceFallback + SuffixFor(hw), EvolutionFallback + SuffixFor(hw))
  {
    EmptyDataFallbacks(hw, current);
  }

  /** Neither a fetched candidate nor a fallback literal ends with the FortiGate suffix. */
  lemma CandidateHasNoSuffix(data: seq<string>, v: string)
    requires forall k :: 0 <= k < |data| ==> IsSevenVersion(data[k])
    requires v in data || v == MaintenanceFallback || v == EvolutionFallback
    ensures !EndsWith(v, FortiGateSuffix)
  {
    if v in data {
      var k :| 0 <= k < |data| && data[k] == v;
      assert IsSevenVersion(v);
      assert v[|v| - 4..][3] == v[4];
    } else {
      assert v[|v| - 4..][3] == v[4];
    }
  }

  /**
   * Over fetched candidates, both Fortinet recommendations carry " (M)"
   * exactly when the hardware name contains "Gate".
   */
  lemma SuffixIffFortiGate(hw: string, current: string, data: seq<string>)
    requires forall k :: 0 <= k < |data| ==> IsSevenVersion(data[k])
    ensures EndsWith(FortinetPair(hw, current, data).0, FortiGateSuffix) <==> Contains(hw, "Gate")
    ensures EndsWith(FortinetPair(hw, current, data).1, FortiGateSuffix) <==> Contains(hw, "Gate")
  {
    var m := MaintenanceCandidate(data, current);
    var e := EvolutionCandidate(data, current);
    CandidateHasNoSuffix(data, m);
    CandidateHasNoSuffix(data, e);
    var p := FortinetPair(hw, current, data);
    if Contains(hw, "Gate") {
      assert p.0[|p.0| - 4..] == FortiGateSuffix;
      assert p.1[|p.1| - 4..] == FortiGateSuffix;
    } else {
      assert p.0 == m && p.1 == e;
    }
  }

  /** Appending the hardware's suffix to a version never changes its tuple. */
  lemma SuffixKeepsTuple(v: string, hw: string)
    ensures ToTuple(v + SuffixFor(hw)) == ToTuple(v)
  {
    if Contains(hw, "Gate") {
      ToTupleIgnoresDecoration(v, "", FortiGateSuffix);
      assert "" + v + FortiGateSuffix == v + FortiGateSuffix;
    } else {
      assert v + "" == v;
    }
  }

  /** The suffix never changes the tuple the status check compares. */
  lemma SuffixKeepsTuples(hw: string, current: string, data: seq<string>)
    ensures ToTuple(FortinetPair(hw, current, data).0) == ToTuple(MaintenanceCandidate(data, current))
    ensures ToTuple(FortinetPair(hw, current, data).1) == ToTuple(EvolutionCandidate(data, current))
  {
    SuffixKeepsTuple(MaintenanceCandidate(data, current), hw);
    SuffixKeepsTuple(EvolutionCandidate(data, current), hw);
  }

  /**
   * Outside the Fortinet branch the answer is one of four fixed pairs and
   * depends on neither the current version nor the network.
   */
  lemma FixedPairsIgnoreVersionAndSession(hw: string, c1: string, c2: string,
                                          s1: string -> Option<string>, s2: string -> Option<string>)
    requires !Contains(hw, "Forti")
    ensures Recommendation(hw, c1, s1) == Recommendation(hw, c2, s2)
    ensures Recommendation(hw, c1, s1) in
      {("17.9.6a", "17.12.4"), ("10.4(6)M", "10.5(1)M"), ("17.1.4", "18.1.0"), ("N/A", "N/A")}
  {
  }

  /** A Fortinet answer depends on the network only through the fetched candidate list. */
  lemma FortinetDependsOnlyOnCandidates(hw: string, current: string,
                                        s1: string -> Option<string>, s2: string -> Option<string>)
    requires Contains(hw, "Forti")
    requires FetchedFor(s1, ProductKey(hw)) == FetchedFor(s2, ProductKey(hw))
    ensures Recommendation(hw, current, s1) == Recommendation(hw, current, s2)
  {
  }

  /** Each Fortinet pick is a fetched match or a fallback literal, so it reads `7.a.b`. */
  lemma PicksAreSevenVersions(data: seq<string>, current: string)
    requires forall k :: 0 <= k < |data| ==> IsSevenVersion(data[k])
    ensures IsSevenVersion(MaintenanceCandidate(data, current))
    ensures IsSevenVersion(EvolutionCandidate(data, current))
  {
    assert IsSevenVersion(MaintenanceFallback) && IsSevenVersion(EvolutionFallback);
  }

  /**
   * "Forti" is tested before every other family: hardware whose name holds
   * it gets two `7.a.b` versions (suffixed or not), never one of the fixed
   * pairs, even if the name also holds "Catalyst", "Nexus" or "BIG-IP".
   */
  lemma FortinetTestedFirst(hw: string, current: string, session: string -> Option<string>)
    requires Contains(hw, "Forti")
    ensures var (maint, evo) := Recommendation(hw, current, session);
      |maint| >= 5 && IsSevenVersion(maint[..5]) && |evo| >= 5 && IsSevenVersion(evo[..5])
    ensures Recommendation(hw, current, session) !in
      {("17.9.6a", "17.12.4"), ("10.4(6)M", "10.5(1)M"), ("17.1.4", "18.1.0"), ("N/A", "N/A")}
  {
    var data := FetchedFor(session, ProductKey(hw));
    var m, e := MaintenanceCandidate(data, current), EvolutionCandidate(data, current);
    PicksAreSevenVersions(data, current);
    var (maint, evo) := Recommendation(hw, current, session);
    assert maint == m + SuffixFor(hw) && evo == e + SuffixFor(hw);
    assert maint[..5] == m && evo[..5] == e;
    assert maint[0] == '7';
  }

  /** Without "Gate" in the name, the Fortinet pair is the two bare picks. */
  lemma UnsuffixedPair(hw: string, current: string, data: seq<string>)
    requires !Contains(hw, "Gate")
    ensures FortinetPair(hw, current, data) == (MaintenanceCandidate(data, current), EvolutionCandidate(data, current))
  {
    assert MaintenanceCandidate(data, current) + "" == MaintenanceCandidate(data, current);
    assert EvolutionCandidate(data, current) + "" == EvolutionCandidate(data, current);
  }
}
