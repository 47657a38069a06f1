# Aegis / network-equipment audit: the decision core in Dafny

The audit script walks a fixed inventory of network devices (FortiGate
firewalls, a FortiManager, Cisco Catalyst and Nexus switches, F5 BIG-IP load
balancers). For each device it recommends a *maintenance* version (newest
release on the device's own major.minor branch) and an *evolution* version
(release on a newer branch), and reports the device as `OK` or
`Upgrade Needed`. For Fortinet hardware the candidate versions are scraped
from the Fortinet PSIRT advisory page of the product family. Each family's
list of candidate versions is cached in the object. The other families get
fixed pairs.

The repository holds two copies of the script with the same core:
`Network-equipment-version.py` (lines 24-103) and `Aegis-SentinelScanner.py`
(lines 29-108). The class code is the same line for line, five lines further
down in the second file. Only the `INVENTORY` tables differ. One shared model
covers both; both tables are included as data.

Files, one module each:

- `wrappers.dfy`: `Option`, the outcome of a request (a body or a failure).
- `text.dfy`: `\d`, `\w` and Python's `t in s` on strings.
- `version_tuple.dfy`: `to_tuple` as a scan for maximal digit runs; Python's tuple order (`<`, `>=`, `[:2]`) on `seq<nat>`.
- `psirt.dfy`: `fetch_fortinet_versions` without the network. It has the scan for `\b(7\.[0-6]\.[0-9])\b` and `sorted(list(set(found)), key=to_tuple, reverse=True)`.
- `recommend.dfy`: `get_recommendations` as pure functions:
  - the two `next(...)` generator selections with their fallbacks 7.4.8 and 7.6.4;
  - the " (M)" suffix;
  - the fixed Cisco and F5 pairs;
  - the dispatch order.
- `audit.dfy`: the status rule, the FortiManager override and the row of one device. It also has the class `InfrastructureAudit`:
  - its `cache` map field;
  - `GetRecommendations`, which fills the cache in place;
  - `AuditItem`, the loop body of `run`;
  - `Run`, the `while` loop that appends one row per device.
- `inventories.dfy`:
  - the two `INVENTORY` tables;
  - two example networks (`Offline`, and `FortiManagerPageOnly`, which answers only the FortiManager advisory page);
  - worked examples of the parser, the scan and single rows.

The network is an oracle. The object's `session` is the function
`string -> Option<string>` from a URL to the response body, or `None` when
`session.get` raises. `fetch_fortinet_versions` catches that failure and
returns `[]`. The cache fetches each family at most once per object, so a
function of the URL loses nothing the script observes. The ghost log
`fetches` records every fetch. `Valid()` then states four things:
- each family was fetched at most once;
- the cache keys are exactly the fetched families;
- the keys are "FortiOS" or "FortiManager";
- each cached list is the normalised match list of what the network answered for it (`Recommend.FetchedFor`).

`run` reads the module-level `INVENTORY`. `Run` takes the inventory as a
parameter, and the two tables are constants.

Behaviours of the code worth stating:
- `to_tuple` of a string without digits is `(0, 0, 0)`.
- The Nexus pair is the literal `("10.4(6)M", "10.5(1)M")`.
- Evolution is the *first* candidate of the newest-first list whose branch is above the current branch. That is the newest candidate on any newer branch.
- The FortiManager override applies to any FortiManager whose current string *contains* "7.6.4". A device on "7.6.45" is also forced to OK.

Consequences of the code that the proofs make visible:

- Unknown hardware is recommended "N/A", which parses as (0, 0, 0). Such a device is reported OK unless its current tuple sorts below (0, 0, 0), as a lone "0" does (`Audit.UnknownHardwareStatus`).
- The scan only finds minors 0-6. `get_recommendations` therefore gives every Fortinet device on 7.6 the literal 7.6.4 as its evolution version, with " (M)" appended for a FortiGate. That literal is older than any newer 7.6 release picked for maintenance (`Recommend.EvolutionFallbackTrailsMaintenance`). For a FortiManager whose current version contains "7.6.4", `run`'s override then replaces the evolution with "N/A" (`Inventories.FortiManagerOverride`).
- The maintenance fallback 7.4.8 is used for FortiManager devices as well. It is compared as (7, 4, 8) whatever the device's branch (`Audit.FortinetFallbackStatus`).

## Model

| member | source | states |
|---|---|---|
| Text.Contains | Network-equipment-version.py:52 | definition of Python's `t in s`; its meaning is proved in `Text.ContainsIff` and `Text.ContainsPrefix` |
| VersionTuple.DigitRuns | Network-equipment-version.py:31 | definition of `re.findall(r'\d+', v)`; its properties are proved in `VersionTuple.RunsAreMaximal`, `VersionTuple.MaximalRunsReported` and `VersionTuple.RunsCoverDigits` |
| VersionTuple.DecimalValue | Network-equipment-version.py:32 | definition of `int(n)` on a run of digits; used pointwise by `VersionTuple.Values` and `Psirt.DigitValue` |
| VersionTuple.Less | Network-equipment-version.py:59 | definition of Python's tuple `<`; proved to be the lexicographic order in `VersionTuple.LessIff`, `LessIrreflexive`, `LessAsymmetric`, `LessTransitive` and `LessTotal` |
| VersionTuple.LessEq | Network-equipment-version.py:93 | definition of tuple `<=`; `VersionTuple.AtLeastIffNotLess` proves `>=` is `not <` |
| VersionTuple.Branch | Network-equipment-version.py:58-59 | definition of `t[:2]`, by `VersionTuple.Take`; `VersionTuple.TakeLess` relates it to the order |
| Psirt.MatchAt | Network-equipment-version.py:40 | definition of a match of `\b(7\.[0-6]\.[0-9])\b` at one index; used by `Psirt.MatchesSound`, `Psirt.MatchPositionsSpell` and `Psirt.MatchesComplete` |
| Psirt.FindVersions | Network-equipment-version.py:40 | definition of `re.findall` of that pattern; proved sound and complete in `Psirt.MatchesSound`, `Psirt.MatchPositionsSpell` and `Psirt.MatchesComplete` |
| Psirt.PsirtUrl | Network-equipment-version.py:35 | definition of the requested address |
| Recommend.FetchedFor | Network-equipment-version.py:34-46 | definition of what `fetch_fortinet_versions(product)` returns through the session; its properties are the ensures of `Psirt.FortinetVersions`, and `InfrastructureAudit.Valid()` ties every cache entry to it |
| Recommend.ProductKey | Network-equipment-version.py:53 | definition of the cache key; its use is proved in `Audit.FortiKeysSpec` |
| Recommend.MaintenanceCandidate | Network-equipment-version.py:58 | definition of the maintenance `next(...)`, filtering with `Recommend.OnBranch`; proved the newest on-branch candidate in `Recommend.MaintenanceIsNewestOnBranch`, with its fallback in `Recommend.MaintenanceFallbackOffBranch` |
| Recommend.EvolutionCandidate | Network-equipment-version.py:59 | definition of the evolution `next(...)`, filtering with `Recommend.AboveBranch`; proved the newest newer-branch candidate in `Recommend.EvolutionIsNewestAbove`, with its fallback in `Recommend.EvolutionFallbackOnTop` |
| Recommend.SuffixFor | Network-equipment-version.py:62 | definition of the suffix; proved in `Recommend.SuffixIffFortiGate` and `Recommend.SuffixKeepsTuple` |
| Recommend.FortinetPair | Network-equipment-version.py:52-63 | definition of the Fortinet branch on a cached list; proved in `Recommend.SuffixKeepsTuples`, `Recommend.UnsuffixedPair` and `Recommend.PicksAreSevenVersions` |
| Recommend.FixedPair | Network-equipment-version.py:65-80 | definition of the Cisco, F5 and default answers; proved in `Recommend.FixedPairsIgnoreVersionAndSession` |
| Recommend.Recommendation | Network-equipment-version.py:48-80 | definition of `get_recommendations` without the cache; `Audit.InfrastructureAudit.GetRecommendations` is proved to return it, and `Recommend.FortinetTestedFirst` and `Recommend.FortinetDependsOnlyOnCandidates` state its dispatch |
| Audit.StatusFor | Network-equipment-version.py:93 | definition of the status comparison; proved in `Audit.UpgradeIffOlderThanMaintenance` |
| Audit.Override | Network-equipment-version.py:96 | definition of the FortiManager override test; used by `Audit.AuditDevice` and shown on data in `Inventories.FortiManagerOverride` |
| Audit.Rows | Network-equipment-version.py:86-103 | definition of the rows of a device list under an audit function; proved in `Audit.RowsSpec` and `Audit.RowsStep` |
| Audit.AuditAll | Network-equipment-version.py:86-103 | definition of `run()`'s results; `Audit.InfrastructureAudit.Run` is proved to return it, and `Audit.AuditAllRows` states it row by row |
| Inventories.NetworkInventory | Network-equipment-version.py:6-22 | the first `INVENTORY` table, as data; rows of it are audited in `Inventories.FortiGateOffline`, `Inventories.FortiManagerOverride` and `Inventories.NexusRow` |
| Inventories.AegisInventory | Aegis-SentinelScanner.py:6-27 | the second `INVENTORY` table, as data; a row of it is audited in `Inventories.FortiManagerRow` |
| Text.ContainsIff | Network-equipment-version.py:52 | the model of Python's `t in s` holds exactly when `t` occurs at some index of `s` |
| Text.ContainsPrefix | Network-equipment-version.py:96 | a string containing some text contains every prefix of it (so a "FortiManager" name contains "Forti") |
| VersionTuple.RunEnd | Network-equipment-version.py:31 | the digit run from `i` ends at the first non-digit. Every character before that end is a digit. |
| VersionTuple.RunsFrom | Network-equipment-version.py:31 | every run `re.findall(r'\d+')` reports is non-empty and all digits |
| VersionTuple.ToTuple | Network-equipment-version.py:30-32 | the tuple is never empty. A string without a digit gives exactly (0, 0, 0). |
| VersionTuple.Values | Network-equipment-version.py:32 | one natural per run, in order, each the decimal value of its run |
| VersionTuple.RunsEmptyIff | Network-equipment-version.py:31-32 | the scan finds no run exactly when no digit follows; this is the case where the fallback applies |
| VersionTuple.RunsCoverDigits | Network-equipment-version.py:31 | the runs laid end to end are exactly the digits of the input, in order |
| VersionTuple.RunEndIs | Network-equipment-version.py:31 | a run ends at the first non-digit after it |
| VersionTuple.RunBoundsLocate | Network-equipment-version.py:31 | one bound per reported run, each the slice of the input that run is |
| VersionTuple.RunBoundsMaximal | Network-equipment-version.py:31 | every bound is a maximal digit block |
| VersionTuple.RunBoundsIncrease | Network-equipment-version.py:31 | the bounds increase, with a gap between consecutive ones |
| VersionTuple.RunsAreMaximal | Network-equipment-version.py:31 | each reported run is a maximal digit block of the input (no digit just before or just after it), the blocks in increasing positions with a gap between consecutive ones |
| VersionTuple.MaximalRunsReported | Network-equipment-version.py:31 | every maximal digit block of the input is reported, so the runs are exactly the maximal blocks |
| VersionTuple.DigitsOfRun | Network-equipment-version.py:31 | over a block of digits, the digits of the string start with that block |
| VersionTuple.RunEndShift | Network-equipment-version.py:31 | a run inside `b` ends at the same place when `b` follows any `a` |
| VersionTuple.RunsShift | Network-equipment-version.py:31 | scanning `a + b` from inside `b` finds the runs of `b` |
| VersionTuple.RunEndPrefix | Network-equipment-version.py:31 | a run ending inside `a` ends at the same place in `a + b` |
| VersionTuple.RunsAppend | Network-equipment-version.py:31 | with a non-digit at the seam, the runs of `a + b` are the runs of `a` followed by those of `b` |
| VersionTuple.DigitRunsAppend | Network-equipment-version.py:31 | `findall` of a concatenation split by a non-digit is the concatenation of the two `findall`s |
| VersionTuple.ToTupleOfRuns | Network-equipment-version.py:30-32 | for a string with digits, one tuple entry per digit run, holding that run's value |
| VersionTuple.DigitRunsCoverDigits | Network-equipment-version.py:31 | the runs of a string laid end to end are its digits |
| VersionTuple.ToTupleIgnoresDecoration | Network-equipment-version.py:30-32 | digit-free text before or after a version never changes its tuple |
| VersionTuple.Take | Network-equipment-version.py:58 | `t[:n]` is a prefix of `t` of length min(len(t), n) |
| VersionTuple.LessIff | Network-equipment-version.py:93 | tuple `<` is the lexicographic order in which a proper prefix is smaller |
| VersionTuple.LessIrreflexive | Network-equipment-version.py:41 | no tuple is below itself |
| VersionTuple.LessAsymmetric | Network-equipment-version.py:41 | two tuples are never each below the other |
| VersionTuple.LessTransitive | Network-equipment-version.py:41 | tuple `<` is transitive |
| VersionTuple.LessTotal | Network-equipment-version.py:41 | any two distinct tuples are ordered, so the sort key is a total order |
| VersionTuple.AtLeastIffNotLess | Network-equipment-version.py:93 | `v_curr >= v_maint` holds exactly when `v_curr < v_maint` does not |
| VersionTuple.LessEqTransitive | Network-equipment-version.py:93 | tuple `<=` is transitive |
| VersionTuple.TakeLess | Network-equipment-version.py:58-59 | being smaller on the first `n` entries makes a tuple smaller |
| Psirt.MatchesFrom | Network-equipment-version.py:40 | every string the scan returns reads `7.a.b` with `a` in 0-6 and `b` a digit |
| Psirt.MatchesSound | Network-equipment-version.py:40 | every string found is a match of the pattern, with its word boundaries, at some index of the text |
| Psirt.MatchPositionsSpell | Network-equipment-version.py:40 | each reported string is the match at its reported index; those indices increase by at least five, so reported matches never overlap |
| Psirt.MatchesComplete | Network-equipment-version.py:40 | a match is reported unless a reported match overlaps it from the left |
| Psirt.Place | Network-equipment-version.py:41 | inserting a new string keeps the list newest first and free of duplicates. The members are the old ones plus the new string. |
| Psirt.PlaceFront | Network-equipment-version.py:41 | a string newer than the head of a newest-first list can go in front of it |
| Psirt.ConsNonIncreasing | Network-equipment-version.py:41 | a string at least as new as every entry can go in front |
| Psirt.PlaceBehind | Network-equipment-version.py:41 | inserting behind the head keeps the order when the string is not newer than the head |
| Psirt.SortedDistinct | Network-equipment-version.py:41 | `sorted(set(found))` is newest first and free of duplicates, with exactly the members of `found` |
| Psirt.SevenVersionRuns | Network-equipment-version.py:31 | a match `7.a.b` has exactly the one-digit runs 7, a and b |
| Psirt.DigitValue | Network-equipment-version.py:32 | `int` of a one-digit run is that digit |
| Psirt.SevenVersionTuple | Network-equipment-version.py:40-41 | the tuple of a match `7.a.b` is (7, a, b) |
| Psirt.SevenVersionInjective | Network-equipment-version.py:41 | distinct matches have distinct tuples, so the sort never breaks a tie |
| Psirt.SevenVersionsStrict | Network-equipment-version.py:41 | a newest-first, duplicate-free list of matches is strictly decreasing |
| Psirt.StrictlyDecreasingUnique | Network-equipment-version.py:41 | two strictly decreasing lists with the same members are equal |
| Psirt.HeadIsNewest | Network-equipment-version.py:41 | the head of a strictly decreasing list is newer than every other entry |
| Psirt.StrictlyDecreasingTail | Network-equipment-version.py:41 | the tail of a strictly decreasing list holds the other entries and is strictly decreasing |
| Psirt.SortedDistinctIsDetermined | Network-equipment-version.py:41 | any newest-first duplicate-free arrangement of the matches is the list computed, whatever order the set yields |
| Psirt.FortinetVersions | Aegis-SentinelScanner.py:39-51 | a failed request gives []. Otherwise the members are exactly the matches in the body, without duplicates, strictly decreasing, each `7.a.b`. |
| Recommend.IndexWhere | Network-equipment-version.py:58-59 | the generator, resumed at `from`, stops at the first entry passing the filter, or at the end when none passes |
| Recommend.Next | Aegis-SentinelScanner.py:63-64 | `next(...)` returns the fallback only when no entry passes. Otherwise it returns an entry that passes, and no earlier entry passes. |
| Recommend.MaintenanceIsNewestOnBranch | Network-equipment-version.py:58 | on a newest-first list with a candidate on the current branch, maintenance is the newest candidate on that branch |
| Recommend.EvolutionIsNewestAbove | Network-equipment-version.py:59 | on a newest-first list with a candidate above the branch, evolution is the newest candidate on any newer branch |
| Recommend.NewerBranchIsNewer | Network-equipment-version.py:58-59 | a version on a newer branch is newer than one on the current branch |
| Recommend.EvolutionNewerThanMaintenance | Network-equipment-version.py:58-59 | when both selections find a candidate, evolution is strictly newer than maintenance |
| Recommend.NothingAboveSevenSix | Network-equipment-version.py:40 | no fetched candidate lies above the 7.6 branch |
| Recommend.EvolutionFallbackOnTop | Network-equipment-version.py:59 | with no candidate above the branch, evolution is 7.6.4, whose tuple is (7, 6, 4) |
| Recommend.EvolutionFallbackTrailsMaintenance | Network-equipment-version.py:58-59 | a device on 7.6 with a fetched 7.6 release newer than 7.6.4 gets evolution 7.6.4, older than its maintenance pick |
| Recommend.MaintenanceFallbackOffBranch | Network-equipment-version.py:58 | with no candidate on the branch, maintenance is 7.4.8, whose tuple is (7, 4, 8) |
| Recommend.EmptyDataFallbacks | Aegis-SentinelScanner.py:63-68 | an empty candidate list gives both fallback literals, each with the hardware's suffix |
| Recommend.FetchFailureFallbacks | Network-equipment-version.py:44-63 | a failed request for the family gives both fallback literals |
| Recommend.CandidateHasNoSuffix | Network-equipment-version.py:62-63 | no match and no fallback literal ends with " (M)" |
| Recommend.SuffixIffFortiGate | Aegis-SentinelScanner.py:67-68 | both Fortinet recommendations end with " (M)" exactly when the hardware name contains "Gate" |
| Recommend.SuffixKeepsTuple | Network-equipment-version.py:62-63 | appending the hardware's suffix never changes a version's tuple |
| Recommend.SuffixKeepsTuples | Network-equipment-version.py:90 | the suffixed recommendations compare like the bare selections |
| Recommend.UnsuffixedPair | Network-equipment-version.py:62-63 | without "Gate" in the name, the recommendations are the bare selections |
| Recommend.FixedPairsIgnoreVersionAndSession | Network-equipment-version.py:66-80 | outside the Fortinet branch the pair is one of the four fixed pairs, whatever the current version and the network |
| Recommend.FortinetDependsOnlyOnCandidates | Aegis-SentinelScanner.py:62-68 | a Fortinet answer depends on the network only through the fetched candidate list |
| Recommend.PicksAreSevenVersions | Network-equipment-version.py:58-59 | both Fortinet picks read `7.a.b` |
| Recommend.FortinetTestedFirst | Aegis-SentinelScanner.py:57-85 | a name holding "Forti" gets two `7.a.b` versions and never a fixed pair, whatever else the name holds |
| Audit.Status.Label | Network-equipment-version.py:93 | the status text is "OK" or "Upgrade Needed", and it is "OK" exactly for `Ok` |
| Audit.AuditDevice | Network-equipment-version.py:88-101 | one row keeps the device. The override gives ("7.6.4", "N/A", OK). Otherwise the row has the recommendation and the comparison of the current version with maintenance. |
| Audit.RowsSpec | Network-equipment-version.py:86-101 | the appended list has one row per device, in order, the `k`-th being the `k`-th device's row |
| Audit.RowsStep | Network-equipment-version.py:101 | one more device appends exactly its row |
| Audit.AuditAllRows | Aegis-SentinelScanner.py:91-108 | `run` gives as many rows as devices. The `k`-th row is the audit of the `k`-th device. |
| Audit.FortiKeysSpec | Network-equipment-version.py:52-55 | an inventory fills only "FortiOS" and "FortiManager": the key of every Fortinet device, and no key without a device needing it |
| Audit.FortiKeysStep | Network-equipment-version.py:55 | one more device adds exactly that device's key |
| Audit.RowOfRecommendation | Aegis-SentinelScanner.py:93-106 | proof helper, one unfolding of the definition: the body of the loop turns a device's recommendation into that device's row |
| Audit.UpgradeRow | Network-equipment-version.py:88-101 | a device that is not overridden and is older than its maintenance pick gets its recommendation and "Upgrade Needed" |
| Audit.UpgradeIffOlderThanMaintenance | Network-equipment-version.py:89-93 | outside the override, "Upgrade Needed" holds exactly when the current tuple is below the maintenance tuple |
| Audit.FortinetUpgradeIffNewerOnBranch | Network-equipment-version.py:52-93 | a Fortinet device whose branch has candidates needs an upgrade exactly when a newer release of its own branch was fetched |
| Audit.FortinetFallbackStatus | Network-equipment-version.py:52-93 | a Fortinet device whose branch has no candidate is recommended 7.4.8 (with suffix), and needs an upgrade exactly when its tuple is below (7, 4, 8) |
| Audit.UnknownHardwareStatus | Network-equipment-version.py:80-93 | unknown hardware gets "N/A" twice and needs an upgrade exactly when its tuple is below (0, 0, 0) |
| Audit.InfrastructureAudit.constructor | Network-equipment-version.py:25-28 | a new object has an empty cache and satisfies the cache invariant |
| Audit.InfrastructureAudit.FetchFortinetVersions | Network-equipment-version.py:34-46 | the result is the normalised match list of the response. A failed request gives []. The result has no duplicates and is strictly decreasing. Each call records one request for the family in the fetch log and leaves the cache alone. |
| Audit.InfrastructureAudit.GetRecommendations | Network-equipment-version.py:48-80 | returns the pure recommendation and keeps the cache invariant. A Fortinet call adds its family to the cache, fetched once, only when absent. Any other call leaves cache and fetch log unchanged. |
| Audit.InfrastructureAudit.AuditItem | Network-equipment-version.py:88-101 | the loop body builds exactly the row `AuditDevice` gives. It adds only the device's family to the cache. |
| Audit.InfrastructureAudit.Run | Network-equipment-version.py:82-103 | results are the rows of the devices, in order, from an invariant-keeping loop. The cache gains exactly the families of the inventory's Fortinet devices. |
| Inventories.NotContainsChar | Network-equipment-version.py:52 | a string facing `t[j]` with a different character at every possible start does not contain `t` |
| Inventories.PrefixAgrees | Network-equipment-version.py:52 | proof helper, one unfolding of the definition: a prefix agrees with its string at each of its positions |
| Inventories.ContainsAt | Network-equipment-version.py:52 | text occurring at a known index is contained |
| Inventories.SkipNonDigits | Network-equipment-version.py:31 | the digit scan passes a block of non-digits without reporting a run |
| Inventories.RunAt | Network-equipment-version.py:31 | proof helper, one unfolding of the definition: the scan at the start of a run reports that run and resumes after it |
| Inventories.ThreeRuns | Network-equipment-version.py:31 | a string of three digit runs led, separated and trailed by non-digits yields exactly those three runs |
| Inventories.RunsOfFortiOS | Network-equipment-version.py:31 | the runs of "FortiOS 7.4.7M" are "7", "4", "7" |
| Inventories.ToTupleFortiOS | Network-equipment-version.py:30-32 | "FortiOS 7.4.7M" parses as (7, 4, 7) |
| Inventories.RunsOfNxOs | Network-equipment-version.py:31 | the runs of "NX-OS 10.3(6)(M)" are "10", "3", "6" |
| Inventories.ToTupleNxOs | Network-equipment-version.py:30-32 | "NX-OS 10.3(6)(M)" parses as (10, 3, 6) |
| Inventories.RunsOfCatalystTarget | Network-equipment-version.py:31 | the runs of "17.9.6a" are "17", "9", "6" |
| Inventories.ToTupleCatalystTarget | Network-equipment-version.py:30-32 | "17.9.6a" parses as (17, 9, 6): the trailing letter is dropped |
| Inventories.RunsOfNexusTarget | Network-equipment-version.py:31 | the runs of "10.4(6)M" are "10", "4", "6" |
| Inventories.ToTupleNexusTarget | Network-equipment-version.py:30-32 | "10.4(6)M" parses as (10, 4, 6) |
| Inventories.MatchesDoNotOverlap | Network-equipment-version.py:40 | in "7.1.7.2.3" the scan finds "7.1.7" only |
| Inventories.FortiGateDispatch | Network-equipment-version.py:52-62 | a "FortiGate ..." name takes the Fortinet branch under "FortiOS" with the " (M)" suffix |
| Inventories.FortiGateFallbackPair | Network-equipment-version.py:52-63 | a FortiGate whose FortiOS fetch fails is recommended "7.4.8 (M)" and "7.6.4 (M)", whatever its build |
| Inventories.ToTupleFallback | Network-equipment-version.py:30-32 | "7.4.8 (M)" parses as (7, 4, 8): the suffix does not disturb the comparison |
| Inventories.FortiGateOnFallbacks | Network-equipment-version.py:52-93 | a FortiGate on a 7.4.7 build whose fetch failed gets "7.4.8 (M)", "7.6.4 (M)" and "Upgrade Needed" |
| Inventories.FortiGate61E | Network-equipment-version.py:7 | "FortiGate 61E" starts with "FortiGate" and does not contain "FortiManager" |
| Inventories.FortiGateOffline | Network-equipment-version.py:7 | with the network offline, the first FortiGate of the first inventory gets the row ("7.4.8 (M)", "7.6.4 (M)", Upgrade Needed) |
| Inventories.ManagerOnSevenSixFour | Network-equipment-version.py:13 | the first inventory's FortiManager meets both override conditions |
| Inventories.FortiManagerOverride | Network-equipment-version.py:96-99 | on any network that FortiManager is reported OK against "7.6.4", with evolution "N/A" |
| Inventories.NexusOnFixedPair | Network-equipment-version.py:70-93 | a Nexus on 10.3(6) gets "10.4(6)M", "10.5(1)M" and "Upgrade Needed" on any network |
| Inventories.NexusIsNotForti | Network-equipment-version.py:16 | "Cisco Nexus 93240YC-FX2" does not contain "Forti" |
| Inventories.NexusIsNotCatalyst | Network-equipment-version.py:16 | "Cisco Nexus 93240YC-FX2" does not contain "Catalyst" |
| Inventories.NexusIsNexus | Network-equipment-version.py:16 | "Cisco Nexus 93240YC-FX2" contains "Nexus" |
| Inventories.NexusHardware | Network-equipment-version.py:16 | that name reaches the Nexus test |
| Inventories.NexusRow | Network-equipment-version.py:16 | the first Nexus row of the first inventory needs an upgrade to "10.4(6)M" on any network |
| Inventories.MatchHere | Network-equipment-version.py:40 | proof helper, one unfolding of the definition: the scan reports a match and resumes after its five characters |
| Inventories.NoMatchHere | Network-equipment-version.py:40 | proof helper, one unfolding of the definition: the scan moves on by one where the pattern does not match |
| Inventories.AdvisoryFirst | Network-equipment-version.py:40 | in "7.4.5 7.6.3 7.4.5" the first match is "7.4.5" |
| Inventories.AdvisorySecond | Network-equipment-version.py:40 | the second match is "7.6.3" |
| Inventories.AdvisoryThird | Network-equipment-version.py:40 | the last match is "7.4.5" again |
| Inventories.AdvisoryMatches | Network-equipment-version.py:40 | `findall` on that text gives "7.4.5", "7.6.3", "7.4.5" |
| Inventories.NewestFirstPair | Network-equipment-version.py:41 | ["7.6.3", "7.4.5"] is strictly decreasing |
| Inventories.AdvisoryCandidates | Network-equipment-version.py:40-41 | a page with that text yields exactly ["7.6.3", "7.4.5"]: de-duplicated, newest first |
| Inventories.ManagerMaintenance | Network-equipment-version.py:58 | on a 7.4 build, with a 7.6 and then a 7.4 release, the 7.4 release is maintenance |
| Inventories.ManagerEvolution | Network-equipment-version.py:59 | on a 7.4 build the 7.6 release is evolution |
| Inventories.AdvisoryPicks | Network-equipment-version.py:57-59 | on any network whose FortiManager page reads "7.4.5 7.6.3 7.4.5", a FortiManager on a 7.4 build gets 7.4.5 for maintenance and 7.6.3 for evolution |
| Inventories.FortiManager3000G | Aegis-SentinelScanner.py:13 | "FortiManager 3000G" contains "Forti" but not "Gate" |
| Inventories.FortiManagerSevenFourTwo | Aegis-SentinelScanner.py:13 | "FortiManager 7.4.2" does not contain "7.6.4" |
| Inventories.ToTupleFortiManager | Aegis-SentinelScanner.py:35-37 | "FortiManager 7.4.2" parses as (7, 4, 2) |
| Inventories.FortiManagerOnAdvisory | Aegis-SentinelScanner.py:53-106 | a FortiManager that is not overridden, on a 7.4.2 build, with that advisory page online, gets "7.4.5", "7.6.3" and "Upgrade Needed" |
| Inventories.FortiManagerRow | Aegis-SentinelScanner.py:13 | with that page online, the second inventory's FortiManager gets the row ("7.4.5", "7.6.3", Upgrade Needed) |

## Left out

- The HTTP layer: `requests.Session`, the User-Agent header, the 15-second timeout and the exception itself. The model keeps only the outcome, a body or a failure (`None`). Any body is scanned, error pages included, as `session.get` does not raise on an HTTP error status.
- All `print` calls and `datetime.now()` in `run`: console output and the wall clock.
- `generate_report` and the `__main__` block: HTML templating and file output.
- Python's `\d` and `\w` also match non-ASCII digits and letters. This model uses their ASCII classes.
- Audit.InfrastructureAudit.FetchFortinetVersions: is meant to be called only from `GetRecommendations`, which caches what it returns. A direct call records a fetch that the cache does not hold, and `Valid()` no longer holds after it; Python allows `get_recommendations` after such a call, the model does not. No call in the script fetches directly.
- Audit.InfrastructureAudit.Run: takes the inventory as a parameter instead of reading the module-level `INVENTORY` table. The two tables are `Inventories.NetworkInventory` and `Inventories.AegisInventory`.
