/**
 * `fetch_fortinet_versions` without the network: the extraction of the
 * version strings `7.x.y` from the body of a Fortinet PSIRT page, and their
 * normalisation into a duplicate-free list, newest first.
 */
module Psirt {
  import opened Wrappers
  import opened Text
  import opened VersionTuple

  /** The address the script requests for one product family. */
  function PsirtUrl(product: string): string {
    "https://www.fortiguard.com/psirt?product=" + product
  }

  /** The text the group of `7\.[0-6]\.[0-9]` matches. */
  predicate IsSevenVersion(v: string) {
    |v| == 5 && v[0] == '7' && v[1] == '.' && '0' <= v[2] <= '6' && v[3] == '.' && IsDigit(v[4])
  }

  /** `\b(7\.[0-6]\.[0-9])\b` matches the five characters of `s` from index `i`. */
  predicate MatchAt(s: string, i: int) {
    0 <= i && i + 5 <= |s| && IsSevenVersion(s[i..i + 5])
    && (i == 0 || !IsWordChar(s[i - 1]))
    && (i + 5 == |s| || !IsWordChar(s[i + 5]))
  }

  /** `re.findall` of that pattern from index `i`: left to right, matches never overlap. */
  function MatchesFrom(s: string, i: nat): (found: seq<string>)
    requires i <= |s|
    ensures forall k :: 0 <= k < |found| ==> IsSevenVersion(found[k])
    decreases |s| - i
  {
    if i + 5 > |s| then []
    else if MatchAt(s, i) then [s[i..i + 5]] + MatchesFrom(s, i + 5)
    else MatchesFrom(s, i + 1)
  }

  /** `re.findall(r'\b(7\.[0-6]\.[0-9])\b', text)`. */
  function FindVersions(text: string): seq<string> {
    MatchesFrom(text, 0)
  }

  /** Every string found is a match of the pattern at some index at or after `i`. */
  lemma {:induction false} MatchesSound(s: string, i: nat)
    requires i <= |s|
    ensures forall v :: v in MatchesFrom(s, i) ==> exists j :: i <= j && MatchAt(s, j) && v == s[j..j + 5]
    decreases |s| - i
  {
    if i + 5 <= |s| {
      if MatchAt(s, i) {
        MatchesSound(s, i + 5);
      } else {
        MatchesSound(s, i + 1);
      }
    }
  }

  /** Where the scan from `i` reports its matches: the start index of each. */
  function MatchPositions(s: string, i: nat): seq<nat>
    requires i <= |s|
    decreases |s| - i
  {
    if i + 5 > |s| then []
    else if MatchAt(s, i) then [i] + MatchPositions(s, i + 5)
    else MatchPositions(s, i + 1)
  }

  /**
   * Each reported string is the match at its position; the positions
   * increase, each at least five past the one before, so reported matches
   * never overlap.
   */
  lemma {:induction false} MatchPositionsSpell(s: string, i: nat)
    requires i <= |s|
    ensures |MatchPositions(s, i)| == |MatchesFrom(s, i)|
    ensures forall k :: 0 <= k < |MatchPositions(s, i)| ==>
              && i <= MatchPositions(s, i)[k] && MatchAt(s, MatchPositions(s, i)[k])
              && MatchesFrom(s, i)[k] == s[MatchPositions(s, i)[k]..MatchPositions(s, i)[k] + 5]
    ensures forall k, l :: 0 <= k < l < |MatchPositions(s, i)| ==>
              MatchPositions(s, i)[k] + 5 <= MatchPositions(s, i)[l]
    decreases |s| - i
  {
    if i + 5 <= |s| {
      if MatchAt(s, i) {
        MatchPositionsSpell(s, i + 5);
        var ps := [i] + MatchPositions(s, i + 5);
        assert ps[1..] == MatchPositions(s, i + 5);
        assert MatchesFrom(s, i)[1..] == MatchesFrom(s, i + 5);
      } else {
        MatchPositionsSpell(s, i + 1);
      }
    }
  }

  /**
   * A match at `j` is reported unless a reported match overlaps it from
   * the left.
   */
  lemma {:induction false} MatchesComplete(s: string, i: nat, j: nat)
    requires i <= j && MatchAt(s, j)
    requires forall p: nat :: p in MatchPositions(s, i) && p < j ==> p + 5 <= j
    ensures j in MatchPositions(s, i)
    ensures s[j..j + 5] in MatchesFrom(s, i)
    decreases j - i
  {
    var ps := MatchPositions(s, i);
    if i == j {
      assert ps[0] == j;
    } else if MatchAt(s, i) {
      var rest := MatchPositions(s, i + 5);
      assert ps == [i] + rest;
      assert i in ps;
      forall p: nat | p in rest && p < j
        ensures p + 5 <= j
      {
        assert p in ps;
      }
      MatchesComplete(s, i + 5, j);
      assert j in ps;
    } else {
      assert ps == MatchPositions(s, i + 1);
      MatchesComplete(s, i + 1, j);
    }
    ReportedPositionFound(s, i, j);
  }

  /** The string at a reported position is among the strings found. */
  lemma ReportedPositionFound(s: string, i: nat, j: nat)
    requires i <= |s| && j in MatchPositions(s, i)
    ensures j + 5 <= |s| && s[j..j + 5] in MatchesFrom(s, i)
  {
    MatchPositionsSpell(s, i);
    var k :| 0 <= k < |MatchPositions(s, i)| && MatchPositions(s, i)[k] == j;
    assert MatchesFrom(s, i)[k] == s[j..j + 5];
  }

  // Normalisation: `sorted(list(set(found)), key=self.to_tuple, reverse=True)`.

  /** Newest first: no entry has a smaller tuple than an entry after it. */
  predicate NonIncreasing(l: seq<string>) {
    forall i, j :: 0 <= i < j < |l| ==> LessEq(ToTuple(l[j]), ToTuple(l[i]))
  }

  /** Every entry has a strictly larger tuple than every entry after it. */
  predicate StrictlyDecreasing(l: seq<string>) {
    forall i, j :: 0 <= i < j < |l| ==> Less(ToTuple(l[j]), ToTuple(l[i]))
  }

  predicate NoDup(l: seq<string>) {
    forall i, j :: 0 <= i < j < |l| ==> l[i] != l[j]
  }

  /** Put `x` into a newest-first list in front of the first entry older than it. */
  function Place(x: string, l: seq<string>): (r: seq<string>)
    requires NonIncreasing(l) && NoDup(l) && x !in l
    ensures NonIncreasing(r) && NoDup(r)
    ensures |r| == |l| + 1
    ensures forall v :: v in r <==> v == x || v in l
  {
    if |l| == 0 then [x]
    else if Less(ToTuple(l[0]), ToTuple(x)) then
      PlaceFront(x, l);
      [x] + l
    else
      AtLeastIffNotLess(ToTuple(l[0]), ToTuple(x));
      var rest := Place(x, l[1..]);
      PlaceBehind(x, l, rest);
      [l[0]] + rest
  }

  lemma PlaceFront(x: string, l: seq<string>)
    requires NonIncreasing(l) && NoDup(l) && x !in l
    requires |l| > 0 && Less(ToTuple(l[0]), ToTuple(x))
    ensures NonIncreasing([x] + l) && NoDup([x] + l)
  {
    forall j | 0 < j < |l| ensures LessEq(ToTuple(l[j]), ToTuple(x)) {
      LessEqTransitive(ToTuple(l[j]), ToTuple(l[0]), ToTuple(x));
    }
    ConsNonIncreasing(x, l);
  }

  /** An entry at least as new as all of a newest-first list may go in front of it. */
  lemma ConsNonIncreasing(x: string, l: seq<string>)
    requires NonIncreasing(l) && NoDup(l) && x !in l
    requires forall j :: 0 <= j < |l| ==> LessEq(ToTuple(l[j]), ToTuple(x))
    ensures NonIncreasing([x] + l) && NoDup([x] + l)
  {
    var r := [x] + l;
    assert forall k :: 0 < k < |r| ==> r[k] == l[k - 1];
    assert r[0] == x;
  }

  lemma PlaceBehind(x: string, l: seq<string>, rest: seq<string>)
    requires NonIncreasing(l) && NoDup(l) && x !in l && |l| > 0
    requires LessEq(ToTuple(x), ToTuple(l[0]))
    requires NonIncreasing(rest) && NoDup(rest)
    requires forall v :: v in rest <==> v == x || v in l[1..]
    ensures NonIncreasing([l[0]] + rest) && NoDup([l[0]] + rest)
  {
    forall j | 0 <= j < |rest| ensures LessEq(ToTuple(rest[j]), ToTuple(l[0])) && rest[j] != l[0] {
      assert rest[j] in rest;
      if rest[j] != x {
        var k :| 0 <= k < |l[1..]| && l[1..][k] == rest[j];
        assert l[k + 1] == rest[j];
      }
    }
    ConsNonIncreasing(l[0], rest);
  }

  /** `sorted(list(set(found)), key=to_tuple, reverse=True)`. */
  function SortedDistinct(found: seq<string>): (r: seq<string>)
    ensures NonIncreasing(r) && NoDup(r)
    ensures forall v :: v in r <==> v in found
  {
    if |found| == 0 then []
    else
      var rest := SortedDistinct(found[1..]);
      assert forall v :: v in found <==> v == found[0] || v in found[1..];
      if found[0] in rest then rest else Place(found[0], rest)
  }

  /** A match `7.a.b` has the three one-digit runs 7, a and b. */
  lemma SevenVersionRuns(v: string)
    requires IsSevenVersion(v)
    ensures DigitRuns(v) == [v[0..1], v[2..3], v[4..5]]
  {
    assert RunEnd(v, 4) == 5;
    assert RunEnd(v, 2) == 3;
    assert RunEnd(v, 0) == 1;
    assert RunsFrom(v, 4) == [v[4..5]] + RunsFrom(v, 5);
    assert RunsFrom(v, 3) == RunsFrom(v, 4);
    assert RunsFrom(v, 2) == [v[2..3]] + RunsFrom(v, 3);
    assert RunsFrom(v, 1) == RunsFrom(v, 2);
    assert RunsFrom(v, 0) == [v[0..1]] + RunsFrom(v, 1);
  }

  /** The value of a one-digit run is that digit. */
  lemma DigitValue(w: string)
    requires |w| == 1 && AllDigits(w)
    ensures DecimalValue(w) == w[0] as nat - '0' as nat
  {
    assert w[..0] == [];
  }

  /** The tuple of a match `7.a.b` is (7, a, b). */
  lemma SevenVersionTuple(v: string)
    requires IsSevenVersion(v)
    ensures ToTuple(v) == [7, v[2] as nat - '0' as nat, v[4] as nat - '0' as nat]
  {
    SevenVersionRuns(v);
    var runs := DigitRuns(v);
    DigitValue(runs[0]);
    DigitValue(runs[1]);
    DigitValue(runs[2]);
    var t := Values(runs);
    assert ToTuple(v) == t;
    assert t[0] == 7 && t[1] == v[2] as nat - '0' as nat && t[2] == v[4] as nat - '0' as nat;
  }

  /** Distinct matches have distinct tuples, so the sort is never asked to break a tie. */
  lemma SevenVersionInjective(a: string, b: string)
    requires IsSevenVersion(a) && IsSevenVersion(b) && a != b
    ensures ToTuple(a) != ToTuple(b)
  {
    SevenVersionTuple(a);
    SevenVersionTuple(b);
  }

  /** On matches, the newest-first duplicate-free list is strictly decreasing. */
  lemma SevenVersionsStrict(l: seq<string>)
    requires NonIncreasing(l) && NoDup(l)
    requires forall k :: 0 <= k < |l| ==> IsSevenVersion(l[k])
    ensures StrictlyDecreasing(l)
  {
    forall i, j | 0 <= i < j < |l| ensures Less(ToTuple(l[j]), ToTuple(l[i])) {
      SevenVersionInjective(l[i], l[j]);
    }
  }

  /** Two strictly decreasing lists with the same members are the same list. */
  lemma {:induction false} StrictlyDecreasingUnique(a: seq<string>, b: seq<string>)
    requires StrictlyDecreasing(a) && StrictlyDecreasing(b)
    requires forall v :: v in a <==> v in b
    ensures a == b
    decreases |a|
  {
    if |a| > 0 {
      assert a[0] in b;
    }
    if |b| > 0 {
      assert b[0] in a;
    }
    if |a| > 0 {
      assert a[0] == b[0] by {
        if a[0] != b[0] {
          HeadIsNewest(b, a[0]);
          HeadIsNewest(a, b[0]);
          LessAsymmetric(ToTuple(a[0]), ToTuple(b[0]));
        }
      }
      forall v ensures v in a[1..] <==> v in b[1..] {
        StrictlyDecreasingTail(a, v);
        StrictlyDecreasingTail(b, v);
      }
      StrictlyDecreasingUnique(a[1..], b[1..]);
      assert a == [a[0]] + a[1..] && b == [b[0]] + b[1..];
    }
  }

  /** The head of a strictly decreasing list is newer than every other entry. */
  lemma HeadIsNewest(a: seq<string>, v: string)
    requires StrictlyDecreasing(a) && |a| > 0 && v in a && v != a[0]
    ensures Less(ToTuple(v), ToTuple(a[0]))
  {
    var k :| 0 <= k < |a| && a[k] == v;
  }

  /** The entries after the head of a strictly decreasing list are the others. */
  lemma StrictlyDecreasingTail(a: seq<string>, v: string)
    requires StrictlyDecreasing(a) && |a| > 0
    ensures v in a[1..] <==> v in a && v != a[0]
    ensures StrictlyDecreasing(a[1..])
  {
    assert forall k :: 0 <= k < |a[1..]| ==> a[1..][k] == a[k + 1];
    if v in a[1..] {
      var k :| 0 <= k < |a[1..]| && a[1..][k] == v;
      LessIrreflexive(ToTuple(a[0]));
    }
    if v in a && v != a[0] {
      var k :| 0 <= k < |a| && a[k] == v;
      assert a[1..][k - 1] == v;
    }
  }

  /**
   * Python's `sorted` over a set of matches has one possible outcome, whatever
   * order the set yields them in: any newest-first arrangement of the distinct
   * matches is the list this model computes.
   */
  lemma SortedDistinctIsDetermined(found: seq<string>, l: seq<string>)
    requires forall k :: 0 <= k < |found| ==> IsSevenVersion(found[k])
    requires NonIncreasing(l) && NoDup(l)
    requires forall v :: v in l <==> v in found
    ensures l == SortedDistinct(found)
  {
    var r := SortedDistinct(found);
    assert forall k :: 0 <= k < |l| ==> IsSevenVersion(l[k]) by {
      forall k | 0 <= k < |l| ensures IsSevenVersion(l[k]) {
        assert l[k] in found;
      }
    }
    assert forall k :: 0 <= k < |r| ==> IsSevenVersion(r[k]) by {
      forall k | 0 <= k < |r| ensures IsSevenVersion(r[k]) {
        assert r[k] in found;
      }
    }
    SevenVersionsStrict(l);
    SevenVersionsStrict(r);
    StrictlyDecreasingUnique(l, r);
  }

  /**
   * What `fetch_fortinet_versions` returns for one response: nothing when
   * the request failed, otherwise the distinct matches newest first.
   */
  function FortinetVersions(response: Option<string>): (versions: seq<string>)
    ensures response.None? ==> versions == []
    ensures response.Some? ==> forall v :: v in versions <==> v in FindVersions(response.value)
    ensures NoDup(versions) && StrictlyDecreasing(versions)
    ensures forall k :: 0 <= k < |versions| ==> IsSevenVersion(versions[k])
  {
    match response
    case None => []
    case Some(text) =>
      var found := FindVersions(text);
      var versions := SortedDistinct(found);
      assert forall k :: 0 <= k < |versions| ==> IsSevenVersion(versions[k]) by {
        forall k | 0 <= k < |versions| ensures IsSevenVersion(versions[k]) {
          assert versions[k] in found;
        }
      }
      SevenVersionsStrict(versions);
      versions
  }
}
