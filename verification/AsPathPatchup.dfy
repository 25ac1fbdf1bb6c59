/** What do_patchup makes of an AS4_PATH that does not fit its AS_PATH, and exactly when it gets there;
    and exactly when the lengths are right in the end. `length` is the cached length of the AS4_PATH. */
module AsPathPatchup {
  import opened Wrappers
  import opened AsPathModel
  import opened AsPathTunnel

  // ---- Padding the front --------------------------------------------------------------

  lemma PrependLength(p: Path, n: AsNum)
    requires Prependable(p)
    ensures PathLength(Prepend(p, n)) == PathLength(p) + 1
  {
    var r := Prepend(p, n);
    assert r[1..] == if p == [] || p[0].kind == AsSet then p else p[1..];
  }

  /** Padding the front ends as soon as there is a number to pad with, at just the length wanted. */
  lemma {:induction false} InflateEnds(p: Path, length: nat, total: nat)
    requires p != [] && Prependable(p)
    ensures Inflate(p, length, total) == AbortMerge || Inflate(p, length, total).Merged?
    ensures Inflate(p, length, total).Merged? <==> length >= total || p[0].ases != []
    ensures Inflate(p, length, total).Merged? ==>
              var m := Inflate(p, length, total);
              && m.length == (if length >= total then length else total)
              && PathLength(m.path) == PathLength(p) + m.length - length
    decreases total - length
  {
    if length < total && p[0].ases != [] {
      PrependLength(p, p[0].ases[0]);
      InflateEnds(Prepend(p, p[0].ases[0]), length + 1, total);
    }
  }

  /** Padding loses no number and adds none. */
  lemma {:induction false} InflateContains(p: Path, length: nat, total: nat, x: AsNum)
    requires p != [] && Prependable(p) && Inflate(p, length, total).Merged?
    ensures Contains(Inflate(p, length, total).path, x) <==> Contains(p, x)
    decreases total - length
  {
    if length < total {
      PrependContains(p, x);
      InflateContains(Prepend(p, p[0].ases[0]), length + 1, total, x);
    }
  }

  lemma PrependContains(p: Path, x: AsNum)
    requires p != [] && Prependable(p) && p[0].ases != []
    ensures Contains(Prepend(p, p[0].ases[0]), x) <==> Contains(p, x)
  {
    var r := Prepend(p, p[0].ases[0]);
    if Contains(p, x) {
      var s :| s in p && x in s.ases;
      if s !in r { assert s == p[0] && x in r[0].ases && r[0] in r; }
    }
    if Contains(r, x) {
      var s :| s in r && x in s.ases;
      if s !in p { assert x in p[0].ases && p[0] in p; }
    }
  }

  // ---- The search ---------------------------------------------------------------------

  /** There is a number wherever the search looks: only a set without numbers has none. */
  predicate Numbered(s: Segment) {
    |s.ases| >= SegmentLength(s)
  }

  /** The numbers of a segment that the search looks at. */
  function Visible(s: Segment): seq<AsNum> {
    s.ases[..Min(SegmentLength(s), |s.ases|)]
  }

  /** The segment has a number to add. */
  predicate HasLacking(newer: Path, s: Segment) {
    Lacking(newer, Visible(s)) != []
  }

  /** The search gets past a segment. */
  predicate Passes(newer: Path, s: Segment, one: bool) {
    Numbered(s) && !(one && HasLacking(newer, s))
  }

  ghost predicate PassesUpto(newer: Path, older: Path, i: nat, k: nat, one: bool)
    requires k <= |older|
  {
    forall j | i <= j < k :: Passes(newer, older[j], one)
  }

  ghost predicate SomeLacking(newer: Path, older: Path, i: nat, total: nat) {
    exists k :: i <= k < |older| && k < total && HasLacking(newer, older[k])
  }

  /** The search stops at a set without numbers. */
  ghost predicate MeetsEmptySet(newer: Path, older: Path, i: nat, total: nat, one: bool) {
    exists k :: i <= k < |older| && k < total && !Numbered(older[k]) && PassesUpto(newer, older, i, k, one)
  }

  lemma {:induction false} LackingIs(p: Path, ns: seq<AsNum>, n: AsNum)
    ensures n in Lacking(p, ns) <==> n in ns && Lacks(p, n)
  {
    if ns != [] {
      LackingIs(p, ns[1..], n);
      assert ns == [ns[0]] + ns[1..];
    }
  }

  /** The search counts segments up to the length of the path. So it runs past the last one unless
      there are that many, or one number is enough and there is one. */
  lemma {:induction false} SearchEnds(newer: Path, older: Path, i: nat, total: nat, one: bool)
    requires i <= |older|
    ensures var r := SearchFrom(newer, older, i, total, one);
            && (r.NoNumber? <==> MeetsEmptySet(newer, older, i, total, one))
            && (r.NoSegment? <==> |older| < total && PassesUpto(newer, older, i, |older|, one))
    decreases total - i
  {
    if i >= total || i == |older| {
      NothingLeft(newer, older, i, total, one);
    } else if Passes(newer, older[i], one) {
      SearchEnds(newer, older, i + 1, total, one);
      PassesNext(newer, older, i, total, one);
    } else {
      StopsHere(newer, older, i, total, one);
    }
  }

  lemma NothingLeft(newer: Path, older: Path, i: nat, total: nat, one: bool)
    requires i <= |older| && (i >= total || i == |older|)
    ensures !MeetsEmptySet(newer, older, i, total, one) && !SearchFrom(newer, older, i, total, one).NoNumber?
    ensures SearchFrom(newer, older, i, total, one).NoSegment? <==>
              |older| < total && PassesUpto(newer, older, i, |older|, one)
  {
  }

  lemma PassesNext(newer: Path, older: Path, i: nat, total: nat, one: bool)
    requires i < |older| && i < total && Passes(newer, older[i], one)
    ensures PassesUpto(newer, older, i, |older|, one) <==> PassesUpto(newer, older, i + 1, |older|, one)
    ensures MeetsEmptySet(newer, older, i, total, one) <==> MeetsEmptySet(newer, older, i + 1, total, one)
    ensures var r, next := SearchFrom(newer, older, i, total, one), SearchFrom(newer, older, i + 1, total, one);
            (r.NoNumber? <==> next.NoNumber?) && (r.NoSegment? <==> next.NoSegment?)
  {
    var next := i + 1;
    if MeetsEmptySet(newer, older, i, total, one) {
      var k :| i <= k < |older| && k < total && !Numbered(older[k]) && PassesUpto(newer, older, i, k, one);
      assert next <= k && PassesUpto(newer, older, next, k, one);
    }
    if MeetsEmptySet(newer, older, next, total, one) {
      var k :| next <= k < |older| && k < total && !Numbered(older[k]) && PassesUpto(newer, older, next, k, one);
      assert PassesUpto(newer, older, i, k, one);
    }
  }

  lemma StopsHere(newer: Path, older: Path, i: nat, total: nat, one: bool)
    requires i < |older| && i < total && !Passes(newer, older[i], one)
    ensures !PassesUpto(newer, older, i, |older|, one)
    ensures MeetsEmptySet(newer, older, i, total, one) <==> !Numbered(older[i])
    ensures SearchFrom(newer, older, i, total, one).NoNumber? <==> !Numbered(older[i])
    ensures !SearchFrom(newer, older, i, total, one).NoSegment?
  {
    assert PassesUpto(newer, older, i, i, one);
    if MeetsEmptySet(newer, older, i, total, one) {
      var k :| i <= k < |older| && k < total && !Numbered(older[k]) && PassesUpto(newer, older, i, k, one);
      assert k == i;
    }
  }

  /** What it finds is lacking and was looked at; and all of that is found, unless one is enough. */
  lemma {:induction false} SearchFinds(newer: Path, older: Path, i: nat, total: nat, one: bool, n: AsNum)
    requires SearchFrom(newer, older, i, total, one).Found?
    ensures n in SearchFrom(newer, older, i, total, one).numbers ==> Lacks(newer, n) && Looked(older, i, total, n)
    ensures !one && Lacks(newer, n) && Looked(older, i, total, n) ==>
              n in SearchFrom(newer, older, i, total, one).numbers
    decreases total - i
  {
    if i < total {
      LackingIs(newer, Visible(older[i]), n);
      if !(one && HasLacking(newer, older[i])) {
        SearchFinds(newer, older, i + 1, total, one, n);
        LookedNext(older, i, total, n);
      }
    }
  }

  /** The search looks at the number. */
  ghost predicate Looked(older: Path, i: nat, total: nat, n: AsNum) {
    exists k :: i <= k < |older| && k < total && n in Visible(older[k])
  }

  lemma LookedNext(older: Path, i: nat, total: nat, n: AsNum)
    requires i < |older| && i < total
    ensures Looked(older, i, total, n) <==> n in Visible(older[i]) || Looked(older, i + 1, total, n)
  {
    if Looked(older, i, total, n) {
      var k :| i <= k < |older| && k < total && n in Visible(older[k]);
      assert k == i || i + 1 <= k;
    }
  }

  /** It finds something if and only if there is something to find. */
  lemma {:induction false} SearchFindsSome(newer: Path, older: Path, i: nat, total: nat, one: bool)
    requires SearchFrom(newer, older, i, total, one).Found?
    ensures SearchFrom(newer, older, i, total, one).numbers != [] <==> SomeLacking(newer, older, i, total)
    decreases total - i
  {
    if i < total {
      if HasLacking(newer, older[i]) {
        assert SomeLacking(newer, older, i, total);
      } else {
        SearchFindsSome(newer, older, i + 1, total, one);
        SomeLackingNext(newer, older, i, total);
      }
    }
  }

  lemma SomeLackingNext(newer: Path, older: Path, i: nat, total: nat)
    requires i < |older| && !HasLacking(newer, older[i])
    ensures SomeLacking(newer, older, i, total) <==> SomeLacking(newer, older, i + 1, total)
  {
    if SomeLacking(newer, older, i, total) {
      var k :| i <= k < |older| && k < total && HasLacking(newer, older[k]);
      assert i + 1 <= k;
    }
  }

  // ---- When it gets there -------------------------------------------------------------

  /** The search ends with an answer. */
  ghost predicate SearchSucceeds(newer: Path, older: Path, one: bool) {
    var total := PathLength(older);
    !MeetsEmptySet(newer, older, 0, total, one) && (|older| < total ==> !PassesUpto(newer, older, 0, |older|, one))
  }

  /** Patching up gets there if and only if the search does, and has found a number or needs none. It
      reads beyond the end of an empty list if and only if the search meets a set without numbers, or
      nothing was found to go into the set at the front (or there is no front). Otherwise it aborts. */
  lemma PatchupEnds(newer: Path, older: Path, length: nat)
    ensures var total := PathLength(older);
            var one := 1 + length == total;
            var found := SomeLacking(newer, older, 0, total);
            var m := DoPatchup(newer, older, length);
            && (m.Merged? <==> SearchSucceeds(newer, older, one) && newer != [] &&
                               (found || (newer[0].kind != AsSet && total <= length + 1)))
            && (m.Overruns? <==> MeetsEmptySet(newer, older, 0, total, one) ||
                                 (SearchSucceeds(newer, older, one) &&
                                  (newer == [] || (newer[0].kind == AsSet && !found))))
            && !m.Diverges?
  {
    var total := PathLength(older);
    var one := 1 + length == total;
    SearchEnds(newer, older, 0, total, one);
    var r := SearchFrom(newer, older, 0, total, one);
    if r.Found? {
      SearchFindsSome(newer, older, 0, total, one);
      PutFoundEnds(newer, r.numbers, length, total);
    }
  }

  lemma PutFoundEnds(newer: Path, numbers: seq<AsNum>, length: nat, total: nat)
    ensures var m := PutFound(newer, numbers, length, total);
            && (m.Merged? <==> newer != [] && (numbers != [] || (newer[0].kind != AsSet && total <= length + 1)))
            && (m.Overruns? <==> newer == [] || (newer[0].kind == AsSet && numbers == []))
            && !m.Diverges?
  {
    if newer != [] && newer[0].kind != AsSet {
      InflateEnds([Segment(AsSet, numbers)] + newer, length + 1, total);
    } else if newer != [] && numbers != [] {
      InflateEnds([Segment(AsSet, newer[0].ases + [numbers[0]])] + newer[1..], length, total);
    }
  }

  /** A path one segment shorter than its AS4_PATH, and two numbers longer: it aborts. */
  lemma PatchupAborts()
    ensures CrossValidate([Segment(AsSequence, [1]), Segment(AsSequence, [2])],
                          [Segment(AsSequence, [5, 6, 7, 2])]) == AbortMerge
  {
    var newer := [Segment(AsSequence, [1]), Segment(AsSequence, [2])];
    var older := [Segment(AsSequence, [5, 6, 7, 2])];
    assert newer[1..] == [newer[1]] && newer[1..][1..] == [] && older[1..] == [];
    assert PathLength(newer[1..]) == 1;
    assert PathLength(newer) == 2 && PathLength(older) == 4;
    assert SearchFrom(newer, older, 0, 4, false) == NoSegment by {
      assert SearchFrom(newer, older, 1, 4, false) == NoSegment;
    }
  }

  // ---- Length -------------------------------------------------------------------------

  /** When it gets there, the cached length is that of the AS_PATH, or one more than it was if it was
      no less; and the path has grown by as much as the cached length has. So it is as long as the
      AS_PATH if and only if the cached length was right. */
  lemma PatchupLength(newer: Path, older: Path, length: nat)
    requires DoPatchup(newer, older, length).Merged?
    ensures var m := DoPatchup(newer, older, length);
            var least := if newer[0].kind == AsSet then length else length + 1;
            && m.length == (if least >= PathLength(older) then least else PathLength(older))
            && PathLength(m.path) == PathLength(newer) + m.length - length
            && (length < PathLength(older) ==>
                  m.length == PathLength(older) &&
                  (PathLength(m.path) == PathLength(older) <==> length == PathLength(newer)))
  {
    var total := PathLength(older);
    var numbers := SearchFrom(newer, older, 0, total, 1 + length == total).numbers;
    PutFoundLength(newer, numbers, length, total);
  }

  lemma PutFoundLength(newer: Path, numbers: seq<AsNum>, length: nat, total: nat)
    requires PutFound(newer, numbers, length, total).Merged?
    ensures var m := PutFound(newer, numbers, length, total);
            var least := if newer[0].kind == AsSet then length else length + 1;
            && m.length == (if least >= total then least else total)
            && PathLength(m.path) == PathLength(newer) + m.length - length
  {
    if newer[0].kind != AsSet {
      var p := [Segment(AsSet, numbers)] + newer;
      assert p[1..] == newer;
      InflateEnds(p, length + 1, total);
    } else {
      var p := [Segment(AsSet, newer[0].ases + [numbers[0]])] + newer[1..];
      assert p[1..] == newer[1..];
      InflateEnds(p, length, total);
    }
  }

  // ---- What the path then holds -------------------------------------------------------

  /** The numbers of the path afterwards: those of the AS4_PATH, and those found or the first of them. */
  lemma PutFoundContains(newer: Path, numbers: seq<AsNum>, length: nat, total: nat, n: AsNum)
    requires PutFound(newer, numbers, length, total).Merged?
    ensures Contains(PutFound(newer, numbers, length, total).path, n) <==>
              Contains(newer, n) || (if newer[0].kind != AsSet then n in numbers else n == numbers[0])
  {
    if newer[0].kind != AsSet {
      var p := [Segment(AsSet, numbers)] + newer;
      FrontContains(p, newer, numbers, n);
      InflateContains(p, length + 1, total, n);
    } else {
      var p := [Segment(AsSet, newer[0].ases + [numbers[0]])] + newer[1..];
      SetContains(p, newer, numbers[0], n);
      InflateContains(p, length, total, n);
    }
  }

  lemma FrontContains(p: Path, newer: Path, numbers: seq<AsNum>, n: AsNum)
    requires p == [Segment(AsSet, numbers)] + newer
    ensures Contains(p, n) <==> Contains(newer, n) || n in numbers
  {
    assert p[0] in p && p[0].ases == numbers;
    if Contains(newer, n) {
      var s :| s in newer && n in s.ases;
      assert s in p;
    }
    if Contains(p, n) {
      var s :| s in p && n in s.ases;
      assert s == p[0] || s in newer;
    }
  }

  lemma SetContains(p: Path, newer: Path, x: AsNum, n: AsNum)
    requires newer != [] && p == [Segment(AsSet, newer[0].ases + [x])] + newer[1..]
    ensures Contains(p, n) <==> Contains(newer, n) || n == x
  {
    assert p[0] in p && newer[0] in newer && newer == [newer[0]] + newer[1..];
    if Contains(newer, n) {
      var s :| s in newer && n in s.ases;
      assert if s == newer[0] then n in p[0].ases else s in newer[1..] && s in p;
    }
    if n == x { assert n in p[0].ases; }
    if Contains(p, n) {
      var s :| s in p && n in s.ases;
      assert if s == p[0] then n in newer[0].ases || n == x else s in newer[1..] && s in newer;
    }
  }

  /** A number that two-byte speakers have seen and the AS4_PATH lacks. */
  predicate Missing(newer: Path, older: Path, n: AsNum) {
    Contains(older, n) && Lacks(newer, n)
  }

  ghost predicate AllLooked(newer: Path, older: Path) {
    forall n | Missing(newer, older, n) :: Looked(older, 0, PathLength(older), n)
  }

  ghost predicate AtMostOneMissing(newer: Path, older: Path) {
    forall n, x | Missing(newer, older, n) && Missing(newer, older, x) :: n == x
  }

  /** The path then has the number, if it is not the number that stands for long ones. */
  ghost predicate Covered(m: Merge, n: AsNum)
    requires m.Merged?
  {
    Compat(n) != AS_TRAN ==> Contains(m.path, n)
  }

  ghost predicate Covers(m: Merge, older: Path)
    requires m.Merged?
  {
    forall n | Contains(older, n) :: Covered(m, n)
  }

  /** Only the first number found is taken. */
  predicate TakesOne(newer: Path, older: Path, length: nat)
    requires newer != []
  {
    newer[0].kind == AsSet || 1 + length == PathLength(older)
  }

  /** The comment in the code hopes that no loop goes unseen. The path has every number of the AS_PATH
      if and only if the search looks at all that the AS4_PATH lacks, and there is at most one of them
      where only one is taken. Nothing of the AS4_PATH is lost. */
  lemma PatchupCovers(newer: Path, older: Path, length: nat)
    requires DoPatchup(newer, older, length).Merged?
    ensures forall n | Contains(newer, n) :: Contains(DoPatchup(newer, older, length).path, n)
    ensures Covers(DoPatchup(newer, older, length), older) <==>
            AllLooked(newer, older) && (TakesOne(newer, older, length) ==> AtMostOneMissing(newer, older))
  {
    var m := DoPatchup(newer, older, length);
    forall n ensures Contains(m.path, n) <==> Contains(newer, n) || Added(newer, older, length, n) {
      PutFoundContains(newer, FoundNumbers(newer, older, length), length, PathLength(older), n);
    }
    if AllLooked(newer, older) && (TakesOne(newer, older, length) ==> AtMostOneMissing(newer, older)) {
      forall n | Contains(older, n) ensures Covered(m, n) {
        if Missing(newer, older, n) { MissingIsAdded(newer, older, length, n); }
      }
    }
    if Covers(m, older) {
      forall n | Missing(newer, older, n)
        ensures Looked(older, 0, PathLength(older), n) && Added(newer, older, length, n) {
        assert Covered(m, n);
        AddedIsLooked(newer, older, length, n);
      }
      if TakesOne(newer, older, length) { AddsOne(newer, older, length); }
    }
  }

  function FoundNumbers(newer: Path, older: Path, length: nat): seq<AsNum> {
    var r := SearchFrom(newer, older, 0, PathLength(older), 1 + length == PathLength(older));
    if r.Found? then r.numbers else []
  }

  /** A number that patching up adds. */
  predicate Added(newer: Path, older: Path, length: nat, n: AsNum) {
    var numbers := FoundNumbers(newer, older, length);
    newer != [] && numbers != [] && (if newer[0].kind != AsSet then n in numbers else n == numbers[0])
  }

  lemma AddedIsLooked(newer: Path, older: Path, length: nat, n: AsNum)
    requires Added(newer, older, length, n)
    ensures Lacks(newer, n) && Looked(older, 0, PathLength(older), n)
  {
    SearchFinds(newer, older, 0, PathLength(older), 1 + length == PathLength(older), n);
  }

  lemma LookedIsThere(older: Path, n: AsNum)
    requires Looked(older, 0, PathLength(older), n)
    ensures Contains(older, n)
  {
    var k :| 0 <= k < |older| && k < PathLength(older) && n in Visible(older[k]);
    assert older[k] in older && n in older[k].ases;
  }

  lemma {:induction false} OneIsEnough(newer: Path, older: Path, i: nat, total: nat)
    requires SearchFrom(newer, older, i, total, true).Found?
    ensures |SearchFrom(newer, older, i, total, true).numbers| <= 1
    decreases total - i
  {
    if i < total && !HasLacking(newer, older[i]) { OneIsEnough(newer, older, i + 1, total); }
  }

  /** Where one is taken, any two numbers added are the same. */
  lemma AddsOne(newer: Path, older: Path, length: nat)
    requires DoPatchup(newer, older, length).Merged? && TakesOne(newer, older, length)
    requires forall n | Missing(newer, older, n) :: Added(newer, older, length, n)
    ensures AtMostOneMissing(newer, older)
  {
    var numbers := FoundNumbers(newer, older, length);
    if newer[0].kind != AsSet { OneIsEnough(newer, older, 0, PathLength(older)); }
    forall n, x | Missing(newer, older, n) && Missing(newer, older, x) ensures n == x {
      assert Added(newer, older, length, n) && Added(newer, older, length, x);
      assert n == numbers[0] && x == numbers[0];
    }
  }

  lemma MissingIsAdded(newer: Path, older: Path, length: nat, n: AsNum)
    requires DoPatchup(newer, older, length).Merged? && Missing(newer, older, n)
    requires AllLooked(newer, older) && (TakesOne(newer, older, length) ==> AtMostOneMissing(newer, older))
    ensures Added(newer, older, length, n)
  {
    var total := PathLength(older);
    var one := 1 + length == total;
    var numbers := FoundNumbers(newer, older, length);
    SearchFinds(newer, older, 0, total, one, n);
    FoundSomething(newer, older, length, n);
    if TakesOne(newer, older, length) {
      SearchFinds(newer, older, 0, total, one, numbers[0]);
      LookedIsThere(older, numbers[0]);
      assert Missing(newer, older, numbers[0]);
    }
  }

  lemma FoundSomething(newer: Path, older: Path, length: nat, n: AsNum)
    requires DoPatchup(newer, older, length).Merged? && Lacks(newer, n) && Looked(older, 0, PathLength(older), n)
    ensures FoundNumbers(newer, older, length) != []
  {
    var total := PathLength(older);
    var k :| 0 <= k < |older| && k < total && n in Visible(older[k]);
    LackingIs(newer, Visible(older[k]), n);
    assert HasLacking(newer, older[k]);
    SearchFindsSome(newer, older, 0, total, 1 + length == total);
  }

  const SHORT: Path := [Segment(AsSet, [1]), Segment(AsSequence, [2])]
  const LONG: Path := [Segment(AsSequence, [5, 6, 2])]

  /** Where one number is wanted, the others are not looked for: AS 6 is lost. */
  lemma PatchupLoses()
    ensures CrossValidate(SHORT, LONG) ==
            Merged([Segment(AsSequence, [1]), Segment(AsSet, [1, 5]), Segment(AsSequence, [2])], 3)
    ensures 6 in LONG[0].ases && Lacks(SHORT, 6)
  {
    assert PathLength(SHORT[1..]) == 1 by { assert SHORT[1..][1..] == []; }
    assert PathLength(LONG) == 3 by { assert LONG[1..] == []; }
    LackingHere();
    assert SearchFrom(SHORT, LONG, 0, 3, true) == Found([5]);
    var p := [Segment(AsSet, [1, 5]), Segment(AsSequence, [2])];
    assert SHORT[0].ases + [5] == [1, 5] && SHORT[1..] == [Segment(AsSequence, [2])];
    assert [Segment(AsSet, SHORT[0].ases + [5])] + SHORT[1..] == p;
    assert Inflate(p, 2, 3) == Inflate(Prepend(p, 1), 3, 3);
  }

  lemma LackingHere()
    ensures Lacks(SHORT, 5) && Lacks(SHORT, 6) && Lacking(SHORT, [5, 6, 2]) != [] && Lacking(SHORT, [5, 6, 2])[0] == 5
  {
    forall s | s in SHORT ensures 5 !in s.ases && 6 !in s.ases {
    }
  }

  // ---- Lengths after merging ----------------------------------------------------------

  /** By how much padding a segment adds more to the cached length than to the path: a segment turned
      into a set counts one from then on, and a set or a segment of no type counts as before. */
  function Ahead(o: Segment, n: Segment): int {
    if n.kind == AsSet || o.kind == AsSet || !SuffixAgrees(o.ases, n.ases) then SegmentLength(n) - 1
    else if n.kind == AsSequence || n.kind == AsConfedSequence then 0
    else |o.ases| - |n.ases|
  }

  lemma PaddedLength(o: Segment, n: Segment)
    requires PadSegment(o, n).Padded?
    ensures SegmentLength(PadSegment(o, n).segment) + Ahead(o, n) == SegmentLength(n) + PadSegment(o, n).growth
  {
  }

  /** The same over the whole loop, from the i-th last segment on. */
  function Drift(newer: Path, older: Path, i: nat, length: nat): int
    requires 1 <= i
    decreases |older| + 1 - i
  {
    if i > |newer| || i > |older| then 0
    else
      var o, n := FromEnd(older, i), FromEnd(newer, i);
      (if SegmentLength(o) > SegmentLength(n) then Ahead(o, n) else 0) +
      match PadOne(newer, older, i, length)
      case Merged(p, l) => Drift(p, older, i + 1, l)
      case _ => 0
  }

  lemma {:induction false} LengthUpdated(p: Path, j: nat, s: Segment)
    requires j < |p|
    ensures PathLength(p[j := s]) == PathLength(p) - SegmentLength(p[j]) + SegmentLength(s)
  {
    var q := p[j := s];
    if j == 0 {
      assert q[1..] == p[1..];
    } else {
      assert q[1..] == p[1..][j - 1 := s];
      LengthUpdated(p[1..], j - 1, s);
    }
  }

  lemma PadOneLength(newer: Path, older: Path, i: nat, length: nat)
    requires 1 <= i <= |newer| && i <= |older| && PadOne(newer, older, i, length).Merged?
    ensures var o, n := FromEnd(older, i), FromEnd(newer, i);
            var m := PadOne(newer, older, i, length);
            m.length - PathLength(m.path) ==
            length - PathLength(newer) + (if SegmentLength(o) > SegmentLength(n) then Ahead(o, n) else 0)
  {
    var o, n := FromEnd(older, i), FromEnd(newer, i);
    if SegmentLength(o) < SegmentLength(n) {
      PatchupLength(newer, older, length);
    } else if SegmentLength(o) > SegmentLength(n) {
      PaddedLength(o, n);
      LengthUpdated(newer, |newer| - i, PadSegment(o, n).segment);
    }
  }

  lemma {:induction false} PadFromLength(newer: Path, older: Path, i: nat, length: nat)
    requires 1 <= i && PadFrom(newer, older, i, length).Merged?
    ensures var m := PadFrom(newer, older, i, length);
            m.length - PathLength(m.path) == length - PathLength(newer) + Drift(newer, older, i, length)
    decreases |older| + 1 - i
  {
    if i <= |newer| {
      PadOneLength(newer, older, i, length);
      var m := PadOne(newer, older, i, length);
      PadFromLength(m.path, older, i + 1, m.length);
    }
  }

  /** The padding loop runs. */
  predicate Pads(newer: Path, older: Path) {
    PathLength(newer) < PathLength(older) && |newer| <= |older|
  }

  /** Once merged, the path is as long as the AS_PATH was, whose cached length it takes over, if and only
      if the loop did not run or what the cached length ran ahead sums up to nothing. The cached length
      of the AS4_PATH is then right too, unless it was replaced. */
  lemma MergedLength(newer: Path, older: Path)
    requires CrossValidate(newer, older).Merged?
    ensures var m := CrossValidate(newer, older);
            var right := Pads(newer, older) ==> Drift(newer, older, 1, PathLength(newer)) == 0;
            && (PathLength(m.path) == PathLength(older) <==> right)
            && (m.length == PathLength(m.path) <==> right && PathLength(newer) <= PathLength(older))
  {
    if Pads(newer, older) {
      var m := PadFrom(newer, older, 1, PathLength(newer));
      PadFromLength(newer, older, 1, PathLength(newer));
      AddedLength(m, older);
    } else if PathLength(newer) < PathLength(older) {
      PatchupLength(newer, older, PathLength(newer));
    }
  }

  lemma AddedLength(m: Merge, older: Path)
    requires m.Merged? && AddSegments(m, older).Merged?
    ensures var r := AddSegments(m, older);
            r.length == PathLength(older) && r.length - PathLength(r.path) == m.length - PathLength(m.path)
  {
    if m.length != PathLength(older) {
      PathLengthConcat(older[..|older| - |m.path|], m.path);
    }
  }

  const NEWER: Path := [Segment(AsSequence, [8, 9]), Segment(AsSequence, [7, 6])]
  const OLDER: Path := [Segment(AsSequence, [1]), Segment(AsSequence, [8]), Segment(AsSequence, [5, 6, 7])]
  const TURNED: Path := [Segment(AsSequence, [8, 9]), Segment(AsSet, [5, 7, 6])]
  const PATCHED: Path := [Segment(AsSet, [1]), Segment(AsSequence, [8, 9]), Segment(AsSet, [5, 7, 6])]

  /** Padding turns the last segment into a set, and patching up goes by the stale length: in the end the
      path counts four and the cached length five. */
  lemma StaleLength()
    ensures CrossValidate(NEWER, OLDER) == Merged(PATCHED, 5) && PathLength(PATCHED) == 4
  {
    Lengths();
    TurnedIntoSet();
    assert PadFrom(NEWER, OLDER, 1, 4) == PadFrom(TURNED, OLDER, 2, 4);
    PatchedStale();
    assert PadFrom(TURNED, OLDER, 2, 4) == PadFrom(PATCHED, OLDER, 3, 5);
    assert FromEnd(OLDER, 3) == OLDER[0] && FromEnd(PATCHED, 3) == PATCHED[0];
    assert PadOne(PATCHED, OLDER, 3, 5) == Merged(PATCHED, 5);
    assert PadFrom(PATCHED, OLDER, 3, 5) == PadFrom(PATCHED, OLDER, 4, 5) == Merged(PATCHED, 5);
  }

  lemma Lengths()
    ensures PathLength(NEWER) == 4 && PathLength(OLDER) == 5 && PathLength(PATCHED) == 4
  {
    assert NEWER[1..] == [NEWER[1]] && NEWER[1..][1..] == [];
    assert PathLength(NEWER[1..]) == 2;
    assert OLDER[1..] == [OLDER[1], OLDER[2]] && OLDER[1..][1..] == [OLDER[2]] && OLDER[1..][1..][1..] == [];
    assert PathLength(OLDER[1..][1..]) == 3 && PathLength(OLDER[1..]) == 4;
    assert PATCHED[1..] == [PATCHED[1], PATCHED[2]] && PATCHED[1..][1..] == [PATCHED[2]];
    assert PATCHED[1..][1..][1..] == [];
    assert PathLength(PATCHED[1..][1..]) == 1 && PathLength(PATCHED[1..]) == 3;
  }

  lemma TurnedIntoSet()
    ensures PadOne(NEWER, OLDER, 1, 4) == Merged(TURNED, 4)
  {
    var o, n := OLDER[2], NEWER[1];
    assert FromEnd(OLDER, 1) == o && FromEnd(NEWER, 1) == n;
    assert !SuffixAgrees(o.ases, n.ases) by {
      assert FromEnd(o.ases, 1) == 7 && FromEnd(n.ases, 1) == 6;
    }
    assert PadSet(o.ases, 1, n.ases) == PadSet(o.ases, 0, [5] + n.ases) == [5, 7, 6];
    assert PadSet(o.ases, 3, n.ases) == PadSet(o.ases, 2, n.ases) == PadSet(o.ases, 1, n.ases);
    assert NEWER[1 := Segment(AsSet, [5, 7, 6])] == TURNED;
  }

  lemma PatchedStale()
    ensures PadOne(TURNED, OLDER, 2, 4) == Merged(PATCHED, 5)
  {
    assert FromEnd(OLDER, 2) == OLDER[1] && FromEnd(TURNED, 2) == TURNED[0];
    Lengths();
    assert Lacks(TURNED, 1) by {
      forall s | s in TURNED ensures 1 !in s.ases {
      }
    }
    assert Lacking(TURNED, [1]) == [1] by { assert [1][1..] == []; }
    assert OLDER[0].ases[..1] == [1];
    assert SearchFrom(TURNED, OLDER, 0, 5, true) == Found([1]);
    assert [Segment(AsSet, [1])] + TURNED == PATCHED;
  }
}
