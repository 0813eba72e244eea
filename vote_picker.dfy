/**
 * DefaultMapVotePicker: builds a poll's shortlist by weighted sampling
 * without replacement. Every draw lays the remaining maps out on a line of
 * cumulative weights (a TreeMap from cumulative weight to map), draws a point
 * in [0, total) and takes the entry with the least key above it.
 *
 * `skipZero` chooses between the code as written (false: a zero-weight map is
 * put at the previous cumulative key and overwrites the map stored there) and
 * the corrected layout (true: zero-weight maps are left out of the TreeMap).
 */
module VotePicker {
  import opened Common

  /** VOTE_OPTIONS: the most maps a poll offers. */
  const VoteOptions: nat := 5

  /** weigh(map, score): 0 for a missing or non-positive score, otherwise max(score², EPS). */
  function Weigh(score: Option<real>): (w: real)
    ensures w >= 0.0
    ensures w > 0.0 <==> score.Some? && score.value > 0.0
    ensures score.Some? && score.value > 0.0 ==>
      w >= EPS && w >= score.value * score.value && (w == EPS || w == score.value * score.value)
  {
    if score.None? || score.value <= 0.0 then 0.0 else Max(score.value * score.value, EPS)
  }

  /** The weight of a remaining map (0 once it has been removed). */
  function WeightIn(rem: map<MapInfo, real>, m: MapInfo): real {
    if m in rem then Weigh(Some(rem[m])) else 0.0
  }

  /** `maxWeight` after visiting `ms` in iteration order: the summed weight of the remaining maps among them. */
  function Total(ms: seq<MapInfo>, rem: map<MapInfo, real>): real {
    if ms == [] then 0.0 else Total(ms[..|ms| - 1], rem) + WeightIn(rem, ms[|ms| - 1])
  }

  /** Whether the TreeMap receives an entry for map `m`. */
  predicate IsPut(rem: map<MapInfo, real>, m: MapInfo, skipZero: bool) {
    m in rem && (!skipZero || WeightIn(rem, m) > 0.0)
  }

  /**
   * The TreeMap `cumulativeScores` after visiting `ms`: each remaining map is
   * put at the running total, so a later map put at an equal key replaces
   * the earlier one.
   */
  function Tree(ms: seq<MapInfo>, rem: map<MapInfo, real>, skipZero: bool): (t: map<real, MapInfo>)
    ensures forall k :: k in t ==> t[k] in ms && t[k] in rem
    ensures skipZero ==> forall k :: k in t ==> rem[t[k]] > 0.0
  {
    if ms == [] then map[]
    else
      var t := Tree(ms[..|ms| - 1], rem, skipZero);
      if IsPut(rem, ms[|ms| - 1], skipZero) then t[Total(ms, rem) := ms[|ms| - 1]] else t
  }

  /** `k` is the least key of `keys` strictly greater than `x`. */
  ghost predicate IsLeastAbove(keys: set<real>, x: real, k: real) {
    k in keys && k > x && forall k' :: k' in keys && k' > x ==> k <= k'
  }

  lemma {:induction false} LeastExists(keys: set<real>, x: real, k0: real)
    requires k0 in keys && k0 > x
    ensures exists k :: IsLeastAbove(keys, x, k)
    decreases keys
  {
    var rest := keys - {k0};
    if exists k1 :: k1 in rest && k1 > x {
      var k1 :| k1 in rest && k1 > x;
      LeastExists(rest, x, k1);
      var k :| IsLeastAbove(rest, x, k);
      var least := if k0 < k then k0 else k;
      forall k' | k' in keys && k' > x
        ensures least <= k'
      {
        if k' != k0 {
          assert k' in rest;
        }
      }
      assert IsLeastAbove(keys, x, least);
    } else {
      forall k' | k' in keys && k' > x
        ensures k0 <= k'
      {
        assert k' !in rest;
      }
      assert IsLeastAbove(keys, x, k0);
    }
  }

  /** The key of TreeMap.higherEntry(x): the least key strictly above x, None (null) when there is none. */
  ghost function HigherKey(tree: map<real, MapInfo>, x: real): (r: Option<real>)
    ensures r.Some? ==> IsLeastAbove(tree.Keys, x, r.value)
    ensures r.None? <==> forall k :: k in tree ==> k <= x
  {
    if exists k0 :: k0 in tree && k0 > x then
      var k0 :| k0 in tree && k0 > x;
      LeastExists(tree.Keys, x, k0);
      var k :| IsLeastAbove(tree.Keys, x, k);
      Some(k)
    else None
  }

  /** Only one key is least above x. */
  lemma LeastAboveIsUnique(keys: set<real>, x: real, k1: real, k2: real)
    requires IsLeastAbove(keys, x, k1) && IsLeastAbove(keys, x, k2)
    ensures k1 == k2
  {
  }

  /**
   * One draw: the map the TreeMap over the remaining maps stores at the least
   * key above draw * total, or None when higherEntry returns null.
   */
  ghost function Draw(rem: map<MapInfo, real>, order: seq<MapInfo>, d: real, skipZero: bool): (r: Option<MapInfo>)
    ensures r.Some? ==> r.value in rem && r.value in order && (skipZero ==> rem[r.value] > 0.0)
    ensures 0.0 <= d < 1.0 ==> (r.Some? <==> Total(order, rem) > 0.0)
  {
    var tree := Tree(order, rem, skipZero);
    var h := HigherKey(tree, Point(d, Total(order, rem)));
    var r := if h.None? then None else Some(tree[h.value]);
    if 0.0 <= d < 1.0 then
      PickMadeIffPositiveTotal(order, rem, skipZero, d);
      r
    else r
  }

  /**
   * The shortlist pickMaps returns: up to `k` draws, each removing the map it
   * takes, stopping at the first draw that takes none.
   */
  ghost function Picks(rem: map<MapInfo, real>, order: seq<MapInfo>, draws: seq<real>, k: nat, skipZero: bool): seq<MapInfo>
    decreases k
  {
    if k == 0 || draws == [] then []
    else
      var r := Draw(rem, order, draws[0], skipZero);
      if r.None? then [] else [r.value] + Picks(rem - {r.value}, order, draws[1..], k - 1, skipZero)
  }

  /** Math.random() values: each in [0, 1). */
  predicate ValidDraws(draws: seq<real>) {
    forall i :: 0 <= i < |draws| ==> 0.0 <= draws[i] < 1.0
  }

  /** `order` lists the keys of `scores` once each: a HashMap's iteration order. */
  predicate IsEnumeration(order: seq<MapInfo>, scores: map<MapInfo, real>) {
    Distinct(order) && (forall i :: 0 <= i < |order| ==> order[i] in scores) && (forall m :: m in scores ==> m in order)
  }

  // ---------------------------------------------------------------------
  // Facts about the cumulative layout

  lemma {:induction false} TotalGrows(ms: seq<MapInfo>, rem: map<MapInfo, real>)
    ensures 0.0 <= Total(ms, rem)
    ensures ms != [] ==> Total(ms[..|ms| - 1], rem) <= Total(ms, rem)
  {
    if ms != [] {
      TotalGrows(ms[..|ms| - 1], rem);
    }
  }

  /** The summed weight is positive exactly when some visited map is remaining with a positive score. */
  lemma {:induction false} TotalPositiveIff(ms: seq<MapInfo>, rem: map<MapInfo, real>)
    ensures Total(ms, rem) > 0.0 <==> exists i :: 0 <= i < |ms| && ms[i] in rem && rem[ms[i]] > 0.0
  {
    if ms != [] {
      var p := ms[..|ms| - 1];
      TotalPositiveIff(p, rem);
      TotalGrows(p, rem);
      if exists i :: 0 <= i < |p| && p[i] in rem && rem[p[i]] > 0.0 {
        var i :| 0 <= i < |p| && p[i] in rem && rem[p[i]] > 0.0;
        assert ms[i] == p[i];
      }
      if exists i :: 0 <= i < |ms| && ms[i] in rem && rem[ms[i]] > 0.0 {
        var i :| 0 <= i < |ms| && ms[i] in rem && rem[ms[i]] > 0.0;
        if i < |p| {
          assert p[i] == ms[i];
        }
      }
    }
  }

  /** Every key lies in [0, Total]; the keys are running totals. */
  lemma {:induction false} TreeKeysBounded(ms: seq<MapInfo>, rem: map<MapInfo, real>, skipZero: bool)
    ensures forall k :: k in Tree(ms, rem, skipZero) ==> 0.0 <= k <= Total(ms, rem)
  {
    if ms != [] {
      TreeKeysBounded(ms[..|ms| - 1], rem, skipZero);
      TotalGrows(ms, rem);
    }
  }

  /** With a positive total, the total itself is a key (the last entry put). */
  lemma {:induction false} TotalIsKey(ms: seq<MapInfo>, rem: map<MapInfo, real>, skipZero: bool)
    requires Total(ms, rem) > 0.0
    ensures Total(ms, rem) in Tree(ms, rem, skipZero)
  {
    var p := ms[..|ms| - 1];
    var l := ms[|ms| - 1];
    if !IsPut(rem, l, skipZero) {
      assert WeightIn(rem, l) == 0.0;
      TotalIsKey(p, rem, skipZero);
    }
  }

  /** The point draw * total that a Math.random() draw lands on. */
  function Point(d: real, total: real): real {
    d * total
  }

  /** A draw in [0, 1) scales a positive total to a point in [0, total), and a zero total to 0. */
  lemma PointBelowTotal(d: real, t: real)
    requires 0.0 <= d < 1.0 && t >= 0.0
    ensures 0.0 <= Point(d, t) && (t > 0.0 ==> Point(d, t) < t) && (t == 0.0 ==> Point(d, t) == 0.0)
  {
    var x := Point(d, t);
    assert x == d * t;
    MulNonNegative(d, t);
    if t > 0.0 {
      MulNonNegative(1.0 - d, t);
      assert t - x == (1.0 - d) * t;
      MulPositive(1.0 - d, t);
    }
  }

  lemma MulNonNegative(a: real, b: real)
    requires a >= 0.0 && b >= 0.0
    ensures a * b >= 0.0
  {
  }

  lemma MulPositive(a: real, b: real)
    requires a > 0.0 && b > 0.0
    ensures a * b > 0.0
  {
  }

  /**
   * On a line of keys in [0, t] that holds t itself when t is positive, a
   * point Point(d, t) with d in [0, 1) has a key above it exactly when t > 0.
   */
  lemma HigherKeyOnLine(tree: map<real, MapInfo>, t: real, d: real)
    requires 0.0 <= d < 1.0 && 0.0 <= t
    requires forall k :: k in tree ==> 0.0 <= k <= t
    requires t > 0.0 ==> t in tree
    ensures HigherKey(tree, Point(d, t)).Some? <==> t > 0.0
  {
    PointBelowTotal(d, t);
    if t > 0.0 {
      assert t in tree && t > Point(d, t);
    }
  }

  /** A draw in [0, 1) times the total finds an entry exactly when the total is positive. */
  lemma PickMadeIffPositiveTotal(ms: seq<MapInfo>, rem: map<MapInfo, real>, skipZero: bool, d: real)
    requires 0.0 <= d < 1.0
    ensures HigherKey(Tree(ms, rem, skipZero), Point(d, Total(ms, rem))).Some? <==> Total(ms, rem) > 0.0
  {
    TotalGrows(ms, rem);
    TreeKeysBounded(ms, rem, skipZero);
    if Total(ms, rem) > 0.0 {
      TotalIsKey(ms, rem, skipZero);
    }
    HigherKeyOnLine(Tree(ms, rem, skipZero), Total(ms, rem), d);
  }

  // ---------------------------------------------------------------------
  // What the shortlist is

  /** At most k picks, no more than there are maps, no repetition, and only maps that were offered. */
  lemma {:induction false} PicksShape(rem: map<MapInfo, real>, order: seq<MapInfo>, draws: seq<real>, k: nat, skipZero: bool)
    ensures |Picks(rem, order, draws, k, skipZero)| <= k
    ensures |Picks(rem, order, draws, k, skipZero)| <= |rem|
    ensures Distinct(Picks(rem, order, draws, k, skipZero))
    ensures forall m :: m in Picks(rem, order, draws, k, skipZero) ==> m in rem
    decreases k
  {
    if k > 0 && draws != [] {
      var r := Draw(rem, order, draws[0], skipZero);
      if r.Some? {
        var m := r.value;
        var rest := Picks(rem - {m}, order, draws[1..], k - 1, skipZero);
        PicksShape(rem - {m}, order, draws[1..], k - 1, skipZero);
        assert (rem - {m}).Keys == rem.Keys - {m};
        assert Picks(rem, order, draws, k, skipZero) == [m] + rest;
      }
    }
  }

  /** No pick is made (the loop breaks at once) exactly when no remaining map has a positive score; an empty map included. */
  lemma PicksEmptyIff(rem: map<MapInfo, real>, order: seq<MapInfo>, draws: seq<real>, k: nat, skipZero: bool)
    requires k > 0 && draws != [] && 0.0 <= draws[0] < 1.0
    requires forall m :: m in rem ==> m in order
    ensures Picks(rem, order, draws, k, skipZero) == [] <==> forall m :: m in rem ==> rem[m] <= 0.0
  {
    TotalPositiveIff(order, rem);
    if exists m :: m in rem && rem[m] > 0.0 {
      var m :| m in rem && rem[m] > 0.0;
      var i :| 0 <= i < |order| && order[i] == m;
      assert order[i] in rem && rem[order[i]] > 0.0;
    }
  }

  /**
   * When every remaining map has a positive score, no draw comes back empty:
   * the shortlist takes as many maps as the draws, the limit and the maps allow.
   */
  lemma {:induction false} PicksDrainPositive(rem: map<MapInfo, real>, order: seq<MapInfo>, draws: seq<real>, k: nat, skipZero: bool)
    requires ValidDraws(draws)
    requires forall m :: m in rem ==> m in order && rem[m] > 0.0
    ensures |Picks(rem, order, draws, k, skipZero)| == Least(k, Least(|draws|, |rem|))
    decreases k
  {
    if k > 0 && draws != [] {
      var r := Draw(rem, order, draws[0], skipZero);
      PicksStep(rem, order, draws, k, skipZero, r);
      if |rem| > 0 {
        DrawFindsPositive(rem, order, draws[0], skipZero);
        var m := r.value;
        var rest := rem - {m};
        RemoveOne(rem, m);
        TailDrawsValid(draws);
        PicksDrainPositive(rest, order, draws[1..], k - 1, skipZero);
        assert |[m] + Picks(rest, order, draws[1..], k - 1, skipZero)| == 1 + Least(k - 1, Least(|draws| - 1, |rem| - 1));
      } else {
        assert rem.Keys == {};
        TotalPositiveIff(order, rem);
      }
    }
  }

  /** The smaller of two counts. */
  function Least(a: nat, b: nat): nat {
    if a <= b then a else b
  }

  /** A draw over remaining maps that all have positive scores finds one of them. */
  lemma DrawFindsPositive(rem: map<MapInfo, real>, order: seq<MapInfo>, d: real, skipZero: bool)
    requires 0.0 <= d < 1.0 && |rem| > 0
    requires forall m :: m in rem ==> m in order && rem[m] > 0.0
    ensures Draw(rem, order, d, skipZero).Some?
  {
    NonEmptyHasElement(rem.Keys);
    var m0 :| m0 in rem;
    var i :| 0 <= i < |order| && order[i] == m0;
    TotalPositiveIff(order, rem);
    assert order[i] in rem && rem[order[i]] > 0.0;
  }

  /** Removing a present map shrinks the copy by one. */
  lemma RemoveOne(rem: map<MapInfo, real>, m: MapInfo)
    requires m in rem
    ensures |rem - {m}| == |rem| - 1
  {
    assert (rem - {m}).Keys == rem.Keys - {m};
  }

  /** The draws after the first are still Math.random() values. */
  lemma TailDrawsValid(draws: seq<real>)
    requires ValidDraws(draws) && draws != []
    ensures ValidDraws(draws[1..])
  {
    forall j | 0 <= j < |draws[1..]|
      ensures 0.0 <= draws[1..][j] < 1.0
    {
      assert draws[1..][j] == draws[j + 1];
    }
  }

  /** With zero weights skipped, every pick had a positive score. */
  lemma {:induction false} CorrectedPicksArePositive(rem: map<MapInfo, real>, order: seq<MapInfo>, draws: seq<real>, k: nat)
    ensures forall m :: m in Picks(rem, order, draws, k, true) ==> m in rem && rem[m] > 0.0
    decreases k
  {
    if k > 0 && draws != [] {
      var r := Draw(rem, order, draws[0], true);
      if r.Some? {
        var m := r.value;
        CorrectedPicksArePositive(rem - {m}, order, draws[1..], k - 1);
      }
    }
  }

  /**
   * With zero weights skipped, the entry above x belongs to the map whose own
   * interval [total before it, total through it) contains x: a draw uniform
   * in [0, total) picks each map with probability weight / total.
   */
  lemma {:induction false} CorrectedPickInterval(ms: seq<MapInfo>, rem: map<MapInfo, real>, x: real, key: real)
    requires 0.0 <= x
    requires HigherKey(Tree(ms, rem, true), x) == Some(key)
    ensures var m := Tree(ms, rem, true)[key];
      m in rem && rem[m] > 0.0 &&
      exists i :: 0 <= i < |ms| && ms[i] == m && Total(ms[..i], rem) <= x < Total(ms[..i + 1], rem) == key
  {
    var p := ms[..|ms| - 1];
    var l := ms[|ms| - 1];
    assert ms[..|ms|] == ms;
    if IsPut(rem, l, true) && x >= Total(p, rem) {
      LastEntryHit(ms, rem, x, key);
    } else {
      EarlierEntryHit(ms, rem, x, key);
      CorrectedPickInterval(p, rem, x, key);
      var i :| 0 <= i < |p| && p[i] == Tree(p, rem, true)[key] && Total(p[..i], rem) <= x < Total(p[..i + 1], rem) == key;
      assert p[..i] == ms[..i] && p[..i + 1] == ms[..i + 1];
    }
  }

  /** A draw at or past the total before the last map lands in the last map's entry, when it was put. */
  lemma LastEntryHit(ms: seq<MapInfo>, rem: map<MapInfo, real>, x: real, key: real)
    requires ms != [] && IsPut(rem, ms[|ms| - 1], true) && x >= Total(ms[..|ms| - 1], rem)
    requires HigherKey(Tree(ms, rem, true), x) == Some(key)
    ensures key == Total(ms, rem) && Tree(ms, rem, true)[key] == ms[|ms| - 1]
  {
    TreeKeysBounded(ms[..|ms| - 1], rem, true);
  }

  /** Otherwise the entry above the draw is already an entry of the TreeMap over the earlier maps. */
  lemma EarlierEntryHit(ms: seq<MapInfo>, rem: map<MapInfo, real>, x: real, key: real)
    requires 0.0 <= x
    requires ms != [] && !(IsPut(rem, ms[|ms| - 1], true) && x >= Total(ms[..|ms| - 1], rem))
    requires HigherKey(Tree(ms, rem, true), x) == Some(key)
    ensures HigherKey(Tree(ms[..|ms| - 1], rem, true), x) == Some(key)
    ensures Tree(ms, rem, true)[key] == Tree(ms[..|ms| - 1], rem, true)[key]
  {
    var p := ms[..|ms| - 1];
    var l := ms[|ms| - 1];
    var tree := Tree(ms, rem, true);
    var tp := Tree(p, rem, true);
    TreeKeysBounded(p, rem, true);
    if IsPut(rem, l, true) {
      TotalIsKey(p, rem, true);
      TotalGrows(p, rem);
      assert Total(p, rem) in tp && Total(p, rem) > x;
      assert Total(p, rem) < Total(ms, rem);
    }
    assert HigherKey(tp, x).Some?;
    var key' := HigherKey(tp, x).value;
    if IsPut(rem, l, true) {
      assert tree == tp[Total(ms, rem) := l];
      assert key' in tp && key' < Total(ms, rem);
      assert IsLeastAbove(tree.Keys, x, key');
    } else {
      assert tree == tp;
    }
    LeastAboveIsUnique(tree.Keys, x, key, key');
  }

  // ---------------------------------------------------------------------
  // The loop

  /** One pass of the inner loop: the TreeMap and maxWeight over the remaining maps. */
  method Cumulate(rem: map<MapInfo, real>, order: seq<MapInfo>, skipZero: bool) returns (tree: map<real, MapInfo>, maxWeight: real)
    ensures tree == Tree(order, rem, skipZero) && maxWeight == Total(order, rem)
    ensures maxWeight >= 0.0
  {
    tree, maxWeight := map[], 0.0;
    for j := 0 to |order|
      invariant tree == Tree(order[..j], rem, skipZero) && maxWeight == Total(order[..j], rem)
    {
      var m := order[j];
      assert order[..j + 1][..j] == order[..j] && order[..j + 1][j] == m;
      if m in rem {
        maxWeight := maxWeight + Weigh(Some(rem[m]));
        if !skipZero || Weigh(Some(rem[m])) > 0.0 {
          tree := tree[maxWeight := m];
        }
      }
    }
    assert order[..|order|] == order;
    TotalGrows(order, rem);
  }

  /** TreeMap.higherEntry: the least key strictly above x, found by a scan of the keys. */
  method HigherEntry(tree: map<real, MapInfo>, x: real) returns (key: Option<real>)
    ensures key == HigherKey(tree, x)
    ensures key.Some? ==> key.value in tree && key.value > x
  {
    var keys := tree.Keys;
    key := None;
    while keys != {}
      invariant keys <= tree.Keys
      invariant key.Some? ==> key.value in tree && key.value > x
      invariant forall k :: k in tree && k !in keys && k > x ==> key.Some? && key.value <= k
      decreases keys
    {
      var k := PickKey(keys);
      if k > x && (key.None? || k < key.value) {
        key := Some(k);
      }
      keys := keys - {k};
    }
    if key.Some? {
      LeastAboveIsUnique(tree.Keys, x, key.value, HigherKey(tree, x).value);
    }
  }

  /** Some element of a non-empty set of keys. */
  method PickKey(keys: set<real>) returns (k: real)
    requires keys != {}
    ensures k in keys
  {
    if forall k0 :: k0 !in keys {
      assert false;
    }
    k :| k in keys;
  }

  /** One draw of the shortlist: it ends the shortlist or takes its first map. */
  lemma PicksStep(rem: map<MapInfo, real>, order: seq<MapInfo>, draws: seq<real>, k: nat, skipZero: bool, pick: Option<MapInfo>)
    requires k > 0 && draws != [] && pick == Draw(rem, order, draws[0], skipZero)
    ensures pick.None? ==> Picks(rem, order, draws, k, skipZero) == []
    ensures pick.Some? ==> Picks(rem, order, draws, k, skipZero) == [pick.value] + Picks(rem - {pick.value}, order, draws[1..], k - 1, skipZero)
  {
  }

  /** One iteration of the outer loop: lay out the remaining maps and look up the drawn point. */
  method PickOne(remaining: map<MapInfo, real>, order: seq<MapInfo>, d: real, skipZero: bool) returns (pick: Option<MapInfo>)
    ensures pick == Draw(remaining, order, d, skipZero)
  {
    var tree, total := Cumulate(remaining, order, skipZero);
    var key := HigherEntry(tree, Point(d, total));
    if key.None? {
      pick := None;
    } else {
      pick := Some(tree[key.value]);
    }
  }

  /**
   * pickMaps: up to VoteOptions draws over a copy of the scores (the caller's
   * map is a value and cannot change), stopping at the first draw that finds
   * no entry. `order` is the copy's iteration order and is kept by removals;
   * `draws` are the successive Math.random() results.
   */
  method PickMaps(scores: map<MapInfo, real>, order: seq<MapInfo>, draws: seq<real>, skipZero: bool) returns (selected: seq<MapInfo>)
    requires IsEnumeration(order, scores)
    requires |draws| == VoteOptions && ValidDraws(draws)
    ensures selected == Picks(scores, order, draws, VoteOptions, skipZero)
    ensures |selected| <= VoteOptions && |selected| <= |scores|
    ensures Distinct(selected) && forall m :: m in selected ==> m in scores
    ensures selected == [] <==> forall m :: m in scores ==> scores[m] <= 0.0
    ensures (forall m :: m in scores ==> scores[m] > 0.0) ==> |selected| == Least(VoteOptions, |scores|)
  {
    selected := DrawAll(scores, order, draws, skipZero);
    PicksShape(scores, order, draws, VoteOptions, skipZero);
    PicksEmptyIff(scores, order, draws, VoteOptions, skipZero);
    if forall m :: m in scores ==> scores[m] > 0.0 {
      PicksDrainPositive(scores, order, draws, VoteOptions, skipZero);
    }
  }

  /**
   * The outer loop of pickMaps from iteration i on, with `selected` picked so
   * far and `remaining` still in the copy.
   */
  ghost function PickLoop(selected: seq<MapInfo>, remaining: map<MapInfo, real>, order: seq<MapInfo>, draws: seq<real>, i: nat, skipZero: bool): seq<MapInfo>
    decreases VoteOptions - i
  {
    if i >= VoteOptions || i >= |draws| then selected
    else
      var r := Draw(remaining, order, draws[i], skipZero);
      if r.None? then selected else PickLoop(selected + [r.value], remaining - {r.value}, order, draws, i + 1, skipZero)
  }

  /** The loop from iteration i appends the shortlist of the remaining maps over the remaining draws. */
  lemma {:induction false} PickLoopIsPicks(selected: seq<MapInfo>, remaining: map<MapInfo, real>, order: seq<MapInfo>, draws: seq<real>, i: nat, skipZero: bool)
    requires i <= VoteOptions && i <= |draws|
    ensures PickLoop(selected, remaining, order, draws, i, skipZero) ==
      selected + Picks(remaining, order, draws[i..], VoteOptions - i, skipZero)
    decreases VoteOptions - i
  {
    if i < VoteOptions && i < |draws| {
      var r := Draw(remaining, order, draws[i], skipZero);
      assert draws[i..][0] == draws[i] && draws[i..][1..] == draws[i + 1..];
      PicksStep(remaining, order, draws[i..], VoteOptions - i, skipZero, r);
      if r.None? {
        assert selected + [] == selected;
      } else {
        PickLoopIsPicks(selected + [r.value], remaining - {r.value}, order, draws, i + 1, skipZero);
        var tail := Picks(remaining - {r.value}, order, draws[i + 1..], VoteOptions - i - 1, skipZero);
        assert (selected + [r.value]) + tail == selected + ([r.value] + tail);
      }
    } else {
      assert selected + [] == selected;
    }
  }

  /** One iteration of the loop: a draw that finds nothing ends it, a pick moves it on. */
  lemma PickLoopStep(selected: seq<MapInfo>, remaining: map<MapInfo, real>, order: seq<MapInfo>, draws: seq<real>, i: nat, skipZero: bool, pick: Option<MapInfo>)
    requires i < VoteOptions && i < |draws| && pick == Draw(remaining, order, draws[i], skipZero)
    ensures pick.None? ==> PickLoop(selected, remaining, order, draws, i, skipZero) == selected
    ensures pick.Some? ==>
      PickLoop(selected, remaining, order, draws, i, skipZero) ==
      PickLoop(selected + [pick.value], remaining - {pick.value}, order, draws, i + 1, skipZero)
  {
  }

  /** The outer loop of pickMaps: at most VoteOptions draws, each removing the map it takes. */
  method DrawAll(scores: map<MapInfo, real>, order: seq<MapInfo>, draws: seq<real>, skipZero: bool) returns (selected: seq<MapInfo>)
    requires |draws| == VoteOptions
    ensures selected == Picks(scores, order, draws, VoteOptions, skipZero)
  {
    ghost var all := PickLoop([], scores, order, draws, 0, skipZero);
    selected := [];
    var remaining := scores;
    var i := 0;
    while i < VoteOptions
      invariant 0 <= i <= VoteOptions
      invariant PickLoop(selected, remaining, order, draws, i, skipZero) == all
    {
      var pick := PickOne(remaining, order, draws[i], skipZero);
      PickLoopStep(selected, remaining, order, draws, i, skipZero, pick);
      if pick.None? {
        break;
      }
      selected := selected + [pick.value];
      remaining := remaining - {pick.value};
      i := i + 1;
    }
    PickLoopIsPicks([], scores, order, draws, 0, skipZero);
    assert draws[0..] == draws && [] + Picks(scores, order, draws, VoteOptions, skipZero) == Picks(scores, order, draws, VoteOptions, skipZero);
  }

  // ---------------------------------------------------------------------
  // The zero-weight overwrite

  /** A TreeMap holding the single key w > 0: any draw lands below w and finds it. */
  lemma SingleKeyFound(m: MapInfo, w: real, d: real)
    requires w > 0.0 && 0.0 <= d < 1.0
    ensures HigherKey(map[w := m], Point(d, w)) == Some(w)
  {
    var tree := map[w := m];
    PointBelowTotal(d, w);
    HigherKeyFound(tree, Point(d, w), w);
    var h := HigherKey(tree, Point(d, w));
    assert h.value in tree.Keys;
    assert tree.Keys == {w};
  }

  /** A key above x means higherEntry finds an entry. */
  lemma HigherKeyFound(tree: map<real, MapInfo>, x: real, k: real)
    requires k in tree && k > x
    ensures HigherKey(tree, x).Some?
  {
  }

  /**
   * As written: with map 1 scored 0.2 and map 2 scored 0 (just played),
   * visited in that order, map 2 is put at map 1's key and replaces it, so
   * every draw picks the zero-weight map 2 and never map 1.
   */
  lemma ZeroWeightOverwriteAsWritten(d: real)
    requires 0.0 <= d < 1.0
    ensures Picks(map[1 := 0.2, 2 := 0.0], [1, 2], [d], 1, false) == [2]
  {
    var rem := map[1 := 0.2, 2 := 0.0];
    var w := Weigh(Some(0.2));
    assert [1][..0] == [] && [1, 2][..1] == [1];
    assert Total([1], rem) == w;
    assert Total([1, 2], rem) == w;
    assert Tree([1], rem, false) == map[w := 1];
    assert Tree([1, 2], rem, false) == map[w := 2];
    SingleKeyFound(2, w, d);
    assert Draw(rem, [1, 2], d, false) == Some(2);
    assert Picks(rem, [1, 2], [d], 1, false) == [2] + Picks(rem - {2}, [1, 2], [], 0, false);
  }

  /** Corrected: in the same situation every draw picks map 1, the only map with a positive weight. */
  lemma ZeroWeightSkippedCorrected(d: real)
    requires 0.0 <= d < 1.0
    ensures Picks(map[1 := 0.2, 2 := 0.0], [1, 2], [d], 1, true) == [1]
  {
    var rem := map[1 := 0.2, 2 := 0.0];
    var w := Weigh(Some(0.2));
    assert [1][..0] == [] && [1, 2][..1] == [1];
    assert Total([1], rem) == w;
    assert Total([1, 2], rem) == w;
    assert Tree([1], rem, true) == map[w := 1];
    assert Tree([1, 2], rem, true) == map[w := 1];
    SingleKeyFound(1, w, d);
    assert Draw(rem, [1, 2], d, true) == Some(1);
    assert Picks(rem, [1, 2], [d], 1, true) == [1] + Picks(rem - {1}, [1, 2], [], 0, true);
  }
}
