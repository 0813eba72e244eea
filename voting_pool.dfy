/**
 * VotingPool: a map pool whose next map is chosen by a vote. It keeps a score
 * per pool map that drifts back toward a default after every match, pins the
 * map just played to 0, starts a poll over a weighted shortlist, and after the
 * poll sets every offered map's score to its share of the distinct voters.
 */
module VotingPools {
  import opened Common
  import opened VoterSets
  import opened MapPolls
  import opened VotePicker

  /** DEFAULT_SCORE: one player in five liking each map. */
  const DefaultScore: real := 0.2

  /**
   * ADJUST_FACTOR, DEFAULT_SCORE / |maps|: the step a score moves per tick.
   * An empty pool has no scores to tick; its factor is taken as 0.
   */
  function AdjustFactor(poolSize: nat): (a: real)
    ensures a >= 0.0
    ensures poolSize > 0 ==> a > 0.0 && a * poolSize as real == DefaultScore
  {
    if poolSize == 0 then 0.0 else DefaultScore / poolSize as real
  }

  // ---------------------------------------------------------------------
  // Ticking: scores drift toward the default

  /** How far a score is from the default. */
  function Dist(v: real): real {
    if v >= DefaultScore then v - DefaultScore else DefaultScore - v
  }

  /**
   * One tick of one score: a step of `adj` toward the default, clamped at the
   * default. The distance shrinks by `adj` (down to 0) and the side is kept.
   */
  function Decay(v: real, adj: real): (r: real)
    ensures adj >= 0.0 ==> Dist(r) == Max(Dist(v) - adj, 0.0)
    ensures adj >= 0.0 ==> (v >= DefaultScore ==> r >= DefaultScore) && (v <= DefaultScore ==> r <= DefaultScore)
  {
    if v > DefaultScore then Max(v - adj, DefaultScore) else Min(v + adj, DefaultScore)
  }

  /** `n` ticks of one score. */
  function Decays(v: real, adj: real, n: nat): real {
    if n == 0 then v else Decay(Decays(v, adj, n - 1), adj)
  }

  /** The distance n ticks of `adj` can cover: n * adj, summed step by step. */
  function Steps(n: nat, adj: real): (r: real)
    ensures r == n as real * adj
  {
    if n == 0 then 0.0
    else
      StepsAdd(n, adj);
      Steps(n - 1, adj) + adj
  }

  lemma StepsAdd(n: nat, adj: real)
    requires n > 0
    ensures n as real * adj == (n - 1) as real * adj + adj
  {
  }

  /** After n ticks a score is n steps closer to the default, never past it. */
  lemma {:induction false} DecaysConverge(v: real, adj: real, n: nat)
    requires adj >= 0.0
    ensures Dist(Decays(v, adj, n)) == Max(Dist(v) - Steps(n, adj), 0.0)
    ensures v >= DefaultScore ==> Decays(v, adj, n) >= DefaultScore
    ensures v <= DefaultScore ==> Decays(v, adj, n) <= DefaultScore
  {
    if n > 0 {
      DecaysConverge(v, adj, n - 1);
    }
  }

  /** A map pinned to 0 is back at the default after as many ticks as the pool has maps. */
  lemma PinnedMapRecovers(poolSize: nat)
    requires poolSize > 0
    ensures Decays(0.0, AdjustFactor(poolSize), poolSize) == DefaultScore
  {
    DecaysConverge(0.0, AdjustFactor(poolSize), poolSize);
  }

  /**
   * The score table after tickScores(current): unchanged when `current` is not
   * a pool map; otherwise every score ticks once and `current` is pinned to 0.
   */
  function Ticked(scores: map<MapInfo, real>, current: MapInfo, adj: real): (r: map<MapInfo, real>)
    ensures r.Keys == scores.Keys
  {
    if current !in scores then scores
    else (map m | m in scores :: Decay(scores[m], adj))[current := 0.0]
  }

  /** What one tick does to each score. */
  lemma TickedScores(scores: map<MapInfo, real>, current: MapInfo, adj: real)
    requires adj >= 0.0
    ensures current !in scores ==> Ticked(scores, current, adj) == scores
    ensures current in scores ==> Ticked(scores, current, adj)[current] == 0.0
    ensures current in scores ==> forall m :: m in scores && m != current ==>
      Dist(Ticked(scores, current, adj)[m]) == Max(Dist(scores[m]) - adj, 0.0) &&
      (scores[m] >= DefaultScore ==> Ticked(scores, current, adj)[m] >= DefaultScore) &&
      (scores[m] <= DefaultScore ==> Ticked(scores, current, adj)[m] <= DefaultScore)
  {
  }

  /** Every score in [0, 1]. */
  predicate InUnitRange(scores: map<MapInfo, real>) {
    forall m :: m in scores ==> 0.0 <= scores[m] <= 1.0
  }

  /** Ticking keeps every score in [0, 1]. */
  lemma TickedInUnitRange(scores: map<MapInfo, real>, current: MapInfo, adj: real)
    requires adj >= 0.0 && InUnitRange(scores)
    ensures InUnitRange(Ticked(scores, current, adj))
  {
    if current in scores {
      var r := Ticked(scores, current, adj);
      forall m | m in r
        ensures 0.0 <= r[m] <= 1.0
      {
        if m != current {
          assert r[m] == Decay(scores[m], adj);
        }
      }
    }
  }

  /** `n` ticks after the same match map. */
  function Ticks(scores: map<MapInfo, real>, current: MapInfo, adj: real, n: nat): (r: map<MapInfo, real>)
    ensures r.Keys == scores.Keys
  {
    if n == 0 then scores else Ticked(Ticks(scores, current, adj, n - 1), current, adj)
  }

  /** Repeated ticks keep the played map at 0 and move every other map n steps toward the default. */
  lemma {:induction false} RepeatedTicks(scores: map<MapInfo, real>, current: MapInfo, adj: real, n: nat)
    requires current in scores && n > 0
    ensures Ticks(scores, current, adj, n)[current] == 0.0
    ensures forall m :: m in scores && m != current ==> Ticks(scores, current, adj, n)[m] == Decays(scores[m], adj, n)
  {
    if n > 1 {
      RepeatedTicks(scores, current, adj, n - 1);
    }
  }

  // ---------------------------------------------------------------------
  // Redistribution after a poll

  /** The distinct voters of a poll: the union of its options' voter sets. */
  function Voters(options: seq<MapInfo>, ballots: map<MapInfo, set<Uuid>>): (s: set<Uuid>)
    requires forall i :: 0 <= i < |options| ==> options[i] in ballots
    ensures forall i :: 0 <= i < |options| ==> ballots[options[i]] <= s
    ensures forall u :: u in s ==> exists i :: 0 <= i < |options| && u in ballots[options[i]]
  {
    if options == [] then {}
    else
      var p := options[..|options| - 1];
      var s := Voters(p, ballots) + ballots[options[|options| - 1]];
      assert forall i :: 0 <= i < |p| ==> p[i] == options[i];
      s
  }

  /** A subset is no larger. */
  lemma {:induction false} SubsetNoLarger(a: set<Uuid>, b: set<Uuid>)
    requires a <= b
    ensures |a| <= |b|
    decreases a
  {
    if a != {} {
      NonEmptyHasElement(a);
      var x :| x in a;
      SubsetNoLarger(a - {x}, b - {x});
    }
  }

  /** An option's new score: its unweighted voter count over the distinct voters, at least EPS. */
  function Share(size: nat, voters: nat): (r: real)
    requires voters > 0
    ensures r >= EPS && r >= size as real / voters as real
    ensures size <= voters ==> 0.0 < r <= 1.0
    ensures r == size as real / voters as real || r == EPS
  {
    QuotientAtMostOne(size as real, voters as real);
    Max(size as real / voters as real, EPS)
  }

  /** A part over a positive whole is at most 1. */
  lemma QuotientAtMostOne(a: real, b: real)
    requires 0.0 <= a && b > 0.0
    ensures a <= b ==> a / b <= 1.0
  {
    var q := a / b;
    assert q * b == a;
    if q > 1.0 {
      MulPositive(q - 1.0, b);
      assert q * b - b == (q - 1.0) * b;
    }
  }

  /** The puts of votes.forEach over the first options, each option's voter count shared over `voters`. */
  function PutShares(scores: map<MapInfo, real>, options: seq<MapInfo>, ballots: map<MapInfo, set<Uuid>>, voters: nat): (r: map<MapInfo, real>)
    requires voters > 0
    requires forall i :: 0 <= i < |options| ==> options[i] in ballots
    ensures forall m :: m in r <==> m in scores || m in options
  {
    if options == [] then scores
    else
      var p := options[..|options| - 1];
      var last := options[|options| - 1];
      assert forall i :: 0 <= i < |p| ==> p[i] == options[i];
      assert forall m :: m in options <==> m in p || m == last;
      PutShares(scores, p, ballots, voters)[last := Share(|ballots[last]|, voters)]
  }

  /** The score table after updateScores: unchanged with no voters, the options' shares put otherwise. */
  function Redistributed(scores: map<MapInfo, real>, options: seq<MapInfo>, ballots: map<MapInfo, set<Uuid>>): (r: map<MapInfo, real>)
    requires forall i :: 0 <= i < |options| ==> options[i] in ballots
    ensures forall m :: m in r <==> m in scores || (m in options && Voters(options, ballots) != {})
  {
    var n := |Voters(options, ballots)|;
    if n == 0 then scores else PutShares(scores, options, ballots, n)
  }

  /** The puts touch only the options, each set to its own share. */
  lemma {:induction false} PutSharesValues(scores: map<MapInfo, real>, options: seq<MapInfo>, ballots: map<MapInfo, set<Uuid>>, voters: nat)
    requires voters > 0
    requires forall i :: 0 <= i < |options| ==> options[i] in ballots
    ensures forall m :: m in scores && m !in options ==> PutShares(scores, options, ballots, voters)[m] == scores[m]
    ensures forall i :: 0 <= i < |options| ==>
      PutShares(scores, options, ballots, voters)[options[i]] == Share(|ballots[options[i]]|, voters)
  {
    if options != [] {
      var p := options[..|options| - 1];
      var last := options[|options| - 1];
      assert forall i :: 0 <= i < |p| ==> p[i] == options[i];
      PutSharesValues(scores, p, ballots, voters);
      assert forall m :: m in options <==> m in p || m == last;
    }
  }

  /**
   * With no voters the table is unchanged. Otherwise each option's score is
   * its share of the distinct voters, which lies in (0, 1], and every other
   * map keeps its score.
   */
  lemma RedistributedScores(scores: map<MapInfo, real>, options: seq<MapInfo>, ballots: map<MapInfo, set<Uuid>>)
    requires forall i :: 0 <= i < |options| ==> options[i] in ballots
    ensures Voters(options, ballots) == {} ==> Redistributed(scores, options, ballots) == scores
    ensures forall m :: m in scores && m !in options ==> Redistributed(scores, options, ballots)[m] == scores[m]
    ensures Voters(options, ballots) != {} ==> forall i :: 0 <= i < |options| ==>
      var r := Redistributed(scores, options, ballots)[options[i]];
      var n := |Voters(options, ballots)|;
      r == Share(|ballots[options[i]]|, n) && 0.0 < r <= 1.0
  {
    var vs := Voters(options, ballots);
    if vs != {} {
      var n := |vs|;
      PutSharesValues(scores, options, ballots, n);
      forall i | 0 <= i < |options|
        ensures |ballots[options[i]]| <= n
      {
        SubsetNoLarger(ballots[options[i]], vs);
      }
    }
  }

  /** With some voter, the redistributed table is the table after the puts. */
  lemma RedistributedByPuts(scores: map<MapInfo, real>, options: seq<MapInfo>, ballots: map<MapInfo, set<Uuid>>, voters: set<Uuid>)
    requires forall i :: 0 <= i < |options| ==> options[i] in ballots
    requires voters == Voters(options, ballots) && |voters| > 0
    ensures Redistributed(scores, options, ballots) == PutShares(scores, options, ballots, |voters|)
  {
  }

  /** When every option already has a score, redistribution adds no key. */
  lemma RedistributedKeys(scores: map<MapInfo, real>, options: seq<MapInfo>, ballots: map<MapInfo, set<Uuid>>)
    requires forall i :: 0 <= i < |options| ==> options[i] in ballots
    requires forall i :: 0 <= i < |options| ==> options[i] in scores
    ensures Redistributed(scores, options, ballots).Keys == scores.Keys
  {
    var r := Redistributed(scores, options, ballots);
    forall m | m in r
      ensures m in scores
    {
      if m in options {
        var i :| 0 <= i < |options| && options[i] == m;
      }
    }
  }

  /** Redistribution over pool maps keeps the score table a [0, 1] score for exactly the pool maps. */
  lemma RedistributedKeepsTable(scores: map<MapInfo, real>, maps: seq<MapInfo>, options: seq<MapInfo>, ballots: map<MapInfo, set<Uuid>>)
    requires forall i :: 0 <= i < |options| ==> options[i] in ballots
    requires forall i :: 0 <= i < |options| ==> options[i] in scores
    requires scores.Keys == MapSet(maps) && InUnitRange(scores)
    ensures Redistributed(scores, options, ballots).Keys == MapSet(maps)
    ensures InUnitRange(Redistributed(scores, options, ballots))
  {
    RedistributedKeys(scores, options, ballots);
    RedistributedInUnitRange(scores, options, ballots);
  }

  /** Redistribution keeps every score in [0, 1]. */
  lemma RedistributedInUnitRange(scores: map<MapInfo, real>, options: seq<MapInfo>, ballots: map<MapInfo, set<Uuid>>)
    requires forall i :: 0 <= i < |options| ==> options[i] in ballots
    requires InUnitRange(scores)
    ensures InUnitRange(Redistributed(scores, options, ballots))
  {
    RedistributedScores(scores, options, ballots);
    var r := Redistributed(scores, options, ballots);
    forall m | m in r
      ensures 0.0 <= r[m] <= 1.0
    {
      if m in options {
        var i :| 0 <= i < |options| && options[i] == m;
      }
    }
  }

  /**
   * Two voters, a premium one (10) for map 1 and a plain one (11) for map 2:
   * map 1 wins on weighted counts, 2 against 1.
   */
  lemma PremiumVoteWins(premium: Uuid -> bool)
    requires premium(10) && !premium(11)
    ensures Winner(premium, [1, 2], map[1 := {10}, 2 := {11}]) == Some(1)
  {
    var b := map[1 := {10}, 2 := {11}];
    TallyAdd(premium, {}, 10);
    TallyAdd(premium, {}, 11);
    assert {} + {10} == {10} && {} + {11} == {11};
    var c := CountsOf(premium, [1, 2], b);
    assert c == [2, 1];
    MaxIndexIsUnique(c, 0);
  }

  /** In the same poll both maps get the same new score, 1/2: shares count each voter once, premium or not. */
  lemma SharesIgnorePremium(scores: map<MapInfo, real>)
    ensures var r := Redistributed(scores, [1, 2], map[1 := {10}, 2 := {11}]);
      r[1] == r[2] == Share(1, 2) && r[1] == 0.5
  {
    var b := map[1 := {10}, 2 := {11}];
    var vs := Voters([1, 2], b);
    assert vs == {10, 11} by {
      assert [1, 2][..1] == [1] && [1][..0] == [];
    }
    assert |vs| == 2;
    RedistributedScores(scores, [1, 2], b);
    assert [1, 2][0] == 1 && [1, 2][1] == 2;
  }

  // ---------------------------------------------------------------------
  // The pool

  /** The maps of a pool, as a set. */
  function MapSet(maps: seq<MapInfo>): set<MapInfo> {
    set m | m in maps
  }

  /** The replaceAll of tickScores: every score ticked once, visited in any order. */
  method DecayAll(scores: map<MapInfo, real>, adj: real) returns (next: map<MapInfo, real>)
    ensures next == map m | m in scores :: Decay(scores[m], adj)
  {
    var rest := scores.Keys;
    next := scores;
    while rest != {}
      invariant rest <= scores.Keys && next.Keys == scores.Keys
      invariant forall m :: m in next ==> next[m] == if m in rest then scores[m] else Decay(scores[m], adj)
      decreases rest
    {
      NonEmptyHasElement(rest);
      var m :| m in rest;
      next := next[m := Decay(scores[m], adj)];
      rest := rest - {m};
    }
    ghost var want := map m | m in scores :: Decay(scores[m], adj);
    assert next.Keys == want.Keys;
    assert forall m :: m in next ==> next[m] == want[m];
  }

  /** The distinct voters of a poll, gathered option by option (the stream's flatMap and distinct). */
  method PollVoters(poll: MapPoll, ghost ballots: map<MapInfo, set<Uuid>>) returns (voters: set<Uuid>)
    requires forall i :: 0 <= i < |poll.options| ==> poll.options[i] in poll.votes
    requires ballots == poll.Ballots()
    ensures voters == Voters(poll.options, ballots)
  {
    voters := {};
    for j := 0 to |poll.options|
      invariant voters == Voters(poll.options[..j], ballots)
    {
      var m := poll.options[j];
      assert poll.options[..j + 1][..j] == poll.options[..j] && poll.options[..j + 1][j] == m;
      voters := voters + poll.votes[m].voters;
    }
    assert poll.options[..|poll.options|] == poll.options;
  }

  /** votes.forEach of updateScores: each option's voter count shared over `voters`, put in option order. */
  method PutAll(scores: map<MapInfo, real>, poll: MapPoll, ghost ballots: map<MapInfo, set<Uuid>>, voters: nat) returns (r: map<MapInfo, real>)
    requires forall i :: 0 <= i < |poll.options| ==> poll.options[i] in poll.votes
    requires ballots == poll.Ballots() && voters > 0
    ensures r == PutShares(scores, poll.options, ballots, voters)
  {
    r := scores;
    for j := 0 to |poll.options|
      invariant r == PutShares(scores, poll.options[..j], ballots, voters)
    {
      var m := poll.options[j];
      assert poll.options[..j + 1][..j] == poll.options[..j] && poll.options[..j + 1][j] == m;
      r := r[m := Share(poll.votes[m].Size(), voters)];
    }
    assert poll.options[..|poll.options|] == poll.options;
  }

  /** The score table updateScores leaves: the early return with no voters, the puts otherwise. */
  method RedistributeAll(scores: map<MapInfo, real>, poll: MapPoll, ghost ballots: map<MapInfo, set<Uuid>>) returns (r: map<MapInfo, real>)
    requires poll.Valid() && ballots == poll.Ballots()
    ensures r == Redistributed(scores, poll.options, ballots)
  {
    var voters := PollVoters(poll, ballots);
    if |voters| == 0 {
      return scores;
    }
    r := PutAll(scores, poll, ballots, |voters|);
    RedistributedByPuts(scores, poll.options, ballots, voters);
  }

  class VotingPool {
    /** The pool's maps (MapPool.maps). */
    const maps: seq<MapInfo>
    /** The premium test the pool's polls count votes with. */
    const premium: Uuid -> bool
    /** ADJUST_FACTOR. */
    const adjustFactor: real
    /** mapScores. */
    var scores: map<MapInfo, real>
    /** currentPoll; null when no poll is running. */
    var currentPoll: MapPoll?

    /** The objects a running poll owns. */
    ghost function PollFrame(): set<object>
      reads this`currentPoll
    {
      if currentPoll == null then {} else {currentPoll} + currentPoll.votes.Values
    }

    /**
     * Every pool map has a score and only pool maps do; every score is in
     * [0, 1]; a running poll is well formed, counts with the pool's premium
     * test and offers only pool maps.
     */
    ghost predicate Valid()
      reads this, PollFrame()
    {
      && scores.Keys == MapSet(maps)
      && InUnitRange(scores)
      && adjustFactor == AdjustFactor(|maps|)
      && PollValid()
      && (currentPoll != null ==> forall i :: 0 <= i < |currentPoll.options| ==> currentPoll.options[i] in scores)
    }

    /** A running poll is well formed and counts with the pool's premium test. */
    ghost predicate PollValid()
      reads this`currentPoll, PollFrame()
    {
      currentPoll != null ==> currentPoll.Valid() && currentPoll.premium == premium
    }

    /** Every pool map starts at DEFAULT_SCORE; no poll is running. */
    constructor (maps: seq<MapInfo>, premium: Uuid -> bool)
      ensures Valid()
      ensures this.maps == maps && this.premium == premium && currentPoll == null
      ensures adjustFactor == AdjustFactor(|maps|)
      ensures scores.Keys == MapSet(maps) && forall m :: m in scores ==> scores[m] == DefaultScore
    {
      this.maps := maps;
      this.premium := premium;
      adjustFactor := AdjustFactor(|maps|);
      var s: map<MapInfo, real> := map[];
      for i := 0 to |maps|
        invariant s.Keys == MapSet(maps[..i])
        invariant forall m :: m in s ==> s[m] == DefaultScore
      {
        assert maps[..i + 1] == maps[..i] + [maps[i]];
        assert MapSet(maps[..i + 1]) == MapSet(maps[..i]) + {maps[i]};
        s := s[maps[i] := DefaultScore];
      }
      assert maps[..|maps|] == maps;
      scores := s;
      currentPoll := null;
    }

    /** getMapScore: the map's score; None stands for the exception thrown when unboxing the null returned for a map outside the pool. */
    function MapScore(m: MapInfo): (r: Option<real>)
      requires Valid()
      reads this, PollFrame()
      ensures r.Some? <==> m in maps
      ensures r.Some? ==> 0.0 <= r.value <= 1.0
    {
      if m in scores then Some(scores[m]) else None
    }

    /** tickScores: decay every score toward the default and pin the map just played, if it is a pool map. */
    method TickScores(current: MapInfo)
      requires Valid()
      modifies this
      ensures Valid()
      ensures scores == Ticked(old(scores), current, adjustFactor)
      ensures currentPoll == old(currentPoll)
    {
      if current !in scores {
        return;
      }
      var next := DecayAll(scores, adjustFactor);
      TickedInUnitRange(scores, current, adjustFactor);
      scores := next[current := 0.0];
    }

    /** unloadPool: the match's map is ticked. */
    method UnloadPool(current: MapInfo)
      requires Valid()
      modifies this
      ensures Valid()
      ensures scores == Ticked(old(scores), current, adjustFactor)
      ensures currentPoll == old(currentPoll)
    {
      TickScores(current);
    }

    /** matchEnded, up to the delayed poll start (StartPoll): the match's map is ticked. */
    method MatchEnded(current: MapInfo)
      requires Valid()
      modifies this
      ensures Valid()
      ensures scores == Ticked(old(scores), current, adjustFactor)
      ensures currentPoll == old(currentPoll)
    {
      TickScores(current);
    }

    /**
     * The task matchEnded schedules: no poll when an override map is set or a
     * restart is queued; otherwise a new poll over the picker's shortlist of
     * the current scores. `order` is mapScores' iteration order, `draws` the
     * picker's Math.random() results; `skipZero` selects the corrected picker
     * (true) or the picker as written (false).
     */
    method StartPoll(overridePresent: bool, restartQueued: bool, order: seq<MapInfo>, draws: seq<real>, skipZero: bool)
      requires Valid()
      requires IsEnumeration(order, scores)
      requires |draws| == VoteOptions && ValidDraws(draws)
      modifies this
      ensures Valid() && scores == old(scores)
      ensures overridePresent || restartQueued ==> currentPoll == old(currentPoll)
      ensures !overridePresent && !restartQueued ==>
        currentPoll != null && fresh(currentPoll) &&
        currentPoll.options == Picks(scores, order, draws, VoteOptions, skipZero) &&
        (forall m :: m in currentPoll.Ballots() ==> currentPoll.Ballots()[m] == {}) &&
        (skipZero ==> forall m :: m in currentPoll.options ==> scores[m] > 0.0)
    {
      if overridePresent {
        return;
      }
      if restartQueued {
        return;
      }
      var shortlist := PickMaps(scores, order, draws, skipZero);
      CorrectedPicksArePositive(scores, order, draws, VoteOptions);
      DedupOfDistinct(shortlist);
      var poll := new MapPoll(shortlist, premium);
      currentPoll := poll;
    }

    /**
     * updateScores: every option's score becomes its unweighted share of the
     * poll's distinct voters; nothing changes when nobody voted.
     */
    method UpdateScores(poll: MapPoll, ghost ballots: map<MapInfo, set<Uuid>>)
      requires Valid() && poll.Valid() && ballots == poll.Ballots()
      requires forall i :: 0 <= i < |poll.options| ==> poll.options[i] in scores
      modifies this
      ensures Valid()
      ensures scores == Redistributed(old(scores), poll.options, ballots)
      ensures currentPoll == old(currentPoll)
    {
      var next := RedistributeAll(scores, poll, ballots);
      RedistributedKeepsTable(scores, maps, poll.options, ballots);
      scores := next;
    }

    /**
     * popNextMap: with no poll, a random pool map (`random`, MapPool.getRandom())
     * and no score change. With a poll: the winner, or `random` when there is
     * none; the scores are redistributed once and the poll is cleared.
     */
    method PopNextMap(random: MapInfo) returns (next: MapInfo)
      requires Valid()
      modifies this, PollFrame()
      ensures Valid() && currentPoll == null
      ensures old(currentPoll) == null ==> next == random && scores == old(scores)
      ensures old(currentPoll) != null ==>
        var poll := old(currentPoll);
        var winner := Winner(premium, poll.options, old(poll.Ballots()));
        scores == Redistributed(old(scores), poll.options, old(poll.Ballots())) &&
        next == (if winner.Some? then winner.value else random)
    {
      if currentPoll == null {
        return random;
      }
      var poll := currentPoll;
      ghost var ballots := poll.Ballots();
      var winner := poll.FinishVote();
      UpdateScores(poll, ballots);
      currentPoll := null;
      next := if winner.Some? then winner.value else random;
    }

    /** getNextMap: a voting pool announces no next map in advance. */
    function NextMap(): (r: Option<MapInfo>)
      ensures r == None
    {
      None
    }

    /** setNextMap: a map set by hand cancels the running poll. */
    method SetNextMap(m: MapInfo)
      requires Valid()
      modifies this
      ensures Valid() && currentPoll == null && scores == old(scores)
    {
      currentPoll := null;
    }
  }
}
