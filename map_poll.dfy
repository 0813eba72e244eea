/**
 * MapPoll: one open vote among a shortlist of maps. Each option owns a
 * VoterSet; options keep the order in which they were offered.
 */
module MapPolls {
  import opened Common
  import opened VoterSets

  /** The CommandException thrown when a vote names a map that is not on offer. */
  datatype PollError = NotAnOption(option: MapInfo)

  /**
   * The keys of a LinkedHashMap filled by `put` in list order: the listed maps
   * without repetitions, each at the place of its first occurrence.
   */
  function Dedup(xs: seq<MapInfo>): (r: seq<MapInfo>)
    ensures Distinct(r)
    ensures forall m :: m in r <==> m in xs
    ensures |r| <= |xs|
  {
    if xs == [] then []
    else
      var d := Dedup(xs[..|xs| - 1]);
      if xs[|xs| - 1] in d then d else d + [xs[|xs| - 1]]
  }

  /** Options keep first-occurrence order: an earlier option occurs before any occurrence of a later one. */
  lemma {:induction false} DedupKeepsFirstOccurrenceOrder(xs: seq<MapInfo>, i: nat, j: nat, k: nat)
    requires i < j < |Dedup(xs)| && k < |xs| && xs[k] == Dedup(xs)[j]
    ensures exists k' :: 0 <= k' < k && xs[k'] == Dedup(xs)[i]
  {
    var p := xs[..|xs| - 1];
    var r, d := Dedup(xs), Dedup(p);
    assert r[..|d|] == d;
    if k < |xs| - 1 {
      assert p[k] == xs[k] && p[k] in p;
      var t :| 0 <= t < |d| && d[t] == r[j];
      assert r[t] == d[t];
      assert t == j;
      DedupKeepsFirstOccurrenceOrder(p, i, j, k);
      var k' :| 0 <= k' < k && p[k'] == d[i];
      assert xs[k'] == r[i];
    } else {
      assert r[i] == d[i] && d[i] in p;
      var k' :| 0 <= k' < |p| && p[k'] == r[i];
      assert xs[k'] == r[i];
    }
  }

  /** A list without repetitions is its own key order. */
  lemma {:induction false} DedupOfDistinct(xs: seq<MapInfo>)
    requires Distinct(xs)
    ensures Dedup(xs) == xs
  {
    if xs != [] {
      var p := xs[..|xs| - 1];
      assert Distinct(p);
      DedupOfDistinct(p);
      assert xs[|xs| - 1] !in p;
      assert p + [xs[|xs| - 1]] == xs;
    }
  }

  /**
   * The position `Stream.max` returns over counts in option order: it reduces
   * left to right with `maxBy`, which keeps the accumulated element when the
   * comparison is a tie, so the first of several maxima wins.
   */
  function MaxIndex(counts: seq<int>): (k: nat)
    requires |counts| > 0
    ensures k < |counts|
    ensures forall j :: 0 <= j < |counts| ==> counts[j] <= counts[k]
    ensures forall j :: 0 <= j < k ==> counts[j] < counts[k]
  {
    if |counts| == 1 then 0
    else
      var best := MaxIndex(counts[..|counts| - 1]);
      if counts[best] >= counts[|counts| - 1] then best else |counts| - 1
  }

  /** Stream.max's reduction as a loop: the running best is replaced only by a strictly larger count. */
  method ArgMax(counts: seq<int>) returns (best: nat)
    requires |counts| > 0
    ensures best == MaxIndex(counts)
  {
    best := 0;
    for i := 1 to |counts|
      invariant best == MaxIndex(counts[..i])
    {
      assert counts[..i + 1][..i] == counts[..i];
      if !(counts[best] >= counts[i]) {
        best := i;
      }
    }
    assert counts[..|counts|] == counts;
  }

  /** The two clauses of MaxIndex's contract single out one position. */
  lemma MaxIndexIsUnique(counts: seq<int>, k: nat)
    requires k < |counts|
    requires forall j :: 0 <= j < |counts| ==> counts[j] <= counts[k]
    requires forall j :: 0 <= j < k ==> counts[j] < counts[k]
    ensures MaxIndex(counts) == k
  {
    var m := MaxIndex(counts);
    assert counts[k] <= counts[m] && counts[m] <= counts[k];
  }

  /** With no votes anywhere (all counts equal) the first option wins. */
  lemma AllTiedFirstWins(counts: seq<int>)
    requires |counts| > 0
    requires forall j :: 0 <= j < |counts| ==> counts[j] == counts[0]
    ensures MaxIndex(counts) == 0
  {
    MaxIndexIsUnique(counts, 0);
  }

  /** The weighted count of each option, in option order. */
  ghost function CountsOf(premium: Uuid -> bool, options: seq<MapInfo>, ballots: map<MapInfo, set<Uuid>>): (c: seq<int>)
    requires forall i :: 0 <= i < |options| ==> options[i] in ballots
    ensures |c| == |options|
  {
    seq(|options|, i requires 0 <= i < |options| && options[i] in ballots => Tally(premium, ballots[options[i]]))
  }

  /** The winner getMostVotedMap reports: None (null) exactly when there are no options. */
  ghost function Winner(premium: Uuid -> bool, options: seq<MapInfo>, ballots: map<MapInfo, set<Uuid>>): (r: Option<MapInfo>)
    requires forall i :: 0 <= i < |options| ==> options[i] in ballots
    ensures r.None? <==> options == []
    ensures r.Some? ==> r.value in options
  {
    if options == [] then None else Some(options[MaxIndex(CountsOf(premium, options, ballots))])
  }

  /** The winner is an option whose weighted count is at least every other option's, and no earlier option ties it. */
  lemma WinnerIsFirstMostVoted(premium: Uuid -> bool, options: seq<MapInfo>, ballots: map<MapInfo, set<Uuid>>)
    requires forall i :: 0 <= i < |options| ==> options[i] in ballots
    ensures Winner(premium, options, ballots).None? <==> options == []
    ensures options != [] ==>
      exists k :: 0 <= k < |options| && Winner(premium, options, ballots) == Some(options[k]) &&
        (forall j :: 0 <= j < |options| ==> Tally(premium, ballots[options[j]]) <= Tally(premium, ballots[options[k]])) &&
        (forall j :: 0 <= j < k ==> Tally(premium, ballots[options[j]]) < Tally(premium, ballots[options[k]]))
  {
    if options != [] {
      var c := CountsOf(premium, options, ballots);
      var k := MaxIndex(c);
      assert forall j :: 0 <= j < |options| ==> c[j] == Tally(premium, ballots[options[j]]);
      assert Winner(premium, options, ballots) == Some(options[k]);
    }
  }

  /** Voting state after a toggle: the player joins the option's voters if absent, and leaves them otherwise. */
  function Toggled(ballots: map<MapInfo, set<Uuid>>, vote: MapInfo, player: Uuid): (b: map<MapInfo, set<Uuid>>)
    requires vote in ballots
    ensures b.Keys == ballots.Keys
    ensures forall m :: m in ballots && m != vote ==> b[m] == ballots[m]
    ensures player in b[vote] <==> player !in ballots[vote]
    ensures b[vote] - {player} == ballots[vote] - {player}
  {
    ballots[vote := if player in ballots[vote] then ballots[vote] - {player} else ballots[vote] + {player}]
  }

  /** Toggling the same vote twice answers true then false (or false then true) and restores the voters. */
  lemma ToggleTwiceRestores(ballots: map<MapInfo, set<Uuid>>, vote: MapInfo, player: Uuid)
    requires vote in ballots
    ensures (player in Toggled(ballots, vote, player)[vote]) == (player !in ballots[vote])
    ensures (player in Toggled(Toggled(ballots, vote, player), vote, player)[vote]) == (player in ballots[vote])
    ensures Toggled(Toggled(ballots, vote, player), vote, player) == ballots
  {
    var once := Toggled(ballots, vote, player);
    var twice := Toggled(once, vote, player);
    assert twice[vote] == ballots[vote];
  }

  /** Adds the voter, or removes it when it was already there; true iff it was added. */
  method Flip(target: VoterSet, player: Uuid) returns (added: bool)
    requires target.Valid()
    modifies target
    ensures target.Valid()
    ensures added <==> player !in old(target.voters)
    ensures target.voters == if added then old(target.voters) + {player} else old(target.voters) - {player}
  {
    added := target.Add(player);
    if !added {
      target.Remove(player);
    }
  }

  /** maps.forEach(put(m, new VoterSet())): the options in first-occurrence order, each with a fresh empty VoterSet. */
  method NewOptions(maps: seq<MapInfo>, premium: Uuid -> bool) returns (opts: seq<MapInfo>, vs: map<MapInfo, VoterSet>)
    ensures opts == Dedup(maps)
    ensures forall i :: 0 <= i < |opts| ==> opts[i] in vs
    ensures forall m :: m in vs ==> m in opts
    ensures forall m :: m in vs ==>
      fresh(vs[m]) && vs[m].voters == {} && vs[m].votes == None && vs[m].premium == premium
    ensures forall m, n :: m in vs && n in vs && m != n ==> vs[m] != vs[n]
  {
    opts, vs := [], map[];
    for i := 0 to |maps|
      invariant opts == Dedup(maps[..i])
      invariant forall i :: 0 <= i < |opts| ==> opts[i] in vs
      invariant forall m :: m in vs ==> m in opts
      invariant forall m :: m in vs ==>
        fresh(vs[m]) && vs[m].voters == {} && vs[m].votes == None && vs[m].premium == premium
      invariant forall m, n :: m in vs && n in vs && m != n ==> vs[m] != vs[n]
    {
      var m := maps[i];
      assert maps[..i + 1][..i] == maps[..i] && maps[..i + 1][i] == m;
      assert Dedup(maps[..i + 1]) == if m in opts then opts else opts + [m];
      var v := new VoterSet(premium);
      if m !in vs {
        opts := opts + [m];
      }
      vs := vs[m := v];
    }
    assert maps[..|maps|] == maps;
  }

  class MapPoll {
    /** The premium test every option's VoterSet counts with. */
    const premium: Uuid -> bool
    /** The poll's options, in the order they were offered (the LinkedHashMap's key order). */
    const options: seq<MapInfo>
    /** The voters of each option (`getVotes()`). */
    const votes: map<MapInfo, VoterSet>

    /**
     * The options are distinct and are exactly the keys of `votes`, and every
     * option has a VoterSet of its own.
     */
    ghost predicate Shape() {
      && Distinct(options)
      && (forall i :: 0 <= i < |options| ==> options[i] in votes)
      && (forall m :: m in votes ==> m in options)
      && (forall m, n :: m in votes && n in votes && m != n ==> votes[m] != votes[n])
    }

    /** The shape holds, and every VoterSet's cache is valid and counts with the poll's premium test. */
    ghost predicate Valid()
      reads this, votes.Values
    {
      && Shape()
      && (forall m :: m in votes ==> votes[m].Valid() && votes[m].premium == premium)
    }

    /** Who votes for what. */
    ghost function Ballots(): (b: map<MapInfo, set<Uuid>>)
      reads this, votes.Values
      ensures b.Keys == votes.Keys
      ensures Shape() ==> forall m :: m in b ==> m in options
      ensures Shape() ==> forall i :: 0 <= i < |options| ==> options[i] in b
    {
      map m | m in votes :: votes[m].voters
    }

    /** The options are the given maps in first-occurrence order, each with a new empty VoterSet. */
    constructor (maps: seq<MapInfo>, premium: Uuid -> bool)
      ensures Valid()
      ensures this.premium == premium && options == Dedup(maps)
      ensures forall m :: m in votes ==> fresh(votes[m]) && votes[m].voters == {} && votes[m].votes == None
    {
      var opts, vs := NewOptions(maps, premium);
      assert forall m :: m in vs ==> vs[m].Valid();
      this.premium := premium;
      options := opts;
      votes := vs;
    }

    /**
     * Toggles the player's vote for one option: Failure when the map is not an
     * option (and nothing changes); otherwise true iff the player now votes
     * for it. Other options' voters and caches are untouched.
     */
    method ToggleVote(vote: MapInfo, player: Uuid) returns (r: Result<bool, PollError>)
      requires Valid()
      modifies votes.Values
      ensures Valid()
      ensures vote !in old(Ballots()) ==> r == Failure(NotAnOption(vote)) && Ballots() == old(Ballots())
      ensures vote in old(Ballots()) ==>
        && r == Success(player !in old(Ballots())[vote])
        && Ballots() == Toggled(old(Ballots()), vote, player)
      ensures forall m :: m in votes && m != vote ==> votes[m].votes == old(votes[m].votes)
    {
      if vote !in votes {
        return Failure(NotAnOption(vote));
      }
      var target := votes[vote];
      assert forall m :: m in votes && m != vote ==> votes[m] != target;
      var added := Flip(target, player);
      r := Success(added);
      ghost var expected := Toggled(old(Ballots()), vote, player);
      assert forall m :: m in votes ==> Ballots()[m] == expected[m];
    }

    /** The weighted count of one option, read through its VoterSet (which caches it). */
    method CountVotes(m: MapInfo, ghost ballots: map<MapInfo, set<Uuid>>) returns (n: int)
      requires Valid() && m in votes && ballots == Ballots()
      modifies votes[m]
      ensures Valid() && Ballots() == ballots
      ensures n == Tally(premium, ballots[m])
    {
      var v := votes[m];
      assert v.Valid() && v.premium == premium;
      assert forall o :: o in votes && o != m ==> votes[o] != v;
      n := v.GetVotes();
      assert forall o :: o in votes ==> Ballots()[o] == old(Ballots())[o];
    }

    /** Every option's weighted count, in option order, read through the VoterSets (which cache them). */
    method CountAll(ghost ballots: map<MapInfo, set<Uuid>>) returns (counts: seq<int>)
      requires Valid() && ballots == Ballots()
      modifies votes.Values
      ensures Valid() && Ballots() == ballots
      ensures |counts| == |options|
      ensures forall j :: 0 <= j < |options| ==> counts[j] == Tally(premium, ballots[options[j]])
    {
      counts := [];
      for i := 0 to |options|
        invariant Valid() && Ballots() == ballots
        invariant |counts| == i
        invariant forall j :: 0 <= j < i ==> counts[j] == Tally(premium, ballots[options[j]])
      {
        var n := CountVotes(options[i], ballots);
        counts := counts + [n];
      }
    }

    /**
     * The most voted option, None when there are no options. Reading the
     * counts fills the VoterSets' caches but changes no voter set.
     */
    method GetMostVotedMap() returns (winner: Option<MapInfo>)
      requires Valid()
      modifies votes.Values
      ensures Valid() && Ballots() == old(Ballots())
      ensures winner == Winner(premium, options, Ballots())
    {
      if |options| == 0 {
        return None;
      }
      ghost var ballots := Ballots();
      var counts := CountAll(ballots);
      assert counts == CountsOf(premium, options, ballots);
      var best := ArgMax(counts);
      winner := Some(options[best]);
    }

    /** Ends the vote: the winner getMostVotedMap reports; voter sets are unchanged. */
    method FinishVote() returns (picked: Option<MapInfo>)
      requires Valid()
      modifies votes.Values
      ensures Valid() && Ballots() == old(Ballots())
      ensures picked == Winner(premium, options, Ballots())
    {
      picked := GetMostVotedMap();
    }
  }

  /** Finishing a vote twice reports the same winner and leaves the voters as they were. */
  method FinishVoteTwice(poll: MapPoll) returns (first: Option<MapInfo>, second: Option<MapInfo>)
    requires poll.Valid()
    modifies poll.votes.Values
    ensures poll.Valid() && poll.Ballots() == old(poll.Ballots())
    ensures first == second == Winner(poll.premium, poll.options, poll.Ballots())
  {
    first := poll.FinishVote();
    second := poll.FinishVote();
  }
}
