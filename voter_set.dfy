/**
 * VoterSet: the voters of one poll option, with a lazily cached weighted
 * vote count in which premium voters count twice.
 */
module VoterSets {
  import opened Common

  /**
   * What one voter adds to the count. `premium(u)` stands for "the player is
   * online and holds the premium permission"; an offline player counts 1.
   */
  function VoteWeight(premium: Uuid -> bool, u: Uuid): (w: nat)
    ensures 1 <= w <= 2
    ensures w == 2 <==> premium(u)
  {
    if premium(u) then 2 else 1
  }

  /** The weighted vote count of a set of voters: the sum of their weights. */
  ghost function Tally(premium: Uuid -> bool, s: set<Uuid>): (n: nat)
    ensures n == 0 <==> s == {}
    decreases s
  {
    if s == {} then 0
    else
      NonEmptyHasElement(s);
      var u :| u in s;
      VoteWeight(premium, u) + Tally(premium, s - {u})
  }

  /** The sum does not depend on which voter is taken out first. */
  lemma {:induction false} TallyRemove(premium: Uuid -> bool, s: set<Uuid>, u: Uuid)
    requires u in s
    ensures Tally(premium, s) == VoteWeight(premium, u) + Tally(premium, s - {u})
    decreases s
  {
    var v :| v in s && Tally(premium, s) == VoteWeight(premium, v) + Tally(premium, s - {v});
    if v != u {
      TallyRemove(premium, s - {v}, u);
      TallyRemove(premium, s - {u}, v);
      assert s - {v} - {u} == s - {u} - {v};
    }
  }

  /** Adding an absent voter raises the count by exactly that voter's weight. */
  lemma TallyAdd(premium: Uuid -> bool, s: set<Uuid>, u: Uuid)
    requires u !in s
    ensures Tally(premium, s + {u}) == Tally(premium, s) + VoteWeight(premium, u)
  {
    TallyRemove(premium, s + {u}, u);
    assert s + {u} - {u} == s;
  }

  /** Every voter counts once or twice, so the count lies between the size and twice the size. */
  lemma {:induction false} TallyBounds(premium: Uuid -> bool, s: set<Uuid>)
    ensures |s| <= Tally(premium, s) <= 2 * |s|
    ensures Tally(premium, s) == 0 <==> s == {}
    decreases s
  {
    if s != {} {
      NonEmptyHasElement(s);
      var u :| u in s;
      TallyRemove(premium, s, u);
      TallyBounds(premium, s - {u});
    }
  }

  class VoterSet {
    /** The premium test this set's count is taken with. */
    const premium: Uuid -> bool
    var voters: set<Uuid>
    /** The cached weighted count; None is Java's null (not computed since the last change). */
    var votes: Option<int>

    /** The cache, when present, holds the weighted count of the current voters. */
    ghost predicate Valid()
      reads this
    {
      votes.Some? ==> votes.value == Tally(premium, voters)
    }

    constructor (premium: Uuid -> bool)
      ensures Valid()
      ensures this.premium == premium && voters == {} && votes == None
    {
      this.premium := premium;
      voters := {};
      votes := None;
    }

    /** Adds the voter; true iff it was absent. Only a real change drops the cache. */
    method Add(uuid: Uuid) returns (modified: bool)
      requires Valid()
      modifies this
      ensures Valid()
      ensures modified <==> uuid !in old(voters)
      ensures voters == old(voters) + {uuid} && Contains(uuid)
      ensures votes == if modified then None else old(votes)
    {
      modified := uuid !in voters;
      if modified {
        voters := voters + {uuid};
        votes := None;
      } else {
        assert voters + {uuid} == voters;
      }
    }

    /** Removes the voter and drops the cache, whether or not the voter was present. */
    method Remove(uuid: Uuid)
      requires Valid()
      modifies this
      ensures Valid()
      ensures voters == old(voters) - {uuid} && !Contains(uuid)
      ensures votes == None
    {
      voters := voters - {uuid};
      votes := None;
    }

    function Contains(uuid: Uuid): (r: bool)
      reads this
      ensures r <==> uuid in voters
      ensures r ==> Size() > 0
    {
      uuid in voters
    }

    /** The unweighted number of distinct voters. */
    function Size(): (n: nat)
      reads this
      ensures n == 0 <==> voters == {}
      ensures Valid() && votes.Some? ==> n <= votes.value <= 2 * n
    {
      TallyBounds(premium, voters);
      |voters|
    }

    /**
     * The weighted count: the cached value when there is one, otherwise a
     * fresh count that is then cached. Lies between Size() and 2 * Size().
     */
    method GetVotes() returns (n: int)
      requires Valid()
      modifies this
      ensures Valid() && voters == old(voters)
      ensures n == Tally(premium, voters) && votes == Some(n)
      ensures old(votes).Some? ==> n == old(votes).value
      ensures Size() <= n <= 2 * Size()
      ensures n == 0 <==> voters == {}
    {
      if votes.Some? {
        n := votes.value;
      } else {
        n := UpdateVotes();
      }
      TallyBounds(premium, voters);
    }

    /** Sums the voters' weights and caches the sum. */
    method UpdateVotes() returns (n: int)
      requires Valid()
      modifies this
      ensures Valid() && voters == old(voters)
      ensures n == Tally(premium, voters) && votes == Some(n)
    {
      var rest := voters;
      var total := 0;
      while rest != {}
        invariant rest <= voters
        invariant total + Tally(premium, rest) == Tally(premium, voters)
        decreases rest
        invariant voters == old(voters)
      {
        NonEmptyHasElement(rest);
        var u :| u in rest;
        TallyRemove(premium, rest, u);
        total := total + VoteWeight(premium, u);
        rest := rest - {u};
      }
      votes := Some(total);
      n := total;
    }
  }

  /** Two reads of the count with no change in between agree. */
  method GetVotesTwice(s: VoterSet) returns (first: int, second: int)
    requires s.Valid()
    modifies s
    ensures s.Valid() && s.voters == old(s.voters)
    ensures first == second == Tally(s.premium, s.voters)
  {
    first := s.GetVotes();
    second := s.GetVotes();
  }
}
