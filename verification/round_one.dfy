/** Round one of `guitar_fest`: build the levels, then allocate from an empty allocation. */
module RoundOne {
  import opened Wrappers
  import opened Choices
  import opened Build
  import opened Allocate

  /** `p` ranked something, and comes before every other person who ranked something. */
  ghost predicate TopPriority(rankings: Rankings, ordering: Ordering, p: Person) {
    && p in rankings && rankings[p] != [] && p in ordering
    && forall q :: q in rankings && rankings[q] != [] && q != p ==>
         q in ordering && IndexOf(ordering, p) < IndexOf(ordering, q)
  }

  /** On built levels, the first pick is the top-priority person's first choice. */
  lemma TopPriorityPicksFirst(rankings: Rankings, ordering: Ordering, p: Person)
    requires BuildChoicesFromRankings(rankings, ordering).Success?
    requires TopPriority(rankings, ordering, p)
    ensures FirstPick(BuildChoicesFromRankings(rankings, ordering).value) == Some(Choice(p, rankings[p][0]))
  {
    var levels := BuildChoicesFromRankings(rankings, ordering).value;
    var mine := Choice(p, rankings[p][0]);
    BuildLevelCount(rankings, ordering);
    BuildLevelMembers(rankings, ordering, 0);
    assert mine in levels[0];
    var pick := FirstPick(levels);
    var k :| 0 <= k < |levels| && levels[k] != [] && pick.value == levels[k][0]
             && forall j :: 0 <= j < k ==> levels[j] == [];
    assert k == 0;
    // the head of level 0 has the smallest priority position in it, so it is `p`'s choice
    BuildLevelsInPriorityOrder(rankings, ordering, 0);
  }

  /** `p` holds a guitar from the first `k + 1` entries of their own ranking. */
  ghost predicate GotByRank(rankings: Rankings, a: Allocation, p: Person, k: int)
    requires p in rankings
  {
    p in a && exists j :: 0 <= j <= k && j < |rankings[p]| && rankings[p][j] == a[p]
  }

  /**
   * The guitar `p` ranked `k`-th went to a person who ranked it at a smaller
   * rank, or at rank `k` and ahead of `p` in the ordering.
   */
  ghost predicate LostToPriority(rankings: Rankings, ordering: Ordering, a: Allocation, p: Person, k: int)
    requires p in rankings && 0 <= k < |rankings[p]|
  {
    exists q, j :: q in a && a[q] == rankings[p][k] && q in rankings && 0 <= j <= k && j < |rankings[q]|
                   && rankings[q][j] == rankings[p][k] && (j < k || Precedes(ordering, q, p))
  }

  /** Built levels are in priority order, and every person they offer to is in the ordering. */
  lemma BuiltInPriorityOrder(rankings: Rankings, ordering: Ordering)
    requires BuildChoicesFromRankings(rankings, ordering).Success?
    ensures LevelsInPriorityOrder(ordering, BuildChoicesFromRankings(rankings, ordering).value)
  {
    var levels := BuildChoicesFromRankings(rankings, ordering).value;
    forall i | 0 <= i < |levels|
      ensures LevelInPriorityOrder(ordering, levels[i])
    {
      BuildLevelsInPriorityOrder(rankings, ordering, i);
    }
    forall c | Offered(levels, c)
      ensures c.person in ordering
    {
      var i :| 0 <= i < |levels| && c in levels[i];
      BuildLevelMembers(rankings, ordering, i);
    }
  }

  /** A guitar won from a built level at or above `k` is one the winner ranked no lower than `k`. */
  lemma WonByRankFromLevels(rankings: Rankings, ordering: Ordering, a: Allocation, p: Person, g: Guitar, k: int)
    requires BuildChoicesFromRankings(rankings, ordering).Success?
    requires p in rankings
    requires WonByLevel(BuildChoicesFromRankings(rankings, ordering).value, a, Choice(p, g), k)
    ensures GotByRank(rankings, a, p, k)
  {
    var levels := BuildChoicesFromRankings(rankings, ordering).value;
    var j :| 0 <= j <= k && j < |levels| && Choice(p, a[p]) in levels[j];
    BuildLevelMembers(rankings, ordering, j);
  }

  /** A guitar taken from a built level ahead of `p`'s choice went to a person with a better claim. */
  lemma TakenAheadFromLevels(rankings: Rankings, ordering: Ordering, a: Allocation, p: Person, k: int)
    requires BuildChoicesFromRankings(rankings, ordering).Success?
    requires p in rankings && 0 <= k < |rankings[p]|
    requires TakenAhead(ordering, BuildChoicesFromRankings(rankings, ordering).value, a, Choice(p, rankings[p][k]), k)
    ensures LostToPriority(rankings, ordering, a, p, k)
  {
    var levels := BuildChoicesFromRankings(rankings, ordering).value;
    var g := rankings[p][k];
    var q, j :| 0 <= j <= k && j < |levels| && q in a && a[q] == g
                && Choice(q, g) in levels[j] && (j < k || Precedes(ordering, q, p));
    BuildLevelMembers(rankings, ordering, j);
    assert Choice(q, g).person == q;
    LostToWitness(rankings, ordering, a, p, k, q, j);
  }

  /** A holder who ranked the guitar earlier, or at the same rank and ahead, is a better claim. */
  lemma LostToWitness(rankings: Rankings, ordering: Ordering, a: Allocation, p: Person, k: int, q: Person, j: int)
    requires p in rankings && 0 <= k < |rankings[p]|
    requires q in a && a[q] == rankings[p][k]
    requires q in rankings && 0 <= j <= k && j < |rankings[q]| && rankings[q][j] == rankings[p][k]
    requires j < k || Precedes(ordering, q, p)
    ensures LostToPriority(rankings, ordering, a, p, k)
  {
  }

  /**
   * Priority in round one: whatever rank `k` of `p`'s ranking is looked at,
   * `p` got a guitar ranked no lower, or that guitar went to a person with a
   * better claim on it.
   */
  lemma RoundOnePriority(rankings: Rankings, ordering: Ordering, p: Person, k: int)
    requires BuildChoicesFromRankings(rankings, ordering).Success?
    requires p in rankings && 0 <= k < |rankings[p]|
    ensures var a := GreedyAllocation(BuildChoicesFromRankings(rankings, ordering).value, map[]);
            GotByRank(rankings, a, p, k) || LostToPriority(rankings, ordering, a, p, k)
  {
    var levels := BuildChoicesFromRankings(rankings, ordering).value;
    var a := GreedyAllocation(levels, map[]);
    var c := Choice(p, rankings[p][k]);
    BuildLevelCount(rankings, ordering);
    BuildLevelMembers(rankings, ordering, k);
    BuiltInPriorityOrder(rankings, ordering);
    GreedyPriority(ordering, levels, map[], c, k);
    if WonByLevel(levels, a, c, k) {
      WonByRankFromLevels(rankings, ordering, a, p, c.guitar, k);
    } else {
      TakenAheadFromLevels(rankings, ordering, a, p, k);
    }
  }

  /**
   * `allocate_guitars(build_choices_from_rankings(rankings, ordering), {})`.
   * Building errors are passed on; otherwise the allocation is one-to-one,
   * gives each person only a guitar they ranked, leaves nobody without a
   * guitar while a guitar they ranked is free, gives the top-priority
   * person their first choice, and lets nobody lose a guitar to a person
   * with a weaker claim on it.
   */
  method GuitarFestRoundOne(rankings: Rankings, ordering: Ordering) returns (r: Result<Allocation, BuildError>)
    ensures r.Failure? <==> BuildChoicesFromRankings(rankings, ordering).Failure?
    ensures r.Failure? ==> r.error == BuildChoicesFromRankings(rankings, ordering).error
    ensures r.Success? ==> r.value == GreedyAllocation(BuildChoicesFromRankings(rankings, ordering).value, map[])
    ensures r.Success? ==> Injective(r.value)
    ensures r.Success? ==> forall p :: p in r.value ==> p in rankings && r.value[p] in rankings[p]
    ensures r.Success? ==> forall p, k :: p in rankings && 0 <= k < |rankings[p]| ==>
      p in r.value || rankings[p][k] in r.value.Values
    ensures r.Success? ==> forall p :: TopPriority(rankings, ordering, p) ==> p in r.value && r.value[p] == rankings[p][0]
    ensures r.Success? ==> forall p, k :: p in rankings && 0 <= k < |rankings[p]| ==>
      GotByRank(rankings, r.value, p, k) || LostToPriority(rankings, ordering, r.value, p, k)
  {
    var built := BuildChoicesFromRankings(rankings, ordering);
    if built.Failure? {
      return Failure(built.error);
    }
    var levels := built.value;
    var allocation := AllocateGuitars(levels, map[]);
    forall p | p in allocation
      ensures p in rankings && allocation[p] in rankings[p]
    {
      var i :| 0 <= i < |levels| && Choice(p, allocation[p]) in levels[i];
      BuildLevelMembers(rankings, ordering, i);
    }
    forall p, k | p in rankings && 0 <= k < |rankings[p]|
      ensures p in allocation || rankings[p][k] in allocation.Values
    {
      BuildLevelCount(rankings, ordering);
      BuildLevelMembers(rankings, ordering, k);
      assert Choice(p, rankings[p][k]) in levels[k];
    }
    forall p | TopPriority(rankings, ordering, p)
      ensures p in allocation && allocation[p] == rankings[p][0]
    {
      TopPriorityPicksFirst(rankings, ordering, p);
    }
    forall p, k | p in rankings && 0 <= k < |rankings[p]|
      ensures GotByRank(rankings, allocation, p, k) || LostToPriority(rankings, ordering, allocation, p, k)
    {
      RoundOnePriority(rankings, ordering, p, k);
    }
    r := Success(allocation);
  }
}
