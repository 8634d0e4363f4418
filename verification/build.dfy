/**
 * `build_choices_from_rankings`: turning every person's ranking and the
 * priority ordering into choice levels.
 */
module Build {
  import opened Wrappers
  import opened Choices

  /** Each ranked person's guitars, most wanted first. A map keeps persons unique. */
  type Rankings = map<Person, seq<Guitar>>

  /** Priority sequence of persons; earlier means higher priority. */
  type Ordering = seq<Person>

  /** The two ways building raises. */
  datatype BuildError =
    | PersonNotInOrdering  // `ordering.index` finds no position for a ranked person
    | NoRankings           // `max` over an empty set of rankings

  /** `ordering.index(p)`: the first position of `p`. */
  function IndexOf(ordering: Ordering, p: Person): (r: nat)
    requires p in ordering
    ensures r < |ordering| && ordering[r] == p
    ensures forall j :: 0 <= j < r ==> ordering[j] != p
  {
    if ordering[0] == p then 0 else 1 + IndexOf(ordering[1..], p)
  }

  /** `p` comes strictly before `q` in the ordering: `ordering.index(p) < ordering.index(q)`. */
  ghost predicate Precedes(ordering: Ordering, p: Person, q: Person) {
    p in ordering && q in ordering && IndexOf(ordering, p) < IndexOf(ordering, q)
  }

  /** `ps` is listed in strictly increasing priority position. */
  ghost predicate InPriorityOrder(ordering: Ordering, ps: seq<Person>) {
    forall i, j :: 0 <= i < j < |ps| ==> Precedes(ordering, ps[i], ps[j])
  }

  /**
   * The same order on a level's choices, by their persons. A level is a
   * sequence of choices, not of persons, so the two are stated separately
   * rather than by building the level's person list.
   */
  ghost predicate LevelInPriorityOrder(ordering: Ordering, level: Level) {
    forall i, j :: 0 <= i < j < |level| ==> Precedes(ordering, level[i].person, level[j].person)
  }

  /**
   * The ranked persons sorted by `ordering.index` (the `sorted` call): the
   * ordering walked front to back, keeping the first occurrence of each
   * ranked person.
   */
  function PriorityOrder(ordering: Ordering, persons: set<Person>): (r: seq<Person>)
    ensures forall p :: p in r <==> p in persons && p in ordering
  {
    if ordering == [] then []
    else if ordering[0] in persons then [ordering[0]] + PriorityOrder(ordering[1..], persons - {ordering[0]})
    else PriorityOrder(ordering[1..], persons)
  }

  /** Past the head, a person's first position is one more than in the tail. */
  lemma IndexOfTail(ordering: Ordering, p: Person)
    requires p in ordering && p != ordering[0]
    ensures p in ordering[1..] && IndexOf(ordering, p) == 1 + IndexOf(ordering[1..], p)
  {
  }

  /** A list sorted against the tail of the ordering stays sorted against the whole ordering. */
  lemma {:induction false} ShiftPriorityOrder(ordering: Ordering, ps: seq<Person>)
    requires ordering != []
    requires forall p :: p in ps ==> p in ordering[1..] && p != ordering[0]
    requires InPriorityOrder(ordering[1..], ps)
    ensures InPriorityOrder(ordering, ps)
    ensures forall p :: p in ps ==> 0 < IndexOf(ordering, p)
  {
    forall p | p in ps
      ensures 0 < IndexOf(ordering, p)
    {
      IndexOfTail(ordering, p);
    }
    forall i, j | 0 <= i < j < |ps|
      ensures ps[i] in ordering && ps[j] in ordering && IndexOf(ordering, ps[i]) < IndexOf(ordering, ps[j])
    {
      assert ps[i] in ps && ps[j] in ps;
      IndexOfTail(ordering, ps[i]);
      IndexOfTail(ordering, ps[j]);
    }
  }

  /** Putting a person of strictly earlier position in front keeps a list sorted. */
  lemma {:induction false} ConsPriorityOrder(ordering: Ordering, x: Person, ps: seq<Person>)
    requires x in ordering
    requires forall p :: p in ps ==> p in ordering && IndexOf(ordering, x) < IndexOf(ordering, p)
    requires InPriorityOrder(ordering, ps)
    ensures InPriorityOrder(ordering, [x] + ps)
  {
    var r := [x] + ps;
    forall i, j | 0 <= i < j < |r|
      ensures r[i] in ordering && r[j] in ordering && IndexOf(ordering, r[i]) < IndexOf(ordering, r[j])
    {
      assert r[j] == ps[j - 1] && r[j] in ps;
      if i > 0 {
        assert r[i] == ps[i - 1];
      }
    }
  }

  /** The sorted persons come in strictly increasing priority position, hence without repeats. */
  lemma {:induction false} PriorityOrderSorted(ordering: Ordering, persons: set<Person>)
    ensures InPriorityOrder(ordering, PriorityOrder(ordering, persons))
  {
    if ordering != [] {
      var head := ordering[0];
      if head in persons {
        var rest := PriorityOrder(ordering[1..], persons - {head});
        PriorityOrderSorted(ordering[1..], persons - {head});
        ShiftPriorityOrder(ordering, rest);
        ConsPriorityOrder(ordering, head, rest);
      } else {
        var rest := PriorityOrder(ordering[1..], persons);
        PriorityOrderSorted(ordering[1..], persons);
        ShiftPriorityOrder(ordering, rest);
      }
    }
  }

  /** `get_ith_choices(i)`: one choice per listed person whose ranking is longer than `i`. */
  function ChoicesAtRank(rankings: Rankings, persons: seq<Person>, i: nat): (r: Level)
    requires forall p :: p in persons ==> p in rankings
    ensures |r| <= |persons|
  {
    if persons == [] then []
    else
      (if i < |rankings[persons[0]]| then [Choice(persons[0], rankings[persons[0]][i])] else [])
      + ChoicesAtRank(rankings, persons[1..], i)
  }

  /** A rank's level holds `Choice(p, ranking[i])` for exactly the listed persons ranking more than `i` guitars. */
  lemma {:induction false} ChoicesAtRankMembers(rankings: Rankings, persons: seq<Person>, i: nat)
    requires forall p :: p in persons ==> p in rankings
    ensures forall c :: c in ChoicesAtRank(rankings, persons, i) <==>
      c.person in persons && i < |rankings[c.person]| && rankings[c.person][i] == c.guitar
  {
    if persons != [] {
      ChoicesAtRankMembers(rankings, persons[1..], i);
      assert forall p :: p in persons <==> p == persons[0] || p in persons[1..];
    }
  }

  /** The tail of a sorted list is sorted, and its head comes strictly before all of it. */
  lemma {:induction false} PriorityOrderTail(ordering: Ordering, ps: seq<Person>)
    requires ps != []
    requires InPriorityOrder(ordering, ps)
    ensures InPriorityOrder(ordering, ps[1..])
    ensures forall p :: p in ps[1..] ==> ps[0] in ordering && p in ordering && IndexOf(ordering, ps[0]) < IndexOf(ordering, p)
  {
    var tail := ps[1..];
    forall a, b | 0 <= a < b < |tail|
      ensures tail[a] in ordering && tail[b] in ordering && IndexOf(ordering, tail[a]) < IndexOf(ordering, tail[b])
    {
      assert tail[a] == ps[a + 1] && tail[b] == ps[b + 1];
    }
    forall p | p in tail
      ensures ps[0] in ordering && p in ordering && IndexOf(ordering, ps[0]) < IndexOf(ordering, p)
    {
      var k :| 0 <= k < |tail| && tail[k] == p;
      assert ps[k + 1] == p;
    }
  }

  /** Putting a choice of strictly earlier person in front keeps a level sorted. */
  lemma {:induction false} ConsLevelOrder(ordering: Ordering, c: Choice, level: Level)
    requires c.person in ordering
    requires forall d :: d in level ==> d.person in ordering && IndexOf(ordering, c.person) < IndexOf(ordering, d.person)
    requires LevelInPriorityOrder(ordering, level)
    ensures LevelInPriorityOrder(ordering, [c] + level)
  {
    var r := [c] + level;
    forall a, b | 0 <= a < b < |r|
      ensures r[a].person in ordering && r[b].person in ordering
        && IndexOf(ordering, r[a].person) < IndexOf(ordering, r[b].person)
    {
      assert r[b] == level[b - 1] && r[b] in level;
      if a > 0 {
        assert r[a] == level[a - 1];
      }
    }
  }

  /** The tail of a level in priority order is in priority order, and its head precedes all of it. */
  lemma PriorityLevelTail(ordering: Ordering, level: Level)
    requires level != [] && LevelInPriorityOrder(ordering, level)
    requires forall c :: c in level ==> c.person in ordering
    ensures LevelInPriorityOrder(ordering, level[1..])
    ensures forall d :: d in level[1..] ==> d.person in ordering && Precedes(ordering, level[0].person, d.person)
  {
    var tail := level[1..];
    forall a, b | 0 <= a < b < |tail|
      ensures Precedes(ordering, tail[a].person, tail[b].person)
    {
      assert tail[a] == level[a + 1] && tail[b] == level[b + 1];
    }
    forall d | d in tail
      ensures d.person in ordering && Precedes(ordering, level[0].person, d.person)
    {
      var k :| 0 <= k < |tail| && tail[k] == d;
      assert level[k + 1] == d;
    }
  }

  /** A level built from persons in priority order is itself in priority order. */
  lemma {:induction false} ChoicesAtRankSorted(rankings: Rankings, ordering: Ordering, persons: seq<Person>, i: nat)
    requires forall p :: p in persons ==> p in rankings && p in ordering
    requires InPriorityOrder(ordering, persons)
    ensures LevelInPriorityOrder(ordering, ChoicesAtRank(rankings, persons, i))
  {
    if persons != [] {
      var rest := ChoicesAtRank(rankings, persons[1..], i);
      ChoicesAtRankMembers(rankings, persons[1..], i);
      PriorityOrderTail(ordering, persons);
      ChoicesAtRankSorted(rankings, ordering, persons[1..], i);
      if i < |rankings[persons[0]]| {
        ConsLevelOrder(ordering, Choice(persons[0], rankings[persons[0]][i]), rest);
      } else {
        assert ChoicesAtRank(rankings, persons, i) == rest;
      }
    }
  }

  /** `max(len(ranking.ranking) for ranking in rankings)`, over the listed persons. */
  function LongestRanking(rankings: Rankings, persons: seq<Person>): (r: nat)
    requires forall p :: p in persons ==> p in rankings
    ensures forall p :: p in persons ==> |rankings[p]| <= r
    ensures persons != [] ==> exists p :: p in persons && |rankings[p]| == r
  {
    if persons == [] then 0
    else
      var rest := LongestRanking(rankings, persons[1..]);
      if rest < |rankings[persons[0]]| then |rankings[persons[0]]| else rest
  }

  /**
   * `build_choices_from_rankings`: one level per rank up to the longest
   * ranking, each listing the ranked persons in priority order.
   */
  function BuildChoicesFromRankings(rankings: Rankings, ordering: Ordering): Result<RankedChoices, BuildError>
  {
    if exists p :: p in rankings && p !in ordering then Failure(PersonNotInOrdering)
    else if |rankings| == 0 then Failure(NoRankings)
    else
      var persons := PriorityOrder(ordering, rankings.Keys);
      Success(seq(LongestRanking(rankings, persons), i requires 0 <= i => ChoicesAtRank(rankings, persons, i)))
  }

  /** Building raises exactly when a ranked person is missing from the ordering, or nobody ranked anything. */
  lemma BuildFailures(rankings: Rankings, ordering: Ordering)
    ensures var r := BuildChoicesFromRankings(rankings, ordering);
            && (r == Failure(PersonNotInOrdering) <==> exists p :: p in rankings && p !in ordering)
            && (r == Failure(NoRankings) <==> |rankings| == 0)
  {
  }

  /** There are as many levels as the longest ranking has guitars. */
  lemma BuildLevelCount(rankings: Rankings, ordering: Ordering)
    requires BuildChoicesFromRankings(rankings, ordering).Success?
    ensures var levels := BuildChoicesFromRankings(rankings, ordering).value;
            && (forall p :: p in rankings ==> |rankings[p]| <= |levels|)
            && (exists p :: p in rankings && |rankings[p]| == |levels|)
  {
    var persons := PriorityOrder(ordering, rankings.Keys);
    assert forall p :: p in rankings ==> p in persons;
  }

  /** Level `i` holds `Choice(p, ranking[i])` for precisely the rankings longer than `i`. */
  lemma BuildLevelMembers(rankings: Rankings, ordering: Ordering, i: nat)
    requires BuildChoicesFromRankings(rankings, ordering).Success?
    requires i < |BuildChoicesFromRankings(rankings, ordering).value|
    ensures forall c :: c in BuildChoicesFromRankings(rankings, ordering).value[i] <==>
      c.person in rankings && i < |rankings[c.person]| && rankings[c.person][i] == c.guitar
  {
    var persons := PriorityOrder(ordering, rankings.Keys);
    ChoicesAtRankMembers(rankings, persons, i);
  }

  /** Within every built level, choices come in ascending priority position. */
  lemma BuildLevelsInPriorityOrder(rankings: Rankings, ordering: Ordering, i: nat)
    requires BuildChoicesFromRankings(rankings, ordering).Success?
    requires i < |BuildChoicesFromRankings(rankings, ordering).value|
    ensures LevelInPriorityOrder(ordering, BuildChoicesFromRankings(rankings, ordering).value[i])
  {
    var persons := PriorityOrder(ordering, rankings.Keys);
    PriorityOrderSorted(ordering, rankings.Keys);
    ChoicesAtRankSorted(rankings, ordering, persons, i);
  }
}
