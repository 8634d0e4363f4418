/** The worked example at the end of the guitar fest module: four persons, four guitars. */
module Example {
  import opened Wrappers
  import opened Choices
  import opened Build
  import opened Allocate

  const ExampleOrdering: Ordering := ["ty", "helene", "alex", "dominique"]

  const ExampleRankings: Rankings := map[
    "ty" := ["guitar_1", "guitar_2", "guitar_3"],
    "helene" := ["guitar_1", "guitar_2", "guitar_4"],
    "alex" := ["guitar_2", "guitar_3", "guitar_4"],
    "dominique" := ["guitar_4", "guitar_1", "guitar_2"]
  ]

  /** The three levels the example builds, each in the order ty, helene, alex, dominique. */
  const ExampleLevels: RankedChoices := [
    [Choice("ty", "guitar_1"), Choice("helene", "guitar_1"), Choice("alex", "guitar_2"), Choice("dominique", "guitar_4")],
    [Choice("ty", "guitar_2"), Choice("helene", "guitar_2"), Choice("alex", "guitar_3"), Choice("dominique", "guitar_1")],
    [Choice("ty", "guitar_3"), Choice("helene", "guitar_4"), Choice("alex", "guitar_4"), Choice("dominique", "guitar_2")]
  ]

  /** Every example person is ranked, so sorting by the ordering gives the ordering itself. */
  lemma ExamplePriorityOrder()
    ensures PriorityOrder(ExampleOrdering, ExampleRankings.Keys) == ExampleOrdering
  {
    var keys := ExampleRankings.Keys;
    assert keys == {"ty", "helene", "alex", "dominique"};
    assert keys - {"ty"} == {"helene", "alex", "dominique"};
    assert {"helene", "alex", "dominique"} - {"helene"} == {"alex", "dominique"};
    assert {"alex", "dominique"} - {"alex"} == {"dominique"};
    assert {"dominique"} - {"dominique"} == {};
    calc {
      PriorityOrder(ExampleOrdering, keys);
      ["ty"] + PriorityOrder(["helene", "alex", "dominique"], {"helene", "alex", "dominique"});
      ["ty", "helene"] + PriorityOrder(["alex", "dominique"], {"alex", "dominique"});
      ["ty", "helene", "alex"] + PriorityOrder(["dominique"], {"dominique"});
      ["ty", "helene", "alex", "dominique"] + PriorityOrder([], {});
    }
  }

  // The three rank lemmas below spell the rankings out as a map literal
  // instead of naming `ExampleRankings`: the solver evaluates the recursion
  // of `ChoicesAtRank` on a literal but not through a named constant.
  // `ExampleBuild` ties them back to `ExampleRankings`.

  /** Level 0 of the example: everyone's first choice. */
  lemma ExampleRankZero()
    ensures ChoicesAtRank(map[
      "ty" := ["guitar_1", "guitar_2", "guitar_3"],
      "helene" := ["guitar_1", "guitar_2", "guitar_4"],
      "alex" := ["guitar_2", "guitar_3", "guitar_4"],
      "dominique" := ["guitar_4", "guitar_1", "guitar_2"]
    ], ["ty", "helene", "alex", "dominique"], 0)
    == [Choice("ty", "guitar_1"), Choice("helene", "guitar_1"), Choice("alex", "guitar_2"), Choice("dominique", "guitar_4")]
  {
  }

  /** Level 1 of the example: everyone's second choice. */
  lemma ExampleRankOne()
    ensures ChoicesAtRank(map[
      "ty" := ["guitar_1", "guitar_2", "guitar_3"],
      "helene" := ["guitar_1", "guitar_2", "guitar_4"],
      "alex" := ["guitar_2", "guitar_3", "guitar_4"],
      "dominique" := ["guitar_4", "guitar_1", "guitar_2"]
    ], ["ty", "helene", "alex", "dominique"], 1)
    == [Choice("ty", "guitar_2"), Choice("helene", "guitar_2"), Choice("alex", "guitar_3"), Choice("dominique", "guitar_1")]
  {
  }

  /** Level 2 of the example: everyone's third choice. */
  lemma ExampleRankTwo()
    ensures ChoicesAtRank(map[
      "ty" := ["guitar_1", "guitar_2", "guitar_3"],
      "helene" := ["guitar_1", "guitar_2", "guitar_4"],
      "alex" := ["guitar_2", "guitar_3", "guitar_4"],
      "dominique" := ["guitar_4", "guitar_1", "guitar_2"]
    ], ["ty", "helene", "alex", "dominique"], 2)
    == [Choice("ty", "guitar_3"), Choice("helene", "guitar_4"), Choice("alex", "guitar_4"), Choice("dominique", "guitar_2")]
  {
  }

  /** Every ranked example person is in the ordering. */
  lemma ExampleNoneMissing()
    ensures forall p :: p in ExampleRankings ==> p in ExampleOrdering
    ensures "ty" in ExampleRankings
  {
    assert ExampleRankings.Keys == {"ty", "helene", "alex", "dominique"};
  }

  /** The longest example ranking has three guitars. */
  lemma ExampleLongest()
    ensures LongestRanking(ExampleRankings, ExampleOrdering) == 3
  {
    assert ExampleRankings["ty"] == ["guitar_1", "guitar_2", "guitar_3"];
    assert ExampleRankings["helene"] == ["guitar_1", "guitar_2", "guitar_4"];
    assert ExampleRankings["alex"] == ["guitar_2", "guitar_3", "guitar_4"];
    assert ExampleRankings["dominique"] == ["guitar_4", "guitar_1", "guitar_2"];
  }

  /** Building the example succeeds with one level per rank 0, 1, 2. */
  lemma ExampleBuildSucceeds()
    ensures BuildChoicesFromRankings(ExampleRankings, ExampleOrdering)
         == Success(seq(3, i requires 0 <= i => ChoicesAtRank(ExampleRankings, ExampleOrdering, i)))
  {
    ExampleNoneMissing();
    ExamplePriorityOrder();
    ExampleLongest();
  }

  /** Three levels built by rank are the levels of ranks 0, 1 and 2. */
  lemma ThreeRanks(rankings: Rankings, persons: seq<Person>)
    requires forall p :: p in persons ==> p in rankings
    ensures seq(3, i requires 0 <= i => ChoicesAtRank(rankings, persons, i))
         == [ChoicesAtRank(rankings, persons, 0), ChoicesAtRank(rankings, persons, 1), ChoicesAtRank(rankings, persons, 2)]
  {
  }

  /** Building the example gives the three levels above. */
  lemma ExampleBuild()
    ensures BuildChoicesFromRankings(ExampleRankings, ExampleOrdering) == Success(ExampleLevels)
  {
    ExampleBuildSucceeds();
    ExampleNoneMissing();
    ThreeRanks(ExampleRankings, ExampleOrdering);
    ExampleRankZero();
    ExampleRankOne();
    ExampleRankTwo();
  }

  /** The levels once ty has taken guitar_1. */
  const ExampleAfterTy: RankedChoices := [
    [Choice("alex", "guitar_2"), Choice("dominique", "guitar_4")],
    [Choice("helene", "guitar_2"), Choice("alex", "guitar_3")],
    [Choice("helene", "guitar_4"), Choice("alex", "guitar_4"), Choice("dominique", "guitar_2")]
  ]

  /** The levels once alex has taken guitar_2. */
  const ExampleAfterAlex: RankedChoices := [[Choice("dominique", "guitar_4")], [], [Choice("helene", "guitar_4")]]

  /** Round one: ty gets guitar_1, alex guitar_2, dominique guitar_4, and helene nothing. */
  lemma ExampleRoundOne()
    ensures BuildChoicesFromRankings(ExampleRankings, ExampleOrdering).Success?
    ensures GreedyAllocation(BuildChoicesFromRankings(ExampleRankings, ExampleOrdering).value, map[])
            == map["ty" := "guitar_1", "alex" := "guitar_2", "dominique" := "guitar_4"]
  {
    ExampleBuild();
    var empty: RankedChoices := [[], [], []];
    var m1 := map["ty" := "guitar_1"];
    var m2 := m1["alex" := "guitar_2"];
    var m3 := m2["dominique" := "guitar_4"];
    calc {
      GreedyAllocation(ExampleLevels, map[]);
      { ExampleStepTy(); }
      GreedyAllocation(ExampleAfterTy, m1);
      { ExampleStepAlex(); }
      GreedyAllocation(ExampleAfterAlex, m2);
      { ExampleStepDominique(); }
      GreedyAllocation(empty, m3);
      GreedyAllocation(empty[1..], m3);
      GreedyAllocation(empty[2..], m3);
      GreedyAllocation(empty[3..], m3);
      m3;
    }
  }

  /** Removing from three levels filters each of the three. */
  lemma RemoveFromThree(levels: RankedChoices, guitar: Guitar, person: Person)
    requires |levels| == 3
    ensures RemoveGuitarAndPerson(levels, guitar, person) == [
      FilterLevel(levels[0], guitar, person), FilterLevel(levels[1], guitar, person), FilterLevel(levels[2], guitar, person)]
  {
  }

  /** ty takes guitar_1: ty and guitar_1 leave every level. */
  lemma ExampleStepTy()
    ensures RemoveGuitarAndPerson(ExampleLevels, "guitar_1", "ty") == ExampleAfterTy
  {
    RemoveFromThree(ExampleLevels, "guitar_1", "ty");
    ExampleTyRankZero();
    ExampleTyRankOne();
    ExampleTyRankTwo();
  }

  /** ty and guitar_1 leave level 0. */
  lemma ExampleTyRankZero()
    ensures FilterLevel([Choice("ty", "guitar_1"), Choice("helene", "guitar_1"), Choice("alex", "guitar_2"), Choice("dominique", "guitar_4")], "guitar_1", "ty")
        == [Choice("alex", "guitar_2"), Choice("dominique", "guitar_4")]
  {
  }

  /** ty and guitar_1 leave level 1. */
  lemma ExampleTyRankOne()
    ensures FilterLevel([Choice("ty", "guitar_2"), Choice("helene", "guitar_2"), Choice("alex", "guitar_3"), Choice("dominique", "guitar_1")], "guitar_1", "ty")
        == [Choice("helene", "guitar_2"), Choice("alex", "guitar_3")]
  {
  }

  /** ty and guitar_1 leave level 2. */
  lemma ExampleTyRankTwo()
    ensures FilterLevel([Choice("ty", "guitar_3"), Choice("helene", "guitar_4"), Choice("alex", "guitar_4"), Choice("dominique", "guitar_2")], "guitar_1", "ty")
        == [Choice("helene", "guitar_4"), Choice("alex", "guitar_4"), Choice("dominique", "guitar_2")]
  {
  }

  /** alex takes guitar_2: level 1 empties. */
  lemma ExampleStepAlex()
    ensures RemoveGuitarAndPerson(ExampleAfterTy, "guitar_2", "alex") == ExampleAfterAlex
  {
    RemoveFromThree(ExampleAfterTy, "guitar_2", "alex");
    ExampleAlexRankZero();
    ExampleAlexRankOne();
    ExampleAlexRankTwo();
  }

  /** alex and guitar_2 leave level 0. */
  lemma ExampleAlexRankZero()
    ensures FilterLevel([Choice("alex", "guitar_2"), Choice("dominique", "guitar_4")], "guitar_2", "alex")
        == [Choice("dominique", "guitar_4")]
  {
  }

  /** alex and guitar_2 leave level 1, which empties. */
  lemma ExampleAlexRankOne()
    ensures FilterLevel([Choice("helene", "guitar_2"), Choice("alex", "guitar_3")], "guitar_2", "alex") == []
  {
  }

  /** alex and guitar_2 leave level 2. */
  lemma ExampleAlexRankTwo()
    ensures FilterLevel([Choice("helene", "guitar_4"), Choice("alex", "guitar_4"), Choice("dominique", "guitar_2")], "guitar_2", "alex")
        == [Choice("helene", "guitar_4")]
  {
  }

  /** dominique takes guitar_4, which was helene's last hope. */
  lemma ExampleStepDominique()
    ensures RemoveGuitarAndPerson(ExampleAfterAlex, "guitar_4", "dominique") == [[], [], []]
  {
    RemoveFromThree(ExampleAfterAlex, "guitar_4", "dominique");
    assert FilterLevel([Choice("dominique", "guitar_4")], "guitar_4", "dominique") == [];
    assert FilterLevel([Choice("helene", "guitar_4")], "guitar_4", "dominique") == [];
  }
}
