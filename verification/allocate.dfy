/** `allocate_guitars`: the greedy matcher over choice levels. */
module Allocate {
  import opened Wrappers
  import opened Choices
  import opened Build

  /** Person to guitar. */
  type Allocation = map<Person, Guitar>

  /** No guitar is held by two persons. */
  ghost predicate Injective(a: Allocation) {
    forall p, q :: p in a && q in a && p != q ==> a[p] != a[q]
  }

  /** The number of choices left over all levels. */
  function TotalChoices(levels: RankedChoices): nat {
    if levels == [] then 0 else |levels[0]| + TotalChoices(levels[1..])
  }

  /** Levels that are pointwise no longer hold no more choices; strictly fewer if the first is shorter. */
  lemma {:induction false} TotalChoicesMonotone(a: RankedChoices, b: RankedChoices)
    requires |a| == |b|
    requires forall i :: 0 <= i < |a| ==> |a[i]| <= |b[i]|
    ensures TotalChoices(a) <= TotalChoices(b)
    ensures |a| > 0 && |a[0]| < |b[0]| ==> TotalChoices(a) < TotalChoices(b)
  {
    if a != [] {
      TotalChoicesMonotone(a[1..], b[1..]);
    }
  }

  /** Removing the head choice's person and guitar removes at least that choice. */
  lemma RemoveHeadShrinks(levels: RankedChoices)
    requires levels != [] && levels[0] != []
    ensures var h := levels[0][0];
            TotalChoices(RemoveGuitarAndPerson(levels, h.guitar, h.person)) < TotalChoices(levels)
  {
    var h := levels[0][0];
    var r := RemoveGuitarAndPerson(levels, h.guitar, h.person);
    assert !Unaffected(h, h.guitar, h.person) && h in levels[0];
    FilterLevelKeepsAll(levels[0], h.guitar, h.person);
    TotalChoicesMonotone(r, levels);
  }

  /** The head of the first non-empty level: the next choice the allocator takes. */
  function FirstPick(levels: RankedChoices): (r: Option<Choice>)
    ensures r.None? <==> forall i :: 0 <= i < |levels| ==> levels[i] == []
    ensures r.Some? ==> exists k :: 0 <= k < |levels| && levels[k] != [] && r.value == levels[k][0]
                                    && forall j :: 0 <= j < k ==> levels[j] == []
  {
    if levels == [] then None
    else if levels[0] == [] then FirstPick(levels[1..])
    else Some(levels[0][0])
  }

  /**
   * The recursion of `allocate_guitars`: drop an empty first level, or give
   * the head choice's guitar to its person and purge both from every level.
   */
  function GreedyAllocation(levels: RankedChoices, acc: Allocation): Allocation
    decreases TotalChoices(levels) + |levels|
  {
    if |levels| == 0 then acc
    else if |levels[0]| == 0 then GreedyAllocation(levels[1..], acc)
    else
      var h := levels[0][0];
      RemoveHeadShrinks(levels);
      GreedyAllocation(RemoveGuitarAndPerson(levels, h.guitar, h.person), acc[h.person := h.guitar])
  }

  /** Dropping an empty first level neither adds nor loses a choice. */
  lemma OfferedAfterDrop(levels: RankedChoices, c: Choice)
    requires levels != [] && levels[0] == []
    ensures Offered(levels[1..], c) <==> Offered(levels, c)
  {
    if Offered(levels, c) {
      var i :| 0 <= i < |levels| && c in levels[i];
      assert levels[1..][i - 1] == levels[i];
    }
    if Offered(levels[1..], c) {
      var i :| 0 <= i < |levels[1..]| && c in levels[1..][i];
      assert levels[i + 1] == levels[1..][i];
    }
  }

  /** Every winner so far won a choice present in the input levels. */
  ghost predicate WonFrom(choices: RankedChoices, won: Allocation) {
    forall p :: p in won ==> Offered(choices, Choice(p, won[p]))
  }

  /** No surviving choice names a winner or a guitar already given away. */
  ghost predicate Purged(levels: RankedChoices, won: Allocation) {
    forall c :: Offered(levels, c) ==> c.person !in won && c.guitar !in won.Values
  }

  /** Every surviving choice was an input choice. */
  ghost predicate Within(levels: RankedChoices, choices: RankedChoices) {
    forall c :: Offered(levels, c) ==> Offered(choices, c)
  }

  /** Every input choice survives, or lost to its person or its guitar having been allocated. */
  ghost predicate Covered(choices: RankedChoices, levels: RankedChoices, won: Allocation) {
    forall c :: Offered(choices, c) ==> Offered(levels, c) || c.person in won || c.guitar in won.Values
  }

  /** Dropping an empty first level keeps the loop's invariants. */
  lemma DropStep(choices: RankedChoices, levels: RankedChoices, won: Allocation)
    requires levels != [] && levels[0] == []
    requires Purged(levels, won) && Within(levels, choices) && Covered(choices, levels, won)
    ensures forall c :: Offered(levels[1..], c) <==> Offered(levels, c)
    ensures Purged(levels[1..], won) && Within(levels[1..], choices) && Covered(choices, levels[1..], won)
    ensures FirstPick(levels[1..]) == FirstPick(levels)
  {
    forall c | true
      ensures Offered(levels[1..], c) <==> Offered(levels, c)
    {
      OfferedAfterDrop(levels, c);
    }
  }

  /** A new person's guitar joins the allocated guitars. */
  lemma ValuesAfterInsert(won: Allocation, p: Person, g: Guitar)
    requires p !in won
    ensures won[p := g].Values == won.Values + {g}
  {
    var won' := won[p := g];
    forall x | x in won.Values
      ensures x in won'.Values
    {
      var q :| q in won && won[q] == x;
      assert q != p && won'[q] == x;
    }
    assert won'[p] == g;
  }

  /** Allocating the head choice and purging its person and guitar keeps the loop's invariants. */
  lemma PickStep(choices: RankedChoices, levels: RankedChoices, won: Allocation)
    requires levels != [] && levels[0] != []
    requires WonFrom(choices, won) && Injective(won)
    requires Purged(levels, won) && Within(levels, choices) && Covered(choices, levels, won)
    ensures var h := levels[0][0];
            var levels' := RemoveGuitarAndPerson(levels, h.guitar, h.person);
            var won' := won[h.person := h.guitar];
            && h.person !in won
            && WonFrom(choices, won') && Injective(won')
            && Purged(levels', won') && Within(levels', choices) && Covered(choices, levels', won')
  {
    var h := levels[0][0];
    var levels' := RemoveGuitarAndPerson(levels, h.guitar, h.person);
    var won' := won[h.person := h.guitar];
    assert Offered(levels, h);
    forall c | true
      ensures Offered(levels', c) <==> Offered(levels, c) && Unaffected(c, h.guitar, h.person)
    {
      RemoveOffered(levels, h.guitar, h.person, c);
    }
    assert h.person !in won;
    ValuesAfterInsert(won, h.person, h.guitar);
  }

  /** Writing a winner into the accumulator is writing it into the winners. */
  lemma UpdateOverride(allocation: Allocation, won: Allocation, p: Person, g: Guitar)
    ensures (allocation + won)[p := g] == allocation + won[p := g]
  {
  }

  /** What the finished loop's invariants give about the returned allocation. */
  lemma FinishedAllocation(choices: RankedChoices, allocation: Allocation, won: Allocation, result: Allocation)
    requires result == allocation + won
    requires WonFrom(choices, won) && Injective(won) && Covered(choices, [], won)
    ensures allocation.Keys <= result.Keys
    ensures forall p :: p in result ==> (p in allocation && result[p] == allocation[p]) || Offered(choices, Choice(p, result[p]))
    ensures forall p :: p in allocation && (forall c :: Offered(choices, c) ==> c.person != p) ==> result[p] == allocation[p]
    ensures Injective(allocation) && (forall c :: Offered(choices, c) ==> c.person !in allocation && c.guitar !in allocation.Values)
            ==> Injective(result)
    ensures forall c :: Offered(choices, c) ==> c.person in result || c.guitar in result.Values
  {
    forall c | Offered(choices, c)
      ensures c.person in result || c.guitar in result.Values
    {
      assert !Offered([], c);
      if c.person !in won {
        var q :| q in won && won[q] == c.guitar;
        assert result[q] == c.guitar;
      }
    }
    if Injective(allocation) && (forall c :: Offered(choices, c) ==> c.person !in allocation && c.guitar !in allocation.Values) {
      forall p, q | p in result && q in result && p != q
        ensures result[p] != result[q]
      {
        if p in won {
          assert Offered(choices, Choice(p, won[p]));
        }
        if q in won {
          assert Offered(choices, Choice(q, won[q]));
        }
      }
    }
  }

  /** Picking the head choice and purging its person and guitar keeps the levels purged of every winner. */
  lemma PurgeStep(levels: RankedChoices, acc: Allocation)
    requires levels != [] && levels[0] != []
    requires Purged(levels, acc)
    ensures var h := levels[0][0];
            Purged(RemoveGuitarAndPerson(levels, h.guitar, h.person), acc[h.person := h.guitar])
  {
    var h := levels[0][0];
    assert Offered(levels, h);
    ValuesAfterInsert(acc, h.person, h.guitar);
    forall c | Offered(RemoveGuitarAndPerson(levels, h.guitar, h.person), c)
      ensures c.person !in acc[h.person := h.guitar] && c.guitar !in acc[h.person := h.guitar].Values
    {
      RemoveOffered(levels, h.guitar, h.person, c);
    }
  }

  /** A person the levels never name keeps their entry to the end of the recursion. */
  lemma {:induction false} GreedyKeeps(levels: RankedChoices, acc: Allocation, p: Person)
    requires p in acc
    requires forall c :: Offered(levels, c) ==> c.person != p
    ensures p in GreedyAllocation(levels, acc) && GreedyAllocation(levels, acc)[p] == acc[p]
    decreases TotalChoices(levels) + |levels|
  {
    if |levels| == 0 {
    } else if |levels[0]| == 0 {
      forall c | Offered(levels[1..], c)
        ensures c.person != p
      {
        OfferedAfterDrop(levels, c);
      }
      GreedyKeeps(levels[1..], acc, p);
    } else {
      var h := levels[0][0];
      assert Offered(levels, h);
      var levels' := RemoveGuitarAndPerson(levels, h.guitar, h.person);
      forall c | Offered(levels', c)
        ensures c.person != p
      {
        RemoveOffered(levels, h.guitar, h.person, c);
      }
      RemoveHeadShrinks(levels);
      GreedyKeeps(levels', acc[h.person := h.guitar], p);
    }
  }

  /** Every level lists its choices in strictly ascending priority of their persons. */
  ghost predicate LevelsInPriorityOrder(ordering: Ordering, levels: RankedChoices) {
    && (forall i :: 0 <= i < |levels| ==> LevelInPriorityOrder(ordering, levels[i]))
    && (forall c :: Offered(levels, c) ==> c.person in ordering)
  }

  /** `c.person` ends up holding a guitar that some level at or above `i` offered them. */
  ghost predicate WonByLevel(levels: RankedChoices, result: Allocation, c: Choice, i: int) {
    c.person in result && exists j :: 0 <= j <= i && j < |levels| && Choice(c.person, result[c.person]) in levels[j]
  }

  /**
   * `c.guitar` ends up with a person who was offered it at a level above `i`,
   * or at level `i` ahead of `c.person`.
   */
  ghost predicate TakenAhead(ordering: Ordering, levels: RankedChoices, result: Allocation, c: Choice, i: int) {
    exists q, j :: 0 <= j <= i && j < |levels| && q in result && result[q] == c.guitar
                   && Choice(q, c.guitar) in levels[j] && (j < i || Precedes(ordering, q, c.person))
  }

  /** Moving an empty first level out of the way shifts both outcomes by one level. */
  lemma DropOutcome(ordering: Ordering, levels: RankedChoices, result: Allocation, c: Choice, i: int)
    requires levels != [] && levels[0] == []
    requires WonByLevel(levels[1..], result, c, i - 1) || TakenAhead(ordering, levels[1..], result, c, i - 1)
    ensures WonByLevel(levels, result, c, i) || TakenAhead(ordering, levels, result, c, i)
  {
    if WonByLevel(levels[1..], result, c, i - 1) {
      var j :| 0 <= j <= i - 1 && j < |levels[1..]| && Choice(c.person, result[c.person]) in levels[1..][j];
      assert levels[j + 1] == levels[1..][j];
    } else {
      var q, j :| 0 <= j <= i - 1 && j < |levels[1..]| && q in result && result[q] == c.guitar
                  && Choice(q, c.guitar) in levels[1..][j] && (j < i - 1 || Precedes(ordering, q, c.person));
      assert levels[j + 1] == levels[1..][j];
    }
  }

  /** A choice that survived the purge at level `i` was at level `i` before it. */
  lemma PurgeOutcome(ordering: Ordering, levels: RankedChoices, guitar: Guitar, person: Person,
                     result: Allocation, c: Choice, i: int)
    requires var levels' := RemoveGuitarAndPerson(levels, guitar, person);
             WonByLevel(levels', result, c, i) || TakenAhead(ordering, levels', result, c, i)
    ensures WonByLevel(levels, result, c, i) || TakenAhead(ordering, levels, result, c, i)
  {
    var levels' := RemoveGuitarAndPerson(levels, guitar, person);
    if WonByLevel(levels', result, c, i) {
      var j :| 0 <= j <= i && j < |levels'| && Choice(c.person, result[c.person]) in levels'[j];
      FilterLevelMembers(levels[j], guitar, person);
    } else {
      var q, j :| 0 <= j <= i && j < |levels'| && q in result && result[q] == c.guitar
                  && Choice(q, c.guitar) in levels'[j] && (j < i || Precedes(ordering, q, c.person));
      FilterLevelMembers(levels[j], guitar, person);
    }
  }

  /** Filtering keeps a level in priority order. */
  lemma {:induction false} FilterLevelInPriorityOrder(ordering: Ordering, level: Level, guitar: Guitar, person: Person)
    requires LevelInPriorityOrder(ordering, level)
    requires forall c :: c in level ==> c.person in ordering
    ensures LevelInPriorityOrder(ordering, FilterLevel(level, guitar, person))
  {
    if level != [] {
      var rest := FilterLevel(level[1..], guitar, person);
      PriorityLevelTail(ordering, level);
      FilterLevelInPriorityOrder(ordering, level[1..], guitar, person);
      FilterLevelMembers(level[1..], guitar, person);
      if Unaffected(level[0], guitar, person) {
        ConsLevelOrder(ordering, level[0], rest);
      }
    }
  }

  /** The purge keeps every level in priority order. */
  lemma PurgeInPriorityOrder(ordering: Ordering, levels: RankedChoices, guitar: Guitar, person: Person)
    requires LevelsInPriorityOrder(ordering, levels)
    ensures LevelsInPriorityOrder(ordering, RemoveGuitarAndPerson(levels, guitar, person))
  {
    var levels' := RemoveGuitarAndPerson(levels, guitar, person);
    forall i | 0 <= i < |levels'|
      ensures LevelInPriorityOrder(ordering, levels'[i])
    {
      assert forall c :: c in levels[i] ==> Offered(levels, c);
      FilterLevelInPriorityOrder(ordering, levels[i], guitar, person);
    }
    forall c | Offered(levels', c)
      ensures c.person in ordering
    {
      RemoveOffered(levels, guitar, person, c);
    }
  }

  /** The head choice's person holds the head's guitar at the end of the recursion. */
  lemma HeadKeeps(levels: RankedChoices, acc: Allocation)
    requires levels != [] && levels[0] != []
    ensures var h := levels[0][0];
            var result := GreedyAllocation(levels, acc);
            h.person in result && result[h.person] == h.guitar
  {
    var h := levels[0][0];
    var levels' := RemoveGuitarAndPerson(levels, h.guitar, h.person);
    var acc' := acc[h.person := h.guitar];
    assert GreedyAllocation(levels, acc) == GreedyAllocation(levels', acc');
    forall d | Offered(levels', d)
      ensures d.person != h.person
    {
      RemoveOffered(levels, h.guitar, h.person, d);
    }
    GreedyKeeps(levels', acc', h.person);
  }

  /** When the head choice names `c`'s person or guitar, the head settles `c`'s outcome. */
  lemma HeadOutcome(ordering: Ordering, levels: RankedChoices, acc: Allocation, c: Choice, i: int)
    requires LevelsInPriorityOrder(ordering, levels)
    requires 0 <= i < |levels| && c in levels[i]
    requires levels[0] != [] && !Unaffected(c, levels[0][0].guitar, levels[0][0].person)
    ensures WonByLevel(levels, GreedyAllocation(levels, acc), c, i)
         || TakenAhead(ordering, levels, GreedyAllocation(levels, acc), c, i)
  {
    var h := levels[0][0];
    var result := GreedyAllocation(levels, acc);
    HeadKeeps(levels, acc);
    assert h in levels[0];
    if c.person == h.person {
      assert Choice(c.person, result[c.person]) == h;
      assert WonByLevel(levels, result, c, i);
    } else {
      if i == 0 {
        // `c` is not the head, so at level 0 it sits behind the head
        var a :| 0 <= a < |levels[0]| && levels[0][a] == c;
        assert a != 0 && LevelInPriorityOrder(ordering, levels[0]);
        assert Precedes(ordering, h.person, c.person);
      }
      TakenAheadWitness(ordering, levels, result, c, i, h.person, 0);
    }
  }

  /** A holder of `c.guitar` offered it at a higher level, or at level `i` ahead, is a witness for `TakenAhead`. */
  lemma TakenAheadWitness(ordering: Ordering, levels: RankedChoices, result: Allocation, c: Choice, i: int, q: Person, j: int)
    requires 0 <= j <= i && j < |levels| && q in result && result[q] == c.guitar
    requires Choice(q, c.guitar) in levels[j] && (j < i || Precedes(ordering, q, c.person))
    ensures TakenAhead(ordering, levels, result, c, i)
  {
  }

  /**
   * Priority: on levels in priority order, every choice `c` at level `i`
   * either leaves its person with a guitar offered at level `i` or above,
   * or loses its guitar to someone offered it at a higher level, or at the
   * same level ahead of `c.person`.
   */
  lemma {:induction false} GreedyPriority(ordering: Ordering, levels: RankedChoices, acc: Allocation, c: Choice, i: int)
    requires LevelsInPriorityOrder(ordering, levels)
    requires Purged(levels, acc)
    requires 0 <= i < |levels| && c in levels[i]
    ensures WonByLevel(levels, GreedyAllocation(levels, acc), c, i)
         || TakenAhead(ordering, levels, GreedyAllocation(levels, acc), c, i)
    decreases TotalChoices(levels) + |levels|
  {
    var result := GreedyAllocation(levels, acc);
    if |levels[0]| == 0 {
      forall d | true
        ensures Offered(levels[1..], d) <==> Offered(levels, d)
      {
        OfferedAfterDrop(levels, d);
      }
      assert levels[1..][i - 1] == levels[i];
      GreedyPriority(ordering, levels[1..], acc, c, i - 1);
      DropOutcome(ordering, levels, result, c, i);
    } else {
      var h := levels[0][0];
      if Unaffected(c, h.guitar, h.person) {
        var levels' := RemoveGuitarAndPerson(levels, h.guitar, h.person);
        var acc' := acc[h.person := h.guitar];
        assert result == GreedyAllocation(levels', acc');
        FilterLevelMembers(levels[i], h.guitar, h.person);
        PurgeStep(levels, acc);
        PurgeInPriorityOrder(ordering, levels, h.guitar, h.person);
        RemoveHeadShrinks(levels);
        GreedyPriority(ordering, levels', acc', c, i);
        PurgeOutcome(ordering, levels, h.guitar, h.person, result, c, i);
      } else {
        HeadOutcome(ordering, levels, acc, c, i);
      }
    }
  }

  /**
   * `allocate_guitars(choices, allocation)`: runs the greedy matcher to the
   * end, writing each winner into the accumulated allocation.
   */
  method AllocateGuitars(choices: RankedChoices, allocation: Allocation) returns (result: Allocation)
    ensures result == GreedyAllocation(choices, allocation)
    // with nothing to choose from, the allocation comes back unchanged
    ensures FirstPick(choices).None? ==> result == allocation
    // the highest-priority choice at the lowest non-empty rank always wins
    ensures FirstPick(choices).Some? ==>
      FirstPick(choices).value.person in result && result[FirstPick(choices).value.person] == FirstPick(choices).value.guitar
    // entries are only added: each is an old entry or a choice from the levels
    ensures allocation.Keys <= result.Keys
    ensures forall p :: p in result ==> (p in allocation && result[p] == allocation[p]) || Offered(choices, Choice(p, result[p]))
    // a person the levels never name keeps their old entry
    ensures forall p :: p in allocation && (forall c :: Offered(choices, c) ==> c.person != p) ==> result[p] == allocation[p]
    // no guitar twice, when the levels do not name anyone or anything already allocated
    ensures Injective(allocation) && (forall c :: Offered(choices, c) ==> c.person !in allocation && c.guitar !in allocation.Values)
            ==> Injective(result)
    // maximality: every choice lost out to its person or its guitar being allocated
    ensures forall c :: Offered(choices, c) ==> c.person in result || c.guitar in result.Values
  {
    var levels := choices;
    result := allocation;
    ghost var won: Allocation := map[];
    while |levels| != 0
      invariant result == allocation + won
      invariant GreedyAllocation(levels, result) == GreedyAllocation(choices, allocation)
      invariant WonFrom(choices, won) && Injective(won)
      invariant Purged(levels, won) && Within(levels, choices) && Covered(choices, levels, won)
      invariant won == map[] ==> FirstPick(levels) == FirstPick(choices)
      invariant won == map[] || FirstPick(choices).Some?
      invariant FirstPick(choices).Some? && won != map[] ==>
        FirstPick(choices).value.person in won && won[FirstPick(choices).value.person] == FirstPick(choices).value.guitar
      decreases TotalChoices(levels) + |levels|
    {
      if |levels[0]| == 0 {
        DropStep(choices, levels, won);
        levels := levels[1..];
      } else {
        var selection := levels[0][0];
        PickStep(choices, levels, won);
        RemoveHeadShrinks(levels);
        UpdateOverride(allocation, won, selection.person, selection.guitar);
        result := result[selection.person := selection.guitar];
        won := won[selection.person := selection.guitar];
        levels := RemoveGuitarAndPerson(levels, selection.guitar, selection.person);
      }
    }
    assert levels == [];
    FinishedAllocation(choices, allocation, won, result);
  }
}
