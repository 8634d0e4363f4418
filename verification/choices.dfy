/**
 * Persons, guitars and choice levels, and the filter that removes an
 * allocated person and guitar from every level (`remove_guitar_and_person`).
 */
module Choices {

  /** Persons and guitars are opaque names. */
  type Person = string
  type Guitar = string

  /** "This person ranked this guitar" (one entry of a ranking). */
  datatype Choice = Choice(person: Person, guitar: Guitar)

  /** A choice level: the choices made at one rank, in priority order. */
  type Level = seq<Choice>

  /** All choice levels; index 0 is the first-choice level. */
  type RankedChoices = seq<Level>

  /** The filter's test: the choice names neither the person nor the guitar. */
  predicate Unaffected(c: Choice, guitar: Guitar, person: Person) {
    c.person != person && c.guitar != guitar
  }

  /** `c` is present in some level of `levels`. */
  ghost predicate Offered(levels: RankedChoices, c: Choice) {
    exists i :: 0 <= i < |levels| && c in levels[i]
  }

  /** One level with every choice naming `person` or `guitar` dropped (the `filter` call). */
  function FilterLevel(level: Level, guitar: Guitar, person: Person): (r: Level)
    ensures |r| <= |level|
  {
    if level == [] then []
    else
      (if Unaffected(level[0], guitar, person) then [level[0]] else [])
      + FilterLevel(level[1..], guitar, person)
  }

  /** Exactly the unaffected choices survive the filter. */
  lemma {:induction false} FilterLevelMembers(level: Level, guitar: Guitar, person: Person)
    ensures forall c :: c in FilterLevel(level, guitar, person) <==> c in level && Unaffected(c, guitar, person)
  {
    if level != [] {
      FilterLevelMembers(level[1..], guitar, person);
      assert forall c :: c in level <==> c == level[0] || c in level[1..];
    }
  }

  /** The filter keeps the whole level exactly when no choice in it names the person or the guitar. */
  lemma {:induction false} FilterLevelKeepsAll(level: Level, guitar: Guitar, person: Person)
    ensures |FilterLevel(level, guitar, person)| == |level|
        <==> forall c :: c in level ==> Unaffected(c, guitar, person)
  {
    if level != [] {
      FilterLevelKeepsAll(level[1..], guitar, person);
      assert forall c :: c in level <==> c == level[0] || c in level[1..];
    }
  }

  /** Filtering a concatenation filters each part: the survivors keep their order. */
  lemma {:induction false} FilterLevelAppend(a: Level, b: Level, guitar: Guitar, person: Person)
    ensures FilterLevel(a + b, guitar, person) == FilterLevel(a, guitar, person) + FilterLevel(b, guitar, person)
  {
    if a == [] {
      assert a + b == b;
    } else {
      var head := if Unaffected(a[0], guitar, person) then [a[0]] else [];
      assert (a + b)[0] == a[0];
      assert (a + b)[1..] == a[1..] + b;
      calc {
        FilterLevel(a + b, guitar, person);
        head + FilterLevel(a[1..] + b, guitar, person);
        { FilterLevelAppend(a[1..], b, guitar, person); }
        head + (FilterLevel(a[1..], guitar, person) + FilterLevel(b, guitar, person));
        (head + FilterLevel(a[1..], guitar, person)) + FilterLevel(b, guitar, person);
      }
    }
  }

  /** Filtering the same person and guitar twice changes nothing more. */
  lemma {:induction false} FilterLevelIdempotent(level: Level, guitar: Guitar, person: Person)
    ensures FilterLevel(FilterLevel(level, guitar, person), guitar, person) == FilterLevel(level, guitar, person)
  {
    if level != [] {
      var head := if Unaffected(level[0], guitar, person) then [level[0]] else [];
      var rest := FilterLevel(level[1..], guitar, person);
      FilterLevelAppend(head, rest, guitar, person);
      FilterLevelIdempotent(level[1..], guitar, person);
      assert FilterLevel(head, guitar, person) == head by {
        if head != [] {
          assert head[1..] == [];
        }
      }
    }
  }

  /** `remove_guitar_and_person`: the same levels with the person and the guitar filtered out of each. */
  function RemoveGuitarAndPerson(allChoices: RankedChoices, guitar: Guitar, person: Person): (r: RankedChoices)
    ensures |r| == |allChoices|
    ensures forall i :: 0 <= i < |r| ==> r[i] == FilterLevel(allChoices[i], guitar, person)
  {
    seq(|allChoices|, i requires 0 <= i < |allChoices| => FilterLevel(allChoices[i], guitar, person))
  }

  /** Across all levels, exactly the choices naming the person or the guitar disappear. */
  lemma RemoveOffered(allChoices: RankedChoices, guitar: Guitar, person: Person, c: Choice)
    ensures Offered(RemoveGuitarAndPerson(allChoices, guitar, person), c)
        <==> Offered(allChoices, c) && Unaffected(c, guitar, person)
  {
    var r := RemoveGuitarAndPerson(allChoices, guitar, person);
    if Offered(allChoices, c) && Unaffected(c, guitar, person) {
      var i :| 0 <= i < |allChoices| && c in allChoices[i];
      FilterLevelMembers(allChoices[i], guitar, person);
      assert c in r[i];
    }
    if Offered(r, c) {
      var i :| 0 <= i < |r| && c in r[i];
      FilterLevelMembers(allChoices[i], guitar, person);
    }
  }

  /** Removing the same person and guitar twice gives what removing them once gave. */
  lemma RemoveIdempotent(allChoices: RankedChoices, guitar: Guitar, person: Person)
    ensures var once := RemoveGuitarAndPerson(allChoices, guitar, person);
            RemoveGuitarAndPerson(once, guitar, person) == once
  {
    var once := RemoveGuitarAndPerson(allChoices, guitar, person);
    forall i | 0 <= i < |once|
      ensures RemoveGuitarAndPerson(once, guitar, person)[i] == once[i]
    {
      FilterLevelIdempotent(allChoices[i], guitar, person);
    }
  }
}
