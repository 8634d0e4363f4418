# Guitar fest allocator, round one

A Dafny model of the greedy guitar allocator in `guitarfest/guitarfest.py`.
Persons rank guitars, most wanted first, and a priority ordering breaks ties
between persons. The program turns the rankings into *choice levels*: level
`i` holds every person's `i`-th choice, with the persons in priority order.
A greedy matcher then works through the levels. It always takes the head
choice of the lowest non-empty level, gives that guitar to that person, and
purges the person and the guitar from every level. The model covers:

- `Choice` and `remove_guitar_and_person` (`choices.dfy`, module `Choices`);
- `build_choices_from_rankings`, including its two ways of raising (`build.dfy`, module `Build`);
- `allocate_guitars`, as a recursive specification function (`GreedyAllocation`)
  and as a method with a `while` loop and a map accumulator (`AllocateGuitars`)
  proved equal to it (`allocate.dfy`, module `Allocate`);
- the round-one composition `allocate_guitars(build_choices_from_rankings(r, o), {})`
  (`round_one.dfy`, module `RoundOne`);
- the worked example from the end of the module, as a proved test vector (`example.dfy`).

Representation choices:

- A set of `Ranking` records is a `map<Person, seq<Guitar>>`. This makes
  persons unique.
- An `Ordering` is a `seq<Person>`. It may contain duplicates: `ordering.index`
  uses the first occurrence, and so does the model.
- `sorted(rankings, key=ordering.index)` is `PriorityOrder`. It walks the
  ordering and keeps the first occurrence of each ranked person. With unique
  persons the sort keys are distinct, so this is the only possible sorted order.
- The two `ValueError`s that building can raise are `Failure` values of a
  `Result`:
  - `PersonNotInOrdering`: `ordering.index` finds no position for a ranked person;
  - `NoRankings`: `max` is taken over an empty set of rankings.

Behaviour at the edges, as the code has it:

- An empty set of rankings raises `ValueError`, because `max` gets an empty
  sequence (guitarfest/guitarfest.py:47). The model returns `Failure(NoRankings)`.
- A ranked person missing from the ordering raises `ValueError` from
  `ordering.index` (guitarfest/guitarfest.py:40). The model returns
  `Failure(PersonNotInOrdering)`.
- A ranking may name a guitar twice. Priority then holds in the form
  `RoundOnePriority` states: a person who ends up without a guitar from their
  first `k + 1` ranks lost their `k`-th guitar to someone who ranked it at a
  smaller rank, or at the same rank and earlier in the ordering.
- There is no priority re-weighting between rounds (see "Left out").

## Model

| member | source | states |
|---|---|---|
| `Choices.FilterLevel` | guitarfest/guitarfest.py:33-34 | the filtered level is never longer than the input; its contract is completed by `FilterLevelMembers` (which choices survive), `FilterLevelAppend` (in their original order) and `FilterLevelKeepsAll` |
| `Choices.FilterLevelMembers` | guitarfest/guitarfest.py:33-34 | a choice survives the filter exactly when it was in the level and names neither the person nor the guitar |
| `Choices.FilterLevelAppend` | guitarfest/guitarfest.py:34 | filtering a concatenation is the concatenation of the filtered parts, so survivors keep their original order |
| `Choices.FilterLevelKeepsAll` | guitarfest/guitarfest.py:33-34 | the filtered level is as long as the input exactly when no choice in it names the person or the guitar, so a level holding such a choice gets strictly shorter |
| `Choices.FilterLevelIdempotent` | guitarfest/guitarfest.py:33-34 | filtering a level twice with the same person and guitar equals filtering it once |
| `Choices.RemoveGuitarAndPerson` | guitarfest/guitarfest.py:31-34 | the result has exactly as many levels as the input, and each output level is the filter of the input level at the same rank (so the lemmas on `FilterLevel` apply level by level) |
| `Choices.RemoveOffered` | guitarfest/guitarfest.py:31-34 | across all levels, a choice is still offered after removal exactly when it was offered before and names neither the person nor the guitar |
| `Choices.RemoveIdempotent` | guitarfest/guitarfest.py:31-34 | removing the same person and guitar a second time changes nothing |
| `Build.IndexOf` | guitarfest/guitarfest.py:40 | `ordering.index(p)` is a position holding `p`, and no earlier position holds `p` |
| `Build.PriorityOrder` | guitarfest/guitarfest.py:40 | the sorted persons are exactly the ranked persons that appear in the ordering |
| `Build.PriorityOrderSorted` | guitarfest/guitarfest.py:40 | the sorted persons come in strictly increasing `ordering.index`, hence with no repeats |
| `Build.ChoicesAtRank` | guitarfest/guitarfest.py:42-44 | `get_ith_choices(i)` has at most one choice per listed person; `ChoicesAtRankMembers` and `ChoicesAtRankSorted` state which choices and in what order |
| `Build.ChoicesAtRankMembers` | guitarfest/guitarfest.py:42-44 | `get_ith_choices(i)` holds `Choice(p, ranking[i])` for exactly the listed persons whose ranking is longer than `i` |
| `Build.ChoicesAtRankSorted` | guitarfest/guitarfest.py:42-44 | a level built from persons in priority order is in priority order |
| `Build.LongestRanking` | guitarfest/guitarfest.py:47 | the result bounds every listed person's ranking length and equals one of them when the list is non-empty |
| `Build.BuildChoicesFromRankings` | guitarfest/guitarfest.py:37-47 | no contract of its own; `BuildFailures` (when it raises), `BuildLevelCount` (how many levels), `BuildLevelMembers` (what each holds) and `BuildLevelsInPriorityOrder` (in what order) state it |
| `Build.BuildFailures` | guitarfest/guitarfest.py:37-47 | building fails with `PersonNotInOrdering` exactly when a ranked person is absent from the ordering, and with `NoRankings` exactly when there are no rankings |
| `Build.BuildLevelCount` | guitarfest/guitarfest.py:46-47 | there are as many levels as the longest ranking is long |
| `Build.BuildLevelMembers` | guitarfest/guitarfest.py:42-47 | built level `i` contains `Choice(p, ranking[i])` for precisely the rankings longer than `i`, and nothing else |
| `Build.BuildLevelsInPriorityOrder` | guitarfest/guitarfest.py:40-44 | within every built level, choices appear in strictly ascending `ordering.index` of their person |
| `Allocate.GreedyAllocation` | guitarfest/guitarfest.py:50-66 | the recursion of `allocate_guitars`; no contract of its own: `AllocateGuitars` is proved equal to it and states what it returns, and `GreedyKeeps` and `GreedyPriority` state its priority behaviour |
| `Allocate.RemoveHeadShrinks` | guitarfest/guitarfest.py:61-66 | purging the head choice's person and guitar strictly lowers the number of remaining choices, so the recursion terminates |
| `Allocate.FirstPick` | guitarfest/guitarfest.py:57-61 | the next pick is the head of the first non-empty level; there is none exactly when every level is empty |
| `Allocate.DropStep` | guitarfest/guitarfest.py:58-59 | dropping an empty first level keeps the set of offered choices, the purge and coverage invariants, and the next pick |
| `Allocate.PickStep` | guitarfest/guitarfest.py:61-64 | the head's person has no guitar yet; after the insertion and the purge, winners are still one-to-one, still drawn from input choices, purged from every level, and every input choice is still offered or beaten |
| `Allocate.FinishedAllocation` | guitarfest/guitarfest.py:53-55 | once the levels are exhausted, the accumulated allocation is sound, keeps untouched entries, is one-to-one when the starting allocation is one-to-one and the levels name none of its persons or guitars, and is maximal |
| `Allocate.HeadKeeps` | guitarfest/guitarfest.py:61-66 | the person of the head choice ends the recursion holding the head's guitar: a pick is never undone |
| `Allocate.GreedyKeeps` | guitarfest/guitarfest.py:50-66 | a person already in the allocation whom the levels never name still holds the same guitar at the end |
| `Allocate.FilterLevelInPriorityOrder` | guitarfest/guitarfest.py:33-34 | filtering a level keeps its choices in ascending priority of their persons |
| `Allocate.PurgeInPriorityOrder` | guitarfest/guitarfest.py:31-34 | removing a person and a guitar keeps every level in priority order |
| `Allocate.GreedyPriority` | guitarfest/guitarfest.py:50-66 | on levels in priority order that name none of the starting allocation's persons or guitars, a choice at level `i` either leaves its person holding a guitar offered at level `i` or above, or its guitar went to a person offered it at a higher level, or at level `i` ahead in the ordering |
| `Allocate.AllocateGuitars` | guitarfest/guitarfest.py:50-66 | the loop returns the recursion's result; with no choices the allocation is unchanged; the first pick wins; only insertions of input choices happen; entries of persons the levels never name are kept; the result is one-to-one when the starting allocation is one-to-one and the levels name none of its persons or guitars; every input choice ends with its person or guitar allocated |
| `RoundOne.TopPriorityPicksFirst` | guitarfest/guitarfest.py:40-61 | on built levels, the first pick is the first choice of the highest-priority person who ranked anything |
| `RoundOne.GuitarFestRoundOne` | guitarfest/guitarfest.py:69-72 | build errors are passed on; otherwise the round-one allocation is one-to-one, gives every person only a guitar from their own ranking, leaves nobody unassigned while a guitar they ranked is free, gives the top-priority person their first choice, and lets nobody lose a guitar to a person with a weaker claim on it (as `RoundOnePriority`) |
| `RoundOne.RoundOnePriority` | guitarfest/guitarfest.py:37-72 | for any rank `k` of `p`'s ranking, round one gives `p` a guitar from their first `k + 1` ranks, or gives `p`'s `k`-th guitar to a person who ranked it at a smaller rank, or at rank `k` and ahead of `p` |
| `Example.ExampleBuild` | guitarfest/guitarfest.py:87-97 | the example rankings and ordering build three levels, each ordered ty, helene, alex, dominique |
| `Example.ExampleRoundOne` | guitarfest/guitarfest.py:94 | round one on the example gives ty guitar_1, alex guitar_2 and dominique guitar_4, and helene nothing |

## Left out

- Round two of `guitar_fest` (guitarfest/guitarfest.py:74-81) is not modelled, because it cannot run as written:
  - `functools.reduce` calls `reduce_helper` with two arguments, but it takes one;
  - `reduce` raises on an empty first allocation;
  - with a single entry, `reduce` returns the raw `(person, guitar)` pair, which `allocate_guitars` then fails on;
  - `reduce_helper` always filters the original `choices` rather than an accumulator;
  - the code has no priority re-weighting between the rounds.
- The example data and the `__main__` printing block (guitarfest/guitarfest.py:85-106) are console output. The data appears only as the test vector in `example.dfy`.
- `RANKING_LENGTH` (guitarfest/guitarfest.py:6) is unused. No ranking-length bound is enforced anywhere.
- Reading preferences from a file and generating a random or VIP priority order are not in the code.
- A frozenset holding two `Ranking`s for the same person cannot be represented, because rankings are a map. For such input, Python's sort order would depend on set iteration order.
- The in-place mutation of the caller's dict by `allocate_guitars` is not modelled. `Allocate.AllocateGuitars` takes the starting allocation as a value and returns the final one. Aliasing between the argument and the result is not captured. In round one the caller passes a fresh `{}`, so nothing observes the difference.
- The insertion order of the Python dict is not modelled: a Dafny `map` has no order. Only the `__main__` printing (guitarfest/guitarfest.py:105) and round two's `reduce` (guitarfest/guitarfest.py:77) observe it, and both are left out.
- Python's recursion depth limit is not modelled. `allocate_guitars` recurses once per pick and per dropped level, so very large inputs raise `RecursionError` in Python but not in the loop.
- The two build errors are both `ValueError` in Python. The model gives them distinct names and drops the messages.
