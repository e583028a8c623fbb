# Pokedex filtering, modelled in Dafny

The pokedex page lists a fixed, read-only sequence of character records and
lets the user narrow it with six filter inputs: a free-text box matched
against the name (case-insensitively) or the dex number, four selectors
(role, team, first type, second type) and a region selector. An empty input
means "no constraint". This project models the page's logic, all of it in
`src/pages/Pokedex.jsx`:

- the filter state (`initialFilters`, `handleFilterChange`, `clearFilters`),
  as the class `FilterState.FilterController` over the value types of
  `Catalog`;
- the match predicate and `filteredPokemons`, as `Matching.Matches` and the
  recursive `Matching.Filter`;
- the option lists `uniqueRoles`, `uniqueTeams` and `uniqueTypes`, as
  functions in `Vocabulary` built from `Seqs.Dedup` (JavaScript's
  `[...new Set(xs)]`), `Vocabulary.DropFalsy` (`.filter(Boolean)`) and
  `Seqs.Sort` (`.sort()`);
- the fixed region list `regionOptions`, as `Catalog.RegionOptions`.

Modules: `Text` (lower-casing, `includes`, `toString` of a number, the
default string order), `Seqs` (subsequences, first occurrences, dedup,
sort), `Catalog` (records and filter state), `Matching`, `Vocabulary`,
`FilterState`, and `Scenarios` (worked examples on small data sets). The data
set is a parameter of type `seq<Pokemon>`. Optional fields (`role`, `team`,
`type2`) are `Option<string>`; the filter state holds six strings.

What is proved, in short: the initial state shows the whole data set in its
order; the result is always an order-preserving subsequence with each kept
record exactly as often as the data set holds it; a record is shown if and
only if all six conditions hold; the name condition is a substring test on
the lower-cased name or on the decimal dex number; filling an empty field
only removes records; a change to one field touches only that field's
condition; a reset restores the whole list; the role and team lists are
duplicate-free, hold no empty entry, are complete and in first-seen order; the type list
is duplicate-free, sorted and holds exactly the non-empty first and second
types; every offered role or team shows at least one record.

## Model

| member | source | states |
|---|---|---|
| `Text.Lower` | src/pages/Pokedex.jsx:40 | lower-casing keeps the length, leaves no upper-case ASCII letter, shifts exactly the upper-case letters and keeps every other character |
| `Text.LowerIdempotent` | src/pages/Pokedex.jsx:40 | lower-casing an already lower-cased string changes nothing |
| `Text.Includes` | src/pages/Pokedex.jsx:40-41 | `includes` as a search from the left: the needle fits in the haystack and either starts it or is found in the haystack without its first character |
| `Text.IncludesIff` | src/pages/Pokedex.jsx:40-41 | the left-to-right search of `includes` holds exactly when the needle occurs at some position of the haystack |
| `Text.IncludesSound` | src/pages/Pokedex.jsx:40-41 | when the search succeeds it names a position where the needle occurs |
| `Text.IncludesComplete` | src/pages/Pokedex.jsx:40-41 | every occurrence of the needle makes the search succeed |
| `Text.EmptyIncluded` | src/pages/Pokedex.jsx:40 | the empty string is included in every string, which is why an empty name box matches everything |
| `Text.DecimalString` | src/pages/Pokedex.jsx:41 | `dexNumber.toString()` is a non-empty string of decimal digits without a leading zero |
| `Text.DecimalRoundTrip` | src/pages/Pokedex.jsx:41 | reading the decimal rendering back yields the dex number |
| `Text.DecimalInjective` | src/pages/Pokedex.jsx:41 | different dex numbers have different renderings |
| `Text.LexLe` | src/pages/Pokedex.jsx:29 | the comparison `.sort()` applies to strings: character by character, a proper prefix before any longer string that starts with it |
| `Text.LexLeReflexive` | src/pages/Pokedex.jsx:29 | the default string order is reflexive |
| `Text.LexLeTotal` | src/pages/Pokedex.jsx:29 | any two strings are comparable |
| `Text.LexLeAntisymmetric` | src/pages/Pokedex.jsx:29 | two strings each ordered before the other are equal |
| `Text.LexLeTransitive` | src/pages/Pokedex.jsx:29 | the default string order is transitive |
| `Seqs.SubseqMultiset` | src/pages/Pokedex.jsx:39 | a subsequence holds no element more often than the original |
| `Seqs.SubseqCons` | src/pages/Pokedex.jsx:39 | a subsequence stays one when an element is added in front of the original |
| `Seqs.SubseqTransitive` | src/pages/Pokedex.jsx:39 | a subsequence of a subsequence is a subsequence |
| `Seqs.DistinctWithin` | src/pages/Pokedex.jsx:27-29 | a duplicate-free list drawn from a set is no longer than the set |
| `Seqs.IndexOf` | src/pages/Pokedex.jsx:27-28 | the index returned holds the element and no earlier index does |
| `Seqs.IndexOfUnique` | src/pages/Pokedex.jsx:27-28 | a position holding the element with none before it is the first occurrence |
| `Seqs.IndexOfAppend` | src/pages/Pokedex.jsx:27-28 | appending does not move the first occurrence of an element already present |
| `Seqs.Dedup` | src/pages/Pokedex.jsx:27-29 | `[...new Set(xs)]` is duplicate-free and holds exactly the elements of xs |
| `Seqs.DedupFirstSeen` | src/pages/Pokedex.jsx:27-28 | `[...new Set(xs)]` lists elements in the order of their first occurrence in xs |
| `Seqs.SameMultisetSameElements` | src/pages/Pokedex.jsx:29 | lists that are permutations of each other hold the same values, so sorting neither adds nor loses one |
| `Seqs.Insert` | src/pages/Pokedex.jsx:29 | insertion adds exactly one copy of the element |
| `Seqs.InsertSorted` | src/pages/Pokedex.jsx:29 | inserting into a sorted list keeps it sorted |
| `Seqs.InsertDistinct` | src/pages/Pokedex.jsx:29 | inserting a new element into a duplicate-free list keeps it duplicate-free |
| `Seqs.Sort` | src/pages/Pokedex.jsx:29 | `.sort()` returns a sorted permutation of its input |
| `Seqs.SortDistinct` | src/pages/Pokedex.jsx:29 | sorting a duplicate-free list keeps it duplicate-free |
| `Catalog.Initial` | src/pages/Pokedex.jsx:9-16 | `initialFilters`: all six fields hold the empty string |
| `Catalog.With` | src/pages/Pokedex.jsx:33 | the spread update sets the named field to the new value and keeps the other five |
| `Catalog.FiltersExtensional` | src/pages/Pokedex.jsx:9-16 | a filter state is determined by its six field values |
| `Catalog.InitialIsAllEmpty` | src/pages/Pokedex.jsx:9-16 | `initialFilters` is exactly the state whose six fields are all empty |
| `Catalog.RegionOptions` | src/pages/Pokedex.jsx:21-24 | `regionOptions`: the eight fixed region labels, in the order the selector lists them |
| `Catalog.RegionOptionsWellFormed` | src/pages/Pokedex.jsx:21-24 | the region list has eight distinct non-empty labels |
| `Matching.NameMatches` | src/pages/Pokedex.jsx:40-41 | the name box: the lower-cased text is included in the lower-cased name, or the text as typed is included in the dex number's decimal rendering |
| `Matching.FieldMatches` | src/pages/Pokedex.jsx:40-46 | one field's condition: the name test for the name box; for role, team and second type an empty value or a present value equal to it; for first type and region an empty value or equality |
| `Matching.Matches` | src/pages/Pokedex.jsx:39-48 | the filter callback: all six field conditions hold |
| `Matching.Filter` | src/pages/Pokedex.jsx:38-50 | the result is no longer than the data set and every record in it matches the state |
| `Matching.MatchesIffEveryField` | src/pages/Pokedex.jsx:40-48 | a record matches exactly when each of the six field conditions holds |
| `Matching.NameMatchesIff` | src/pages/Pokedex.jsx:40-41 | the name condition holds exactly when the lower-cased text occurs in the lower-cased name or the text as typed occurs in the decimal dex number |
| `Matching.EmptyFieldMatches` | src/pages/Pokedex.jsx:40-46 | an empty filter value imposes no condition, on the name box too |
| `Matching.MatchesInitial` | src/pages/Pokedex.jsx:40-48 | every record meets the initial state |
| `Matching.AbsentValueNeverMatches` | src/pages/Pokedex.jsx:42-45 | a record without role, team or second type never meets a non-empty filter on that field |
| `Matching.FieldIndependence` | src/pages/Pokedex.jsx:40-48 | after changing one field, a record matches exactly when it matches with that field empty and meets the field's new value |
| `Matching.FilterCounts` | src/pages/Pokedex.jsx:39-49 | each matching record is kept as often as the data set holds it and each other record is dropped |
| `Matching.FilterMembership` | src/pages/Pokedex.jsx:39-49 | a record is shown if and only if it is in the data set and matches |
| `Matching.FilterIsSubsequence` | src/pages/Pokedex.jsx:39 | the result is an order-preserving subsequence of the data set with nothing repeated |
| `Matching.FilterInitialIsIdentity` | src/pages/Pokedex.jsx:38-49 | with the initial state the whole data set is shown in its own order |
| `Matching.FilterIdempotent` | src/pages/Pokedex.jsx:38-49 | filtering the result again with the same state changes nothing |
| `Matching.FilterMonotone` | src/pages/Pokedex.jsx:38-49 | a state that admits fewer records shows a subsequence of what the other shows |
| `Matching.NarrowingOnlyRemoves` | src/pages/Pokedex.jsx:42-48 | filling in an empty field can only remove records, never add them |
| `Matching.SuccessiveNarrowing` | src/pages/Pokedex.jsx:42-48 | two narrowing steps in a row, each filling an empty field, show a subsequence of what was shown before either |
| `Matching.UnlistedRegionHidden` | src/pages/Pokedex.jsx:46 | once a listed region is chosen, a record whose region is not in the fixed list is never shown |
| `Vocabulary.DropFalsy` | src/pages/Pokedex.jsx:27-29 | `.filter(Boolean)` keeps exactly the present non-empty strings and keeps a duplicate-free list duplicate-free |
| `Vocabulary.FirstSeenCons` | src/pages/Pokedex.jsx:27-28 | a value seen before all others can head a first-seen ordered list |
| `Vocabulary.FirstSeenHead` | src/pages/Pokedex.jsx:27-28 | the head of a first-seen ordered list was seen before the rest |
| `Vocabulary.FirstSeenTail` | src/pages/Pokedex.jsx:27-28 | the tail of a first-seen ordered list is first-seen ordered |
| `Vocabulary.DropFalsyFirstSeen` | src/pages/Pokedex.jsx:27-28 | dropping null and empty entries keeps first-seen order |
| `Vocabulary.Vocab` | src/pages/Pokedex.jsx:27-28 | the set-then-filter pipeline is duplicate-free, holds exactly the present non-empty values and lists them in first-seen order |
| `Vocabulary.Roles` | src/pages/Pokedex.jsx:27 | `map(p => p.role)` holds each record's role at its index |
| `Vocabulary.Teams` | src/pages/Pokedex.jsx:28 | `map(p => p.team)` holds each record's team at its index |
| `Vocabulary.UniqueRoles` | src/pages/Pokedex.jsx:27 | `uniqueRoles` is duplicate-free, holds exactly the non-empty roles of the data set and lists them in first-seen order |
| `Vocabulary.UniqueTeams` | src/pages/Pokedex.jsx:28 | `uniqueTeams` is duplicate-free, holds exactly the non-empty teams of the data set and lists them in first-seen order |
| `Vocabulary.TypeSlots` | src/pages/Pokedex.jsx:29 | the flat map holds exactly the first and second type slots of the records |
| `Vocabulary.UniqueTypes` | src/pages/Pokedex.jsx:29 | `uniqueTypes` is duplicate-free, sorted, and holds exactly the non-empty first or second types of the data set |
| `Vocabulary.ShownWhenOnlyFieldChosen` | src/pages/Pokedex.jsx:40-48 | a record meeting one field's condition is shown when only that field is set |
| `Vocabulary.OfferedRoleShowsRecords` | src/pages/Pokedex.jsx:91-94 | choosing any offered role alone shows at least one record |
| `Vocabulary.OfferedTeamShowsRecords` | src/pages/Pokedex.jsx:97-100 | choosing any offered team alone shows at least one record |
| `Vocabulary.OfferedTypeShowsRecords` | src/pages/Pokedex.jsx:103-112 | an offered type alone shows records through the first-type or the second-type selector |
| `Vocabulary.SecondSlotOnlyTypeHidesUnderType1` | src/pages/Pokedex.jsx:103-106 | a type that only fills second slots is offered by the first-type selector yet shows nothing there |
| `FilterState.FilterController.constructor` | src/pages/Pokedex.jsx:18 | the page starts in the initial state |
| `FilterState.FilterController.Change` | src/pages/Pokedex.jsx:31-34 | the changed field holds the new value and the other five keep theirs |
| `FilterState.FilterController.Clear` | src/pages/Pokedex.jsx:36 | the state is the initial one and the whole data set is shown again |
| `FilterState.FilterController.Visible` | src/pages/Pokedex.jsx:38-50 | the shown list is a subsequence of the data set holding exactly the records matching the current state, each as often as the data set holds it |
| `FilterState.RegionThenReset` | src/pages/Pokedex.jsx:31-36 | choosing a region shows only records of that region, and a reset afterwards shows the whole data set |
| `Scenarios.FoundByDexNumber` | src/pages/Pokedex.jsx:40-41 | typing "25" finds the record with dex number 25 |
| `Scenarios.FoundByNameInAnyCase` | src/pages/Pokedex.jsx:40 | typing "PIKA" finds Pikachu |
| `Scenarios.NoSecondTypeExcluded` | src/pages/Pokedex.jsx:45 | a record without a second type is excluded by the second-type filter "Flying" |
| `Scenarios.RegionScenario` | src/pages/Pokedex.jsx:44-46 | of two water types from Johto and Orre, choosing Water and Johto keeps only the first |
| `Scenarios.RolesScenarioMembers` | src/pages/Pokedex.jsx:27 | the roles offered for records with roles Tank, none, Tank, Support are Tank and Support |
| `Scenarios.RolesScenarioFirstSeen` | src/pages/Pokedex.jsx:27 | in those records Tank first appears at the first, Support at the fourth |
| `Scenarios.FirstSeenTwo` | src/pages/Pokedex.jsx:27-28 | a first-seen ordered list of exactly two values lists them in the order the column first shows them |
| `Scenarios.RolesScenario` | src/pages/Pokedex.jsx:27 | roles Tank, none, Tank, Support give the option list Tank, Support |
| `Scenarios.TypesScenarioMembers` | src/pages/Pokedex.jsx:29 | the types offered for records typed Fire/Flying and Water/Water are Fire, Flying and Water |
| `Scenarios.TypesScenario` | src/pages/Pokedex.jsx:29 | types Fire/Flying and Water/Water give the option list Fire, Flying, Water |
| `Scenarios.SortedDistinctThree` | src/pages/Pokedex.jsx:29 | a sorted duplicate-free list of exactly three ordered values is those values in order |

## Left out

- Rendering: the JSX tree, the card grid, the result-count badge, styling classes and icons are presentation only.
- React reactivity (`useState`, `useMemo`, re-render scheduling): the state is a plain field of `FilterController`, and `FilterController.Visible` is the memoised list recomputed from it.
- Loading `../data/pokemons.json`: the data set is a parameter, assumed already parsed and to follow the record schema (every record has a name, a dex number, a first type and a region).
- The record fields `id`, `image`, `moveset`, `price`, `level` and `active` take no part in any logic and are not in `Pokemon`.
- Text.Lower: maps only the ASCII letters A to Z, where `toLowerCase` applies the full Unicode case mapping.
- Text.LexLe: compares characters by Unicode scalar value, where `sort()` compares UTF-16 code units; the two orders differ only for characters above U+FFFF.
- Text.DecimalString: agrees with `toString` only for integers from 0 up to 2^53, where JavaScript numbers are exact and print as plain digits; dex numbers are assumed to lie in that range. From 10^21 on, JavaScript prints exponent notation (`1e+21`), and above 2^53 integers are not exact; negative and fractional numbers are not modelled either, since `dexNumber` is a `nat`.
- FilterState.FilterController.Change: takes one of the six field names; an input event naming some other field, which the page never produces, would add a seventh key in JavaScript and is not modelled.
