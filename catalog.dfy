/** The records the pokedex page lists and the filter state it holds. */
module Catalog {
  import opened Seqs

  datatype Option<T> = None | Some(value: T)

  /** One entry of the data set. Only the fields the filtering reads are kept. */
  datatype Pokemon = Pokemon(
    dexNumber: nat,
    name: string,
    role: Option<string>,
    team: Option<string>,
    type1: string,
    type2: Option<string>,
    region: string)

  /** The six filter inputs; the empty string means "no constraint". */
  datatype Filters = Filters(
    name: string,
    role: string,
    team: string,
    type1: string,
    type2: string,
    region: string)

  /** The `name` attribute of each filter input, naming the field it edits. */
  datatype Field = Name | Role | Team | Type1 | Type2 | Region

  /** `initialFilters`: no constraint on any field. */
  const Initial: Filters := Filters("", "", "", "", "", "")

  /** The value a filter state holds for one field. */
  function Get(f: Filters, field: Field): string
  {
    match field
    case Name => f.name
    case Role => f.role
    case Team => f.team
    case Type1 => f.type1
    case Type2 => f.type2
    case Region => f.region
  }

  /** `{ ...prev, [name]: value }`: the named field takes the new value, the others keep theirs. */
  function With(f: Filters, field: Field, value: string): (g: Filters)
    ensures Get(g, field) == value
    ensures forall other :: other != field ==> Get(g, other) == Get(f, other)
  {
    match field
    case Name => f.(name := value)
    case Role => f.(role := value)
    case Team => f.(team := value)
    case Type1 => f.(type1 := value)
    case Type2 => f.(type2 := value)
    case Region => f.(region := value)
  }

  /** A filter state is determined by the values of its six fields. */
  lemma FiltersExtensional(f: Filters, g: Filters)
    requires forall field :: Get(f, field) == Get(g, field)
    ensures f == g
  {
    assert Get(f, Name) == Get(g, Name) && Get(f, Role) == Get(g, Role);
    assert Get(f, Team) == Get(g, Team) && Get(f, Type1) == Get(g, Type1);
    assert Get(f, Type2) == Get(g, Type2) && Get(f, Region) == Get(g, Region);
  }

  /** Every field of the initial state is empty, and it is the only such state. */
  lemma InitialIsAllEmpty(f: Filters)
    ensures (forall field :: Get(f, field) == "") <==> f == Initial
  {
    if forall field :: Get(f, field) == "" {
      FiltersExtensional(f, Initial);
    }
  }

  /** `regionOptions`: the fixed labels offered by the region selector. */
  const RegionOptions: seq<string> := [
    "Kanto", "Johto", "Orre", "Expedition(300)",
    "Expedition(400)", "Maniac", "Saffari Fossil(Pewter)", "Saffari Fossil(Fuschia)"
  ]

  /** The region selector offers eight distinct, non-empty labels. */
  lemma RegionOptionsWellFormed()
    ensures |RegionOptions| == 8 && Distinct(RegionOptions)
    ensures forall k :: 0 <= k < |RegionOptions| ==> RegionOptions[k] != ""
  {
  }
}
