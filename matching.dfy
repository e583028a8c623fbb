/** `filteredPokemons`: which records the page shows for a filter state. */
module Matching {
  import opened Text
  import opened Seqs
  import opened Catalog

  /** The name box: the text, lower-cased, occurs in the lower-cased name, or the
      text as typed occurs in the decimal dex number. */
  predicate NameMatches(p: Pokemon, query: string)
  {
    Includes(Lower(p.name), Lower(query)) || Includes(DecimalString(p.dexNumber), query)
  }

  /** One field's condition: a substring test for the name box, and for the
      other five an exact comparison that applies only when the filter is non-empty. */
  predicate FieldMatches(p: Pokemon, field: Field, value: string)
  {
    match field
    case Name => NameMatches(p, value)
    case Role => value == "" || p.role == Some(value)
    case Team => value == "" || p.team == Some(value)
    case Type1 => value == "" || p.type1 == value
    case Type2 => value == "" || p.type2 == Some(value)
    case Region => value == "" || p.region == value
  }

  /** The predicate passed to `pokemonData.filter`: all six conditions hold. */
  predicate Matches(p: Pokemon, f: Filters)
  {
    FieldMatches(p, Name, f.name) && FieldMatches(p, Role, f.role) &&
    FieldMatches(p, Team, f.team) && FieldMatches(p, Type1, f.type1) &&
    FieldMatches(p, Type2, f.type2) && FieldMatches(p, Region, f.region)
  }

  /** `pokemonData.filter(...)`: the matching records, in data-set order. */
  function Filter(data: seq<Pokemon>, f: Filters): (r: seq<Pokemon>)
    ensures |r| <= |data|
    ensures forall k :: 0 <= k < |r| ==> Matches(r[k], f)
    decreases |data|
  {
    if data == [] then []
    else if Matches(data[0], f) then [data[0]] + Filter(data[1..], f)
    else Filter(data[1..], f)
  }

  /** A record matches exactly when each of the six field conditions holds. */
  lemma MatchesIffEveryField(p: Pokemon, f: Filters)
    ensures Matches(p, f) <==> forall field :: FieldMatches(p, field, Get(f, field))
  {
    if Matches(p, f) {
      forall field
        ensures FieldMatches(p, field, Get(f, field))
      {
      }
    } else {
      assert !FieldMatches(p, Name, Get(f, Name)) || !FieldMatches(p, Role, Get(f, Role)) ||
        !FieldMatches(p, Team, Get(f, Team)) || !FieldMatches(p, Type1, Get(f, Type1)) ||
        !FieldMatches(p, Type2, Get(f, Type2)) || !FieldMatches(p, Region, Get(f, Region));
    }
  }

  /** The name condition in terms of substrings: "25" finds dex number 25, and
      the text is compared case-insensitively with the name but as typed with the number. */
  lemma {:induction false} NameMatchesIff(p: Pokemon, query: string)
    ensures NameMatches(p, query) <==>
      (exists i :: OccursAt(Lower(p.name), Lower(query), i)) ||
      (exists i :: OccursAt(DecimalString(p.dexNumber), query, i))
  {
    assert NameMatches(p, query) <==>
      Includes(Lower(p.name), Lower(query)) || Includes(DecimalString(p.dexNumber), query);
    IncludesIff(Lower(p.name), Lower(query));
    IncludesIff(DecimalString(p.dexNumber), query);
  }

  /** An empty filter value constrains nothing, the name box included. */
  lemma EmptyFieldMatches(p: Pokemon, field: Field)
    ensures FieldMatches(p, field, "")
  {
    if field == Name {
      EmptyIncluded(Lower(p.name));
    }
  }

  /** Every record satisfies the initial filter state. */
  lemma MatchesInitial(p: Pokemon)
    ensures Matches(p, Initial)
  {
    EmptyIncluded(Lower(p.name));
  }

  /** A record with no role, team or second type never satisfies a non-empty filter on it. */
  lemma {:induction false} AbsentValueNeverMatches(p: Pokemon, value: string)
    requires value != ""
    ensures p.role == None ==> !FieldMatches(p, Role, value)
    ensures p.team == None ==> !FieldMatches(p, Team, value)
    ensures p.type2 == None ==> !FieldMatches(p, Type2, value)
  {
  }

  /** Changing one field leaves the other five conditions as they were: a record
      matches the changed state exactly when it matches with that field cleared
      and meets the new value of the field. */
  lemma {:induction false} FieldIndependence(p: Pokemon, f: Filters, field: Field, value: string)
    ensures Matches(p, With(f, field, value)) <==>
      Matches(p, With(f, field, "")) && FieldMatches(p, field, value)
  {
    EmptyFieldMatches(p, field);
    MatchesIffEveryField(p, With(f, field, value));
    MatchesIffEveryField(p, With(f, field, ""));
  }

  /** Each record is kept as often as the data set holds it when it matches, and dropped otherwise. */
  lemma {:induction false} FilterCounts(data: seq<Pokemon>, f: Filters, p: Pokemon)
    ensures multiset(Filter(data, f))[p] == if Matches(p, f) then multiset(data)[p] else 0
    decreases |data|
  {
    if data != [] {
      FilterCounts(data[1..], f, p);
      assert data == [data[0]] + data[1..];
    }
  }

  /** A record is shown if and only if it is in the data set and meets all six conditions. */
  lemma {:induction false} FilterMembership(data: seq<Pokemon>, f: Filters)
    ensures forall p :: p in Filter(data, f) <==> p in data && Matches(p, f)
  {
    forall p
      ensures p in Filter(data, f) <==> p in data && Matches(p, f)
    {
      FilterCounts(data, f, p);
      assert p in Filter(data, f) <==> p in multiset(Filter(data, f));
    }
  }

  /** The result is the data set with some records deleted: order is kept and nothing is repeated. */
  lemma {:induction false} FilterIsSubsequence(data: seq<Pokemon>, f: Filters)
    ensures IsSubseq(Filter(data, f), data)
    ensures multiset(Filter(data, f)) <= multiset(data)
    decreases |data|
  {
    if data != [] {
      FilterIsSubsequence(data[1..], f);
      var rest := Filter(data[1..], f);
      if Matches(data[0], f) {
        assert Filter(data, f)[1..] == rest;
      }
    }
    SubseqMultiset(Filter(data, f), data);
  }

  /** With the initial filter state the whole data set is shown, in its own order. */
  lemma {:induction false} FilterInitialIsIdentity(data: seq<Pokemon>)
    ensures Filter(data, Initial) == data
    decreases |data|
  {
    if data != [] {
      MatchesInitial(data[0]);
      FilterInitialIsIdentity(data[1..]);
    }
  }

  /** Filtering the shown records again with the same state changes nothing. */
  lemma {:induction false} FilterIdempotent(data: seq<Pokemon>, f: Filters)
    ensures Filter(Filter(data, f), f) == Filter(data, f)
    decreases |data|
  {
    if data != [] {
      FilterIdempotent(data[1..], f);
      if Matches(data[0], f) {
        var r := Filter(data, f);
        assert r[0] == data[0] && r[1..] == Filter(data[1..], f);
      }
    }
  }

  /** When every record that meets g also meets f, g shows a subsequence of what f shows. */
  lemma {:induction false} FilterMonotone(data: seq<Pokemon>, f: Filters, g: Filters)
    requires forall p :: Matches(p, g) ==> Matches(p, f)
    ensures IsSubseq(Filter(data, g), Filter(data, f))
    decreases |data|
  {
    if data != [] {
      FilterMonotone(data[1..], f, g);
      var rf, rg := Filter(data[1..], f), Filter(data[1..], g);
      if Matches(data[0], g) {
        assert Filter(data, g) == [data[0]] + rg;
        assert Filter(data, f) == [data[0]] + rf;
      } else if Matches(data[0], f) {
        assert Filter(data, f) == [data[0]] + rf;
        SubseqCons(rg, rf, data[0]);
      }
    }
  }

  /** Filling in a field that was empty can only remove records from the result, never add any. */
  lemma {:induction false} NarrowingOnlyRemoves(data: seq<Pokemon>, f: Filters, field: Field, value: string)
    requires Get(f, field) == ""
    ensures IsSubseq(Filter(data, With(f, field, value)), Filter(data, f))
  {
    forall p | Matches(p, With(f, field, value))
      ensures Matches(p, f)
    {
      FieldIndependence(p, f, field, value);
      FiltersExtensional(With(f, field, ""), f);
    }
    FilterMonotone(data, f, With(f, field, value));
  }

  /** Two narrowing steps in a row, each filling a field that was empty, show a
      subsequence of what was shown before either step. */
  lemma {:induction false} SuccessiveNarrowing(data: seq<Pokemon>, f: Filters, a: Field, x: string, b: Field, y: string)
    requires Get(f, a) == "" && Get(With(f, a, x), b) == ""
    ensures IsSubseq(Filter(data, With(With(f, a, x), b, y)), Filter(data, f))
  {
    NarrowingOnlyRemoves(data, f, a, x);
    NarrowingOnlyRemoves(data, With(f, a, x), b, y);
    SubseqTransitive(Filter(data, With(With(f, a, x), b, y)), Filter(data, With(f, a, x)), Filter(data, f));
  }

  /** The region selector offers only the fixed labels, so a record whose region
      is not among them is never shown once a region is chosen. */
  lemma {:induction false} UnlistedRegionHidden(data: seq<Pokemon>, f: Filters, p: Pokemon)
    requires f.region in RegionOptions && p.region !in RegionOptions
    ensures p !in Filter(data, f)
  {
    FilterMembership(data, f);
  }
}
