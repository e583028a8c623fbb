/** The option lists of the role, team and type selectors, derived from the data set. */
module Vocabulary {
  import opened Seqs
  import opened Catalog
  import opened Matching

  /** `.filter(Boolean)`: keeps the present, non-empty strings, in order. */
  function DropFalsy(column: seq<Option<string>>): (r: seq<string>)
    ensures forall x :: x in r <==> x != "" && Some(x) in column
    ensures Distinct(column) ==> Distinct(r)
    decreases |column|
  {
    if column == [] then []
    else
      var rest := DropFalsy(column[1..]);
      assert column == [column[0]] + column[1..];
      match column[0]
      case Some(s) => if s != "" then [s] + rest else rest
      case None => rest
  }

  /** The names of r as present entries of a column. */
  function Present(r: seq<string>): (c: seq<Option<string>>)
    ensures |c| == |r| && forall k :: 0 <= k < |r| ==> c[k] == Some(r[k])
  {
    seq(|r|, k requires 0 <= k < |r| => Some(r[k]))
  }

  /** The names in r are those of the column, in the order in which the column first lists them. */
  ghost predicate FirstSeenOrder(r: seq<string>, column: seq<Option<string>>)
  {
    InFirstSeenOrder(Present(r), column)
  }

  /** Putting a name first that the column lists before all the others keeps first-seen order. */
  lemma {:induction false} FirstSeenCons(v: string, rest: seq<string>, column: seq<Option<string>>)
    requires FirstSeenOrder(rest, column) && Some(v) in column
    requires forall x :: x in rest ==> IndexOf(column, Some(v)) < IndexOf(column, Some(x))
    ensures FirstSeenOrder([v] + rest, column)
  {
    var r := [v] + rest;
    forall i, j | 0 <= i < j < |r|
      ensures IndexOf(column, Some(r[i])) < IndexOf(column, Some(r[j]))
    {
      assert r[j] == rest[j - 1];
      if i > 0 {
        assert r[i] == rest[i - 1];
      }
    }
  }

  /** The first entry of a list in first-seen order is seen before all the others. */
  lemma {:induction false} FirstSeenHead<T>(os: seq<T>, column: seq<T>, x: T)
    requires InFirstSeenOrder(os, column) && |os| > 0 && x in os[1..]
    ensures IndexOf(column, os[0]) < IndexOf(column, x)
  {
    var k :| 0 <= k < |os[1..]| && os[1..][k] == x;
    assert os[k + 1] == x;
  }

  /** The rest of a list in first-seen order is in first-seen order. */
  lemma {:induction false} FirstSeenTail<T>(os: seq<T>, column: seq<T>)
    requires InFirstSeenOrder(os, column) && |os| > 0
    ensures InFirstSeenOrder(os[1..], column)
  {
    forall i, j | 0 <= i < j < |os[1..]|
      ensures IndexOf(column, os[1..][i]) < IndexOf(column, os[1..][j])
    {
      assert os[1..][i] == os[i + 1] && os[1..][j] == os[j + 1];
    }
  }

  /** Dropping the falsy entries of a list in first-seen order keeps the rest in first-seen order. */
  lemma {:induction false} DropFalsyFirstSeen(os: seq<Option<string>>, column: seq<Option<string>>)
    requires InFirstSeenOrder(os, column)
    ensures FirstSeenOrder(DropFalsy(os), column)
    decreases |os|
  {
    if os != [] {
      FirstSeenTail(os, column);
      DropFalsyFirstSeen(os[1..], column);
      var rest := DropFalsy(os[1..]);
      if os[0].Some? && os[0].value != "" {
        forall x | x in rest
          ensures IndexOf(column, os[0]) < IndexOf(column, Some(x))
        {
          FirstSeenHead(os, column, Some(x));
        }
        FirstSeenCons(os[0].value, rest, column);
      }
    }
  }

  /** `[...new Set(column)].filter(Boolean)`: the distinct present names, in first-seen order. */
  function Vocab(column: seq<Option<string>>): (r: seq<string>)
    ensures Distinct(r)
    ensures forall x :: x in r <==> x != "" && Some(x) in column
    ensures FirstSeenOrder(r, column)
  {
    DedupFirstSeen(column);
    DropFalsyFirstSeen(Dedup(column), column);
    DropFalsy(Dedup(column))
  }

  /** `pokemonData.map(p => p.role)` */
  function Roles(data: seq<Pokemon>): (c: seq<Option<string>>)
    ensures |c| == |data| && forall k :: 0 <= k < |data| ==> c[k] == data[k].role
  {
    seq(|data|, k requires 0 <= k < |data| => data[k].role)
  }

  /** `pokemonData.map(p => p.team)` */
  function Teams(data: seq<Pokemon>): (c: seq<Option<string>>)
    ensures |c| == |data| && forall k :: 0 <= k < |data| ==> c[k] == data[k].team
  {
    seq(|data|, k requires 0 <= k < |data| => data[k].team)
  }

  /** `uniqueRoles`: every non-empty role of the data set once, in the order of first appearance. */
  function UniqueRoles(data: seq<Pokemon>): (r: seq<string>)
    ensures Distinct(r)
    ensures forall x :: x in r <==> x != "" && exists p :: p in data && p.role == Some(x)
    ensures FirstSeenOrder(r, Roles(data))
  {
    Vocab(Roles(data))
  }

  /** `uniqueTeams`: every non-empty team of the data set once, in the order of first appearance. */
  function UniqueTeams(data: seq<Pokemon>): (r: seq<string>)
    ensures Distinct(r)
    ensures forall x :: x in r <==> x != "" && exists p :: p in data && p.team == Some(x)
    ensures FirstSeenOrder(r, Teams(data))
  {
    Vocab(Teams(data))
  }

  /** The record fills one of its two type slots with this value. */
  predicate HasType(p: Pokemon, x: Option<string>)
  {
    x == Some(p.type1) || x == p.type2
  }

  /** `pokemonData.flatMap(p => [p.type1, p.type2])` */
  function TypeSlots(data: seq<Pokemon>): (c: seq<Option<string>>)
    ensures forall x :: x in c <==> exists p :: p in data && HasType(p, x)
    decreases |data|
  {
    if data == [] then []
    else
      assert data == [data[0]] + data[1..];
      var c := [Some(data[0].type1), data[0].type2] + TypeSlots(data[1..]);
      assert forall x :: x in c <==> HasType(data[0], x) || x in TypeSlots(data[1..]);
      c
  }

  /** `uniqueTypes`: every non-empty first or second type once, sorted. */
  function UniqueTypes(data: seq<Pokemon>): (r: seq<string>)
    ensures Distinct(r) && Sorted(r)
    ensures forall x :: x in r <==> x != "" && exists p :: p in data && HasType(p, Some(x))
  {
    var deduped := Dedup(DropFalsy(TypeSlots(data)));
    var r := Sort(deduped);
    SortDistinct(deduped);
    SameMultisetSameElements(r, deduped);
    r
  }

  /** A record that fills one field and matches the initial state everywhere
      else is shown when only that field is chosen. */
  lemma {:induction false} ShownWhenOnlyFieldChosen(data: seq<Pokemon>, p: Pokemon, field: Field, x: string)
    requires p in data && FieldMatches(p, field, x)
    ensures p in Filter(data, With(Initial, field, x))
  {
    MatchesInitial(p);
    FieldIndependence(p, Initial, field, x);
    FiltersExtensional(With(Initial, field, ""), Initial);
    FilterMembership(data, With(Initial, field, x));
  }

  /** Choosing any offered role, with every other filter empty, shows at least one record. */
  lemma {:induction false} OfferedRoleShowsRecords(data: seq<Pokemon>, x: string)
    requires x in UniqueRoles(data)
    ensures Filter(data, With(Initial, Role, x)) != []
  {
    var p :| p in data && p.role == Some(x);
    ShownWhenOnlyFieldChosen(data, p, Role, x);
  }

  /** Choosing any offered team, with every other filter empty, shows at least one record. */
  lemma {:induction false} OfferedTeamShowsRecords(data: seq<Pokemon>, x: string)
    requires x in UniqueTeams(data)
    ensures Filter(data, With(Initial, Team, x)) != []
  {
    var p :| p in data && p.team == Some(x);
    ShownWhenOnlyFieldChosen(data, p, Team, x);
  }

  /** Both type selectors offer the same list, so an offered type shows records
      through at least one of them (not necessarily through both). */
  lemma {:induction false} OfferedTypeShowsRecords(data: seq<Pokemon>, x: string)
    requires x in UniqueTypes(data)
    ensures Filter(data, With(Initial, Type1, x)) != [] || Filter(data, With(Initial, Type2, x)) != []
  {
    var p :| p in data && HasType(p, Some(x));
    if p.type1 == x {
      ShownWhenOnlyFieldChosen(data, p, Type1, x);
    } else {
      ShownWhenOnlyFieldChosen(data, p, Type2, x);
    }
  }

  /** A type that only ever fills the second slot is offered by the first-type selector
      even though choosing it there shows nothing. */
  lemma SecondSlotOnlyTypeHidesUnderType1()
    ensures var data := [Pokemon(6, "Charizard", None, None, "Fire", Some("Flying"), "Kanto")];
      "Flying" in UniqueTypes(data) && Filter(data, With(Initial, Type1, "Flying")) == []
  {
    var p := Pokemon(6, "Charizard", None, None, "Fire", Some("Flying"), "Kanto");
    var data := [p];
    var f := With(Initial, Type1, "Flying");
    assert p in data && HasType(p, Some("Flying"));
    assert f.type1 == "Flying" && p.type1 != "Flying";
    assert data[1..] == [];
  }
}
