/** Worked examples of the filtering and the option lists on small data sets. */
module Scenarios {
  import opened Text
  import opened Seqs
  import opened Catalog
  import opened Matching
  import opened Vocabulary

  /** Typing "25" finds the record with dex number 25 through its number. */
  lemma FoundByDexNumber(p: Pokemon)
    requires p.dexNumber == 25
    ensures Matches(p, With(Initial, Name, "25"))
  {
    assert With(Initial, Name, "25") == Filters("25", "", "", "", "", "");
    assert DecimalString(25) == "25";
    assert Includes("25", "25");
  }

  /** Typing "PIKA" finds Pikachu: the name box ignores case. */
  lemma FoundByNameInAnyCase(p: Pokemon)
    requires p.name == "Pikachu"
    ensures Matches(p, With(Initial, Name, "PIKA"))
  {
    var name, query := Lower(p.name), Lower("PIKA");
    assert name[..4] == query by {
      assert name[0] == 'p' && name[1] == 'i' && name[2] == 'k' && name[3] == 'a';
      assert query[0] == 'p' && query[1] == 'i' && query[2] == 'k' && query[3] == 'a';
    }
    assert OccursAt(name, query, 0);
    IncludesComplete(name, query, 0);
    assert With(Initial, Name, "PIKA") == Filters("PIKA", "", "", "", "", "");
  }

  /** A record without a second type, such as Pikachu, is never found by a second-type filter. */
  lemma NoSecondTypeExcluded(p: Pokemon)
    requires p.type2 == None
    ensures !Matches(p, With(Initial, Type2, "Flying"))
  {
    assert With(Initial, Type2, "Flying").type2 == "Flying";
  }

  /** Two water types, one from Johto and one from Orre: choosing Water and Johto keeps only the first. */
  lemma RegionScenario(a: Pokemon, b: Pokemon)
    requires a.type1 == "Water" && a.region == "Johto"
    requires b.type1 == "Water" && b.region == "Orre"
    ensures Filter([a, b], With(With(Initial, Type1, "Water"), Region, "Johto")) == [a]
  {
    var f := With(With(Initial, Type1, "Water"), Region, "Johto");
    assert f == Filters("", "", "", "Water", "", "Johto");
    MatchesInitial(a);
    assert Matches(a, f);
    assert !Matches(b, f);
    assert [a, b][1..] == [b];
    assert [b][1..] == [];
  }

  /** The roles offered for records with roles Tank, none, Tank, Support are Tank and Support. */
  lemma RolesScenarioMembers(a: Pokemon, b: Pokemon, c: Pokemon, d: Pokemon)
    requires a.role == Some("Tank") && b.role == None && c.role == Some("Tank") && d.role == Some("Support")
    ensures forall x :: x in UniqueRoles([a, b, c, d]) <==> x == "Tank" || x == "Support"
  {
    var data := [a, b, c, d];
    assert a in data && d in data;
    forall x | x in UniqueRoles(data)
      ensures x == "Tank" || x == "Support"
    {
      var p :| p in data && p.role == Some(x);
    }
  }

  /** Tank first appears in the first record, Support in the fourth. */
  lemma RolesScenarioFirstSeen(a: Pokemon, b: Pokemon, c: Pokemon, d: Pokemon)
    requires a.role == Some("Tank") && b.role == None && c.role == Some("Tank") && d.role == Some("Support")
    ensures Roles([a, b, c, d]) == [Some("Tank"), None, Some("Tank"), Some("Support")]
    ensures IndexOf(Roles([a, b, c, d]), Some("Tank")) == 0
    ensures IndexOf(Roles([a, b, c, d]), Some("Support")) == 3
  {
    var roles := Roles([a, b, c, d]);
    assert roles == [Some("Tank"), None, Some("Tank"), Some("Support")];
    IndexOfUnique(roles, Some("Tank"), 0);
    assert roles[..3] == [Some("Tank"), None, Some("Tank")];
    IndexOfUnique(roles, Some("Support"), 3);
  }

  /** Roles Tank, none, Tank, Support give the option list Tank, Support:
      listed once each, the absent role dropped, in order of first appearance. */
  lemma RolesScenario(a: Pokemon, b: Pokemon, c: Pokemon, d: Pokemon)
    requires a.role == Some("Tank") && b.role == None && c.role == Some("Tank") && d.role == Some("Support")
    ensures UniqueRoles([a, b, c, d]) == ["Tank", "Support"]
  {
    RolesScenarioMembers(a, b, c, d);
    RolesScenarioFirstSeen(a, b, c, d);
    FirstSeenTwo(UniqueRoles([a, b, c, d]), "Tank", "Support", Roles([a, b, c, d]));
  }

  /** A duplicate-free list in first-seen order holding exactly two values lists them as the column first does. */
  lemma {:induction false} FirstSeenTwo(r: seq<string>, a: string, b: string, column: seq<Option<string>>)
    requires FirstSeenOrder(r, column) && Distinct(r) && a != b
    requires a in r && b in r && forall x :: x in r ==> x == a || x == b
    requires Some(a) in column && Some(b) in column
    requires IndexOf(column, Some(a)) < IndexOf(column, Some(b))
    ensures r == [a, b]
  {
    DistinctWithin(r, {a, b});
    var i :| 0 <= i < |r| && r[i] == a;
    var j :| 0 <= j < |r| && r[j] == b;
    assert i < j;
  }

  /** The types offered for Fire/Flying and Water/Water are Fire, Flying and Water. */
  lemma TypesScenarioMembers(a: Pokemon, b: Pokemon)
    requires a.type1 == "Fire" && a.type2 == Some("Flying")
    requires b.type1 == "Water" && b.type2 == Some("Water")
    ensures forall x :: x in UniqueTypes([a, b]) <==> x == "Fire" || x == "Flying" || x == "Water"
  {
    var data := [a, b];
    assert a in data && b in data;
    assert HasType(a, Some("Fire")) && HasType(a, Some("Flying")) && HasType(b, Some("Water"));
    forall x | x in UniqueTypes(data)
      ensures x == "Fire" || x == "Flying" || x == "Water"
    {
      var p :| p in data && HasType(p, Some(x));
    }
  }

  /** Types Fire/Flying and Water/Water give the option list Fire, Flying, Water:
      gathered from both slots, listed once each and sorted. */
  lemma TypesScenario(a: Pokemon, b: Pokemon)
    requires a.type1 == "Fire" && a.type2 == Some("Flying")
    requires b.type1 == "Water" && b.type2 == Some("Water")
    ensures UniqueTypes([a, b]) == ["Fire", "Flying", "Water"]
  {
    TypesScenarioMembers(a, b);
    assert LexLe("Fire", "Flying") && LexLe("Flying", "Water");
    SortedDistinctThree(UniqueTypes([a, b]), "Fire", "Flying", "Water");
  }

  /** A sorted duplicate-free list holding exactly three ordered strings is those three. */
  lemma {:induction false} SortedDistinctThree(r: seq<string>, a: string, b: string, c: string)
    requires Sorted(r) && Distinct(r)
    requires a in r && b in r && c in r
    requires forall x :: x in r ==> x == a || x == b || x == c
    requires LexLe(a, b) && LexLe(b, c) && a != b && b != c && a != c
    ensures r == [a, b, c]
  {
    var i :| 0 <= i < |r| && r[i] == a;
    var j :| 0 <= j < |r| && r[j] == b;
    var k :| 0 <= k < |r| && r[k] == c;
    DistinctWithin(r, {a, b, c});
    if j < i {
      LexLeAntisymmetric(a, b);
    }
    if k < j {
      LexLeAntisymmetric(b, c);
    }
  }
}
