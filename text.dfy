/** String primitives the catalog page relies on: lower-casing, substring
    search, the decimal rendering of a number and the default string order
    used when a list of strings is sorted. */
module Text {

  /** Lower-cases one ASCII upper-case letter and leaves every other character alone. */
  function LowerChar(c: char): char
  {
    if 'A' <= c <= 'Z' then (c as int + 32) as char else c
  }

  /** `s.toLowerCase()`, restricted to the ASCII letters. */
  function Lower(s: string): (r: string)
    ensures |r| == |s|
    ensures forall i :: 0 <= i < |r| ==> !('A' <= r[i] <= 'Z')
    ensures forall i :: 0 <= i < |r| ==>
              if 'A' <= s[i] <= 'Z' then r[i] as int == s[i] as int + 32 else r[i] == s[i]
    decreases |s|
  {
    if s == [] then [] else [LowerChar(s[0])] + Lower(s[1..])
  }

  /** Lower-casing twice is lower-casing once. */
  lemma {:induction false} LowerIdempotent(s: string)
    ensures Lower(Lower(s)) == Lower(s)
    decreases |s|
  {
    if s != [] {
      LowerIdempotent(s[1..]);
      assert Lower(s)[1..] == Lower(s[1..]);
    }
  }

  /** `hay.includes(needle)`: tries every start position from the left. */
  predicate Includes(hay: string, needle: string)
    decreases |hay|
  {
    |needle| <= |hay| && (hay[..|needle|] == needle || (|hay| > 0 && Includes(hay[1..], needle)))
  }

  /** The needle sits in the haystack starting at position i. */
  ghost predicate OccursAt(hay: string, needle: string, i: int)
  {
    0 <= i && i + |needle| <= |hay| && hay[i..i + |needle|] == needle
  }

  /** Whatever the search finds is a substring. */
  lemma {:induction false} IncludesSound(hay: string, needle: string) returns (i: nat)
    requires Includes(hay, needle)
    ensures OccursAt(hay, needle, i)
    decreases |hay|
  {
    if hay[..|needle|] == needle {
      i := 0;
    } else {
      var j := IncludesSound(hay[1..], needle);
      assert hay[1..][j..j + |needle|] == hay[j + 1..j + 1 + |needle|];
      i := j + 1;
    }
  }

  /** The search finds every substring. */
  lemma {:induction false} IncludesComplete(hay: string, needle: string, i: int)
    requires OccursAt(hay, needle, i)
    ensures Includes(hay, needle)
    decreases i
  {
    if i == 0 {
      assert hay[..|needle|] == hay[0..|needle|];
    } else if hay[..|needle|] != needle {
      assert hay[1..][i - 1..i - 1 + |needle|] == hay[i..i + |needle|];
      IncludesComplete(hay[1..], needle, i - 1);
    }
  }

  /** The search agrees with the definition of a substring. */
  lemma {:induction false} IncludesIff(hay: string, needle: string)
    ensures Includes(hay, needle) <==> exists i :: OccursAt(hay, needle, i)
  {
    if Includes(hay, needle) {
      var i := IncludesSound(hay, needle);
    }
    forall i | OccursAt(hay, needle, i)
      ensures Includes(hay, needle)
    {
      IncludesComplete(hay, needle, i);
    }
  }

  /** The empty string is part of every string. */
  lemma {:induction false} EmptyIncluded(hay: string)
    ensures Includes(hay, "")
  {
    assert hay[..0] == "";
  }

  /** The character of a decimal digit. */
  function DigitChar(d: nat): (c: char)
    requires d < 10
    ensures '0' <= c <= '9' && c as int - '0' as int == d
  {
    ('0' as int + d) as char
  }

  /** `n.toString()` for a non-negative integer below 10^21 (where JavaScript still
      prints plain digits): its decimal digits, most significant first. */
  function DecimalString(n: nat): (s: string)
    ensures |s| >= 1
    ensures forall i :: 0 <= i < |s| ==> '0' <= s[i] <= '9'
    ensures |s| > 1 ==> s[0] != '0'
    decreases n
  {
    if n < 10 then [DigitChar(n)] else DecimalString(n / 10) + [DigitChar(n % 10)]
  }

  /** Reads a string of decimal digits back as a number. */
  function ParseDecimal(s: string): nat
    requires forall i :: 0 <= i < |s| ==> '0' <= s[i] <= '9'
    decreases |s|
  {
    if s == [] then 0
    else ParseDecimal(s[..|s| - 1]) * 10 + (s[|s| - 1] as int - '0' as int)
  }

  /** Rendering a number in decimal loses nothing. */
  lemma {:induction false} DecimalRoundTrip(n: nat)
    ensures ParseDecimal(DecimalString(n)) == n
    decreases n
  {
    if n >= 10 {
      DecimalRoundTrip(n / 10);
      var s := DecimalString(n);
      assert s[..|s| - 1] == DecimalString(n / 10);
    }
  }

  /** Two numbers with the same decimal rendering are equal. */
  lemma {:induction false} DecimalInjective(m: nat, n: nat)
    requires DecimalString(m) == DecimalString(n)
    ensures m == n
  {
    DecimalRoundTrip(m);
    DecimalRoundTrip(n);
  }

  /** The default order of strings: character by character, a proper prefix first. */
  predicate LexLe(a: string, b: string)
    decreases |a|
  {
    |a| == 0 || (|b| > 0 && (a[0] < b[0] || (a[0] == b[0] && LexLe(a[1..], b[1..]))))
  }

  lemma {:induction false} LexLeReflexive(a: string)
    ensures LexLe(a, a)
    decreases |a|
  {
    if |a| > 0 {
      LexLeReflexive(a[1..]);
    }
  }

  lemma {:induction false} LexLeTotal(a: string, b: string)
    ensures LexLe(a, b) || LexLe(b, a)
    decreases |a|
  {
    if |a| > 0 && |b| > 0 && a[0] == b[0] {
      LexLeTotal(a[1..], b[1..]);
    }
  }

  lemma {:induction false} LexLeAntisymmetric(a: string, b: string)
    requires LexLe(a, b) && LexLe(b, a)
    ensures a == b
    decreases |a|
  {
    if |a| > 0 {
      LexLeAntisymmetric(a[1..], b[1..]);
      assert a == [a[0]] + a[1..];
      assert b == [b[0]] + b[1..];
    }
  }

  lemma {:induction false} LexLeTransitive(a: string, b: string, c: string)
    requires LexLe(a, b) && LexLe(b, c)
    ensures LexLe(a, c)
    decreases |a|
  {
    if |a| > 0 && a[0] == b[0] && b[0] == c[0] {
      LexLeTransitive(a[1..], b[1..], c[1..]);
    }
  }
}
