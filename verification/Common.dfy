/** Shared vocabulary: optional values, results and the fixed-width numbers of the wire. */
module Common {

  datatype Option<+T> = None | Some(value: T)

  datatype Result<+T, +E> = Ok(value: T) | Err(error: E)

  const U32_RANGE: int := 0x1_0000_0000

  /** A Go uint32. */
  type u32 = x: int | 0 <= x < 0x1_0000_0000

  /** One octet of a Go byte slice or string. */
  newtype byte = x: int | 0 <= x < 256

  /** Two texts joined by the separator that tag messages and dedup keys use. */
  function Join(a: string, b: string): string {
    a + "|" + b
  }

  lemma FirstSeparator(a1: string, b1: string, a2: string, b2: string)
    requires '|' !in a2 && Join(a1, b1) == Join(a2, b2)
    ensures |a1| >= |a2|
  {
    assert Join(a1, b1)[|a1|] == '|';
    assert forall i :: 0 <= i < |a2| ==> Join(a2, b2)[i] == a2[i];
  }

  /** Joins tell pairs apart as long as the first texts carry no separator. */
  lemma JoinsTellPairsApart(a1: string, b1: string, a2: string, b2: string)
    requires '|' !in a1 && '|' !in a2
    ensures Join(a1, b1) == Join(a2, b2) <==> a1 == a2 && b1 == b2
  {
    if Join(a1, b1) == Join(a2, b2) {
      FirstSeparator(a1, b1, a2, b2);
      FirstSeparator(a2, b2, a1, b1);
      assert a1 == Join(a1, b1)[..|a1|] && b1 == Join(a1, b1)[|a1| + 1..];
      assert a2 == Join(a2, b2)[..|a2|] && b2 == Join(a2, b2)[|a2| + 1..];
    }
  }

  /** No other pair has the same join. */
  ghost predicate JoinedOnce(a: string, b: string) {
    forall c, d :: Join(c, d) == Join(a, b) ==> c == a && d == b
  }

  /** Among all texts a join stands for one pair exactly when neither text carries a separator. */
  lemma JoinedOnceIff(a: string, b: string)
    ensures JoinedOnce(a, b) <==> '|' !in a && '|' !in b
  {
    if '|' in a {
      var i :| 0 <= i < |a| && a[i] == '|';
      assert a == a[..i] + "|" + a[i + 1..];
      assert Join(a[..i], a[i + 1..] + "|" + b) == Join(a, b);
      assert |a[..i]| != |a|;
    } else if '|' in b {
      var i :| 0 <= i < |b| && b[i] == '|';
      assert b == b[..i] + "|" + b[i + 1..];
      assert Join(a + "|" + b[..i], b[i + 1..]) == Join(a, b);
      assert |b[i + 1..]| != |b|;
    } else {
      forall c, d | Join(c, d) == Join(a, b)
        ensures c == a && d == b
      {
        assert forall k :: 0 <= k < |Join(a, b)| && k != |a| ==> Join(a, b)[k] != '|';
        assert Join(c, d)[|c|] == '|';
        assert c == Join(c, d)[..|c|] && d == Join(c, d)[|c| + 1..];
        assert a == Join(a, b)[..|a|] && b == Join(a, b)[|a| + 1..];
      }
    }
  }

  lemma SameStart(a: string, b: string, c: string)
    ensures a + c == b + c <==> a == b
  {
    if a + c == b + c {
      assert |a| == |b|;
      assert a == (a + c)[..|a|] && b == (b + c)[..|b|];
    }
  }

  lemma SameFirst(a: string, b: string, c: string)
    ensures Join(a, c) == Join(b, c) <==> a == b
  {
    Associate(a, "|", c);
    Associate(b, "|", c);
    SameStart(a, b, "|" + c);
  }

  lemma SameSecond(a: string, b: string, c: string)
    ensures Join(a, b) == Join(a, c) <==> b == c
  {
    assert b == Join(a, b)[|a| + 1..] && c == Join(a, c)[|a| + 1..];
  }

  /** The second text goes on after the first and a separator. */
  predicate Shadows(a: string, b: string) {
    a + "|" <= b
  }

  /** Texts neither of which shadows the other tell their joins apart. */
  lemma JoinsPartOrShadow(a1: string, b1: string, a2: string, b2: string)
    requires Join(a1, b1) == Join(a2, b2)
    ensures (a1 == a2 && b1 == b2) || Shadows(a1, a2) || Shadows(a2, a1)
  {
    var text := Join(a1, b1);
    assert a1 == text[..|a1|] && a2 == text[..|a2|];
    if |a1| < |a2| {
      assert a1 + "|" == text[..|a1| + 1] == a2[..|a1| + 1];
    } else if |a2| < |a1| {
      assert a2 + "|" == text[..|a2| + 1] == a1[..|a2| + 1];
    } else {
      SameSecond(a1, b1, b2);
    }
  }

  /** Some non-empty second texts make the joins meet. */
  ghost predicate JoinsMeet(a1: string, a2: string) {
    exists b1, b2 :: b1 != "" && b2 != "" && Join(a1, b1) == Join(a2, b2)
  }

  lemma ShadowsMeet(a1: string, a2: string) returns (b1: string)
    requires Shadows(a1, a2)
    ensures b1 != "" && Join(a1, b1) == Join(a2, "x")
  {
    var rest := a2[|a1| + 1..];
    assert a2 == a1 + "|" + rest;
    b1 := rest + "|" + "x";
    assert a1 + "|" + (rest + "|" + "x") == a1 + "|" + rest + "|" + "x";
  }

  /** Joins of two texts meet for some second texts exactly when the texts are equal or one shadows the other. */
  lemma JoinsMeetIff(a1: string, a2: string)
    ensures JoinsMeet(a1, a2) <==> a1 == a2 || Shadows(a1, a2) || Shadows(a2, a1)
  {
    if JoinsMeet(a1, a2) {
      var b1, b2 :| b1 != "" && b2 != "" && Join(a1, b1) == Join(a2, b2);
      JoinsPartOrShadow(a1, b1, a2, b2);
    }
    if a1 == a2 {
      assert Join(a1, "x") == Join(a2, "x");
    } else if Shadows(a1, a2) {
      var b1 := ShadowsMeet(a1, a2);
    } else if Shadows(a2, a1) {
      var b2 := ShadowsMeet(a2, a1);
    }
  }

  lemma JoinAssociates(a: string, b: string, c: string)
    ensures Join(Join(a, b), c) == Join(a, Join(b, c))
  {}

  function Max(a: int, b: int): int {
    if a >= b then a else b
  }

  lemma Associate<T>(a: seq<T>, b: seq<T>, c: seq<T>)
    ensures a + b + c == a + (b + c)
  {}
}
