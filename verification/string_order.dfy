/** The order of Go's sort.Strings and the ascending enumeration of a finite set of strings. */
module StringOrder {

  /** Lexicographic order, reflexive. */
  predicate Below(a: string, b: string) {
    || a == []
    || (b != [] && (a[0] < b[0] || (a[0] == b[0] && Below(a[1..], b[1..]))))
  }

  lemma {:induction false} BelowTotal(a: string, b: string)
    ensures Below(a, b) || Below(b, a)
  {
    if a != [] && b != [] && a[0] == b[0] {
      BelowTotal(a[1..], b[1..]);
    }
  }

  lemma {:induction false} BelowAntisymmetric(a: string, b: string)
    requires Below(a, b) && Below(b, a)
    ensures a == b
  {
    if a != [] && b != [] {
      BelowAntisymmetric(a[1..], b[1..]);
      assert a == [a[0]] + a[1..] && b == [b[0]] + b[1..];
    }
  }

  lemma {:induction false} BelowTransitive(a: string, b: string, c: string)
    requires Below(a, b) && Below(b, c)
    ensures Below(a, c)
  {
    if a != [] && a[0] == b[0] && b[0] == c[0] {
      BelowTransitive(a[1..], b[1..], c[1..]);
    }
  }

  predicate IsLeast(m: string, s: set<string>) {
    m in s && forall x | x in s :: Below(m, x)
  }

  lemma {:induction false} LeastExists(s: set<string>)
    requires s != {}
    ensures exists m :: IsLeast(m, s)
  {
    var x :| x in s;
    BelowTotal(x, x);
    if s == {x} {
      assert IsLeast(x, s);
    } else {
      LeastExists(s - {x});
      var rest :| IsLeast(rest, s - {x});
      BelowTotal(x, rest);
      if Below(x, rest) {
        forall y | y in s - {x} ensures Below(x, y) { BelowTransitive(x, rest, y); }
        assert IsLeast(x, s);
      } else {
        assert IsLeast(rest, s);
      }
    }
  }

  lemma LeastUnique(s: set<string>)
    ensures forall a, b | IsLeast(a, s) && IsLeast(b, s) :: a == b
  {
    forall a, b | IsLeast(a, s) && IsLeast(b, s) ensures a == b { BelowAntisymmetric(a, b); }
  }

  function Least(s: set<string>): (m: string)
    requires s != {}
    ensures IsLeast(m, s)
  {
    LeastExists(s);
    LeastUnique(s);
    var m :| m in s && IsLeast(m, s);
    m
  }

  /** The elements of s in ascending order. */
  function Sorted(s: set<string>): (r: seq<string>)
    ensures forall x :: x in r <==> x in s
    ensures |r| == |s|
  {
    if s == {} then [] else
      var m := Least(s);
      [m] + Sorted(s - {m})
  }

  predicate StrictlyAscending(r: seq<string>) {
    forall i, j | 0 <= i < j < |r| :: Below(r[i], r[j]) && r[i] != r[j]
  }

  lemma {:induction false} SortedAscending(s: set<string>)
    ensures StrictlyAscending(Sorted(s))
  {
    hide Sorted, Least, Below;
    SortedStep(s);
    if s != {} {
      var m := Least(s);
      var rest := Sorted(s - {m});
      SortedAscending(s - {m});
      forall j | 0 <= j < |rest| ensures Below(m, rest[j]) && m != rest[j] { assert rest[j] in s - {m}; }
      PrependAscending(m, rest);
    }
  }

  lemma SortedStep(s: set<string>)
    ensures Sorted(s) == if s == {} then [] else [Least(s)] + Sorted(s - {Least(s)})
  {
  }

  lemma PrependAscending(m: string, rest: seq<string>)
    requires StrictlyAscending(rest) && forall j | 0 <= j < |rest| :: Below(m, rest[j]) && m != rest[j]
    ensures StrictlyAscending([m] + rest)
  {
  }
}
