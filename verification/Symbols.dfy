/** `sorted({...})` over strings: the distinct ones in lexicographic order, a function of the set alone. */
module Symbols {

  /** Lexicographic order by code point. */
  predicate AtMost(a: string, b: string) {
    a == "" || (b != "" && (a[0] < b[0] || (a[0] == b[0] && AtMost(a[1..], b[1..]))))
  }

  lemma {:induction false} AtMostTotal(a: string, b: string)
    ensures AtMost(a, b) || AtMost(b, a)
  {
    if a != "" && b != "" && a[0] == b[0] {
      AtMostTotal(a[1..], b[1..]);
    }
  }

  lemma {:induction false} AtMostAntisymmetric(a: string, b: string)
    requires AtMost(a, b) && AtMost(b, a)
    ensures a == b
  {
    if a != "" && b != "" {
      AtMostAntisymmetric(a[1..], b[1..]);
      assert a == [a[0]] + a[1..] && b == [b[0]] + b[1..];
    }
  }

  lemma {:induction false} AtMostTransitive(a: string, b: string, c: string)
    requires AtMost(a, b) && AtMost(b, c)
    ensures AtMost(a, c)
  {
    if a != "" && a[0] == b[0] && b[0] == c[0] {
      AtMostTransitive(a[1..], b[1..], c[1..]);
    }
  }

  ghost predicate Ascending(list: seq<string>) {
    forall i, j | 0 <= i < j < |list| :: list[i] != list[j] && AtMost(list[i], list[j])
  }

  function Inserted(x: string, list: seq<string>): seq<string> {
    if list == [] then [x]
    else if list[0] == x then list
    else if AtMost(x, list[0]) then [x] + list
    else [list[0]] + Inserted(x, list[1..])
  }

  /** The distinct names, sorted. */
  function Sorted(names: seq<string>): seq<string> {
    if names == [] then [] else Inserted(names[0], Sorted(names[1..]))
  }

  lemma {:induction false} InsertedMeaning(x: string, list: seq<string>)
    requires Ascending(list)
    ensures Ascending(Inserted(x, list))
    ensures forall y :: y in Inserted(x, list) <==> y == x || y in list
  {
    if list != [] && list[0] != x {
      if AtMost(x, list[0]) {
        forall j | 0 <= j < |list| ensures list[j] != x && AtMost(x, list[j]) {
          if j > 0 {
            AtMostTransitive(x, list[0], list[j]);
            if list[j] == x {
              AtMostAntisymmetric(x, list[0]);
            }
          }
        }
      } else {
        AtMostTotal(x, list[0]);
        InsertedMeaning(x, list[1..]);
        var rest := Inserted(x, list[1..]);
        forall j | 0 <= j < |rest| ensures list[0] != rest[j] && AtMost(list[0], rest[j]) {
          assert rest[j] in rest;
          if rest[j] != x {
            var i :| 0 <= i < |list[1..]| && list[1..][i] == rest[j];
            assert list[i + 1] == rest[j];
          }
        }
      }
    }
  }

  lemma {:induction false} SortedMeaning(names: seq<string>)
    ensures Ascending(Sorted(names)) && forall y :: y in Sorted(names) <==> y in names
  {
    if names != [] {
      SortedMeaning(names[1..]);
      InsertedMeaning(names[0], Sorted(names[1..]));
    }
  }

  /** An ascending list is determined by what it holds. */
  lemma {:induction false} AscendingUnique(a: seq<string>, b: seq<string>)
    requires Ascending(a) && Ascending(b) && forall y :: y in a <==> y in b
    ensures a == b
  {
    if b != [] {
      assert b[0] in b;
    }
    if a != [] {
      assert a[0] in b && b != [];
      assert b[0] in a;
      var i :| 0 <= i < |b| && b[i] == a[0];
      var j :| 0 <= j < |a| && a[j] == b[0];
      if i != 0 {
        assert AtMost(b[0], a[0]);
        assert AtMost(a[0], b[0]);
        AtMostAntisymmetric(a[0], b[0]);
      }
      forall y ensures y in a[1..] <==> y in b[1..] {
        TailHas(a, y);
        TailHas(b, y);
      }
      AscendingUnique(a[1..], b[1..]);
    }
  }

  lemma TailHas(a: seq<string>, y: string)
    requires Ascending(a) && a != []
    ensures y in a[1..] <==> y in a && y != a[0]
  {
    if y in a && y != a[0] {
      var i :| 0 <= i < |a| && a[i] == y;
      assert a[1..][i - 1] == y;
    }
    if y in a[1..] {
      var i :| 0 <= i < |a[1..]| && a[1..][i] == y;
      assert a[i + 1] == y;
    }
  }

  /** The list depends on the set of names alone. */
  lemma SortedIffSame(a: seq<string>, b: seq<string>)
    ensures Sorted(a) == Sorted(b) <==> forall y :: y in a <==> y in b
  {
    hide Sorted, Ascending;
    SortedMeaning(a);
    SortedMeaning(b);
    if forall y :: y in a <==> y in b {
      AscendingUnique(Sorted(a), Sorted(b));
    }
  }
}
