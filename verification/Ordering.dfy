/**
  Text order and the two ways the source sorts: `sorted(set_of_keys)` and a stable
  `sorted(rows, key=...)`.
 */
module Ordering {

  // ----- code point order of texts

  predicate TextLe(a: string, b: string) {
    if a == [] then true
    else if b == [] then false
    else if a[0] != b[0] then a[0] < b[0]
    else TextLe(a[1..], b[1..])
  }

  lemma TextLeReflexive(a: string)
    ensures TextLe(a, a)
  {}

  lemma {:induction false} TextLeAntisymmetric(a: string, b: string)
    requires TextLe(a, b) && TextLe(b, a)
    ensures a == b
  {
    if a != [] && b != [] {
      TextLeAntisymmetric(a[1..], b[1..]);
      assert a == [a[0]] + a[1..] && b == [b[0]] + b[1..];
    }
  }

  lemma {:induction false} TextLeTransitive(a: string, b: string, c: string)
    requires TextLe(a, b) && TextLe(b, c)
    ensures TextLe(a, c)
  {
    if a != [] && b != [] && c != [] && a[0] == b[0] == c[0] {
      TextLeTransitive(a[1..], b[1..], c[1..]);
    }
  }

  lemma TextLeTotal(a: string, b: string)
    ensures TextLe(a, b) || TextLe(b, a)
  {}

  // ----- sorted(keys)

  predicate IsLeast(m: string, s: set<string>) {
    m in s && forall x :: x in s ==> TextLe(m, x)
  }

  lemma LeastExists(s: set<string>)
    requires s != {}
    ensures exists m :: IsLeast(m, s)
  {
    var x :| x in s;
    TextLeReflexive(x);
    if s == {x} {
      assert IsLeast(x, s);
    } else {
      var rest := s - {x};
      LeastExists(rest);
      var m :| IsLeast(m, rest);
      TextLeTotal(x, m);
      if TextLe(x, m) {
        forall y | y in s ensures TextLe(x, y) {
          if y != x { TextLeTransitive(x, m, y); }
        }
        assert IsLeast(x, s);
      } else {
        assert IsLeast(m, s);
      }
    }
  }

  lemma LeastUnique(s: set<string>, a: string, b: string)
    requires IsLeast(a, s) && IsLeast(b, s)
    ensures a == b
  {
    TextLeAntisymmetric(a, b);
  }

  function Least(s: set<string>): (m: string)
    requires s != {}
    ensures IsLeast(m, s)
  {
    LeastExists(s);
    assert forall a, b | IsLeast(a, s) && IsLeast(b, s) :: a == b by {
      forall a, b | IsLeast(a, s) && IsLeast(b, s) ensures a == b { LeastUnique(s, a, b); }
    }
    var m :| m in s && IsLeast(m, s);
    m
  }

  function SortedTexts(s: set<string>): (r: seq<string>)
    ensures forall x :: x in r <==> x in s
    ensures |r| == |s|
    ensures forall i, j :: 0 <= i < j < |r| ==> r[i] != r[j] && TextLe(r[i], r[j])
  {
    if s == {} then []
    else
      var m := Least(s);
      [m] + SortedTexts(s - {m})
  }

  // ----- sorted(rows, key=...): insertion before equals keeps the input order of ties

  function Insert<T>(x: T, rows: seq<T>, le: (T, T) -> bool): seq<T> {
    if rows == [] then [x]
    else if le(x, rows[0]) then [x] + rows
    else [rows[0]] + Insert(x, rows[1..], le)
  }

  function SortBy<T>(rows: seq<T>, le: (T, T) -> bool): seq<T> {
    if rows == [] then [] else Insert(rows[0], SortBy(rows[1..], le), le)
  }

  lemma {:induction false} InsertKeeps<T>(x: T, rows: seq<T>, le: (T, T) -> bool)
    ensures multiset(Insert(x, rows, le)) == multiset{x} + multiset(rows)
  {
    if rows != [] {
      assert rows == [rows[0]] + rows[1..];
      if !le(x, rows[0]) { InsertKeeps(x, rows[1..], le); }
    }
  }

  /** Sorting neither drops, adds nor duplicates a row. */
  lemma {:induction false} SortKeeps<T>(rows: seq<T>, le: (T, T) -> bool)
    ensures multiset(SortBy(rows, le)) == multiset(rows)
    ensures |SortBy(rows, le)| == |rows|
    ensures forall x :: x in SortBy(rows, le) <==> x in rows
  {
    if rows != [] {
      assert rows == [rows[0]] + rows[1..];
      SortKeeps(rows[1..], le);
      InsertKeeps(rows[0], SortBy(rows[1..], le), le);
      assert forall x :: x in SortBy(rows, le) <==> x in multiset(SortBy(rows, le));
      assert forall x :: x in rows <==> x in multiset(rows);
      assert |SortBy(rows, le)| == |multiset(SortBy(rows, le))|;
      assert |rows| == |multiset(rows)|;
    }
  }

  /** Every earlier row is related to every later one. */
  ghost predicate Pairwise<T>(rows: seq<T>, related: (T, T) -> bool) {
    forall i, j | 0 <= i < j < |rows| :: related(rows[i], rows[j])
  }

  ghost predicate IsOrder<T(!new)>(le: (T, T) -> bool) {
    && (forall x, y :: le(x, y) || le(y, x))
    && forall x, y, z :: le(x, y) && le(y, z) ==> le(x, z)
  }

  lemma {:induction false} InsertSorts<T(!new)>(x: T, rows: seq<T>, le: (T, T) -> bool)
    requires IsOrder(le) && Pairwise(rows, le)
    ensures Pairwise(Insert(x, rows, le), le)
  {
    if rows != [] && !le(x, rows[0]) {
      InsertSorts(x, rows[1..], le);
      InsertKeeps(x, rows[1..], le);
      var rest := Insert(x, rows[1..], le);
      forall j | 0 <= j < |rest| ensures le(rows[0], rest[j]) {
        assert rest[j] in multiset(rest);
      }
    }
  }

  lemma {:induction false} SortSorts<T(!new)>(rows: seq<T>, le: (T, T) -> bool)
    requires IsOrder(le)
    ensures Pairwise(SortBy(rows, le), le)
  {
    if rows != [] {
      SortSorts(rows[1..], le);
      InsertSorts(rows[0], SortBy(rows[1..], le), le);
    }
  }

  /** A symmetric relation between all rows survives sorting by any key. */
  lemma {:induction false} SortKeepsPairwise<T(!new)>(rows: seq<T>, le: (T, T) -> bool, related: (T, T) -> bool)
    requires (forall x, y :: related(x, y) ==> related(y, x)) && Pairwise(rows, related)
    ensures Pairwise(SortBy(rows, le), related)
  {
    if rows != [] {
      SortKeepsPairwise(rows[1..], le, related);
      SortKeeps(rows[1..], le);
      InsertKeepsPairwise(rows[0], SortBy(rows[1..], le), le, related);
    }
  }

  lemma {:induction false} InsertKeepsPairwise<T(!new)>(x: T, rows: seq<T>, le: (T, T) -> bool, related: (T, T) -> bool)
    requires (forall a, b :: related(a, b) ==> related(b, a)) && Pairwise(rows, related)
    requires forall r | r in rows :: related(x, r)
    ensures Pairwise(Insert(x, rows, le), related)
  {
    if rows != [] && !le(x, rows[0]) {
      InsertKeepsPairwise(x, rows[1..], le, related);
      InsertKeeps(x, rows[1..], le);
      var rest := Insert(x, rows[1..], le);
      forall j | 0 <= j < |rest| ensures related(rows[0], rest[j]) {
        assert rest[j] in multiset(rest);
      }
    }
  }
}
