/** The sort of a read's rows by columns (`read.rs`, sorted_rows). */
module Sorting {
  import opened Values

  /** Two rows by their values in the columns. */
  function CompareBy(a: Row, b: Row, columns: seq<nat>): Order {
    if columns == [] then Same
    else
      var o := CompareValues(Get(a, columns[0]), Get(b, columns[0]));
      if o != Same then o else CompareBy(a, b, columns[1..])
  }

  function Directed(o: Order, desc: bool): Order {
    if desc then o.Reverse() else o
  }

  ghost predicate Sorted(rows: Rows, columns: seq<nat>, desc: bool) {
    forall i, j :: 0 <= i < j < |rows| ==> Directed(CompareBy(rows[i].1, rows[j].1, columns), desc) != After
  }

  lemma {:induction false} CompareByAntisymmetric(a: Row, b: Row, columns: seq<nat>)
    ensures CompareBy(b, a, columns) == CompareBy(a, b, columns).Reverse()
  {
    if columns != [] {
      CompareAntisymmetric(Get(a, columns[0]), Get(b, columns[0]));
      CompareByAntisymmetric(a, b, columns[1..]);
    }
  }

  lemma {:induction false} CompareByTransitive(a: Row, b: Row, c: Row, columns: seq<nat>)
    requires CompareBy(a, b, columns) != After && CompareBy(b, c, columns) != After
    ensures CompareBy(a, c, columns) != After
    ensures CompareBy(a, c, columns) == Same ==> CompareBy(a, b, columns) == Same && CompareBy(b, c, columns) == Same
  {
    if columns != [] {
      var x, y, z := Get(a, columns[0]), Get(b, columns[0]), Get(c, columns[0]);
      CompareTransitive(x, y, z);
      CompareAntisymmetric(x, y);
      CompareAntisymmetric(y, z);
      if x == y == z {
        CompareByTransitive(a, b, c, columns[1..]);
      }
    }
  }

  lemma {:induction false} DirectedTransitive(a: Row, b: Row, c: Row, columns: seq<nat>, desc: bool)
    requires Directed(CompareBy(a, b, columns), desc) != After && Directed(CompareBy(b, c, columns), desc) != After
    ensures Directed(CompareBy(a, c, columns), desc) != After
    ensures Directed(CompareBy(a, c, columns), desc) == Same ==>
              CompareBy(a, b, columns) == Same && CompareBy(b, c, columns) == Same
  {
    CompareByAntisymmetric(a, b, columns);
    CompareByAntisymmetric(b, c, columns);
    CompareByAntisymmetric(a, c, columns);
    if desc {
      CompareByTransitive(c, b, a, columns);
    } else {
      CompareByTransitive(a, b, c, columns);
    }
  }

  /** Inserts before the first row that sorts after it: equal rows keep their
      order. */
  function InsertRow(rows: Rows, x: (int, Row), columns: seq<nat>, desc: bool): (r: Rows)
    ensures multiset(r) == multiset(rows) + multiset{x}
  {
    if rows == [] || Directed(CompareBy(rows[|rows| - 1].1, x.1, columns), desc) != After then rows + [x]
    else
      var init := rows[..|rows| - 1];
      assert rows == init + [rows[|rows| - 1]];
      InsertRow(init, x, columns, desc) + [rows[|rows| - 1]]
  }

  function SortRows(rows: Rows, columns: seq<nat>, desc: bool): (r: Rows)
    ensures multiset(r) == multiset(rows)
  {
    if rows == [] then []
    else
      assert rows == rows[..|rows| - 1] + [rows[|rows| - 1]];
      InsertRow(SortRows(rows[..|rows| - 1], columns, desc), rows[|rows| - 1], columns, desc)
  }

  lemma {:induction false} InsertKeepsSorted(rows: Rows, x: (int, Row), columns: seq<nat>, desc: bool)
    requires Sorted(rows, columns, desc)
    ensures Sorted(InsertRow(rows, x, columns, desc), columns, desc)
  {
    var r := InsertRow(rows, x, columns, desc);
    if rows == [] {
    } else {
      var last := rows[|rows| - 1];
      var init := rows[..|rows| - 1];
      if Directed(CompareBy(last.1, x.1, columns), desc) != After {
        forall i | 0 <= i < |rows| ensures Directed(CompareBy(rows[i].1, x.1, columns), desc) != After {
          if i < |rows| - 1 {
            DirectedTransitive(rows[i].1, last.1, x.1, columns, desc);
          }
        }
      } else {
        CompareByAntisymmetric(last.1, x.1, columns);
        InsertKeepsSorted(init, x, columns, desc);
        var s := InsertRow(init, x, columns, desc);
        forall i | 0 <= i < |s| ensures Directed(CompareBy(s[i].1, last.1, columns), desc) != After {
          assert s[i] in multiset(s);
          assert s[i] in init || s[i] == x;
          if s[i] in init {
            var j :| 0 <= j < |init| && init[j] == s[i];
            assert rows[j] == s[i];
          }
        }
      }
    }
  }

  lemma {:induction false} SortSorts(rows: Rows, columns: seq<nat>, desc: bool)
    ensures Sorted(SortRows(rows, columns, desc), columns, desc)
  {
    if rows != [] {
      SortSorts(rows[..|rows| - 1], columns, desc);
      InsertKeepsSorted(SortRows(rows[..|rows| - 1], columns, desc), rows[|rows| - 1], columns, desc);
    }
  }
}
