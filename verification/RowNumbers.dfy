/**
 Rows numbered 1..n within groups, as the triggers number them: which additions, removals and
 rewrites of one row keep every group without gaps.
 */
module RowNumbers {
  import opened Numbering

  ghost function NumbersIn<I, T, G>(m: map<I, T>, group: T -> G, number: T -> int, g: G): set<int> {
    set k | k in m && group(m[k]) == g :: number(m[k])
  }

  ghost predicate Numbered<I, T, G(!new)>(m: map<I, T>, group: T -> G, number: T -> int) {
    forall g :: Dense(NumbersIn(m, group, number, g))
  }

  /** The UNIQUE constraint on group and number. */
  ghost predicate Distinct<I, T, G>(m: map<I, T>, group: T -> G, number: T -> int) {
    forall a <- m, b <- m | a != b && group(m[a]) == group(m[b]) :: number(m[a]) != number(m[b])
  }

  lemma NumbersAfterRemoval<I, T, G>(m: map<I, T>, group: T -> G, number: T -> int, id: I, g: G)
    requires Distinct(m, group, number) && id in m
    ensures NumbersIn(m - {id}, group, number, g)
            == NumbersIn(m, group, number, g) - if group(m[id]) == g then {number(m[id])} else {}
  {
    var left := m - {id};
    forall n | n in NumbersIn(left, group, number, g) ensures group(m[id]) == g ==> n != number(m[id]) {
      var k :| k in left && group(left[k]) == g && number(left[k]) == n;
      assert k in m && m[k] == left[k];
    }
    forall n | n in NumbersIn(m, group, number, g) && !(group(m[id]) == g && n == number(m[id]))
      ensures n in NumbersIn(left, group, number, g)
    {
      var k :| k in m && group(m[k]) == g && number(m[k]) == n;
      assert k in left && left[k] == m[k];
    }
  }

  lemma NumbersAfterAddition<I, T, G>(m: map<I, T>, group: T -> G, number: T -> int, id: I, row: T, g: G)
    requires id !in m
    ensures NumbersIn(m[id := row], group, number, g)
            == NumbersIn(m, group, number, g) + if group(row) == g then {number(row)} else {}
  {
    var more := m[id := row];
    assert id in more && more[id] == row;
    forall n | n in NumbersIn(m, group, number, g) ensures n in NumbersIn(more, group, number, g) {
      var k :| k in m && group(m[k]) == g && number(m[k]) == n;
      assert k in more && more[k] == m[k];
    }
  }

  /** A row that keeps the constraint brings a new number to its group. */
  lemma AddedNumberIsNew<I, T, G>(m: map<I, T>, group: T -> G, number: T -> int, id: I, row: T)
    requires id !in m && Distinct(m[id := row], group, number)
    ensures number(row) !in NumbersIn(m, group, number, group(row))
  {
    var more := m[id := row];
    forall k | k in m && group(m[k]) == group(row) ensures number(m[k]) != number(row) {
      assert k in more && id in more && more[k] == m[k] && more[id] == row && k != id;
    }
  }

  /** Without its row a group keeps its numbering exactly when that row was the last one. */
  lemma RemovalNumbersIff<I, T, G(!new)>(m: map<I, T>, group: T -> G, number: T -> int, id: I)
    requires Distinct(m, group, number) && id in m && Numbered(m, group, number)
    ensures Numbered(m - {id}, group, number) <==> number(m[id]) == MaxOrZero(NumbersIn(m, group, number, group(m[id])))
  {
    var left, own := m - {id}, group(m[id]);
    assert number(m[id]) in NumbersIn(m, group, number, own);
    hide Dense, NumbersIn, Distinct;
    forall g
      ensures g != own ==> NumbersIn(left, group, number, g) == NumbersIn(m, group, number, g)
      ensures Dense(NumbersIn(m, group, number, g))
    {
      NumbersAfterRemoval(m, group, number, id, g);
    }
    NumbersAfterRemoval(m, group, number, id, own);
    RemovalKeepsDenseIffLast(NumbersIn(m, group, number, own), number(m[id]));
    assert Numbered(left, group, number) <==> Dense(NumbersIn(left, group, number, own));
  }

  /** With a row of a new number a group keeps its numbering exactly when the number is the next one. */
  lemma AdditionNumbersIff<I, T, G(!new)>(m: map<I, T>, group: T -> G, number: T -> int, id: I, row: T)
    requires id !in m && Numbered(m, group, number) && number(row) !in NumbersIn(m, group, number, group(row))
    ensures Numbered(m[id := row], group, number)
            <==> number(row) == MaxOrZero(NumbersIn(m, group, number, group(row))) + 1
  {
    var more, own := m[id := row], group(row);
    hide Dense, NumbersIn;
    forall g
      ensures g != own ==> NumbersIn(more, group, number, g) == NumbersIn(m, group, number, g)
      ensures Dense(NumbersIn(m, group, number, g))
    {
      NumbersAfterAddition(m, group, number, id, row, g);
    }
    NumbersAfterAddition(m, group, number, id, row, own);
    AdditionKeepsDenseIffNext(NumbersIn(m, group, number, own), number(row));
    assert Numbered(more, group, number) <==> Dense(NumbersIn(more, group, number, own));
  }

  /** The row keeps its group and number, or leaves its group as the last of it and enters another with the next number. */
  ghost predicate FitsNumbering<I, T, G>(m: map<I, T>, group: T -> G, number: T -> int, was: T, row: T) {
    if group(was) == group(row) then number(row) == number(was)
    else
      && number(was) == MaxOrZero(NumbersIn(m, group, number, group(was)))
      && number(row) == MaxOrZero(NumbersIn(m, group, number, group(row))) + 1
  }

  /** Rewriting a row keeps the numbering exactly when it fits. */
  lemma MoveNumbersIff<I, T, G(!new)>(m: map<I, T>, group: T -> G, number: T -> int, id: I, newId: I, row: T)
    requires Distinct(m, group, number) && id in m && Numbered(m, group, number) && newId !in m - {id}
    requires Distinct((m - {id})[newId := row], group, number)
    ensures Numbered((m - {id})[newId := row], group, number) <==> FitsNumbering(m, group, number, m[id], row)
  {
    var was, left, moved := m[id], m - {id}, (m - {id})[newId := row];
    AddedNumberIsNew(left, group, number, newId, row);
    assert number(was) in NumbersIn(m, group, number, group(was));
    hide Dense, NumbersIn, Distinct;
    forall g
      ensures g != group(was) ==> NumbersIn(left, group, number, g) == NumbersIn(m, group, number, g)
      ensures g != group(row) ==> NumbersIn(moved, group, number, g) == NumbersIn(left, group, number, g)
      ensures Dense(NumbersIn(m, group, number, g))
    {
      NumbersAfterRemoval(m, group, number, id, g);
      NumbersAfterAddition(left, group, number, newId, row, g);
    }
    NumbersAfterRemoval(m, group, number, id, group(was));
    NumbersAfterAddition(left, group, number, newId, row, group(row));
    if group(was) == group(row) {
      ReplacementKeepsDenseIffSame(NumbersIn(m, group, number, group(was)), number(was), number(row));
      assert Numbered(moved, group, number) <==> Dense(NumbersIn(moved, group, number, group(row)));
    } else {
      RemovalKeepsDenseIffLast(NumbersIn(m, group, number, group(was)), number(was));
      AdditionKeepsDenseIffNext(NumbersIn(m, group, number, group(row)), number(row));
      assert Numbered(moved, group, number)
        <==> Dense(NumbersIn(moved, group, number, group(row))) && Dense(NumbersIn(moved, group, number, group(was)));
    }
  }

  /** A group that is removed whole leaves the numbering as it is. */
  lemma GroupRemovalKeepsNumbers<I, T, G(!new)>(m: map<I, T>, left: map<I, T>, group: T -> G, number: T -> int, gone: G)
    requires Numbered(m, group, number)
    requires forall k :: (k in left <==> k in m && group(m[k]) != gone) && (k in left ==> left[k] == m[k])
    ensures Numbered(left, group, number)
  {
    forall g
      ensures NumbersIn(left, group, number, g) == if g == gone then {} else NumbersIn(m, group, number, g)
      ensures Dense(NumbersIn(left, group, number, g))
    {
      forall n | g != gone && n in NumbersIn(m, group, number, g) ensures n in NumbersIn(left, group, number, g) {
        var k :| k in m && group(m[k]) == g && number(m[k]) == n;
        assert k in left && left[k] == m[k];
      }
      assert NumbersIn(left, group, number, g) == if g == gone then {} else NumbersIn(m, group, number, g);
    }
  }
}
