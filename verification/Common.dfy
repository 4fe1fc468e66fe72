/** Small vocabulary shared by the models: optional values, and weighted sums over tables. */
module Common {

  datatype Option<+T> = None | Some(value: T)

  /** A database identifier (a UUID in the program). */
  type Id = nat

  /** SQL's SUM over a table: each row contributes its weight. */
  function Total<T>(rows: seq<T>, weight: T -> real): real {
    if rows == [] then 0.0
    else Total(rows[..|rows| - 1], weight) + weight(rows[|rows| - 1])
  }

  /** SQL's COUNT (or an integer SUM) over a table. */
  function Tally<T>(rows: seq<T>, weight: T -> int): int {
    if rows == [] then 0
    else Tally(rows[..|rows| - 1], weight) + weight(rows[|rows| - 1])
  }

  lemma TotalAppend<T>(rows: seq<T>, row: T, weight: T -> real)
    ensures Total(rows + [row], weight) == Total(rows, weight) + weight(row)
  {
    assert (rows + [row])[..|rows|] == rows;
  }

  lemma TallyAppend<T>(rows: seq<T>, row: T, weight: T -> int)
    ensures Tally(rows + [row], weight) == Tally(rows, weight) + weight(row)
  {
    assert (rows + [row])[..|rows|] == rows;
  }

  lemma {:induction false} TotalUpdate<T>(rows: seq<T>, i: nat, row: T, weight: T -> real)
    requires i < |rows|
    ensures Total(rows[i := row], weight) == Total(rows, weight) - weight(rows[i]) + weight(row)
  {
    var n := |rows| - 1;
    if i == n {
      assert rows[i := row][..n] == rows[..n];
    } else {
      assert rows[i := row][..n] == rows[..n][i := row];
      TotalUpdate(rows[..n], i, row, weight);
    }
  }

  lemma {:induction false} TallyUpdate<T>(rows: seq<T>, i: nat, row: T, weight: T -> int)
    requires i < |rows|
    ensures Tally(rows[i := row], weight) == Tally(rows, weight) - weight(rows[i]) + weight(row)
  {
    var n := |rows| - 1;
    if i == n {
      assert rows[i := row][..n] == rows[..n];
    } else {
      assert rows[i := row][..n] == rows[..n][i := row];
      TallyUpdate(rows[..n], i, row, weight);
    }
  }

  /** Rows contribute nothing in total when each contributes nothing. */
  lemma {:induction false} TotalZero<T>(rows: seq<T>, weight: T -> real)
    requires forall i :: 0 <= i < |rows| ==> weight(rows[i]) == 0.0
    ensures Total(rows, weight) == 0.0
  {
    if rows != [] {
      TotalZero(rows[..|rows| - 1], weight);
    }
  }

  lemma {:induction false} TallyZero<T>(rows: seq<T>, weight: T -> int)
    requires forall i :: 0 <= i < |rows| ==> weight(rows[i]) == 0
    ensures Tally(rows, weight) == 0
  {
    if rows != [] {
      TallyZero(rows[..|rows| - 1], weight);
    }
  }

  /** Weights that dominate row by row dominate in total, and tie in total only if they tie row by row. */
  lemma {:induction false} TotalCompare<T>(rows: seq<T>, low: T -> real, high: T -> real)
    requires forall i :: 0 <= i < |rows| ==> low(rows[i]) <= high(rows[i])
    ensures Total(rows, low) <= Total(rows, high)
    ensures Total(rows, low) == Total(rows, high)
            <==> forall i :: 0 <= i < |rows| ==> low(rows[i]) == high(rows[i])
  {
    if rows != [] {
      var n := |rows| - 1;
      var front := rows[..n];
      TotalCompare(front, low, high);
      if forall i :: 0 <= i < n ==> low(front[i]) == high(front[i]) {
        assert forall i :: 0 <= i < n ==> low(rows[i]) == low(front[i]) && high(rows[i]) == high(front[i]);
      } else {
        var i :| 0 <= i < n && low(front[i]) != high(front[i]);
        assert low(rows[i]) != high(rows[i]);
      }
    }
  }

  /** A sum of pointwise sums is the sum of the sums. */
  lemma {:induction false} TotalSplit<T>(rows: seq<T>, whole: T -> real, left: T -> real, right: T -> real)
    requires forall i :: 0 <= i < |rows| ==> whole(rows[i]) == left(rows[i]) + right(rows[i])
    ensures Total(rows, whole) == Total(rows, left) + Total(rows, right)
  {
    if rows != [] {
      TotalSplit(rows[..|rows| - 1], whole, left, right);
    }
  }

  lemma {:induction false} TallyNonNegative<T>(rows: seq<T>, weight: T -> int)
    requires forall i :: 0 <= i < |rows| ==> weight(rows[i]) >= 0
    ensures Tally(rows, weight) >= 0
    ensures Tally(rows, weight) == 0 <==> forall i :: 0 <= i < |rows| ==> weight(rows[i]) == 0
  {
    if rows != [] {
      var n := |rows| - 1;
      var front := rows[..n];
      TallyNonNegative(front, weight);
      if Tally(front, weight) == 0 {
        assert forall i :: 0 <= i < n ==> weight(rows[i]) == weight(front[i]);
      } else {
        var i :| 0 <= i < n && weight(front[i]) != 0;
        assert weight(rows[i]) != 0;
      }
    }
  }

  lemma {:induction false} TallySplit<T>(rows: seq<T>, whole: T -> int, left: T -> int, right: T -> int)
    requires forall i :: 0 <= i < |rows| ==> whole(rows[i]) == left(rows[i]) + right(rows[i])
    ensures Tally(rows, whole) == Tally(rows, left) + Tally(rows, right)
  {
    if rows != [] {
      TallySplit(rows[..|rows| - 1], whole, left, right);
    }
  }

  lemma {:induction false} TotalConcat<T>(a: seq<T>, b: seq<T>, weight: T -> real)
    ensures Total(a + b, weight) == Total(a, weight) + Total(b, weight)
  {
    if b == [] {
      assert a + b == a;
    } else {
      var n := |b| - 1;
      TotalConcat(a, b[..n], weight);
      assert (a + b)[..|a + b| - 1] == a + b[..n];
    }
  }

  /** The same row, n times. */
  function Copies<T>(row: T, n: nat): (rows: seq<T>)
    ensures |rows| == n
  {
    seq(n, _ => row)
  }

  lemma {:induction false} TotalCopies<T>(row: T, n: nat, weight: T -> real)
    ensures Total(Copies(row, n), weight) == n as real * weight(row)
  {
    if n > 0 {
      TotalCopies(row, n - 1, weight);
      assert Copies(row, n)[..n - 1] == Copies(row, n - 1);
    }
  }

  lemma {:induction false} CopiesMultiplicity<T>(row: T, n: nat, other: T)
    ensures multiset(Copies(row, n))[other] == if row == other then n else 0
  {
    if n > 0 {
      CopiesMultiplicity(row, n - 1, other);
      assert Copies(row, n) == Copies(row, n - 1) + [row];
    }
  }

  // ----- texts -----

  /** `sep.join(parts)`. */
  function Join(parts: seq<string>, sep: string): string
    requires parts != []
  {
    if |parts| == 1 then parts[0] else parts[0] + sep + Join(parts[1..], sep)
  }
}
