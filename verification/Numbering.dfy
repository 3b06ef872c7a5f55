/** Row numbering as SQL triggers do it: one more than the largest number in use. */
module Numbering {

  /** COALESCE(MAX(...), 0) over a finite set of numbers. */
  ghost function MaxOrZero(numbers: set<int>): (m: int)
    ensures numbers == {} ==> m == 0
    ensures numbers != {} ==> m in numbers
    ensures forall n <- numbers :: n <= m
  {
    if n :| n in numbers then
      var rest := numbers - {n};
      assert numbers == rest + {n};
      if rest == {} then n
      else var m := MaxOrZero(rest); if n <= m then m else n
    else 0
  }

  /** The numbers in use are exactly 1..n for some n: no gap, nothing below one. */
  ghost predicate Dense(numbers: set<int>) {
    && (forall n <- numbers :: n >= 1)
    && (forall n, k | n in numbers && 1 <= k <= n :: k in numbers)
  }

  lemma DenseIsRange(numbers: set<int>, k: int)
    requires Dense(numbers)
    ensures k in numbers <==> 1 <= k <= MaxOrZero(numbers)
  {
  }

  /** Taking a number out leaves no gap exactly when it is the largest. */
  lemma RemovalKeepsDenseIffLast(numbers: set<int>, k: int)
    requires Dense(numbers) && k in numbers
    ensures Dense(numbers - {k}) <==> k == MaxOrZero(numbers)
  {
    var last := MaxOrZero(numbers);
    if k == last {
      forall n, m | n in numbers - {k} && 1 <= m <= n ensures m in numbers - {k} {
        assert n in numbers && m in numbers;
      }
    } else {
      assert last in numbers - {k} && 1 <= k <= last;
    }
  }

  /** Adding a number leaves no gap exactly when it is the next one. */
  lemma AdditionKeepsDenseIffNext(numbers: set<int>, m: int)
    requires Dense(numbers) && m !in numbers
    ensures Dense(numbers + {m}) <==> m == MaxOrZero(numbers) + 1
  {
    if m > MaxOrZero(numbers) + 1 {
      DenseIsRange(numbers, m - 1);
      assert m in numbers + {m};
    } else {
      DenseIsRange(numbers, m);
    }
  }

  /** Putting one number in the place of another leaves no gap exactly when they are the same. */
  lemma ReplacementKeepsDenseIffSame(numbers: set<int>, n: int, m: int)
    requires Dense(numbers) && n in numbers && m !in numbers - {n}
    ensures Dense(numbers - {n} + {m}) <==> m == n
  {
    if m == n {
      assert numbers - {n} + {m} == numbers;
    } else {
      DenseIsRange(numbers, m);
      assert m in numbers - {n} + {m} && n !in numbers - {n} + {m};
    }
  }

  /** One turn of a loop that computes COALESCE(MAX(...), 0): keep the larger number. */
  lemma MaxOfAdded(numbers: set<int>, n: int)
    ensures MaxOrZero(numbers + {n}) == if numbers == {} || n > MaxOrZero(numbers) then n else MaxOrZero(numbers)
  {
  }
}
