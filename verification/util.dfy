/** Small value-level helpers shared by the store, the ingestion worker and the
    knowledge-base manager: an Option type, sums, decimal rendering of numbers
    and the "consecutive batches of at most n" split used by every batched query. */
module Util {

  datatype Option<+T> = None | Some(value: T)

  datatype Result<+T, +E> = Success(value: T) | Failure(error: E)

  function Min(a: int, b: int): int
  {
    if a <= b then a else b
  }

  /** Sum of a sequence of natural numbers (Python's `sum(...)`). */
  function Sum(xs: seq<nat>): nat
  {
    if |xs| == 0 then 0 else xs[0] + Sum(xs[1..])
  }

  lemma {:induction false} SumZeroIffAllZero(xs: seq<nat>)
    ensures Sum(xs) == 0 <==> forall k :: 0 <= k < |xs| ==> xs[k] == 0
  {
    if |xs| > 0 {
      SumZeroIffAllZero(xs[1..]);
      assert forall k :: 1 <= k < |xs| ==> xs[k] == xs[1..][k - 1];
    }
  }

  predicate IsDigit(c: char)
  {
    '0' <= c <= '9'
  }

  function DigitChar(d: nat): (c: char)
    requires d < 10
    ensures IsDigit(c)
  {
    ['0', '1', '2', '3', '4', '5', '6', '7', '8', '9'][d]
  }

  function DigitValue(c: char): (d: nat)
    requires IsDigit(c)
    ensures d < 10
  {
    (c as int - '0' as int) as nat
  }

  /** Decimal rendering of a natural number, as Python's `str(n)` for n >= 0. */
  function NatToString(n: nat): (s: string)
    ensures |s| > 0
    ensures forall k :: 0 <= k < |s| ==> IsDigit(s[k])
    decreases n
  {
    if n < 10 then [DigitChar(n)] else NatToString(n / 10) + [DigitChar(n % 10)]
  }

  /** Value of a non-empty string of decimal digits. */
  function DigitsValue(s: string): nat
    requires forall k :: 0 <= k < |s| ==> IsDigit(s[k])
    decreases |s|
  {
    if |s| == 0 then 0 else DigitsValue(s[..|s| - 1]) * 10 + DigitValue(s[|s| - 1])
  }

  lemma DigitValueOfDigitChar(d: nat)
    requires d < 10
    ensures DigitValue(DigitChar(d)) == d
  {
  }

  /** Rendering a number and reading it back gives the number. */
  lemma {:induction false} DigitsValueOfNatToString(n: nat)
    ensures DigitsValue(NatToString(n)) == n
    decreases n
  {
    var s := NatToString(n);
    if n < 10 {
      DigitValueOfDigitChar(n);
    } else {
      DigitsValueOfNatToString(n / 10);
      assert s[..|s| - 1] == NatToString(n / 10);
      DigitValueOfDigitChar(n % 10);
    }
  }

  /** Python's `[s[i:i + n] for i in range(0, len(s), n)]`: consecutive slices of
      at most n elements. */
  function Batches<T>(s: seq<T>, n: nat): (r: seq<seq<T>>)
    requires n > 0
    ensures forall b :: b in r ==> 0 < |b| <= n
    ensures Flatten(r) == s
    decreases |s|
  {
    if |s| == 0 then []
    else if |s| <= n then [s]
    else
      var rest := Batches(s[n..], n);
      assert Flatten([s[..n]] + rest) == s[..n] + Flatten(rest);
      [s[..n]] + rest
  }

  /** Concatenation of a sequence of sequences. */
  function Flatten<T>(ss: seq<seq<T>>): seq<T>
  {
    if |ss| == 0 then [] else ss[0] + Flatten(ss[1..])
  }

  /** Python's `for i in range(0, len(s), n)` visits the batch starting at i,
      then continues with the rest of the input from i + n. */
  lemma BatchesFrom<T>(s: seq<T>, n: nat, i: nat)
    requires n > 0 && i < |s|
    ensures var j := if i + n <= |s| then i + n else |s|;
            Batches(s[i..], n) == [s[i..j]] + Batches(s[j..], n)
  {
    var j := if i + n <= |s| then i + n else |s|;
    if i + n < |s| {
      assert s[i..][n..] == s[j..];
      assert s[i..][..n] == s[i..j];
      assert |s[i..]| > n;
    } else {
      assert s[i..j] == s[i..];
      assert s[j..] == [];
      assert |s[i..]| <= n;
    }
  }

  /** The rows of s that satisfy p, in order: a SQL `WHERE` over a table. */
  function Filter<T>(s: seq<T>, p: T -> bool): (r: seq<T>)
    ensures |r| <= |s|
    ensures forall k :: 0 <= k < |r| ==> r[k] in s && p(r[k])
    ensures forall k :: 0 <= k < |s| && p(s[k]) ==> s[k] in r
  {
    if |s| == 0 then [] else (if p(s[0]) then [s[0]] else []) + Filter(s[1..], p)
  }

  /** Two successive filters are one filter by the conjunction. */
  lemma {:induction false} FilterTwice<T>(s: seq<T>, p: T -> bool, q: T -> bool, both: T -> bool)
    requires forall x :: both(x) == (p(x) && q(x))
    ensures Filter(Filter(s, p), q) == Filter(s, both)
  {
    if |s| > 0 {
      FilterTwice(s[1..], p, q, both);
      if p(s[0]) {
        assert Filter(s, p) == [s[0]] + Filter(s[1..], p);
        assert Filter(s, p)[1..] == Filter(s[1..], p);
      } else {
        assert Filter(s, p) == Filter(s[1..], p);
      }
    }
  }

  /** Filters by predicates that agree on the elements of s are equal. */
  lemma {:induction false} FilterCongruent<T>(s: seq<T>, p: T -> bool, q: T -> bool)
    requires forall k :: 0 <= k < |s| ==> p(s[k]) == q(s[k])
    ensures Filter(s, p) == Filter(s, q)
  {
    if |s| > 0 {
      assert forall k :: 0 <= k < |s| - 1 ==> s[1..][k] == s[k + 1];
      FilterCongruent(s[1..], p, q);
    }
  }

  lemma InFilter<T>(s: seq<T>, p: T -> bool, x: T)
    ensures x in Filter(s, p) <==> x in s && p(x)
  {
  }

  /** Filtering a sequence with one more element at the end. */
  lemma {:induction false} FilterSnoc<T>(s: seq<T>, x: T, p: T -> bool)
    ensures Filter(s + [x], p) == Filter(s, p) + (if p(x) then [x] else [])
  {
    if |s| == 0 {
      assert [x][1..] == [];
    } else {
      assert (s + [x])[1..] == s[1..] + [x];
      FilterSnoc(s[1..], x, p);
    }
  }

  /** The elements of s whose key is not listed, in order: what a
      `DELETE ... WHERE key IN (ids)` leaves of a table. */
  function Without<T>(s: seq<T>, key: T -> string, ids: seq<string>): (r: seq<T>)
    ensures |r| <= |s|
  {
    if |s| == 0 then [] else (if key(s[0]) in ids then [] else [s[0]]) + Without(s[1..], key, ids)
  }

  lemma {:induction false} InWithout<T>(s: seq<T>, key: T -> string, ids: seq<string>, x: T)
    ensures x in Without(s, key, ids) <==> x in s && key(x) !in ids
  {
    if |s| > 0 {
      InWithout(s[1..], key, ids, x);
      assert s == [s[0]] + s[1..];
    }
  }

  /** Deleting no key keeps the table. */
  lemma {:induction false} WithoutNothing<T>(s: seq<T>, key: T -> string)
    ensures Without(s, key, []) == s
  {
    if |s| > 0 {
      WithoutNothing(s[1..], key);
      assert s == [s[0]] + s[1..];
    }
  }

  /** Deleting the keys of a, then those of b, deletes the keys of a + b. */
  lemma {:induction false} WithoutTwice<T>(s: seq<T>, key: T -> string, a: seq<string>, b: seq<string>)
    ensures Without(Without(s, key, a), key, b) == Without(s, key, a + b)
  {
    if |s| > 0 {
      WithoutTwice(s[1..], key, a, b);
      if key(s[0]) in a {
        assert key(s[0]) in a + b;
        assert Without(s, key, a) == Without(s[1..], key, a);
      } else {
        assert key(s[0]) in a + b <==> key(s[0]) in b;
        assert Without(s, key, a) == [s[0]] + Without(s[1..], key, a);
        assert Without(s, key, a)[1..] == Without(s[1..], key, a);
      }
    }
  }

  /** Two runs that may raise, one after the other: the first error raised,
      otherwise both results in order. */
  function Join<U, E>(a: Result<seq<U>, E>, b: Result<seq<U>, E>): Result<seq<U>, E>
  {
    if a.Failure? then a else if b.Failure? then b else Success(a.value + b.value)
  }

  lemma JoinAssociative<U, E>(a: Result<seq<U>, E>, b: Result<seq<U>, E>, c: Result<seq<U>, E>)
    ensures Join(Join(a, b), c) == Join(a, Join(b, c))
  {
    if a.Success? && b.Success? && c.Success? {
      assert (a.value + b.value) + c.value == a.value + (b.value + c.value);
    }
  }

  /** `[y for x in s for y in f(x)]` where f may raise: the first error raised
      ends the walk. */
  function TryConcat<T, U, E>(f: T -> Result<seq<U>, E>, s: seq<T>): Result<seq<U>, E>
  {
    if |s| == 0 then Success([]) else Join(f(s[0]), TryConcat(f, s[1..]))
  }

  /** Walking a + b is walking a, then b. */
  lemma {:induction false} TryConcatAppend<T, U, E>(f: T -> Result<seq<U>, E>, a: seq<T>, b: seq<T>)
    ensures TryConcat(f, a + b) == Join(TryConcat(f, a), TryConcat(f, b))
  {
    if |a| == 0 {
      assert a + b == b;
      var tb := TryConcat(f, b);
      if tb.Success? {
        assert [] + tb.value == tb.value;
      }
    } else {
      TryConcatAppend(f, a[1..], b);
      assert (a + b)[0] == a[0];
      assert (a + b)[1..] == a[1..] + b;
      JoinAssociative(f(a[0]), TryConcat(f, a[1..]), TryConcat(f, b));
    }
  }

  /** When f gives one value or raises for each element, walking s raises
      exactly when some element raises (with the error of such an element),
      and otherwise gives f's values position by position. */
  lemma {:induction false} TryConcatSingles<T, U, E>(f: T -> Result<seq<U>, E>, s: seq<T>)
    requires forall k :: 0 <= k < |s| && f(s[k]).Success? ==> |f(s[k]).value| == 1
    ensures TryConcat(f, s).Failure? <==> exists k :: 0 <= k < |s| && f(s[k]).Failure?
    ensures TryConcat(f, s).Failure? ==> exists k :: 0 <= k < |s| && f(s[k]) == TryConcat(f, s)
    ensures var r := TryConcat(f, s);
            r.Success? ==> |r.value| == |s| && forall k :: 0 <= k < |s| ==> r.value[k] == f(s[k]).value[0]
  {
    if |s| > 0 {
      var rest := s[1..];
      forall k | 0 <= k < |rest|
        ensures rest[k] == s[k + 1]
      {
      }
      TryConcatSingles(f, rest);
      var r, h, t := TryConcat(f, s), f(s[0]), TryConcat(f, rest);
      assert r == Join(h, t);
      if h.Failure? {
        assert f(s[0]) == r;
      } else if t.Failure? {
        var k :| 0 <= k < |rest| && f(rest[k]) == t;
        assert f(s[k + 1]) == r;
      } else {
        forall k | 0 <= k < |s|
          ensures f(s[k]).Success?
        {
          if k > 0 {
            assert f(rest[k - 1]).Success?;
          }
        }
        forall k | 0 <= k < |s|
          ensures r.value[k] == f(s[k]).value[0]
        {
          if k > 0 {
            assert r.value[k] == t.value[k - 1];
          }
        }
      }
    }
  }

  /** Position of the first occurrence of c in s. */
  function IndexOf(s: string, c: char): (r: Option<nat>)
    ensures r.Some? ==> r.value < |s| && s[r.value] == c && c !in s[..r.value]
    ensures r.None? ==> c !in s
  {
    if |s| == 0 then None
    else if s[0] == c then Some(0)
    else
      var rest := IndexOf(s[1..], c);
      if rest.None? then None
      else
        assert s[..rest.value + 1] == [s[0]] + s[1..][..rest.value];
        Some(rest.value + 1)
  }
}
