/**
 * The few JavaScript built-ins the parameter changes editor relies on, stated
 * as functions: the order `Array.prototype.sort()` puts strings in, the
 * sorted key list of an object, `Number` to string conversion, the own
 * properties of an array and `Array.prototype.splice(index, 1)`.
 */
module JsBuiltins {

  // ---------------------------------------------------------------------------
  // String order used by the default `sort()` comparator
  // ---------------------------------------------------------------------------

  /** `a` sorts no later than `b`: compared character by character, a proper prefix first. */
  predicate LexLe(a: string, b: string)
  {
    if a == [] then true
    else if b == [] then false
    else if a[0] != b[0] then a[0] < b[0]
    else LexLe(a[1..], b[1..])
  }

  /** `a` sorts strictly before `b`. */
  predicate LexLt(a: string, b: string)
  {
    LexLe(a, b) && a != b
  }

  lemma {:induction false} LexLeReflexive(a: string)
    ensures LexLe(a, a)
  {
    if a != [] {
      LexLeReflexive(a[1..]);
    }
  }

  lemma {:induction false} LexLeAntisymmetric(a: string, b: string)
    requires LexLe(a, b) && LexLe(b, a)
    ensures a == b
  {
    if a != [] && b != [] {
      LexLeAntisymmetric(a[1..], b[1..]);
      assert a == [a[0]] + a[1..] && b == [b[0]] + b[1..];
    }
  }

  lemma {:induction false} LexLeTransitive(a: string, b: string, c: string)
    requires LexLe(a, b) && LexLe(b, c)
    ensures LexLe(a, c)
  {
    if a != [] && b != [] && c != [] && a[0] == b[0] && b[0] == c[0] {
      LexLeTransitive(a[1..], b[1..], c[1..]);
    }
  }

  lemma {:induction false} LexLeTotal(a: string, b: string)
    ensures LexLe(a, b) || LexLe(b, a)
  {
    if a != [] && b != [] && a[0] == b[0] {
      LexLeTotal(a[1..], b[1..]);
    }
  }

  /** `m` is the first of `s` in sort order. */
  predicate IsLeast(m: string, s: set<string>)
  {
    m in s && forall x :: x in s ==> LexLe(m, x)
  }

  /** Every finite non-empty set of strings has a first element. */
  lemma {:induction false} LeastExists(s: set<string>)
    requires s != {}
    ensures exists m :: IsLeast(m, s)
    decreases |s|
  {
    var y :| y in s;
    if s == {y} {
      LexLeReflexive(y);
      assert IsLeast(y, s);
    } else {
      LeastExists(s - {y});
      var m :| IsLeast(m, s - {y});
      if LexLe(y, m) {
        forall x | x in s
          ensures LexLe(y, x)
        {
          if x == y {
            LexLeReflexive(y);
          } else {
            LexLeTransitive(y, m, x);
          }
        }
        assert IsLeast(y, s);
      } else {
        LexLeTotal(y, m);
        assert IsLeast(m, s);
      }
    }
  }

  lemma LeastUnique(s: set<string>)
    ensures forall m1, m2 :: IsLeast(m1, s) && IsLeast(m2, s) ==> m1 == m2
  {
    forall m1, m2 | IsLeast(m1, s) && IsLeast(m2, s)
      ensures m1 == m2
    {
      LexLeAntisymmetric(m1, m2);
    }
  }

  /** The first element of a non-empty set of strings in sort order. */
  function Least(s: set<string>): (m: string)
    requires s != {}
    ensures IsLeast(m, s)
  {
    LeastExists(s);
    LeastUnique(s);
    var m :| IsLeast(m, s);
    m
  }

  /** Strictly ascending, hence without duplicates. */
  predicate StrictlySorted(r: seq<string>)
  {
    forall i, j :: 0 <= i < j < |r| ==> LexLt(r[i], r[j])
  }

  /** `Object.keys(o).sort()` for an object whose own keys are `s`. */
  function SortedKeys(s: set<string>): (r: seq<string>)
    ensures |r| == |s|
    ensures forall x :: x in r <==> x in s
    ensures StrictlySorted(r)
  {
    if s == {} then []
    else
      var m := Least(s);
      var rest := SortedKeys(s - {m});
      LeastThenSorted(m, rest, s);
      [m] + rest
  }

  /** Putting the first element of `s` before a sorted list of the others gives a sorted list. */
  lemma LeastThenSorted(m: string, rest: seq<string>, s: set<string>)
    requires IsLeast(m, s) && StrictlySorted(rest)
    requires forall x :: x in rest ==> x in s - {m}
    ensures StrictlySorted([m] + rest)
  {
    var r := [m] + rest;
    forall i, j | 0 <= i < j < |r|
      ensures LexLt(r[i], r[j])
    {
      assert r[j] == rest[j - 1] && rest[j - 1] in rest;
      if i > 0 {
        assert r[i] == rest[i - 1];
      }
    }
  }

  // ---------------------------------------------------------------------------
  // Number to string
  // ---------------------------------------------------------------------------

  predicate IsDigit(c: char)
  {
    '0' <= c <= '9'
  }

  function DigitChar(d: nat): (c: char)
    requires d < 10
    ensures IsDigit(c) && c as int - '0' as int == d
  {
    ('0' as int + d) as char
  }

  /** Decimal text of a non-negative integer, as `String(n)` gives it. */
  function NatToString(n: nat): (s: string)
    ensures |s| > 0
    ensures forall i :: 0 <= i < |s| ==> IsDigit(s[i])
  {
    if n < 10 then [DigitChar(n)] else NatToString(n / 10) + [DigitChar(n % 10)]
  }

  /** The value of a string of decimal digits. */
  function DigitsValue(s: string): nat
    requires forall i :: 0 <= i < |s| ==> IsDigit(s[i])
  {
    if s == [] then 0
    else
      assert IsDigit(s[|s| - 1]);
      DigitsValue(s[..|s| - 1]) * 10 + (s[|s| - 1] as int - '0' as int)
  }

  /** Reading the decimal text back gives the number. */
  lemma {:induction false} NatToStringRoundTrip(n: nat)
    ensures DigitsValue(NatToString(n)) == n
  {
    if n >= 10 {
      NatToStringRoundTrip(n / 10);
      var s := NatToString(n);
      assert s[..|s| - 1] == NatToString(n / 10);
    }
  }

  /** Decimal text of an integer, with a leading '-' when negative (`'' + i` in JavaScript for |i| < 10^21). */
  function IntToString(i: int): (s: string)
  {
    if i < 0 then "-" + NatToString(-i) else NatToString(i)
  }

  /** Different integers have different decimal texts. */
  lemma IntToStringInjective(i: int, j: int)
    requires IntToString(i) == IntToString(j)
    ensures i == j
  {
    SignIsFirstChar(i);
    SignIsFirstChar(j);
    if i < 0 {
      assert NatToString(-i) == IntToString(i)[1..];
      assert NatToString(-j) == IntToString(j)[1..];
      NatToStringRoundTrip(-i);
      NatToStringRoundTrip(-j);
    } else {
      NatToStringRoundTrip(i);
      NatToStringRoundTrip(j);
    }
  }

  /** The text of an integer starts with '-' exactly when the integer is negative. */
  lemma SignIsFirstChar(i: int)
    ensures |IntToString(i)| > 0
    ensures IntToString(i)[0] == '-' <==> i < 0
  {
    if i >= 0 {
      assert IsDigit(NatToString(i)[0]);
    }
  }

  // ---------------------------------------------------------------------------
  // Arrays
  // ---------------------------------------------------------------------------

  /**
   * `arr.hasOwnProperty(key)` for a dense array of `length` elements: its own
   * properties are "length" and the index strings "0" .. String(length - 1).
   */
  predicate ArrayHasOwnProperty(length: nat, key: string)
  {
    key == "length" || exists k :: 0 <= k < length && NatToString(k) == key
  }

  /** The position `arr.splice(index, 1)` removes at, clamped into 0 .. |arr|. */
  function SpliceStart(length: nat, index: int): (start: nat)
    ensures start <= length
    ensures 0 <= index <= length ==> start == index
    ensures index > length ==> start == length
    ensures index < 0 ==> start == if length + index < 0 then 0 else length + index
  {
    if index < 0 then (if length + index < 0 then 0 else length + index)
    else if index > length then length
    else index
  }

  /** The array that `arr.splice(index, 1)` leaves behind. */
  function SpliceOne<T>(s: seq<T>, index: int): (r: seq<T>)
  {
    var start := SpliceStart(|s|, index);
    if start < |s| then s[..start] + s[start + 1..] else s
  }

  /** Removing at a position inside the array drops exactly that element and keeps the rest in order. */
  lemma SpliceOneInRange<T>(s: seq<T>, index: int)
    requires 0 <= index < |s|
    ensures |SpliceOne(s, index)| == |s| - 1
    ensures forall k :: 0 <= k < index ==> SpliceOne(s, index)[k] == s[k]
    ensures forall k :: index <= k < |s| - 1 ==> SpliceOne(s, index)[k] == s[k + 1]
    ensures multiset(SpliceOne(s, index)) + multiset{s[index]} == multiset(s)
  {
    assert s == s[..index] + [s[index]] + s[index + 1..];
  }

  /** A position at or past the end removes nothing. */
  lemma SpliceOnePastEnd<T>(s: seq<T>, index: int)
    requires index >= |s|
    ensures SpliceOne(s, index) == s
  {
  }

  /** A negative position counts from the end, and removes the first element when it reaches past the start. */
  lemma SpliceOneNegative<T>(s: seq<T>, index: int)
    requires index < 0 && |s| > 0
    ensures var at := if |s| + index < 0 then 0 else |s| + index;
      SpliceOne(s, index) == s[..at] + s[at + 1..]
  {
  }
}
