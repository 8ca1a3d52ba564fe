/**
 * The order in which `for (const key in obj)` visits the own string keys of an ordinary
 * JavaScript object that has no enumerable inherited keys (ECMAScript's
 * OrdinaryOwnPropertyKeys): first every key that is an array index, in ascending numeric
 * order, then every other key in the order the keys were created.
 */
module PropertyOrder {
  import opened Domain

  /** The largest array index, 2^32 - 2. */
  const MaxArrayIndex: nat := 0xFFFF_FFFE

  predicate IsDigit(c: char) {
    '0' <= c <= '9'
  }

  predicate AllDigits(s: string) {
    forall i :: 0 <= i < |s| ==> IsDigit(s[i])
  }

  /** The number a string of decimal digits denotes. */
  function DigitsValue(s: string): nat
    requires AllDigits(s)
  {
    if s == [] then 0 else DigitsValue(s[..|s| - 1]) * 10 + (s[|s| - 1] as int - '0' as int)
  }

  /**
   * An array index: the canonical decimal form (no leading zero, no sign) of an integer
   * from 0 to 2^32 - 2.
   */
  predicate IsArrayIndex(key: string) {
    |key| > 0 && AllDigits(key) && (key[0] == '0' ==> |key| == 1) && DigitsValue(key) <= MaxArrayIndex
  }

  /** The number a key denotes when it is all digits (only consulted for array indices). */
  function NumericValue(key: string): nat {
    if AllDigits(key) then DigitsValue(key) else 0
  }

  /** Keys in ascending order of `value`. */
  ghost predicate SortedBy(keys: seq<string>, value: string -> nat) {
    forall i, j :: 0 <= i < j < |keys| ==> value(keys[i]) <= value(keys[j])
  }

  /** Puts a key into its place in a list sorted by `value`, after the keys of equal value. */
  function InsertBy(key: string, keys: seq<string>, value: string -> nat): (r: seq<string>)
    requires SortedBy(keys, value)
    ensures SortedBy(r, value)
    ensures multiset(r) == multiset(keys) + multiset{key}
  {
    if keys == [] || value(key) < value(keys[0]) then
      assert forall k :: 0 <= k < |keys| ==> value(key) <= value(keys[k]) by {
        forall k | 0 < k < |keys|
          ensures value(keys[0]) <= value(keys[k])
        {
          SortedAt(keys, value, 0, k);
        }
      }
      ConsSorted(key, keys, value);
      [key] + keys
    else
      var rest := InsertBy(key, keys[1..], value);
      assert keys == [keys[0]] + keys[1..];
      SortedTail(keys, value);
      AtLeast(value(keys[0]), key, keys[1..], rest, value);
      ConsSorted(keys[0], rest, value);
      [keys[0]] + rest
  }

  lemma SortedAt(keys: seq<string>, value: string -> nat, i: nat, j: nat)
    requires SortedBy(keys, value) && i < j < |keys|
    ensures value(keys[i]) <= value(keys[j])
  {
  }

  /** The first key of a sorted list is a lower bound of the rest, which is sorted too. */
  lemma SortedTail(keys: seq<string>, value: string -> nat)
    requires SortedBy(keys, value) && keys != []
    ensures SortedBy(keys[1..], value)
    ensures forall k :: 0 <= k < |keys[1..]| ==> value(keys[0]) <= value(keys[1..][k])
  {
    forall i, j | 0 <= i < j < |keys[1..]|
      ensures value(keys[1..][i]) <= value(keys[1..][j])
    {
      SortedAt(keys, value, i + 1, j + 1);
    }
    forall k | 0 <= k < |keys[1..]|
      ensures value(keys[0]) <= value(keys[1..][k])
    {
      SortedAt(keys, value, 0, k + 1);
    }
  }

  /** A lower bound put in front of a sorted list keeps it sorted. */
  lemma ConsSorted(key: string, keys: seq<string>, value: string -> nat)
    requires SortedBy(keys, value)
    requires forall k :: 0 <= k < |keys| ==> value(key) <= value(keys[k])
    ensures SortedBy([key] + keys, value)
  {
    var r := [key] + keys;
    forall i, j | 0 <= i < j < |r|
      ensures value(r[i]) <= value(r[j])
    {
      assert r[j] == keys[j - 1];
      if i > 0 {
        assert r[i] == keys[i - 1];
        SortedAt(keys, value, i - 1, j - 1);
      }
    }
  }

  /** A lower bound of a key and of a list is a lower bound of any permutation of both. */
  lemma AtLeast(bound: nat, key: string, keys: seq<string>, rest: seq<string>, value: string -> nat)
    requires bound <= value(key)
    requires forall k :: 0 <= k < |keys| ==> bound <= value(keys[k])
    requires multiset(rest) == multiset(keys) + multiset{key}
    ensures forall k :: 0 <= k < |rest| ==> bound <= value(rest[k])
  {
    forall k | 0 <= k < |rest|
      ensures bound <= value(rest[k])
    {
      assert rest[k] in multiset(rest);
      if rest[k] != key {
        assert rest[k] in multiset(keys);
        var j :| 0 <= j < |keys| && keys[j] == rest[k];
      }
    }
  }

  /**
   * Insertion sort by `value`. The order among keys of equal value is left open; distinct
   * array-index keys never share a value.
   */
  function SortBy(keys: seq<string>, value: string -> nat): (r: seq<string>)
    ensures SortedBy(r, value)
    ensures multiset(r) == multiset(keys)
  {
    if keys == [] then []
    else
      assert keys == [keys[0]] + keys[1..];
      InsertBy(keys[0], SortBy(keys[1..], value), value)
  }

  /** The keys of `order` that are (`index`) or are not (`!index`) array indices, in their order. */
  function KeysWhere(order: seq<string>, index: bool): (r: seq<string>)
    ensures forall x :: x in r ==> x in order
    ensures forall k :: 0 <= k < |order| && IsArrayIndex(order[k]) == index ==> order[k] in r
    ensures forall k :: 0 <= k < |r| ==> IsArrayIndex(r[k]) == index
    ensures |r| <= |order|
  {
    if order == [] then []
    else if IsArrayIndex(order[0]) == index then [order[0]] + KeysWhere(order[1..], index)
    else KeysWhere(order[1..], index)
  }

  /** Selecting keys by kind distributes over concatenation, so it keeps their relative order. */
  lemma {:induction false} KeysWhereAppend(a: seq<string>, b: seq<string>, index: bool)
    ensures KeysWhere(a + b, index) == KeysWhere(a, index) + KeysWhere(b, index)
  {
    if a == [] {
      assert a + b == b;
    } else {
      assert (a + b)[0] == a[0];
      assert (a + b)[1..] == a[1..] + b;
      KeysWhereAppend(a[1..], b, index);
    }
  }

  /** A list of keys all of one kind is its own selection. */
  lemma {:induction false} KeysWhereAll(keys: seq<string>, index: bool)
    requires forall k :: 0 <= k < |keys| ==> IsArrayIndex(keys[k]) == index
    ensures KeysWhere(keys, index) == keys
    ensures KeysWhere(keys, !index) == []
  {
    if keys != [] {
      KeysWhereAll(keys[1..], index);
    }
  }

  /** Splitting a key list by kind loses and adds nothing. */
  lemma {:induction false} KeysWhereSplit(order: seq<string>)
    ensures multiset(KeysWhere(order, true)) + multiset(KeysWhere(order, false)) == multiset(order)
  {
    if order != [] {
      KeysWhereSplit(order[1..]);
      assert order == [order[0]] + order[1..];
    }
  }

  /** A list of sorted array indices followed by other keys puts every array index first, in ascending order. */
  lemma IndexKeysFirst(sorted: seq<string>, others: seq<string>)
    requires SortedBy(sorted, NumericValue)
    requires forall k :: 0 <= k < |sorted| ==> IsArrayIndex(sorted[k])
    requires forall k :: 0 <= k < |others| ==> !IsArrayIndex(others[k])
    ensures var e := sorted + others;
      forall i, j :: 0 <= i < j < |e| && IsArrayIndex(e[j]) ==>
        IsArrayIndex(e[i]) && NumericValue(e[i]) <= NumericValue(e[j])
  {
    var e := sorted + others;
    assert forall k :: |sorted| <= k < |e| ==> e[k] == others[k - |sorted|];
    forall i, j | 0 <= i < j < |e| && IsArrayIndex(e[j])
      ensures IsArrayIndex(e[i]) && NumericValue(e[i]) <= NumericValue(e[j])
    {
      assert e[i] == sorted[i] && e[j] == sorted[j];
    }
  }

  /** A rearrangement of the array-index keys holds array indices only. */
  lemma RearrangedIndexKeys(order: seq<string>, sorted: seq<string>)
    requires multiset(sorted) == multiset(KeysWhere(order, true))
    ensures forall k :: 0 <= k < |sorted| ==> IsArrayIndex(sorted[k])
  {
    forall k | 0 <= k < |sorted|
      ensures IsArrayIndex(sorted[k])
    {
      assert sorted[k] in multiset(KeysWhere(order, true));
    }
  }

  /**
   * Array indices in ascending order, then the other keys in creation order, visit each
   * key of `order` exactly as often as it occurs.
   */
  lemma {:induction false} IndexKeysThenOthers(order: seq<string>)
    ensures var e := SortBy(KeysWhere(order, true), NumericValue) + KeysWhere(order, false);
      && multiset(e) == multiset(order)
      && (forall x :: x in e <==> x in order)
      && (forall i, j :: 0 <= i < j < |e| && IsArrayIndex(e[j]) ==>
            IsArrayIndex(e[i]) && NumericValue(e[i]) <= NumericValue(e[j]))
      && KeysWhere(e, false) == KeysWhere(order, false)
  {
    var sorted := SortBy(KeysWhere(order, true), NumericValue);
    var others := KeysWhere(order, false);
    KeysWhereSplit(order);
    RearrangedIndexKeys(order, sorted);
    IndexKeysFirst(sorted, others);
    KeysWhereAll(sorted, true);
    KeysWhereAll(others, false);
    KeysWhereAppend(sorted, others, false);
    assert forall x :: x in sorted + others <==> x in multiset(sorted + others);
  }

  /**
   * The visiting order of `for ... in` over an object whose own keys were created in the
   * order `order`: every key exactly as often as it exists, array indices first and in
   * ascending numeric order, then the other keys in the order they were created.
   */
  function Enumeration(order: seq<string>): (e: seq<string>)
    ensures multiset(e) == multiset(order)
    ensures forall x :: x in e <==> x in order
    ensures forall i, j :: 0 <= i < j < |e| && IsArrayIndex(e[j]) ==>
      IsArrayIndex(e[i]) && NumericValue(e[i]) <= NumericValue(e[j])
    ensures KeysWhere(e, false) == KeysWhere(order, false)
  {
    IndexKeysThenOthers(order);
    SortBy(KeysWhere(order, true), NumericValue) + KeysWhere(order, false)
  }
}
