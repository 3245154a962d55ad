/**
 * The document store's query primitives over one collection, a sequence of
 * records in insertion (natural) order: `find_one` (first match), `find`
 * (all matches, each as often as stored) and `sort(key, -1)` (non-increasing key).
 */
module Collections {
  import opened Results

  /** `find_one`: the index of the first record that matches, if any. */
  function FindFirst<T>(s: seq<T>, matches: T -> bool): (r: Option<nat>)
    ensures r.Some? ==> r.value < |s| && matches(s[r.value])
                        && forall j :: 0 <= j < r.value ==> !matches(s[j])
    ensures r.None? <==> forall j :: 0 <= j < |s| ==> !matches(s[j])
  {
    if s == [] then None
    else if matches(s[0]) then Some(0)
    else
      match FindFirst(s[1..], matches)
      case None => None
      case Some(i) => Some(i + 1)
  }

  /** A record appended after records none of which match is the first match. */
  lemma FindFirstAppended<T>(s: seq<T>, x: T, matches: T -> bool)
    requires forall j :: 0 <= j < |s| ==> !matches(s[j])
    requires matches(x)
    ensures FindFirst(s + [x], matches) == Some(|s|)
  {
    assert (s + [x])[|s|] == x;
    assert forall j :: 0 <= j < |s| ==> (s + [x])[j] == s[j];
  }

  /** `find`: exactly the matching records, each as often as it is stored. */
  function Filter<T(!new)>(s: seq<T>, matches: T -> bool): (r: seq<T>)
    ensures forall x :: multiset(r)[x] == if matches(x) then multiset(s)[x] else 0
    ensures forall i :: 0 <= i < |r| ==> matches(r[i])
  {
    if s == [] then []
    else if matches(s[0]) then
      assert s == [s[0]] + s[1..];
      [s[0]] + Filter(s[1..], matches)
    else
      assert s == [s[0]] + s[1..];
      Filter(s[1..], matches)
  }

  /** `delete_one`: removing the record at `i` removes one occurrence of it and nothing else. */
  lemma RemoveAt<T>(s: seq<T>, i: nat)
    requires i < |s|
    ensures multiset(s[..i] + s[i + 1..]) == multiset(s) - multiset{s[i]}
  {
    assert s == s[..i] + [s[i]] + s[i + 1..];
  }

  /** Rearranging records keeps every one of them matching. */
  lemma PermutationKeepsMatching<T>(s: seq<T>, r: seq<T>, matches: T -> bool)
    requires multiset(r) == multiset(s)
    requires forall i :: 0 <= i < |s| ==> matches(s[i])
    ensures forall i :: 0 <= i < |r| ==> matches(r[i])
  {
    forall i | 0 <= i < |r| ensures matches(r[i]) {
      assert r[i] in multiset(s);
      var k :| 0 <= k < |s| && s[k] == r[i];
    }
  }

  /**
   * Two listings that each hold exactly the matching records of a collection,
   * before and after one record is appended to it: the second has that record
   * in addition when it matches, and nothing else changes.
   */
  lemma ListingAfterAppend<T(!new)>(before: seq<T>, after: seq<T>, s: seq<T>, x: T, matches: T -> bool)
    requires forall y :: multiset(before)[y] == if matches(y) then multiset(s)[y] else 0
    requires forall y :: multiset(after)[y] == if matches(y) then multiset(s + [x])[y] else 0
    ensures multiset(after) == multiset(before) + if matches(x) then multiset{x} else multiset{}
  {
    assert multiset(s + [x]) == multiset(s) + multiset{x};
    forall y ensures multiset(after)[y] == (multiset(before) + if matches(x) then multiset{x} else multiset{})[y] {
    }
  }

  /**
   * Sort keys in the store's comparison order: a missing field sorts below
   * every boolean, and booleans below every date (false < true).
   */
  datatype SortKey = Missing | BoolKey(b: bool) | DateKey(t: int)

  function Rank(k: SortKey): int {
    match k
    case Missing => 0
    case BoolKey(_) => 1
    case DateKey(_) => 2
  }

  function Weight(k: SortKey): int {
    match k
    case Missing => 0
    case BoolKey(b) => if b then 1 else 0
    case DateKey(t) => t
  }

  predicate KeyLe(a: SortKey, b: SortKey) {
    Rank(a) < Rank(b) || (Rank(a) == Rank(b) && Weight(a) <= Weight(b))
  }

  /** KeyLe is a total order on keys. */
  lemma KeyLeTotalOrder(a: SortKey, b: SortKey, c: SortKey)
    ensures KeyLe(a, a)
    ensures KeyLe(a, b) || KeyLe(b, a)
    ensures KeyLe(a, b) && KeyLe(b, a) ==> a == b
    ensures KeyLe(a, b) && KeyLe(b, c) ==> KeyLe(a, c)
  {
  }

  /** Keys never increase along the sequence. */
  ghost predicate SortedDesc<T>(s: seq<T>, key: T -> SortKey) {
    forall i, j :: 0 <= i < j < |s| ==> KeyLe(key(s[j]), key(s[i]))
  }

  /** Every key of a sorted sequence is at most its first key. */
  lemma HeadIsGreatest<T>(s: seq<T>, key: T -> SortKey, j: nat)
    requires SortedDesc(s, key) && j < |s|
    ensures KeyLe(key(s[j]), key(s[0]))
  {
    if j > 0 {
      assert KeyLe(key(s[j]), key(s[0]));
    } else {
      KeyLeTotalOrder(key(s[0]), key(s[0]), key(s[0]));
    }
  }

  /** Places `x` into a sequence already in non-increasing key order. */
  function Insert<T>(x: T, s: seq<T>, key: T -> SortKey): (r: seq<T>)
    requires SortedDesc(s, key)
    ensures SortedDesc(r, key)
    ensures multiset(r) == multiset(s) + multiset{x}
  {
    if s == [] || KeyLe(key(s[0]), key(x)) then
      InsertFront(x, s, key);
      [x] + s
    else
      assert s == [s[0]] + s[1..];
      var rest := Insert(x, s[1..], key);
      InsertBehind(x, s, rest, key);
      [s[0]] + rest
  }

  lemma InsertFront<T>(x: T, s: seq<T>, key: T -> SortKey)
    requires SortedDesc(s, key)
    requires s == [] || KeyLe(key(s[0]), key(x))
    ensures SortedDesc([x] + s, key)
  {
    forall j | 0 <= j < |s| ensures KeyLe(key(s[j]), key(x)) {
      HeadIsGreatest(s, key, j);
      KeyLeTotalOrder(key(s[j]), key(s[0]), key(x));
    }
    var t := [x] + s;
    forall a, b | 0 <= a < b < |t| ensures KeyLe(key(t[b]), key(t[a])) {
      assert t[b] == s[b - 1];
      if a > 0 {
        assert t[a] == s[a - 1];
      }
    }
  }

  lemma InsertBehind<T>(x: T, s: seq<T>, rest: seq<T>, key: T -> SortKey)
    requires SortedDesc(s, key) && s != [] && !KeyLe(key(s[0]), key(x))
    requires SortedDesc(rest, key) && multiset(rest) == multiset(s[1..]) + multiset{x}
    ensures SortedDesc([s[0]] + rest, key)
  {
    forall j | 0 <= j < |rest| ensures KeyLe(key(rest[j]), key(s[0])) {
      assert rest[j] in multiset(rest);
      if rest[j] == x {
        KeyLeTotalOrder(key(x), key(s[0]), key(x));
      } else {
        assert rest[j] in multiset(s[1..]);
        var k :| 0 <= k < |s[1..]| && s[1..][k] == rest[j];
        assert s[k + 1] == rest[j];
      }
    }
    var t := [s[0]] + rest;
    forall a, b | 0 <= a < b < |t| ensures KeyLe(key(t[b]), key(t[a])) {
      assert t[b] == rest[b - 1];
      if a > 0 {
        assert t[a] == rest[a - 1];
      }
    }
  }

  /** `sort(key, -1)`: the same records, rearranged into non-increasing key order. */
  function SortDesc<T>(s: seq<T>, key: T -> SortKey): (r: seq<T>)
    ensures SortedDesc(r, key)
    ensures multiset(r) == multiset(s)
  {
    if s == [] then []
    else
      assert s == [s[0]] + s[1..];
      Insert(s[0], SortDesc(s[1..], key), key)
  }
}
