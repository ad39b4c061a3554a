/**
 * Sorting by a byte key, as assembleQuorum, deriveMultisigAddresses, the
 * taproot leaves and combineEntropy all do.
 */
module Order {
  /** Lexicographic comparison: negative, zero or positive. */
  function Compare(a: seq<int>, b: seq<int>): int
    decreases |a|
  {
    if a == [] || b == [] then |a| - |b|
    else if a[0] != b[0] then a[0] - b[0]
    else Compare(a[1..], b[1..])
  }

  /** The loop of compareBytes over the shared length. */
  method CompareLoop(a: seq<int>, b: seq<int>) returns (r: int)
    ensures r == Compare(a, b)
  {
    var length := if |a| < |b| then |a| else |b|;
    for i := 0 to length
      invariant Compare(a, b) == Compare(a[i..], b[i..])
    {
      assert a[i..][0] == a[i] && b[i..][0] == b[i];
      assert a[i..][1..] == a[i + 1..] && b[i..][1..] == b[i + 1..];
      if a[i] != b[i] {
        return a[i] - b[i];
      }
    }
    return |a| - |b|;
  }

  lemma {:induction false} CompareSelf(a: seq<int>)
    ensures Compare(a, a) == 0
    decreases |a|
  {
    if a != [] {
      CompareSelf(a[1..]);
    }
  }

  lemma {:induction false} CompareZero(a: seq<int>, b: seq<int>)
    requires Compare(a, b) == 0
    ensures a == b
    decreases |a|
  {
    if a != [] && b != [] {
      CompareZero(a[1..], b[1..]);
      assert a == [a[0]] + a[1..] && b == [b[0]] + b[1..];
    }
  }

  lemma {:induction false} CompareFlip(a: seq<int>, b: seq<int>)
    ensures Compare(b, a) == -Compare(a, b)
    decreases |a|
  {
    if a != [] && b != [] && a[0] == b[0] {
      CompareFlip(a[1..], b[1..]);
    }
  }

  lemma {:induction false} CompareTransitive(a: seq<int>, b: seq<int>, c: seq<int>)
    requires Compare(a, b) <= 0 && Compare(b, c) <= 0
    ensures Compare(a, c) <= 0
    decreases |a|
  {
    if a != [] && b != [] && c != [] && a[0] == b[0] == c[0] {
      CompareTransitive(a[1..], b[1..], c[1..]);
    }
  }

  /** b goes on where a ends, or holds the larger number where they first differ. */
  predicate BelowAt(a: seq<int>, b: seq<int>, k: nat) {
    && k <= |a| && k <= |b| && a[..k] == b[..k]
    && (|a| == k < |b| || (k < |a| && k < |b| && a[k] < b[k]))
  }

  ghost predicate Below(a: seq<int>, b: seq<int>) {
    exists k :: BelowAt(a, b, k)
  }

  lemma {:induction false} CompareBelow(a: seq<int>, b: seq<int>) returns (k: nat)
    requires Compare(a, b) < 0
    ensures BelowAt(a, b, k)
    decreases |a|
  {
    if a == [] || b == [] || a[0] != b[0] {
      k := 0;
    } else {
      var rest := CompareBelow(a[1..], b[1..]);
      k := rest + 1;
      assert a[..k] == [a[0]] + a[1..][..rest] && b[..k] == [b[0]] + b[1..][..rest];
    }
  }

  lemma {:induction false} BelowCompare(a: seq<int>, b: seq<int>, k: nat)
    requires BelowAt(a, b, k)
    ensures Compare(a, b) < 0
    decreases |a|
  {
    if k > 0 {
      assert a[0] == a[..k][0] && b[0] == b[..k][0];
      assert a[1..][..k - 1] == a[..k][1..] && b[1..][..k - 1] == b[..k][1..];
      BelowCompare(a[1..], b[1..], k - 1);
    }
  }

  /** The comparison is the lexicographic one, smaller first: what it says of two strings, without running it. */
  lemma CompareMeans(a: seq<int>, b: seq<int>)
    ensures Compare(a, b) < 0 <==> Below(a, b)
    ensures Compare(a, b) == 0 <==> a == b
    ensures Compare(a, b) > 0 <==> Below(b, a)
  {
    hide Compare, BelowAt;
    CompareFlip(a, b);
    CompareSelf(a);
    if Compare(a, b) < 0 {
      var k := CompareBelow(a, b);
    } else if Compare(b, a) < 0 {
      var k := CompareBelow(b, a);
    } else {
      CompareZero(a, b);
    }
    if k :| BelowAt(a, b, k) {
      BelowCompare(a, b, k);
    }
    if k :| BelowAt(b, a, k) {
      BelowCompare(b, a, k);
    }
  }

  // ----- sorting

  function Insert<T>(x: T, items: seq<T>, key: T -> seq<int>): seq<T> {
    if items == [] then [x]
    else if Compare(key(x), key(items[0])) <= 0 then [x] + items
    else [items[0]] + Insert(x, items[1..], key)
  }

  /** Array.prototype.sort with the comparison above: stable, and ascending by key. */
  function Sort<T>(items: seq<T>, key: T -> seq<int>): seq<T> {
    if items == [] then [] else Insert(items[0], Sort(items[1..], key), key)
  }

  ghost predicate Ascending<T>(items: seq<T>, key: T -> seq<int>) {
    forall i, j :: 0 <= i < j < |items| ==> Compare(key(items[i]), key(items[j])) <= 0
  }

  /** In ascending order, whatever compares them. */
  ghost predicate InOrder<T>(items: seq<T>, key: T -> seq<int>) {
    forall i, j :: 0 <= i < j < |items| ==> key(items[i]) == key(items[j]) || Below(key(items[i]), key(items[j]))
  }

  /** What is sorted is the same items, in ascending order. */
  lemma SortMeans<T>(items: seq<T>, key: T -> seq<int>)
    ensures InOrder(Sort(items, key), key) && multiset(Sort(items, key)) == multiset(items)
  {
    hide Compare, Below, Sort;
    SortAscending(items, key);
    SortBag(items, key);
    var sorted := Sort(items, key);
    forall i, j | 0 <= i < j < |sorted|
      ensures key(sorted[i]) == key(sorted[j]) || Below(key(sorted[i]), key(sorted[j]))
    {
      CompareMeans(key(sorted[i]), key(sorted[j]));
    }
  }

  lemma HeadTailBag<T>(items: seq<T>)
    requires items != []
    ensures multiset(items) == multiset{items[0]} + multiset(items[1..])
  {
    assert items == [items[0]] + items[1..];
  }

  lemma {:induction false} InsertBag<T>(x: T, items: seq<T>, key: T -> seq<int>)
    ensures multiset(Insert(x, items, key)) == multiset{x} + multiset(items)
  {
    hide Compare;
    if items != [] && Compare(key(x), key(items[0])) > 0 {
      InsertBag(x, items[1..], key);
      HeadTailBag(items);
    }
  }

  lemma {:induction false} SortBag<T>(items: seq<T>, key: T -> seq<int>)
    ensures multiset(Sort(items, key)) == multiset(items)
    ensures |Sort(items, key)| == |items|
  {
    hide Insert;
    if items != [] {
      SortBag(items[1..], key);
      InsertBag(items[0], Sort(items[1..], key), key);
      HeadTailBag(items);
      assert |multiset(Sort(items, key))| == |multiset(items)|;
    }
  }

  lemma BagMember<T>(x: T, a: seq<T>, b: seq<T>)
    requires multiset(a) == multiset(b) && x in a
    ensures x in b
  {
    assert x in multiset(a);
  }

  lemma {:induction false} InsertAscending<T>(x: T, items: seq<T>, key: T -> seq<int>)
    requires Ascending(items, key)
    ensures Ascending(Insert(x, items, key), key)
  {
    hide Compare;
    if items == [] {
    } else if Compare(key(x), key(items[0])) <= 0 {
      var all := [x] + items;
      forall i, j | 0 <= i < j < |all|
        ensures Compare(key(all[i]), key(all[j])) <= 0
      {
        if i == 0 && j > 1 {
          assert all[j] == items[j - 1];
          CompareTransitive(key(x), key(items[0]), key(items[j - 1]));
        }
      }
    } else {
      CompareFlip(key(x), key(items[0]));
      InsertAscending(x, items[1..], key);
      InsertBag(x, items[1..], key);
      var rest := Insert(x, items[1..], key);
      forall j | 0 <= j < |rest|
        ensures Compare(key(items[0]), key(rest[j])) <= 0
      {
        BagMember(rest[j], rest, [x] + items[1..]);
        assert multiset([x] + items[1..]) == multiset{x} + multiset(items[1..]);
        if rest[j] != x {
          var k :| 0 <= k < |items[1..]| && items[1..][k] == rest[j];
          assert items[k + 1] == rest[j];
        }
      }
      ConsAscending(items[0], rest, key);
    }
  }

  lemma ConsAscending<T>(x: T, rest: seq<T>, key: T -> seq<int>)
    requires Ascending(rest, key) && forall j :: 0 <= j < |rest| ==> Compare(key(x), key(rest[j])) <= 0
    ensures Ascending([x] + rest, key)
  {
    hide Compare;
    var all := [x] + rest;
    forall i, j | 0 <= i < j < |all|
      ensures Compare(key(all[i]), key(all[j])) <= 0
    {
      assert all[j] == rest[j - 1];
      assert i > 0 ==> all[i] == rest[i - 1];
    }
  }

  lemma {:induction false} SortAscending<T>(items: seq<T>, key: T -> seq<int>)
    ensures Ascending(Sort(items, key), key)
  {
    hide Insert;
    if items != [] {
      SortAscending(items[1..], key);
      InsertAscending(items[0], Sort(items[1..], key), key);
    }
  }

  /** Items with one key are one item. */
  ghost predicate KeyDecides<T>(items: seq<T>, key: T -> seq<int>) {
    forall x, y :: x in items && y in items && key(x) == key(y) ==> x == y
  }

  /** Any ascending arrangement of the same items is the same sequence. */
  lemma {:induction false} AscendingUnique<T>(a: seq<T>, b: seq<T>, key: T -> seq<int>)
    requires multiset(a) == multiset(b) && Ascending(a, key) && Ascending(b, key) && KeyDecides(a, key)
    ensures a == b
    decreases |a|
  {
    hide Compare, Ascending, KeyDecides;
    assert |multiset(a)| == |multiset(b)|;
    if a != [] {
      FirstSame(a, b, key);
      TailBags(a, b);
      TailAscending(a, key);
      TailAscending(b, key);
      TailDecides(a, key);
      AscendingUnique(a[1..], b[1..], key);
      SameHeadTail(a, b);
    }
  }

  lemma SameHeadTail<T>(a: seq<T>, b: seq<T>)
    requires a != [] && b != [] && a[0] == b[0] && a[1..] == b[1..]
    ensures a == b
  {
    assert a == [a[0]] + a[1..] && b == [b[0]] + b[1..];
  }

  lemma TailBags<T>(a: seq<T>, b: seq<T>)
    requires multiset(a) == multiset(b) && a != [] && b != [] && a[0] == b[0]
    ensures multiset(a[1..]) == multiset(b[1..])
  {
    HeadTailBag(a);
    HeadTailBag(b);
    assert multiset(a[1..]) == multiset(a) - multiset{a[0]};
    assert multiset(b[1..]) == multiset(b) - multiset{b[0]};
  }

  lemma TailDecides<T>(a: seq<T>, key: T -> seq<int>)
    requires KeyDecides(a, key) && a != []
    ensures KeyDecides(a[1..], key)
  {
    forall x | x in a[1..]
      ensures x in a
    {
      var i :| 0 <= i < |a[1..]| && a[1..][i] == x;
      assert a[i + 1] == x;
    }
  }

  lemma TailAscending<T>(a: seq<T>, key: T -> seq<int>)
    requires Ascending(a, key) && a != []
    ensures Ascending(a[1..], key)
  {
    hide Compare;
    assert forall i :: 0 <= i < |a[1..]| ==> a[1..][i] == a[i + 1];
  }

  lemma FirstSame<T>(a: seq<T>, b: seq<T>, key: T -> seq<int>)
    requires multiset(a) == multiset(b) && a != [] && b != []
    requires Ascending(a, key) && Ascending(b, key) && KeyDecides(a, key)
    ensures a[0] == b[0]
  {
    hide Compare;
    BagMember(a[0], a, b);
    BagMember(b[0], b, a);
    FirstLeast(a, b[0], key);
    FirstLeast(b, a[0], key);
    CompareFlip(key(a[0]), key(b[0]));
    CompareZero(key(a[0]), key(b[0]));
    assert a[0] in a && b[0] in a;
  }

  lemma FirstLeast<T>(a: seq<T>, x: T, key: T -> seq<int>)
    requires Ascending(a, key) && x in a
    ensures Compare(key(a[0]), key(x)) <= 0
  {
    hide Compare;
    var i :| 0 <= i < |a| && a[i] == x;
    if i == 0 {
      CompareSelf(key(x));
    }
  }

  /** Sorting forgets the order the items came in. */
  lemma SortIgnoresOrder<T>(a: seq<T>, b: seq<T>, key: T -> seq<int>)
    requires multiset(a) == multiset(b) && KeyDecides(a, key)
    ensures Sort(a, key) == Sort(b, key)
  {
    hide Sort, Ascending;
    SortBag(a, key);
    SortBag(b, key);
    SortAscending(a, key);
    SortAscending(b, key);
    forall x | x in Sort(a, key)
      ensures x in a
    {
      BagMember(x, Sort(a, key), a);
    }
    AscendingUnique(Sort(a, key), Sort(b, key), key);
  }
}
