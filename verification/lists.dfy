/** Applying a function that may refuse to every item of a list. */
module Lists {
  import opened Text

  /** Array.prototype.map with a callback that may throw: the first refusal wins. */
  function MapOk<A, B, E>(items: seq<A>, f: A -> Result<B, E>): (r: Result<seq<B>, E>)
    ensures r.Ok? ==> |r.value| == |items|
  {
    if items == [] then Ok([])
    else
      var first :- f(items[0]);
      var rest :- MapOk(items[1..], f);
      Ok([first] + rest)
  }

  /** Mapping succeeds exactly when every item does, and item by item. */
  lemma {:induction false} MapOkEach<A, B, E>(items: seq<A>, f: A -> Result<B, E>)
    ensures MapOk(items, f).Ok? <==> forall i :: 0 <= i < |items| ==> f(items[i]).Ok?
    ensures MapOk(items, f).Ok? ==> forall i :: 0 <= i < |items| ==> MapOk(items, f).value[i] == f(items[i]).value
  {
    if items != [] {
      MapOkEach(items[1..], f);
      assert forall i :: 0 <= i < |items[1..]| ==> items[1..][i] == items[i + 1];
    }
  }

  lemma {:induction false} MapOkConcat<A, B, E>(a: seq<A>, b: seq<A>, f: A -> Result<B, E>)
    requires MapOk(a, f).Ok? && MapOk(b, f).Ok?
    ensures MapOk(a + b, f) == Ok(MapOk(a, f).value + MapOk(b, f).value)
  {
    if a == [] {
      assert a + b == b;
      assert [] + MapOk(b, f).value == MapOk(b, f).value;
    } else {
      MapOkConcat(a[1..], b, f);
      assert (a + b)[1..] == a[1..] + b;
      Regroup([f(a[0]).value], MapOk(a[1..], f).value, MapOk(b, f).value);
    }
  }

  lemma SplitAround<T>(x: T, b: seq<T>) returns (i: nat)
    requires x in b
    ensures i < |b| && b[i] == x && b == b[..i] + ([x] + b[i + 1..])
    ensures multiset(b) == multiset{x} + multiset(b[..i] + b[i + 1..])
  {
    i :| 0 <= i < |b| && b[i] == x;
    assert b == b[..i] + ([x] + b[i + 1..]);
  }

  lemma SomeMember<T>(a: seq<T>, b: seq<T>)
    requires multiset(a) == multiset(b) && a != []
    ensures a[0] in b
  {
    assert a[0] in multiset(a);
  }

  lemma RestBag<T>(a: seq<T>, rest: seq<T>)
    requires a != [] && multiset(a) == multiset{a[0]} + multiset(rest)
    ensures multiset(a[1..]) == multiset(rest)
  {
    assert a == [a[0]] + a[1..];
    assert multiset(a[1..]) == multiset(a) - multiset{a[0]};
    assert multiset(rest) == multiset(a) - multiset{a[0]};
  }

  lemma MiddleBag<T>(x: T, front: seq<T>, back: seq<T>)
    ensures multiset(front + ([x] + back)) == multiset{x} + multiset(front + back)
  {
  }

  /** Mapping the same items in another order succeeds alike, with the same results in another order. */
  lemma {:induction false} MapOkBag<A, B, E>(a: seq<A>, b: seq<A>, f: A -> Result<B, E>)
    requires multiset(a) == multiset(b) && MapOk(a, f).Ok?
    ensures MapOk(b, f).Ok? && multiset(MapOk(b, f).value) == multiset(MapOk(a, f).value)
    decreases |a|
  {
    assert |multiset(a)| == |multiset(b)|;
    if a != [] {
      SomeMember(a, b);
      var i := SplitAround(a[0], b);
      var front, back := b[..i], b[i + 1..];
      RestBag(a, front + back);
      MapOkBag(a[1..], front + back, f);
      MapAround(a[0], front, back, f);
      assert MapOk(a, f).value == [f(a[0]).value] + MapOk(a[1..], f).value;
    }
  }

  lemma MapAround<A, B, E>(x: A, front: seq<A>, back: seq<A>, f: A -> Result<B, E>)
    requires f(x).Ok? && MapOk(front + back, f).Ok?
    ensures var whole := MapOk(front + ([x] + back), f);
            whole.Ok? && multiset(whole.value) == multiset{f(x).value} + multiset(MapOk(front + back, f).value)
  {
    MapOkEach(front + back, f);
    MapOkEach(front, f);
    MapOkEach(back, f);
    assert forall i :: 0 <= i < |front| ==> front[i] == (front + back)[i];
    assert forall i :: 0 <= i < |back| ==> back[i] == (front + back)[|front| + i];
    hide MapOk;
    MapOkConcat(front, back, f);
    MapOkOne(x, back, f);
    MapOkConcat(front, [x] + back, f);
    MiddleBag(f(x).value, MapOk(front, f).value, MapOk(back, f).value);
  }

  lemma MapOkOne<A, B, E>(x: A, back: seq<A>, f: A -> Result<B, E>)
    requires f(x).Ok? && MapOk(back, f).Ok?
    ensures MapOk([x] + back, f) == Ok([f(x).value] + MapOk(back, f).value)
  {
    assert ([x] + back)[1..] == back;
  }

  lemma TwiceInBag<T>(items: seq<T>, i: nat, j: nat)
    requires i < j < |items| && items[i] == items[j]
    ensures multiset(items)[items[i]] >= 2
  {
    var x := items[i];
    assert items == items[..i] + [x] + items[i + 1..j] + [x] + items[j + 1..];
  }

  lemma OnceInBag<T>(items: seq<T>, at: nat)
    requires at < |items| && items[at] !in items[..at] && items[at] !in items[at + 1..]
    ensures multiset(items)[items[at]] == 1
  {
    assert items == items[..at] + [items[at]] + items[at + 1..];
  }
}
