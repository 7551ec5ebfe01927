/** `sortHostListItemsByName`: items are put in a map keyed by lower-cased name, the names are sorted, and the
    items written back through the map. */
module HostSort {

  datatype Item<T> = Item(name: string, rest: T)

  type Lower = string -> string

  function Names<T>(lower: Lower, items: seq<Item<T>>): seq<string> {
    seq(|items|, i requires 0 <= i < |items| => lower(items[i].name))
  }

  /** The entry the map ends up with for `name`: the last item that has it. */
  function LastWith<T>(lower: Lower, items: seq<Item<T>>, name: string): (r: Item<T>)
    requires name in Names(lower, items)
    ensures r in items && lower(r.name) == name
  {
    var n := |items| - 1;
    if lower(items[n].name) == name then items[n]
    else
      assert Names(lower, items) == Names(lower, items[..n]) + [lower(items[n].name)];
      LastWith(lower, items[..n], name)
  }

  /** The items read off the map in the order of `sorted`. */
  function Rearranged<T>(lower: Lower, items: seq<Item<T>>, sorted: seq<string>): seq<Item<T>>
    requires multiset(sorted) == multiset(Names(lower, items))
  {
    SameElements(sorted, Names(lower, items));
    seq(|sorted|, i requires 0 <= i < |sorted| => LastWith(lower, items, sorted[i]))
  }

  lemma SameElements(a: seq<string>, b: seq<string>)
    requires multiset(a) == multiset(b)
    ensures |a| == |b| && forall i :: 0 <= i < |a| ==> a[i] in b
  {
    assert |a| == |multiset(a)| && |b| == |multiset(b)|;
    assert forall i :: 0 <= i < |a| ==> a[i] in multiset(a);
  }

  /** The method; `sort` stands for the library's natural sort, of which only the permutation is used. */
  method SortByName<T>(items: array<Item<T>>, lower: Lower, sort: seq<string> -> seq<string>)
    requires multiset(sort(Names(lower, items[..]))) == multiset(Names(lower, items[..]))
    modifies items
    ensures items[..] == Rearranged(lower, old(items[..]), sort(Names(lower, old(items[..]))))
  {
    ghost var before := items[..];
    var m: map<string, Item<T>> := map[];
    var s: seq<string> := [];
    for i := 0 to items.Length
      invariant items[..] == before
      invariant s == Names(lower, before[..i])
      invariant m.Keys == set name | name in s
      invariant forall name :: name in m ==> m[name] == LastWith(lower, before[..i], name)
    {
      var name := lower(items[i].name);
      assert before[..i + 1][..i] == before[..i];
      assert Names(lower, before[..i + 1]) == s + [name];
      m := m[name := items[i]];
      s := s + [name];
    }
    assert before[..items.Length] == before;
    s := sort(s);
    SameElements(s, Names(lower, before));
    for i := 0 to items.Length
      invariant forall k :: 0 <= k < i ==> items[k] == LastWith(lower, before, s[k])
    {
      items[i] := m[s[i]];
    }
  }

  /** The lower-cased names come out in the sorted order, as the permutation they were. */
  lemma NamesPreserved<T>(lower: Lower, items: seq<Item<T>>, sorted: seq<string>)
    requires multiset(sorted) == multiset(Names(lower, items))
    ensures Names(lower, Rearranged(lower, items, sorted)) == sorted
    ensures forall x :: x in Rearranged(lower, items, sorted) ==> x in items
  {
    SameElements(sorted, Names(lower, items));
  }

  ghost predicate NameDecides<T(!new)>(lower: Lower, items: seq<Item<T>>) {
    forall x, y :: x in items && y in items && lower(x.name) == lower(y.name) ==> x == y
  }

  /** No item is lost or doubled exactly when items with the same lower-cased name are equal, in particular when
      those names are pairwise distinct. */
  lemma ItemsPreservedIff<T(!new)>(lower: Lower, items: seq<Item<T>>, sorted: seq<string>)
    requires multiset(sorted) == multiset(Names(lower, items))
    ensures multiset(Rearranged(lower, items, sorted)) == multiset(items) <==> NameDecides(lower, items)
  {
    var r := Rearranged(lower, items, sorted);
    SameElements(sorted, Names(lower, items));
    if items == [] {
    } else if NameDecides(lower, items) {
      InNames(lower, items);
      var f := (name: string) => if name in Names(lower, items) then LastWith(lower, items, name) else items[0];
      MapKeepsMultiset(f, sorted, Names(lower, items));
      assert MapSeq(f, sorted) == r;
      assert MapSeq(f, Names(lower, items)) == items;
    } else {
      var x, y :| x in items && y in items && lower(x.name) == lower(y.name) && x != y;
      InNames(lower, items);
      var last := LastWith(lower, items, lower(x.name));
      var gone := if x == last then y else x;
      assert forall k :: 0 <= k < |r| ==> lower(r[k].name) == sorted[k];
      assert gone in multiset(items) && gone !in multiset(r);
    }
  }

  lemma InNames<T>(lower: Lower, items: seq<Item<T>>)
    ensures forall x :: x in items ==> lower(x.name) in Names(lower, items)
  {
    forall x | x in items
      ensures lower(x.name) in Names(lower, items)
    {
      var i :| 0 <= i < |items| && items[i] == x;
      assert Names(lower, items)[i] == lower(x.name);
    }
  }

  lemma DistinctNamesDecide<T(!new)>(lower: Lower, items: seq<Item<T>>)
    requires forall i, j :: 0 <= i < j < |items| ==> lower(items[i].name) != lower(items[j].name)
    ensures NameDecides(lower, items)
  {
  }

  function MapSeq<A, B>(f: A -> B, s: seq<A>): seq<B> {
    seq(|s|, i requires 0 <= i < |s| => f(s[i]))
  }

  lemma {:induction false} MapKeepsMultiset<A, B>(f: A -> B, a: seq<A>, b: seq<A>)
    requires multiset(a) == multiset(b)
    ensures multiset(MapSeq(f, a)) == multiset(MapSeq(f, b))
    decreases |a|
  {
    assert |a| == |multiset(a)| && |b| == |multiset(b)|;
    if a != [] {
      assert a[0] in multiset(b);
      var k :| 0 <= k < |b| && b[k] == a[0];
      assert multiset(Without(a, 0)) == multiset(Without(b, k)) by {
        WithoutCounts(a, 0);
        WithoutCounts(b, k);
      }
      MapKeepsMultiset(f, Without(a, 0), Without(b, k));
      MapWithout(f, a, 0);
      MapWithout(f, b, k);
    }
  }

  function Without<A>(s: seq<A>, k: nat): seq<A>
    requires k < |s|
  {
    s[..k] + s[k + 1..]
  }

  lemma WithoutCounts<A>(s: seq<A>, k: nat)
    requires k < |s|
    ensures multiset(Without(s, k)) == multiset(s) - multiset{s[k]}
    ensures multiset(s) == multiset(Without(s, k)) + multiset{s[k]}
  {
    var a, b := s[..k], s[k + 1..];
    assert s == a + [s[k]] + b;
    assert multiset(s) == multiset(a) + multiset{s[k]} + multiset(b);
    assert multiset(a + b) == multiset(a) + multiset(b);
  }

  lemma MapWithout<A, B>(f: A -> B, s: seq<A>, k: nat)
    requires k < |s|
    ensures multiset(MapSeq(f, s)) == multiset(MapSeq(f, Without(s, k))) + multiset{f(s[k])}
  {
    WithoutCounts(MapSeq(f, s), k);
    assert Without(MapSeq(f, s), k) == MapSeq(f, Without(s, k));
  }
}
