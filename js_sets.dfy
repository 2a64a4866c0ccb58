/**
 * JavaScript `Set` semantics over sequences. A JS Set iterates in insertion
 * order and ignores a second insertion of an element already present, so it is
 * modelled as a duplicate-free sequence in first-insertion order.
 */
module JsSets {

  ghost predicate NoDuplicates<T>(s: seq<T>) {
    forall i, j :: 0 <= i < j < |s| ==> s[i] != s[j]
  }

  /** `set.add(x)`: appends `x` unless it is already present. */
  function Add<T(==,!new)>(s: seq<T>, x: T): (r: seq<T>)
    ensures forall y :: y in r <==> y in s || y == x
    ensures NoDuplicates(s) ==> NoDuplicates(r)
    ensures x in s ==> r == s
    ensures x !in s ==> r == s + [x]
  {
    if x in s then s else s + [x]
  }

  /** `new Set(items)`: the distinct items, each at its first occurrence. */
  function FromSeq<T(==,!new)>(items: seq<T>): (r: seq<T>)
    ensures forall y :: y in r <==> y in items
    ensures NoDuplicates(r)
    ensures |r| <= |items|
  {
    if items == [] then [] else Add(FromSeq(items[..|items| - 1]), items[|items| - 1])
  }

  /** Inserting one more item is `add`. */
  lemma FromSeqSnoc<T(!new)>(items: seq<T>, x: T)
    ensures FromSeq(items + [x]) == Add(FromSeq(items), x)
  {
    assert (items + [x])[..|items|] == items;
  }

  /** Building a set from items that are already distinct keeps them as they are. */
  lemma {:induction false} FromSeqOfDistinct<T(!new)>(items: seq<T>)
    requires NoDuplicates(items)
    ensures FromSeq(items) == items
  {
    if items != [] {
      var init := items[..|items| - 1];
      assert NoDuplicates(init);
      FromSeqOfDistinct(init);
      assert items[|items| - 1] !in init;
      assert init + [items[|items| - 1]] == items;
    }
  }

  /** The first item inserted is the first item iterated. */
  lemma {:induction false} FromSeqHead<T(!new)>(items: seq<T>)
    requires items != []
    ensures FromSeq(items) != [] && FromSeq(items)[0] == items[0]
  {
    if |items| > 1 {
      FromSeqHead(items[..|items| - 1]);
    }
  }
}
