/** The columnar layout of a VMIMessage: a flat list of types, and one array for each type. */
module Columns {

  /** `cols` maps the number of a repeated field to its elements; an absent key is an empty field. */
  datatype Columnar<T> = Columnar(types: seq<nat>, cols: map<nat, seq<T>>)

  function Slot<T>(cols: map<nat, seq<T>>, tag: nat): seq<T> {
    if tag in cols then cols[tag] else []
  }

  function Append<T>(m: Columnar<T>, tag: nat, x: T): Columnar<T> {
    Columnar(m.types + [tag], m.cols[tag := Slot(m.cols, tag) + [x]])
  }

  function Count(tags: seq<nat>, tag: nat): nat {
    if tags == [] then 0
    else Count(tags[..|tags| - 1], tag) + if tags[|tags| - 1] == tag then 1 else 0
  }

  /** How many earlier elements have the same tag: the element's index in its column. */
  function Rank(tags: seq<nat>, i: nat): nat
    requires i < |tags|
  {
    Count(tags[..i], tags[i])
  }

  /** The items that carry a given tag, in order. */
  function Column<T>(tags: seq<nat>, items: seq<T>, tag: nat): seq<T>
    requires |tags| == |items|
  {
    if tags == [] then []
    else
      var last := |tags| - 1;
      Column(tags[..last], items[..last], tag) + if tags[last] == tag then [items[last]] else []
  }

  /** `m` holds `items`, in order, item i under tags[i]. */
  ghost predicate Encodes<T>(m: Columnar<T>, tags: seq<nat>, items: seq<T>) {
    && |tags| == |items|
    && m.types == tags
    && forall tag :: Slot(m.cols, tag) == Column(tags, items, tag)
  }

  lemma CountPrefix(tags: seq<nat>, i: nat, tag: nat)
    requires i <= |tags|
    ensures Count(tags[..i], tag) <= Count(tags, tag)
    ensures i < |tags| && tags[i] == tag ==> Count(tags[..i], tag) < Count(tags, tag)
  {
    if i < |tags| {
      CountPrefix(tags[..|tags| - 1], i, tag);
      assert tags[..|tags| - 1][..i] == tags[..i];
    } else {
      assert tags[..i] == tags;
    }
  }

  lemma CountNext(tags: seq<nat>, i: nat)
    requires i < |tags|
    ensures forall tag :: Count(tags[..i + 1], tag) == Count(tags[..i], tag) + if tags[i] == tag then 1 else 0
  {
    assert tags[..i + 1][..i] == tags[..i];
  }

  lemma CountPositive(tags: seq<nat>, tag: nat)
    ensures Count(tags, tag) > 0 <==> tag in tags
  {
    if tags != [] {
      var last := |tags| - 1;
      CountPositive(tags[..last], tag);
      assert tags == tags[..last] + [tags[last]];
    }
  }

  lemma {:induction false} ColumnLength<T>(tags: seq<nat>, items: seq<T>, tag: nat)
    requires |tags| == |items|
    ensures |Column(tags, items, tag)| == Count(tags, tag)
  {
    if tags != [] {
      var last := |tags| - 1;
      ColumnLength(tags[..last], items[..last], tag);
    }
  }

  /** Typecount is rank: item i is element Rank(i) of the column of its tag. */
  lemma {:induction false} ColumnAt<T>(tags: seq<nat>, items: seq<T>, i: nat)
    requires |tags| == |items| && i < |tags|
    ensures Rank(tags, i) < |Column(tags, items, tags[i])|
    ensures Column(tags, items, tags[i])[Rank(tags, i)] == items[i]
  {
    var last := |tags| - 1;
    ColumnLength(tags[..last], items[..last], tags[i]);
    if i < last {
      ColumnAt(tags[..last], items[..last], i);
      assert tags[..last][..i] == tags[..i];
    }
  }

  /** Conversely, every element of a column is an item of that tag, at its rank. */
  lemma {:induction false} ColumnMember<T>(tags: seq<nat>, items: seq<T>, tag: nat, j: nat) returns (i: nat)
    requires |tags| == |items| && j < |Column(tags, items, tag)|
    ensures i < |tags| && tags[i] == tag && Rank(tags, i) == j && items[i] == Column(tags, items, tag)[j]
  {
    var last := |tags| - 1;
    ColumnLength(tags[..last], items[..last], tag);
    if j < Count(tags[..last], tag) {
      i := ColumnMember(tags[..last], items[..last], tag, j);
      assert tags[..last][..i] == tags[..i];
    } else {
      i := last;
    }
  }

  /** Where element j of a column stands in the whole. */
  function Occurrence(tags: seq<nat>, tag: nat, j: nat): (i: nat)
    requires j < Count(tags, tag)
    ensures i < |tags| && tags[i] == tag && Rank(tags, i) == j
  {
    var last := |tags| - 1;
    if j < Count(tags[..last], tag) then
      var i := Occurrence(tags[..last], tag, j);
      assert tags[..last][..i] == tags[..i];
      i
    else last
  }

  /** Appending keeps the layout. */
  lemma AppendEncodes<T>(m: Columnar<T>, tags: seq<nat>, items: seq<T>, tag: nat, x: T)
    requires Encodes(m, tags, items)
    ensures Encodes(Append(m, tag, x), tags + [tag], items + [x])
  {
    assert (tags + [tag])[..|tags|] == tags;
    assert (items + [x])[..|items|] == items;
  }

  /** Two columns with one layout hold the same items: the layout loses nothing. */
  lemma {:induction false} LayoutIsInjective<T>(m: Columnar<T>, tags: seq<nat>, a: seq<T>, b: seq<T>)
    requires Encodes(m, tags, a) && Encodes(m, tags, b)
    ensures a == b
  {
    forall i | 0 <= i < |tags|
      ensures a[i] == b[i]
    {
      ColumnAt(tags, a, i);
      ColumnAt(tags, b, i);
    }
  }
}
