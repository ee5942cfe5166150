/** Alignment and the items that are packed back to back in a buffer.
    Only what an Object needs of them is modelled: an item's type and its
    byte size, and, for a tag list, the tags it holds. Positions are byte
    offsets, never addresses. */
module Memory {
  import opened OsmTypes

  /** Every item starts at, and is padded to, a multiple of this many bytes. */
  const AlignBytes: nat := 8

  /** The fixed header every item starts with (its size and its type). */
  const ItemHeaderSize: nat := 8

  /** padded_length: the smallest multiple of AlignBytes that is at least n. */
  function PaddedLength(n: nat): (r: nat)
    ensures r % AlignBytes == 0
    ensures n <= r < n + AlignBytes
  {
    if n % AlignBytes == 0 then n else n + (AlignBytes - n % AlignBytes)
  }

  lemma PaddedLengthOfAligned(n: nat)
    requires n % AlignBytes == 0
    ensures PaddedLength(n) == n
  {
  }

  lemma PaddedLengthIdempotent(n: nat)
    ensures PaddedLength(PaddedLength(n)) == PaddedLength(n)
  {
    PaddedLengthOfAligned(PaddedLength(n));
  }

  /** No multiple of AlignBytes lies in [n, PaddedLength(n)). */
  lemma PaddedLengthIsLeast(n: nat, m: nat)
    requires m % AlignBytes == 0 && n <= m
    ensures PaddedLength(n) <= m
  {
  }

  /** The item types that matter to an Object: the three object kinds and
      the lists nested inside them. */
  datatype ItemType =
    | Undefined
    | Node
    | Way
    | Relation
    | TagList
    | WayNodeList
    | RelationMemberList

  predicate IsObjectType(t: ItemType) {
    t == Node || t == Way || t == Relation
  }

  datatype Tag = Tag(key: string, value: string)

  /** A sub-item of an object. A tag list is read as its tags; the contents
      of every other kind of sub-item are not looked into. byteSize is the
      item's unpadded size, header included. */
  datatype SubItem =
    | TagListItem(byteSize: nat, tags: seq<Tag>)
    | OtherItem(kind: ItemType, byteSize: nat)
  {
    function Type(): ItemType {
      if TagListItem? then TagList else kind
    }

    /** The bytes the item occupies, padding included (padded_size()). */
    function PaddedSize(): nat {
      PaddedLength(byteSize)
    }
  }

  /** An item at least holds its header, and only a TagListItem claims the
      tag-list type. */
  predicate WellFormed(item: SubItem) {
    item.byteSize >= ItemHeaderSize && (item.OtherItem? ==> item.kind != TagList)
  }

  predicate AllWellFormed(items: seq<SubItem>) {
    forall k :: 0 <= k < |items| ==> WellFormed(items[k])
  }

  /** The bytes taken by items packed back to back, each padded. */
  function TotalPadded(items: seq<SubItem>): (r: nat)
    ensures r % AlignBytes == 0
    decreases |items|
  {
    if items == [] then 0
    else TotalPadded(items[..|items| - 1]) + items[|items| - 1].PaddedSize()
  }

  /** Each well-formed item takes at least one alignment unit. */
  lemma {:induction false} TotalPaddedAtLeastOneUnitPerItem(items: seq<SubItem>)
    requires AllWellFormed(items)
    ensures TotalPadded(items) >= |items| * AlignBytes
    decreases |items|
  {
    if items != [] {
      var front := items[..|items| - 1];
      assert AllWellFormed(front) by {
        forall k | 0 <= k < |front| ensures WellFormed(front[k]) {
          assert front[k] == items[k];
        }
      }
      TotalPaddedAtLeastOneUnitPerItem(front);
      assert WellFormed(items[|items| - 1]);
    }
  }

  lemma {:induction false} TotalPaddedSnoc(items: seq<SubItem>, i: nat)
    requires i < |items|
    ensures TotalPadded(items[..i + 1]) == TotalPadded(items[..i]) + items[i].PaddedSize()
  {
    assert items[..i + 1][..i] == items[..i];
  }

  /** A proper prefix of well-formed items ends strictly before the whole
      run: a cursor can only reach the end after the last item. */
  lemma {:induction false} TotalPaddedPrefixBelow(items: seq<SubItem>, i: nat)
    requires AllWellFormed(items)
    requires i < |items|
    ensures TotalPadded(items[..i]) < TotalPadded(items)
  {
    var n := |items| - 1;
    assert items[..n + 1] == items;
    TotalPaddedSnoc(items, n);
    if i < n {
      var front := items[..n];
      assert front[..i] == items[..i];
      assert AllWellFormed(front) by {
        forall k | 0 <= k < |front| ensures WellFormed(front[k]) {
          assert front[k] == items[k];
        }
      }
      TotalPaddedPrefixBelow(front, i);
    } else {
      assert WellFormed(items[n]);
    }
  }

  /** The byte offset of the k-th item, counted from the first one. */
  function OffsetOf(items: seq<SubItem>, k: nat): (r: nat)
    requires k <= |items|
    ensures r % AlignBytes == 0
    ensures r <= TotalPadded(items)
  {
    if k == |items| then
      assert items[..k] == items;
      TotalPadded(items)
    else
      TotalPaddedPrefixBelowOrEqual(items, k);
      TotalPadded(items[..k])
  }

  lemma {:induction false} TotalPaddedPrefixBelowOrEqual(items: seq<SubItem>, i: nat)
    requires i <= |items|
    ensures TotalPadded(items[..i]) <= TotalPadded(items)
    decreases |items| - i
  {
    if i == |items| {
      assert items[..i] == items;
    } else {
      TotalPaddedSnoc(items, i);
      TotalPaddedPrefixBelowOrEqual(items, i + 1);
    }
  }

  /** Walking the items by their padded sizes visits each item exactly
      where the previous one ends and lands on the end of the run, with no
      gap and no overrun; every item starts aligned. */
  lemma {:induction false} ItemsTileRun(items: seq<SubItem>, k: nat)
    requires k < |items|
    ensures OffsetOf(items, 0) == 0
    ensures OffsetOf(items, k) + items[k].PaddedSize() == OffsetOf(items, k + 1)
    ensures OffsetOf(items, |items|) == TotalPadded(items)
  {
    assert items[..0] == [];
    TotalPaddedSnoc(items, k);
    if k + 1 == |items| {
      assert items[..k + 1] == items;
    }
  }

  /** subitem_of_type's search: the first item of type t, or nothing. */
  function FirstOfType(items: seq<SubItem>, t: ItemType): (r: Option<SubItem>)
    ensures r.Some? ==> r.value in items && r.value.Type() == t
    ensures r.None? <==> forall k :: 0 <= k < |items| ==> items[k].Type() != t
  {
    if items == [] then None
    else if items[0].Type() == t then Some(items[0])
    else
      assert forall k :: 1 <= k < |items| ==> items[k] == items[1..][k - 1];
      FirstOfType(items[1..], t)
  }

  /** The match FirstOfType returns is the one with the lowest index. */
  lemma {:induction false} FirstOfTypeAt(items: seq<SubItem>, t: ItemType, i: nat)
    requires i < |items| && items[i].Type() == t
    requires forall j :: 0 <= j < i ==> items[j].Type() != t
    ensures FirstOfType(items, t) == Some(items[i])
  {
    if i > 0 {
      assert forall j :: 0 <= j < i - 1 ==> items[1..][j] == items[j + 1];
      FirstOfTypeAt(items[1..], t, i - 1);
    }
  }

  /** The tags of the first tag list among the items; an empty list, a
      fresh value, when there is none. */
  function TagsOf(items: seq<SubItem>): (tags: seq<Tag>)
    ensures (forall k :: 0 <= k < |items| ==> items[k].Type() != TagList) ==> tags == []
  {
    match FirstOfType(items, TagList)
    case Some(TagListItem(_, ts)) => ts
    case _ => []
  }

  /** The tags come from the first tag list of the scan. */
  lemma TagsOfFirstTagList(items: seq<SubItem>, i: nat)
    requires AllWellFormed(items)
    requires i < |items| && items[i].Type() == TagList
    requires forall j :: 0 <= j < i ==> items[j].Type() != TagList
    ensures items[i].TagListItem?
    ensures TagsOf(items) == items[i].tags
  {
    assert WellFormed(items[i]);
    FirstOfTypeAt(items, TagList, i);
  }
}
