/** An OSM object (node, way or relation) as it sits in a buffer: the fixed
    header fields, the shared version/deleted field, the offsets of the
    user name and of the nested sub-items, and the textual attribute
    setters. */
module OsmObject {
  import opened OsmTypes
  import opened Memory

  // ---------------------------------------------------------------------
  // The version field and its deleted bit

  /** The top bit of the version type: bit 8 * 4 - 1 of a 32-bit field. */
  const DeletedBit: bv32 := 31
  const DeletedBitMask: bv32 := 1 << DeletedBit

  /** version(): the field with the deleted bit masked off. */
  function VersionOf(field: bv32): (v: ObjectVersion)
    ensures v < DeletedBitMask
    ensures field < DeletedBitMask ==> v == field
  {
    field & !DeletedBitMask
  }

  /** deleted(): the top bit of the field. */
  function DeletedOf(field: bv32): (d: bool)
    ensures d <==> field >= DeletedBitMask
  {
    field & DeletedBitMask != 0
  }

  /** Read as a number, the field is the version plus 2^31 when deleted. */
  lemma FieldIsVersionPlusDeletedBit(field: bv32)
    ensures !DeletedOf(field) ==> field == VersionOf(field)
    ensures DeletedOf(field) ==> field == VersionOf(field) + 0x8000_0000
  {
    if DeletedOf(field) {
      assert field & DeletedBitMask == DeletedBitMask;
    }
  }

  /** The field is determined by its two views. */
  lemma FieldDeterminedByViews(a: bv32, b: bv32)
    requires VersionOf(a) == VersionOf(b) && DeletedOf(a) == DeletedOf(b)
    ensures a == b
  {
  }

  /** version(v): rewrites the low bits, keeps the deleted bit. A version
      with its top bit set loses that bit. */
  function WithVersion(field: bv32, version: ObjectVersion): (r: bv32)
    ensures VersionOf(r) == VersionOf(version)
    ensures version < DeletedBitMask ==> VersionOf(r) == version
    ensures DeletedOf(r) == DeletedOf(field)
  {
    (field & DeletedBitMask) | (version & !DeletedBitMask)
  }

  /** deleted(b): rewrites the top bit, keeps the version. */
  function WithDeleted(field: bv32, deleted: bool): (r: bv32)
    ensures DeletedOf(r) == deleted
    ensures VersionOf(r) == VersionOf(field)
  {
    (field & !DeletedBitMask) | ((if deleted then 1 else 0) << DeletedBit)
  }

  /** visible(b): the deleted bit becomes !b, the version is kept. */
  function WithVisible(field: bv32, visible: bool): (r: bv32)
    ensures DeletedOf(r) == !visible
    ensures VersionOf(r) == VersionOf(field)
  {
    (field & !DeletedBitMask) | ((if visible then 0 else 1) << DeletedBit)
  }

  /** Setting and then clearing the deleted flag gives back the field with
      its version and without the flag. */
  lemma DeleteThenUndelete(field: bv32)
    ensures WithDeleted(WithDeleted(field, true), false) == WithDeleted(field, false)
    ensures VersionOf(WithDeleted(WithDeleted(field, true), false)) == VersionOf(field)
    ensures !DeletedOf(WithDeleted(WithDeleted(field, true), false))
  {
  }

  /** visible(b) and deleted(!b) write the same field. */
  lemma VisibleIsNotDeleted(field: bv32, b: bool)
    ensures WithVisible(field, b) == WithDeleted(field, !b)
  {
    FieldDeterminedByViews(WithVisible(field, b), WithDeleted(field, !b));
  }

  /** visible(const char*): exactly "true" and "false" are accepted. */
  function ParseVisible(text: string): (r: Option<bool>)
    ensures r.Some? <==> text == "true" || text == "false"
    ensures r.Some? ==> (r.value <==> text == "true")
  {
    if text == "true" then Some(true)
    else if text == "false" then Some(false)
    else None
  }

  /** uid_from_signed: a negative user id is stored as 0 (anonymous). */
  function UidFromSigned(uid: SignedUserId): (r: UserId)
    ensures r == 0 <==> uid <= 0
    ensures uid >= 0 ==> r as int == uid as int
  {
    if uid < 0 then 0 else uid as int as UserId
  }

  // ---------------------------------------------------------------------
  // Layout of the trailing region, as offsets from the start of the object

  /** sizeof(Object), taken as 32 bytes. The proofs use only that it is a
      multiple of AlignBytes, which the source asserts statically. */
  const ObjectSize: nat := 32
  /** sizeof(osmium::Location): two 32-bit coordinates. */
  const LocationSize: nat := 8
  /** sizeof(size_t): the width of the user-name length field. */
  const SizeTSize: nat := 8

  /** sizeof_object(): a node carries its location inline after the fixed
      header. The result stays aligned, so the length field read at
      user_position() is aligned too. */
  function SizeofObject(t: ItemType): (r: nat)
    ensures r >= ObjectSize
    ensures r % AlignBytes == 0
    ensures t == Node <==> r > ObjectSize
  {
    ObjectSize + (if t == Node then LocationSize else 0)
  }

  /** user_position(): where the user-name length field is stored. */
  function UserPosition(t: ItemType): (r: nat)
    ensures r % AlignBytes == 0
    ensures r == SizeofObject(t)
  {
    SizeofObject(t)
  }

  /** user(): the first byte of the user name, right after its length. */
  function UserName(t: ItemType): (r: nat)
    ensures r == UserPosition(t) + SizeTSize
  {
    SizeofObject(t) + SizeTSize
  }

  /** subitems_position(): the user-name bytes, padded, come before the
      sub-items; the first sub-item is aligned and no whole alignment unit
      of padding is wasted. */
  function SubitemsPosition(t: ItemType, userLength: nat): (r: nat)
    ensures r % AlignBytes == 0
    ensures UserName(t) + userLength <= r < UserName(t) + userLength + AlignBytes
  {
    UserPosition(t) + SizeTSize + PaddedLength(userLength)
  }

  // ---------------------------------------------------------------------
  // Textual attributes

  /** The string parsers the setters call; each yields None where the
      parser throws. */
  datatype Parsers = Parsers(
    objectId: string -> Option<ObjectId>,
    objectVersion: string -> Option<ObjectVersion>,
    changesetId: string -> Option<ChangesetId>,
    userId: string -> Option<UserId>,
    isoTimestamp: string -> Option<Timestamp>)

  datatype AttributeError =
    | InvalidValue(attribute: string)
    | UnknownVisibleValue

  /** The five header fields that the setters write. */
  datatype Header = Header(
    id: ObjectId,
    deletedAndVersion: bv32,
    timestamp: Timestamp,
    uid: UserId,
    changeset: ChangesetId)

  const AttributeNames: set<string> := {"id", "version", "changeset", "timestamp", "uid", "visible"}

  /** after agrees with before on everything that setting attribute attr
      may not change. The version and the deleted flag are separate views
      of one field. */
  predicate OnlyAttributeChanged(before: Header, after: Header, attr: string) {
    && (attr != "id" ==> after.id == before.id)
    && (attr != "changeset" ==> after.changeset == before.changeset)
    && (attr != "timestamp" ==> after.timestamp == before.timestamp)
    && (attr != "uid" ==> after.uid == before.uid)
    && (attr != "version" ==> VersionOf(after.deletedAndVersion) == VersionOf(before.deletedAndVersion))
    && (attr != "visible" ==> DeletedOf(after.deletedAndVersion) == DeletedOf(before.deletedAndVersion))
  }

  /** set_attribute on header values: Err where the value does not parse,
      the header unchanged for an unknown name. */
  function AttributeUpdate(h: Header, attr: string, value: string, parsers: Parsers): (r: Result<Header, AttributeError>)
    ensures attr !in AttributeNames ==> r == Ok(h)
    ensures r.Err? ==> attr in AttributeNames
    ensures r.Ok? ==> OnlyAttributeChanged(h, r.value, attr)
  {
    if attr == "id" then
      match parsers.objectId(value)
      case Some(v) => Ok(h.(id := v))
      case None => Err(InvalidValue("id"))
    else if attr == "version" then
      match parsers.objectVersion(value)
      case Some(v) => Ok(h.(deletedAndVersion := WithVersion(h.deletedAndVersion, v)))
      case None => Err(InvalidValue("version"))
    else if attr == "changeset" then
      match parsers.changesetId(value)
      case Some(v) => Ok(h.(changeset := v))
      case None => Err(InvalidValue("changeset"))
    else if attr == "timestamp" then
      match parsers.isoTimestamp(value)
      case Some(v) => Ok(h.(timestamp := v))
      case None => Err(InvalidValue("timestamp"))
    else if attr == "uid" then
      match parsers.userId(value)
      case Some(v) => Ok(h.(uid := v))
      case None => Err(InvalidValue("uid"))
    else if attr == "visible" then
      match ParseVisible(value)
      case Some(b) => Ok(h.(deletedAndVersion := WithVisible(h.deletedAndVersion, b)))
      case None => Err(UnknownVisibleValue)
    else
      Ok(h)
  }

  /** An attribute whose value parses is set to that value. */
  lemma AttributeUpdateSets(h: Header, attr: string, value: string, parsers: Parsers)
    ensures attr == "id" && parsers.objectId(value).Some? ==>
      AttributeUpdate(h, attr, value, parsers) == Ok(h.(id := parsers.objectId(value).value))
    ensures attr == "version" && parsers.objectVersion(value).Some? ==>
      AttributeUpdate(h, attr, value, parsers).Ok? &&
      VersionOf(AttributeUpdate(h, attr, value, parsers).value.deletedAndVersion) == VersionOf(parsers.objectVersion(value).value)
    ensures attr == "changeset" && parsers.changesetId(value).Some? ==>
      AttributeUpdate(h, attr, value, parsers) == Ok(h.(changeset := parsers.changesetId(value).value))
    ensures attr == "timestamp" && parsers.isoTimestamp(value).Some? ==>
      AttributeUpdate(h, attr, value, parsers) == Ok(h.(timestamp := parsers.isoTimestamp(value).value))
    ensures attr == "uid" && parsers.userId(value).Some? ==>
      AttributeUpdate(h, attr, value, parsers) == Ok(h.(uid := parsers.userId(value).value))
    ensures attr == "visible" && ParseVisible(value).Some? ==>
      AttributeUpdate(h, attr, value, parsers).Ok? &&
      DeletedOf(AttributeUpdate(h, attr, value, parsers).value.deletedAndVersion) == (value == "false")
  {
  }

  /** A value that does not parse is an error and nothing is written. */
  lemma AttributeUpdateRejects(h: Header, attr: string, value: string, parsers: Parsers)
    ensures attr == "visible" ==>
      (AttributeUpdate(h, attr, value, parsers).Err? <==> value != "true" && value != "false")
    ensures attr == "visible" && value == "maybe" ==>
      AttributeUpdate(h, attr, value, parsers) == Err(UnknownVisibleValue)
    ensures attr == "id" ==> (AttributeUpdate(h, attr, value, parsers).Err? <==> parsers.objectId(value).None?)
    ensures attr == "version" ==> (AttributeUpdate(h, attr, value, parsers).Err? <==> parsers.objectVersion(value).None?)
    ensures attr == "changeset" ==> (AttributeUpdate(h, attr, value, parsers).Err? <==> parsers.changesetId(value).None?)
    ensures attr == "timestamp" ==> (AttributeUpdate(h, attr, value, parsers).Err? <==> parsers.isoTimestamp(value).None?)
    ensures attr == "uid" ==> (AttributeUpdate(h, attr, value, parsers).Err? <==> parsers.userId(value).None?)
  {
  }

  // ---------------------------------------------------------------------
  // The object

  class Object {
    // the Item part: the object's type and its unpadded size, both set
    // when the object is built in its buffer
    var itemType: ItemType
    var byteSize: nat

    // the fixed header
    var id: ObjectId
    var deletedAndVersion: bv32
    var timestamp: Timestamp
    var uid: UserId
    var changeset: ChangesetId

    // the trailing region: the stored user-name length and the sub-items
    var userLength: nat
    var subitems: seq<SubItem>

    /** The object's size covers the fixed part, the padded user name and
        every sub-item, so that the sub-items end exactly at padded_size(). */
    ghost predicate Valid()
      reads this
    {
      && IsObjectType(itemType)
      && AllWellFormed(subitems)
      && PaddedLength(byteSize) == SubitemsPosition(itemType, userLength) + TotalPadded(subitems)
    }

    /** Object(): every header field zero. The Item part and the trailing
        region are given by whoever builds the object. */
    constructor (kind: ItemType, userLength: nat, subitems: seq<SubItem>)
      requires IsObjectType(kind)
      requires AllWellFormed(subitems)
      ensures Valid()
      ensures itemType == kind && this.userLength == userLength && this.subitems == subitems
      ensures Fields() == Header(0, 0, 0, 0, 0)
      ensures id == 0 && Version() == 0 && !Deleted() && Visible() && UserIsAnonymous()
    {
      itemType := kind;
      this.userLength := userLength;
      this.subitems := subitems;
      byteSize := SubitemsPosition(kind, userLength) + TotalPadded(subitems);
      id := 0;
      deletedAndVersion := 0;
      timestamp := 0;
      uid := 0;
      changeset := 0;
      PaddedLengthOfAligned(SubitemsPosition(kind, userLength) + TotalPadded(subitems));
      assert VersionOf(0) == 0 && !DeletedOf(0);
      assert UidFromSigned(-1) == 0;
    }

    function Fields(): Header
      reads this
    {
      Header(id, deletedAndVersion, timestamp, uid, changeset)
    }

    function Version(): (v: ObjectVersion)
      reads this
      ensures v < DeletedBitMask
    {
      VersionOf(deletedAndVersion)
    }

    function Deleted(): (d: bool)
      reads this
      ensures d <==> deletedAndVersion >= DeletedBitMask
    {
      DeletedOf(deletedAndVersion)
    }

    function Visible(): (b: bool)
      reads this
      ensures b == !Deleted()
    {
      !Deleted()
    }

    /** user_is_anonymous(): the user id is the one uid_from_signed stores
        for every non-positive signed id. */
    function UserIsAnonymous(): (anonymous: bool)
      reads this
      ensures anonymous <==> uid == UidFromSigned(-1)
    {
      uid == 0
    }

    // --- typed setters

    method SetId(v: ObjectId)
      modifies this`id
      ensures Fields() == old(Fields()).(id := v)
    {
      id := v;
    }

    method SetVersion(v: ObjectVersion)
      modifies this`deletedAndVersion
      ensures Version() == VersionOf(v) && Deleted() == old(Deleted())
      ensures Fields() == old(Fields()).(deletedAndVersion := WithVersion(old(deletedAndVersion), v))
    {
      deletedAndVersion := (deletedAndVersion & DeletedBitMask) | (v & !DeletedBitMask);
    }

    method SetDeleted(b: bool)
      modifies this`deletedAndVersion
      ensures Deleted() == b && Version() == old(Version())
      ensures Fields() == old(Fields()).(deletedAndVersion := WithDeleted(old(deletedAndVersion), b))
    {
      deletedAndVersion := (deletedAndVersion & !DeletedBitMask) | ((if b then 1 else 0) << DeletedBit);
    }

    method SetVisible(b: bool)
      modifies this`deletedAndVersion
      ensures Visible() == b && Version() == old(Version())
      ensures Fields() == old(Fields()).(deletedAndVersion := WithVisible(old(deletedAndVersion), b))
    {
      deletedAndVersion := (deletedAndVersion & !DeletedBitMask) | ((if b then 0 else 1) << DeletedBit);
    }

    method SetChangeset(v: ChangesetId)
      modifies this`changeset
      ensures Fields() == old(Fields()).(changeset := v)
    {
      changeset := v;
    }

    method SetUid(v: UserId)
      modifies this`uid
      ensures Fields() == old(Fields()).(uid := v)
    {
      uid := v;
    }

    method SetUidFromSigned(v: SignedUserId)
      modifies this`uid
      ensures UserIsAnonymous() <==> v <= 0
      ensures v >= 0 ==> uid as int == v as int
      ensures Fields() == old(Fields()).(uid := UidFromSigned(v))
    {
      uid := if v < 0 then 0 else v as int as UserId;
    }

    method SetTimestamp(v: Timestamp)
      modifies this`timestamp
      ensures Fields() == old(Fields()).(timestamp := v)
    {
      timestamp := v;
    }

    // --- textual setters: parse, then set; a failed parse writes nothing

    method SetIdText(text: string, parsers: Parsers) returns (r: Outcome<AttributeError>)
      modifies this`id
      ensures r.Pass? <==> parsers.objectId(text).Some?
      ensures r.Fail? ==> r.error == InvalidValue("id") && Fields() == old(Fields())
      ensures r.Pass? ==> Fields() == old(Fields()).(id := parsers.objectId(text).value)
    {
      match parsers.objectId(text)
      case Some(v) =>
        SetId(v);
        r := Pass;
      case None =>
        r := Fail(InvalidValue("id"));
    }

    method SetVersionText(text: string, parsers: Parsers) returns (r: Outcome<AttributeError>)
      modifies this`deletedAndVersion
      ensures r.Pass? <==> parsers.objectVersion(text).Some?
      ensures r.Fail? ==> r.error == InvalidValue("version") && Fields() == old(Fields())
      ensures r.Pass? ==> Version() == VersionOf(parsers.objectVersion(text).value)
      ensures r.Pass? ==> Fields() == old(Fields()).(deletedAndVersion :=
        WithVersion(old(deletedAndVersion), parsers.objectVersion(text).value))
    {
      match parsers.objectVersion(text)
      case Some(v) =>
        SetVersion(v);
        r := Pass;
      case None =>
        r := Fail(InvalidValue("version"));
    }

    method SetVisibleText(text: string) returns (r: Outcome<AttributeError>)
      modifies this`deletedAndVersion
      ensures r.Pass? <==> text == "true" || text == "false"
      ensures r.Fail? ==> r.error == UnknownVisibleValue && Fields() == old(Fields())
      ensures r.Pass? ==> Visible() == (text == "true") && Version() == old(Version())
      ensures r.Pass? ==> Fields() == old(Fields()).(deletedAndVersion :=
        WithVisible(old(deletedAndVersion), text == "true"))
    {
      if text == "true" {
        SetVisible(true);
        r := Pass;
      } else if text == "false" {
        SetVisible(false);
        r := Pass;
      } else {
        r := Fail(UnknownVisibleValue);
      }
    }

    method SetChangesetText(text: string, parsers: Parsers) returns (r: Outcome<AttributeError>)
      modifies this`changeset
      ensures r.Pass? <==> parsers.changesetId(text).Some?
      ensures r.Fail? ==> r.error == InvalidValue("changeset") && Fields() == old(Fields())
      ensures r.Pass? ==> Fields() == old(Fields()).(changeset := parsers.changesetId(text).value)
    {
      match parsers.changesetId(text)
      case Some(v) =>
        SetChangeset(v);
        r := Pass;
      case None =>
        r := Fail(InvalidValue("changeset"));
    }

    method SetUidText(text: string, parsers: Parsers) returns (r: Outcome<AttributeError>)
      modifies this`uid
      ensures r.Pass? <==> parsers.userId(text).Some?
      ensures r.Fail? ==> r.error == InvalidValue("uid") && Fields() == old(Fields())
      ensures r.Pass? ==> Fields() == old(Fields()).(uid := parsers.userId(text).value)
    {
      match parsers.userId(text)
      case Some(v) =>
        SetUid(v);
        r := Pass;
      case None =>
        r := Fail(InvalidValue("uid"));
    }

    method SetTimestampText(text: string, parsers: Parsers) returns (r: Outcome<AttributeError>)
      modifies this`timestamp
      ensures r.Pass? <==> parsers.isoTimestamp(text).Some?
      ensures r.Fail? ==> r.error == InvalidValue("timestamp") && Fields() == old(Fields())
      ensures r.Pass? ==> Fields() == old(Fields()).(timestamp := parsers.isoTimestamp(text).value)
    {
      match parsers.isoTimestamp(text)
      case Some(v) =>
        timestamp := v;
        r := Pass;
      case None =>
        r := Fail(InvalidValue("timestamp"));
    }

    /** set_attribute: dispatch on the six known names; any other name is
        ignored. */
    method SetAttribute(attr: string, value: string, parsers: Parsers) returns (r: Outcome<AttributeError>)
      modifies this`id, this`deletedAndVersion, this`changeset, this`timestamp, this`uid
      ensures r.Fail? <==> AttributeUpdate(old(Fields()), attr, value, parsers).Err?
      ensures r.Fail? ==> r.error == AttributeUpdate(old(Fields()), attr, value, parsers).error
      ensures r.Fail? ==> Fields() == old(Fields())
      ensures r.Pass? ==> Fields() == AttributeUpdate(old(Fields()), attr, value, parsers).value
      ensures attr !in AttributeNames ==> r.Pass? && Fields() == old(Fields())
      ensures OnlyAttributeChanged(old(Fields()), Fields(), attr)
    {
      if attr == "id" {
        r := SetIdText(value, parsers);
      } else if attr == "version" {
        r := SetVersionText(value, parsers);
      } else if attr == "changeset" {
        r := SetChangesetText(value, parsers);
      } else if attr == "timestamp" {
        r := SetTimestampText(value, parsers);
      } else if attr == "uid" {
        r := SetUidText(value, parsers);
      } else if attr == "visible" {
        r := SetVisibleText(value);
      } else {
        r := Pass;
      }
    }

    // --- the trailing region

    /** user(): the offset of the first user-name byte. */
    function User(): (u: nat)
      reads this
      ensures u % AlignBytes == 0
      ensures u == UserPosition(itemType) + SizeTSize
      ensures u + userLength <= SubitemsPosition(itemType, userLength)
    {
      UserName(itemType)
    }

    /** begin(): the first sub-item, after the padded user name. */
    function Begin(): (b: nat)
      reads this
      ensures b >= User() + userLength
      ensures b % AlignBytes == 0
    {
      SubitemsPosition(itemType, userLength)
    }

    /** end(): the object's padded size. */
    function End(): (e: nat)
      reads this
      ensures e % AlignBytes == 0 && byteSize <= e
      ensures Valid() ==> e == Begin() + TotalPadded(subitems) && Begin() <= e
    {
      PaddedLength(byteSize)
    }

    /** subitem_of_type: walk the sub-items from begin() to end(), moving
        by each one's padded size, and return the first of type t; nothing
        when the walk reaches end() without a match. */
    method SubitemOfType(t: ItemType) returns (r: Option<SubItem>)
      requires Valid()
      ensures r == FirstOfType(subitems, t)
      ensures r.Some? ==> r.value.Type() == t
    {
      var begin, end := Begin(), End();
      var it, i := begin, 0;
      assert subitems[..|subitems|] == subitems;
      assert end == begin + TotalPadded(subitems);
      while it != end
        invariant 0 <= i <= |subitems|
        invariant it == begin + TotalPadded(subitems[..i])
        invariant i == |subitems| ==> it == end
        invariant forall j :: 0 <= j < i ==> subitems[j].Type() != t
        decreases |subitems| - i
      {
        if subitems[i].Type() == t {
          FirstOfTypeAt(subitems, t, i);
          return Some(subitems[i]);
        }
        TotalPaddedSnoc(subitems, i);
        it := it + subitems[i].PaddedSize();
        i := i + 1;
      }
      if i < |subitems| {
        TotalPaddedPrefixBelow(subitems, i);
        assert false;
      }
      return None;
    }

    /** tags(): the first tag list among the sub-items, or an empty one. */
    method Tags() returns (tags: seq<Tag>)
      requires Valid()
      ensures tags == TagsOf(subitems)
      ensures (forall k :: 0 <= k < |subitems| ==> subitems[k].Type() != TagList) ==> tags == []
    {
      var found := SubitemOfType(TagList);
      match found
      case Some(TagListItem(_, ts)) =>
        tags := ts;
      case _ =>
        tags := [];
    }
  }

  /** The sub-items exactly fill [begin(), end()): the k-th starts aligned,
      at begin() plus the padded sizes of those before it, and the last one
      ends at end(). */
  lemma SubitemsFillRange(o: Object, k: nat)
    requires o.Valid()
    requires k < |o.subitems|
    ensures (o.Begin() + OffsetOf(o.subitems, k)) % AlignBytes == 0
    ensures o.Begin() + OffsetOf(o.subitems, k) + o.subitems[k].PaddedSize() <= o.End()
    ensures o.Begin() + OffsetOf(o.subitems, |o.subitems|) == o.End()
    ensures o.User() + o.userLength <= o.Begin() <= o.End()
  {
    var items, begin := o.subitems, o.Begin();
    ItemsTileRun(items, k);
    assert begin + TotalPadded(items) == o.End();
    var off := OffsetOf(items, k);
    var next := OffsetOf(items, k + 1);
    assert off % AlignBytes == 0 && begin % AlignBytes == 0;
    assert next <= TotalPadded(items);
  }
}
