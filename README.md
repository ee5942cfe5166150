# osmium::Object in Dafny

A model of the OSM object header of Osmium (`osmium::Object`, the part shared by
nodes, ways and relations). The object lives inside a buffer as one packed item.
The model covers:

- the fixed header: id, the version/deleted field, timestamp, user id and
  changeset;
- the typed setters and the textual setters, including `set_attribute`;
- the offsets of the trailing region: an inline location for a node, then the
  length-prefixed user name padded to the alignment unit, then the nested
  sub-items up to the object's padded size;
- the scan for the first sub-item of a type (`tags()`);
- the order `operator<` on id and version.

Modules, one per file:

- `OsmTypes` (`types.dfy`): the fixed-width integer types and the Option/Result/Outcome wrappers.
- `Memory` (`memory.dfy`): `padded_length` and the sub-items, modelled as a sequence
  of (type, size) records, with the tags of a tag list.
- `OsmObject` (`object.dfy`): the masks of the version field, the layout offsets, the attribute
  dispatch on header values, and `class Object` with its setters, `subitem_of_type` and `tags()`.
- `ObjectOrder` (`order.dfy`): `operator<` and its corrected form.

Offsets are byte offsets counted from the start of the object (`self()`), never
addresses. The string parsers the textual setters call are passed in as a
`Parsers` value of total functions. Each returns `None` where the parser would
throw. Their code (`string_to_object_id`, `string_to_object_version`,
`string_to_changeset_id`, `string_to_user_id`, `timestamp::parse_iso`) is not
part of this model.

`end()` is `self() + padded_size()` (include/osmium/osm/object.hpp:270-280), so the
object's size covers its sub-items; `Object.Valid()` says exactly that.

## Model

| member | source | states |
|---|---|---|
| `OsmObject.VersionOf` | include/osmium/osm/object.hpp:134-136 | `version()` is below 2^31, and equals the whole field when the deleted bit is clear |
| `OsmObject.DeletedOf` | include/osmium/osm/object.hpp:138-140 | `deleted()` holds iff the field is at least 2^31, i.e. its top bit is set |
| `OsmObject.FieldIsVersionPlusDeletedBit` | include/osmium/osm/object.hpp:53-59 | read as a number, the shared field is the version plus 2^31 when deleted |
| `OsmObject.FieldDeterminedByViews` | include/osmium/osm/object.hpp:53-59 | two fields with the same version and the same deleted flag are equal, so the two views lose nothing |
| `OsmObject.WithVersion` | include/osmium/osm/object.hpp:146-149 | after `version(v)`, `version()` is `v` with its top bit masked off (exactly `v` when `v` < 2^31), and `deleted()` is unchanged |
| `OsmObject.WithDeleted` | include/osmium/osm/object.hpp:155-158 | after `deleted(b)`, `deleted() == b` and `version()` is unchanged |
| `OsmObject.WithVisible` | include/osmium/osm/object.hpp:160-163 | after `visible(b)`, `deleted() == !b` and `version()` is unchanged |
| `OsmObject.DeleteThenUndelete` | include/osmium/osm/object.hpp:155-158 | `deleted(true)` then `deleted(false)` keeps the original version and leaves `deleted()` false |
| `OsmObject.VisibleIsNotDeleted` | include/osmium/osm/object.hpp:142-144 | `visible(b)` writes the same field as `deleted(!b)` |
| `OsmObject.ParseVisible` | include/osmium/osm/object.hpp:165-174 | exactly "true" and "false" are accepted, and "true" means visible |
| `OsmObject.UidFromSigned` | include/osmium/osm/object.hpp:198-201 | a negative signed uid is stored as 0; a non-negative one is stored unchanged; the result is 0 iff the input is at most 0 |
| `OsmObject.SizeofObject` | include/osmium/osm/object.hpp:61-63 | the fixed part is `sizeof(Object)` plus a location exactly for nodes, and stays aligned |
| `OsmObject.UserPosition` | include/osmium/osm/object.hpp:65-71 | the user-name length field sits right after the fixed part, at an aligned offset |
| `OsmObject.UserName` | include/osmium/osm/object.hpp:230-232 | the user-name bytes start right after the `size_t` length field |
| `OsmObject.SubitemsPosition` | include/osmium/osm/object.hpp:77-83 | the sub-items start aligned, at or after the last user-name byte, with less than one alignment unit of padding between |
| `OsmObject.AttributeUpdate` | include/osmium/osm/object.hpp:247-261 | an unknown name leaves the header unchanged without error; a recognised name changes only its own field (for `version` and `visible`, only their own part of the shared field); only a recognised name can fail |
| `OsmObject.AttributeUpdateSets` | include/osmium/osm/object.hpp:247-261 | each recognised name whose value parses stores the parsed value in its field |
| `OsmObject.AttributeUpdateRejects` | include/osmium/osm/object.hpp:165-174 | a recognised name fails iff its value does not parse; "visible" fails iff the value is neither "true" nor "false", e.g. "maybe" |
| `OsmObject.Object.constructor` | include/osmium/osm/object.hpp:113-119 | a new object has id 0, version 0, is not deleted, is visible and anonymous, and has timestamp 0 and changeset 0 |
| `OsmObject.Object.Version` | include/osmium/osm/object.hpp:134-136 | the version of an object is always below 2^31 |
| `OsmObject.Object.Deleted` | include/osmium/osm/object.hpp:138-140 | an object is deleted iff its shared field has the top bit set, i.e. is at least 2^31 |
| `OsmObject.Object.UserIsAnonymous` | include/osmium/osm/object.hpp:207-209 | an object is anonymous iff its uid is the value `uid_from_signed` stores for a negative user id, i.e. 0 |
| `OsmObject.Object.SetId` | include/osmium/osm/object.hpp:125-128 | stores the id; no other field changes |
| `OsmObject.Object.SetVersion` | include/osmium/osm/object.hpp:146-149 | stores the version without its top bit and keeps the deleted flag; no other field changes |
| `OsmObject.Object.SetDeleted` | include/osmium/osm/object.hpp:155-158 | sets the deleted flag and keeps the version; no other field changes |
| `OsmObject.Object.SetVisible` | include/osmium/osm/object.hpp:160-163 | sets the deleted flag to the negation and keeps the version, so afterwards `visible() == b` and `visible()` is `!deleted()`; no other field changes |
| `OsmObject.Object.SetChangeset` | include/osmium/osm/object.hpp:180-183 | stores the changeset; no other field changes |
| `OsmObject.Object.SetUid` | include/osmium/osm/object.hpp:193-196 | stores the uid; no other field changes |
| `OsmObject.Object.SetUidFromSigned` | include/osmium/osm/object.hpp:198-209 | the object becomes anonymous iff the signed uid is at most 0; a non-negative uid is stored as is |
| `OsmObject.Object.SetTimestamp` | include/osmium/osm/object.hpp:220-223 | stores the timestamp; no other field changes |
| `OsmObject.Object.SetIdText` | include/osmium/osm/object.hpp:130-132 | on a parse failure reports an error and changes nothing, otherwise stores the parsed id |
| `OsmObject.Object.SetVersionText` | include/osmium/osm/object.hpp:151-153 | on a parse failure reports an error and changes nothing, otherwise sets the version as `version(v)` does |
| `OsmObject.Object.SetVisibleText` | include/osmium/osm/object.hpp:165-174 | accepts exactly "true" and "false" and sets visibility, version kept; any other text is an error and the field is not touched |
| `OsmObject.Object.SetChangesetText` | include/osmium/osm/object.hpp:185-187 | on a parse failure reports an error and changes nothing, otherwise stores the parsed changeset |
| `OsmObject.Object.SetUidText` | include/osmium/osm/object.hpp:203-205 | on a parse failure reports an error and changes nothing, otherwise stores the parsed uid |
| `OsmObject.Object.SetTimestampText` | include/osmium/osm/object.hpp:225-228 | on a parse failure reports an error and changes nothing, otherwise stores the parsed timestamp |
| `OsmObject.Object.SetAttribute` | include/osmium/osm/object.hpp:243-261 | the new header is `AttributeUpdate` of the old one: unknown names are a no-op, each name writes only its own field, and a failed parse leaves every field unchanged |
| `OsmObject.Object.User` | include/osmium/osm/object.hpp:230-232 | `user()` is aligned, right after the `size_t` length field, and the user-name bytes end at or before `subitems_position()` |
| `OsmObject.Object.End` | include/osmium/osm/object.hpp:270-280 | `end()` is the aligned padded size, not below the byte size; for a valid object it is `begin()` plus the padded sizes of all sub-items |
| `OsmObject.Object.Begin` | include/osmium/osm/object.hpp:266-268 | `begin()` is aligned and lies at or after the end of the user-name bytes |
| `OsmObject.Object.SubitemOfType` | include/osmium/osm/object.hpp:87-109 | the loop from `begin()` to `end()`, stepping by padded sizes, returns the first sub-item of the requested type, or nothing when there is none |
| `OsmObject.Object.Tags` | include/osmium/osm/object.hpp:234-240 | returns the tags of the first tag list, or an empty list when the object has none |
| `OsmObject.SubitemsFillRange` | include/osmium/osm/object.hpp:266-280 | the sub-items tile `[begin(), end())`: each starts aligned and ends inside the range, and the last one ends exactly at `end()` |
| `Memory.PaddedLength` | include/osmium/osm/object.hpp:77-83 | the padded length is a multiple of the alignment unit, at least the length, and less than one unit more |
| `Memory.PaddedLengthIdempotent` | include/osmium/osm/object.hpp:77-83 | padding an already padded length changes nothing |
| `Memory.TotalPadded` | include/osmium/osm/object.hpp:266-280 | the bytes of consecutive padded sub-items are a multiple of the alignment unit |
| `Memory.TotalPaddedAtLeastOneUnitPerItem` | include/osmium/osm/object.hpp:266-280 | well-formed sub-items take at least one alignment unit each |
| `Memory.TotalPaddedPrefixBelow` | include/osmium/osm/object.hpp:89-93 | a walk that has not passed every sub-item has not yet reached `end()` |
| `Memory.ItemsTileRun` | include/osmium/osm/object.hpp:266-280 | each sub-item starts where the previous one's padded size ends, and the walk lands exactly on the end of the run |
| `Memory.FirstOfType` | include/osmium/osm/object.hpp:87-109 | the result is a sub-item of the requested type, and there is none iff no sub-item has that type |
| `Memory.FirstOfTypeAt` | include/osmium/osm/object.hpp:89-93 | the result is the match with the lowest index |
| `Memory.TagsOf` | include/osmium/osm/object.hpp:95-96 | with no tag list among the sub-items, the tags are empty |
| `Memory.TagsOfFirstTagList` | include/osmium/osm/object.hpp:234-240 | otherwise they are the tags of the first tag list |
| `ObjectOrder.Less` | include/osmium/osm/object.hpp:299-301 | `operator<` on (id, version): it never puts a larger absolute id first, and ids `n` and `-n` are never ordered |
| `ObjectOrder.ObjectLess` | include/osmium/osm/object.hpp:299-301 | `operator<` on two objects: a smaller absolute id always comes first, a larger one never does, and an object never precedes one with the same id and version |
| `ObjectOrder.ObjectLessReadsIdAndVersion` | include/osmium/osm/object.hpp:299-301 | `operator<` reads only an object's id and version: objects that agree on both are ordered alike |
| `ObjectOrder.AbsId` | include/osmium/osm/object.hpp:300 | the absolute value of an id is the id or its negation |
| `ObjectOrder.LessByAbsoluteId` | include/osmium/osm/object.hpp:294-301 | the order never puts a larger absolute id first; on equal ids it is the version order; a smaller absolute id always comes first; distinct ids of equal absolute value are never ordered |
| `ObjectOrder.LessIrreflexive` | include/osmium/osm/object.hpp:299-301 | no object precedes itself |
| `ObjectOrder.LessAsymmetric` | include/osmium/osm/object.hpp:299-301 | never both `a < b` and `b < a` |
| `ObjectOrder.LessTransitive` | include/osmium/osm/object.hpp:299-301 | `a < b` and `b < c` give `a < c` |
| `ObjectOrder.LessExamples` | include/osmium/osm/object.hpp:294-301 | id 3 precedes id -5; (5, v1) precedes (5, v2); ids 5 and -5 are not ordered either way |
| `ObjectOrder.LessIncomparabilityNotTransitive` | include/osmium/osm/object.hpp:299-301 | (5, 1) and (-5, 3) are unordered, (-5, 3) and (5, 2) are unordered, yet (5, 1) < (5, 2) |
| `ObjectOrder.LessCorrectedIsStrictTotalOrder` | include/osmium/osm/object.hpp:294-301 | the corrected order is irreflexive, asymmetric, transitive and orders any two distinct keys |
| `ObjectOrder.LessCorrectedExtendsLess` | include/osmium/osm/object.hpp:299-301 | the corrected order agrees with `operator<` wherever `operator<` orders two keys; it adds only the order between an id and its negation |

## Left out

- include/osmium/osm/dump.hpp (the debug printer) and the command-line examples are not part of this model. They only do I/O and call other libraries.
- The string parsers and `timestamp::parse_iso` are parameters (`Parsers`). Their code is not part of this model, and they are assumed to be total functions that either succeed or fail.
- `padded_length`, `Item`, `CollectionIterator` and `Buffer` are not part of this model. `padded_length` is defined as the smallest multiple of the alignment unit that is not below the length. The alignment unit is taken as 8 bytes.
- Type widths come from a header that is not part of this model. They are taken as: id `int64`, version 32 bits, uid and changeset `uint32`, signed uid `int32`. The timestamp is taken as a 64-bit `time_t` stored unchanged; a narrower `timestamp_type` would truncate it, and that is not modelled.
- The sizes `sizeof(Object)` = 32 (which fits a 32-bit `timestamp_type`; with a 64-bit one it would be 40), `sizeof(Location)` = 8 and `sizeof(size_t)` = 8 are assumed constants. The proofs use only that they are multiples of the alignment unit, which the `static_assert` at include/osmium/osm/object.hpp:292 requires of `sizeof(Object)`.
- Memory is not modelled. Positions are offsets from the start of the object. The user-name length read through `reinterpret_cast` is a field (`userLength`), and sub-items are a sequence of (type, size) records whose bytes are not modelled; only a tag list's tags are kept.
- The function-local `static T subitem` returned on a miss is not modelled. The model returns a fresh empty tag list, so no shared mutable state is modelled.
- The `Object&` returned by every setter for chaining is not modelled. The const and non-const overloads of `subitem_of_type`, `tags`, `begin` and `end` do the same thing and are modelled once.
- `Object()` only zeroes the five header fields. The Item part (type and size) and the trailing region are written by builders, which are not part of this model. The constructor therefore takes them as arguments.
- `AbsId`: the model assumes the unqualified `abs` at include/osmium/osm/object.hpp:300 resolves to a 64-bit overload; only `<cstdint>` is included, so the C `abs(int)` may be chosen instead, which would truncate ids of 2^31 and above. `abs` of the least 64-bit id also overflows in C++. The model uses the mathematical absolute value, 2^63.
- The mask `1 << deleted_bit` is taken as exactly the top bit of the 32-bit version type. Signed-shift details are not modelled.
- C strings become `seq<char>`. The NUL terminator and embedded NULs are not modelled.
- Creating an entity in a buffer and reading back its tags and node list is not modelled, because appending to a buffer is outside `osmium::Object`.

## Findings

| source | as written | input that shows it | evidently intended | confidence | as-written member | corrected member |
|---|---|---|---|---|---|---|
| include/osmium/osm/object.hpp:299-301 | `operator<` orders by equal id and smaller version, or by smaller absolute id; objects with ids `n` and `-n` are unordered whatever their versions | (5, v1) and (-5, v3) are unordered, and so are (-5, v3) and (5, v2), but (5, v1) < (5, v2), so "unordered" is not transitive and the relation is not the strict weak ordering that sorting needs | order by absolute id, then the negative id before the positive one, then version: a strict total order that keeps every order `operator<` already decides | medium, not executed | `ObjectOrder.LessIncomparabilityNotTransitive` | `ObjectOrder.LessCorrectedIsStrictTotalOrder` |
