/** Ordering of objects by id and version. operator< looks at nothing but
    an object's id and its version, so it is stated on that pair. */
module ObjectOrder {
  import opened OsmTypes
  import opened OsmObject

  /** An object's id and its version, read as an unsigned number. */
  datatype ObjectKey = ObjectKey(id: ObjectId, version: uint32)

  function KeyOf(o: Object): (k: ObjectKey)
    reads o
    ensures k.id == o.id && k.version as int == o.Version() as int
  {
    ObjectKey(o.id, o.Version() as int as uint32)
  }

  /** The absolute value of an id. The model uses the mathematical value,
      so the absolute value of the least 64-bit id is 2^63. */
  function AbsId(id: ObjectId): (r: nat)
    ensures r == id as int || r == -(id as int)
  {
    if id < 0 then -(id as int) else id as int
  }

  /** operator<, as written: a smaller version of the same id, or a smaller
      absolute id. */
  function Less(lhs: ObjectKey, rhs: ObjectKey): (r: bool)
    ensures r ==> AbsId(lhs.id) <= AbsId(rhs.id)
    ensures AbsId(lhs.id) == AbsId(rhs.id) && lhs.id != rhs.id ==> !r
  {
    (lhs.id == rhs.id && lhs.version < rhs.version) || AbsId(lhs.id) < AbsId(rhs.id)
  }

  /** operator< on two objects. */
  function ObjectLess(lhs: Object, rhs: Object): (r: bool)
    reads lhs, rhs
    ensures r ==> AbsId(lhs.id) <= AbsId(rhs.id)
    ensures AbsId(lhs.id) < AbsId(rhs.id) ==> r
    ensures lhs.id == rhs.id && lhs.Version() == rhs.Version() ==> !r
  {
    Less(KeyOf(lhs), KeyOf(rhs))
  }

  /** operator< reads nothing of an object but its id and its version:
      objects that agree on both are ordered alike. */
  lemma ObjectLessReadsIdAndVersion(a: Object, b: Object, c: Object, d: Object)
    requires a.id == c.id && a.Version() == c.Version()
    requires b.id == d.id && b.Version() == d.Version()
    ensures ObjectLess(a, b) == ObjectLess(c, d)
  {
  }

  /** Less never places a larger absolute id first, and on one id it is the
      order of the versions. */
  lemma LessByAbsoluteId(a: ObjectKey, b: ObjectKey)
    ensures Less(a, b) ==> AbsId(a.id) <= AbsId(b.id)
    ensures a.id == b.id ==> (Less(a, b) <==> a.version < b.version)
    ensures AbsId(a.id) < AbsId(b.id) ==> Less(a, b) && !Less(b, a)
    ensures AbsId(a.id) == AbsId(b.id) && a.id != b.id ==> !Less(a, b)
  {
  }

  lemma LessIrreflexive(a: ObjectKey)
    ensures !Less(a, a)
  {
  }

  lemma LessAsymmetric(a: ObjectKey, b: ObjectKey)
    requires Less(a, b)
    ensures !Less(b, a)
  {
  }

  lemma LessTransitive(a: ObjectKey, b: ObjectKey, c: ObjectKey)
    requires Less(a, b) && Less(b, c)
    ensures Less(a, c)
  {
  }

  /** Examples: id 3 before id -5, version 1 before
      version 2 of id 5, and ids 5 and -5 not ordered either way. */
  lemma LessExamples(v: uint32, w: uint32)
    ensures Less(ObjectKey(3, v), ObjectKey(-5, w)) && !Less(ObjectKey(-5, w), ObjectKey(3, v))
    ensures Less(ObjectKey(5, 1), ObjectKey(5, 2)) && !Less(ObjectKey(5, 2), ObjectKey(5, 1))
    ensures !Less(ObjectKey(5, v), ObjectKey(-5, w)) && !Less(ObjectKey(-5, w), ObjectKey(5, v))
  {
  }

  predicate Incomparable(a: ObjectKey, b: ObjectKey) {
    !Less(a, b) && !Less(b, a)
  }

  /** Less is not a strict weak ordering: being unordered is not
      transitive when an id and its negation both occur. */
  lemma LessIncomparabilityNotTransitive()
    ensures Incomparable(ObjectKey(5, 1), ObjectKey(-5, 3))
    ensures Incomparable(ObjectKey(-5, 3), ObjectKey(5, 2))
    ensures Less(ObjectKey(5, 1), ObjectKey(5, 2))
  {
  }

  /** The corrected order: absolute id first, then the negative id before
      the positive one of the same magnitude, then the version. */
  predicate LessCorrected(lhs: ObjectKey, rhs: ObjectKey) {
    || AbsId(lhs.id) < AbsId(rhs.id)
    || (AbsId(lhs.id) == AbsId(rhs.id) && lhs.id < rhs.id)
    || (lhs.id == rhs.id && lhs.version < rhs.version)
  }

  /** LessCorrected is a strict total order on keys: irreflexive,
      asymmetric, transitive, and any two distinct keys are ordered. */
  lemma LessCorrectedIsStrictTotalOrder(a: ObjectKey, b: ObjectKey, c: ObjectKey)
    ensures !LessCorrected(a, a)
    ensures LessCorrected(a, b) ==> !LessCorrected(b, a)
    ensures LessCorrected(a, b) && LessCorrected(b, c) ==> LessCorrected(a, c)
    ensures a != b ==> LessCorrected(a, b) || LessCorrected(b, a)
  {
  }

  /** Wherever Less orders two keys, LessCorrected orders them the same
      way; it only adds an order between an id and its negation. */
  lemma LessCorrectedExtendsLess(a: ObjectKey, b: ObjectKey)
    ensures Less(a, b) ==> LessCorrected(a, b)
    ensures LessCorrected(a, b) && !Less(a, b) ==> a.id == -b.id && a.id < 0
  {
  }
}
