/** Message schemas: version ranges and the guards compiled from them, field types, defaults,
    and which schemas the compiler accepts. */
module Schema {
  import opened Wrappers
  import opened Wire

  // ---- version ranges -----------------------------------------------------------------

  /** An inclusive range of versions; `min > max` is the empty one. */
  datatype VersionRange = VersionRange(min: int, max: int) {
    predicate IsEmpty() {
      min > max
    }

    predicate Contains(version: int) {
      min <= version <= max
    }

    function Intersect(other: VersionRange): VersionRange {
      VersionRange(Max(min, other.min), Min(max, other.max))
    }

    /** The test compiled for membership in this range, folded over the versions in `valid`. */
    function Expr(valid: VersionRange): Guard {
      if IsEmpty() then Never
      else
        var lower, upper := min > valid.min, max < valid.max;
        if !lower && !upper then Always
        else if !upper then AtLeast(min)
        else if !lower then AtMost(max)
        else if min == max then Exactly(min)
        else Within(min, max)
    }
  }

  datatype Guard = Always | Never | AtLeast(min: int) | AtMost(max: int) | Exactly(v: int) | Within(low: int, high: int)

  predicate Holds(g: Guard, version: int) {
    match g
    case Always => true
    case Never => false
    case AtLeast(min) => version >= min
    case AtMost(max) => version <= max
    case Exactly(v) => version == v
    case Within(low, high) => low <= version <= high
  }

  /** A compiled guard is plain membership, for every version it was folded over. */
  lemma GuardIsMembership(r: VersionRange, valid: VersionRange, version: int)
    requires valid.Contains(version)
    ensures Holds(r.Expr(valid), version) <==> r.Contains(version)
  {
    assert r.IsEmpty() ==> !r.Contains(version);
  }

  /** A guard is folded to `true` exactly when it would be true of every version. */
  lemma FoldsExactlyWhenConstant(r: VersionRange, valid: VersionRange)
    requires !valid.IsEmpty()
    ensures r.Expr(valid) == Always <==> forall version :: valid.Contains(version) ==> r.Contains(version)
  {
    assert valid.Contains(valid.min) && valid.Contains(valid.max);
  }

  /** Folding a nullability guard over the versions its field is on the wire. */
  lemma NestedGuardIsMembership(r: VersionRange, versions: VersionRange, valid: VersionRange, version: int)
    requires valid.Contains(version) && versions.Contains(version)
    ensures Holds(r.Expr(valid.Intersect(versions)), version) <==> r.Contains(version)
  {
    assert valid.Intersect(versions).Contains(version);
    GuardIsMembership(r, valid.Intersect(versions), version);
  }

  // ---- schemas ------------------------------------------------------------------------

  /** A struct's wire fields come in schema order, its tagged fields in tag order. */
  datatype FieldType =
    | TBool
    | TInt(width: nat, signed: bool)
    | TFloat
    | TUuid
    | TString
    | TBytes
    | TStruct(wire: Fields, tagged: Fields)
    | TArray(elem: FieldType)

  /** `tag` matters among tagged fields only. */
  datatype Field = Field(
    ftype: FieldType,
    versions: VersionRange,
    nullable: Option<VersionRange>,
    tag: nat,
    default: Option<Literal>,
    flexible: Option<VersionRange>)

  datatype Fields = NoFields | More(field: Field, rest: Fields)

  datatype Literal = LNull | LBool(b: bool) | LInt(n: int) | LFloat(bits: Bytes) | LString(s: Bytes)

  /** A nullable field holds `VNull` or a value, a tagged one `VAbsent` or a value. */
  datatype Value =
    | VBool(b: bool)
    | VInt(n: int)
    | VFloat(bits: Bytes)
    | VUuid(id: Bytes)
    | VString(s: Bytes)
    | VBytes(data: Bytes)
    | VArray(items: seq<Value>)
    | VStruct(wire: Values, tagged: Values, unknown: seq<RawTag>)
    | VNull
    | VAbsent

  datatype Values = NoValues | Also(value: Value, others: Values)

  // ---- defaults -----------------------------------------------------------------------

  const EMPTY_FLOAT: Bytes := [0, 0, 0, 0, 0, 0, 0, 0]

  function TypeDefault(t: FieldType, literal: Option<Literal>): Value {
    match t
    case TBool => VBool(literal.Some? && literal.value.LBool? && literal.value.b)
    case TInt(_, _) => VInt(if literal.Some? && literal.value.LInt? then literal.value.n else 0)
    case TFloat => VFloat(if literal.Some? && literal.value.LFloat? then literal.value.bits else EMPTY_FLOAT)
    case TUuid => VUuid(EMPTY_FLOAT + EMPTY_FLOAT)
    case TString => VString(if literal.Some? && literal.value.LString? then literal.value.s else [])
    case TBytes => VBytes([])
    case TStruct(wire, tagged) => VStruct(Defaults(wire), Absences(tagged), [])
    case TArray(_) => VArray([])
  }

  function DefaultOf(f: Field): Value {
    if f.nullable.Some? && f.default == Some(LNull) then VNull else TypeDefault(f.ftype, f.default)
  }

  function Defaults(fs: Fields): Values {
    match fs
    case NoFields => NoValues
    case More(f, rest) => Also(DefaultOf(f), Defaults(rest))
  }

  function Absences(fs: Fields): Values {
    match fs
    case NoFields => NoValues
    case More(_, rest) => Also(VAbsent, Absences(rest))
  }

  // ---- what the compiler accepts ------------------------------------------------------

  /** Only strings, byte strings, arrays and structs may be nullable; array elements are
      scalars, strings and structs. */
  predicate Accepted(t: FieldType, nullable: bool) {
    match t
    case TInt(width, _) => !nullable && (width == 1 || width == 2 || width == 4 || width == 8)
    case TBool => !nullable
    case TFloat => !nullable
    case TUuid => !nullable
    case TString => true
    case TBytes => true
    case TArray(elem) => !elem.TArray? && !elem.TBytes? && Accepted(elem, false)
    case TStruct(wire, tagged) => AcceptedFields(wire) && AcceptedFields(tagged) && TagsAscend(-1, tagged)
  }

  predicate AcceptedFields(fs: Fields) {
    match fs
    case NoFields => true
    case More(f, rest) =>
      && Accepted(f.ftype, f.nullable.Some?)
      && (f.default == Some(LNull) ==> f.nullable.Some?)
      && AcceptedFields(rest)
  }

  predicate TagsAscend(previous: int, fs: Fields)
    decreases fs
  {
    match fs
    case NoFields => true
    case More(f, rest) => previous < f.tag <= U32_MAX && TagsAscend(f.tag, rest)
  }
}
