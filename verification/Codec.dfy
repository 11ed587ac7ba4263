/** What the compiled encoders and decoders do, as an interpreter over schemas. Guards are
    evaluated as compiled when `folded`, and as plain range membership when not. */
module Codec {
  import opened Wrappers
  import opened Wire
  import opened Schema

  datatype Env = Env(valid: VersionRange, flexible: VersionRange, version: int, folded: bool) {
    predicate In(r: VersionRange, over: VersionRange) {
      if folded then Holds(r.Expr(over), version) else r.Contains(version)
    }

    predicate Flexible() {
      In(flexible, valid)
    }

    predicate OnWire(f: Field) {
      In(f.versions, valid)
    }

    /** A field's own flexibility wins over its message's. */
    predicate Compact(f: Field) {
      if f.flexible.Some? then In(f.flexible.value, valid) else Flexible()
    }

    /** Whether a nullable field may be null at this version. */
    function Nullable(f: Field): Option<bool> {
      if f.nullable.Some? then Some(In(f.nullable.value, valid.Intersect(f.versions))) else None
    }
  }

  // ---- encoding -----------------------------------------------------------------------

  function EncNull(t: FieldType, compact: bool): Result<Bytes, EncodeError> {
    match t
    case TString => PutBlob(compact, 2, None)
    case TBytes => PutBlob(compact, 4, None)
    case TArray(_) => PutLen(compact, 4, None)
    case TStruct(_, _) => Ok(PutInt(1, -1))
    case _ => Err(IllTyped)
  }

  /** `IllTyped` stands for the values the compiled Rust types rule out. */
  function Enc(env: Env, t: FieldType, nullable: Option<bool>, compact: bool, v: Value): Result<Bytes, EncodeError>
    decreases t, 0
  {
    if nullable.Some? && v.VNull? then
      if nullable.value then EncNull(t, compact) else Err(NullField)
    else
      match t
      case TBool => if v.VBool? then Ok([if v.b then 1 else 0]) else Err(IllTyped)
      case TInt(w, signed) => if v.VInt? && InRange(w, signed, v.n) then Ok(PutInt(w, v.n)) else Err(IllTyped)
      case TFloat => if v.VFloat? && |v.bits| == 8 then Ok(v.bits) else Err(IllTyped)
      case TUuid => if v.VUuid? && |v.id| == 16 then Ok(v.id) else Err(IllTyped)
      case TString => if v.VString? && Utf8(v.s) then PutBlob(compact, 2, Some(v.s)) else Err(IllTyped)
      case TBytes => if v.VBytes? then PutBlob(compact, 4, Some(v.data)) else Err(IllTyped)
      case TArray(elem) =>
        if !v.VArray? then Err(IllTyped)
        else
          var len :- PutLen(compact, 4, Some(|v.items|));
          var body :- EncItems(env, elem, compact, v.items);
          Ok(len + body)
      case TStruct(wire, tagged) =>
        if !v.VStruct? then Err(IllTyped)
        else
          var marker: Bytes := if nullable.Some? then PutInt(1, 1) else [];
          var body :- EncFields(env, wire, v.wire);
          if !TagsFit(v.unknown) then Err(IllTyped)
          else if env.Flexible() then
            var known :- EncTagged(env, tagged, v.tagged);
            Ok(marker + (body + PutTags(Section(tagged, v.unknown, known))))
          else Ok(marker + body)
  }

  function EncItems(env: Env, elem: FieldType, compact: bool, items: seq<Value>): Result<Bytes, EncodeError>
    decreases elem, 1 + |items|
  {
    if items == [] then Ok([])
    else
      var head :- Enc(env, elem, None, compact, items[0]);
      var tail :- EncItems(env, elem, compact, items[1..]);
      Ok(head + tail)
  }

  predicate TagsFit(raws: seq<RawTag>) {
    forall i :: 0 <= i < |raws| ==> raws[i].tag <= U32_MAX
  }

  /** Fields that are not on the wire at this version are skipped. */
  function EncFields(env: Env, fs: Fields, vs: Values): Result<Bytes, EncodeError>
    decreases fs, 0
  {
    match fs
    case NoFields => if vs.NoValues? then Ok([]) else Err(IllTyped)
    case More(f, rest) =>
      if vs.NoValues? then Err(IllTyped)
      else if env.OnWire(f) then
        var head :- Enc(env, f.ftype, env.Nullable(f), env.Compact(f), vs.value);
        var tail :- EncFields(env, rest, vs.others);
        Ok(head + tail)
      else EncFields(env, rest, vs.others)
  }

  /** The tagged fields that are present, each encoded into its own bytes. */
  function EncTagged(env: Env, fs: Fields, vs: Values): Result<seq<RawTag>, EncodeError>
    decreases fs, 0
  {
    match fs
    case NoFields => if vs.NoValues? then Ok([]) else Err(IllTyped)
    case More(f, rest) =>
      if vs.NoValues? then Err(IllTyped)
      else if env.OnWire(f) && !vs.value.VAbsent? then
        var data :- Enc(env, f.ftype, env.Nullable(f), env.Compact(f), vs.value);
        var others :- EncTagged(env, rest, vs.others);
        Ok([RawTag(f.tag, data)] + others)
      else EncTagged(env, rest, vs.others)
  }

  // ---- the order of tags --------------------------------------------------------------

  /** Insert after every field whose tag is not higher. */
  function Insert(raws: seq<RawTag>, r: RawTag): (s: seq<RawTag>)
    ensures |s| == |raws| + 1
  {
    if raws == [] || raws[|raws| - 1].tag <= r.tag then raws + [r]
    else Insert(raws[..|raws| - 1], r) + [raws[|raws| - 1]]
  }

  /** A stable sort. */
  function SortByTag(raws: seq<RawTag>): (s: seq<RawTag>)
    ensures |s| == |raws|
  {
    if raws == [] then [] else Insert(SortByTag(raws[..|raws| - 1]), raws[|raws| - 1])
  }

  /** The tagged section of a struct. Without tagged fields of its own it is written unsorted. */
  function Section(tagged: Fields, unknown: seq<RawTag>, known: seq<RawTag>): seq<RawTag> {
    if tagged.NoFields? then unknown else SortByTag(unknown + known)
  }

  function Find(raws: seq<RawTag>, tag: nat): Option<Bytes> {
    if raws == [] then None
    else if raws[0].tag == tag then Some(raws[0].data)
    else Find(raws[1..], tag)
  }

  function Remove(raws: seq<RawTag>, tag: nat): seq<RawTag> {
    if raws == [] then []
    else if raws[0].tag == tag then Remove(raws[1..], tag)
    else [raws[0]] + Remove(raws[1..], tag)
  }

  // ---- decoding -----------------------------------------------------------------------

  function DecNull(nullable: Option<bool>, left: Bytes): (r: Read<Value>)
    ensures r.Ok? ==> r.value.1 == left
  {
    if nullable == Some(true) then Ok((VNull, left)) else Err(InvalidLength)
  }

  function Dec(env: Env, t: FieldType, nullable: Option<bool>, compact: bool, bs: Bytes): (r: Read<Value>)
    ensures r.Ok? ==> |r.value.1| <= |bs|
    decreases t, 0
  {
    match t
    case TBool => if bs == [] then Err(Truncated) else Ok((VBool(bs[0] != 0), bs[1..]))
    case TInt(w, signed) =>
      var (n, left) :- GetInt(w, signed, bs);
      Ok((VInt(n), left))
    case TFloat => if |bs| < 8 then Err(Truncated) else Ok((VFloat(bs[..8]), bs[8..]))
    case TUuid => if |bs| < 16 then Err(Truncated) else Ok((VUuid(bs[..16]), bs[16..]))
    case TString =>
      var (s, left) :- GetBlob(compact, 2, bs);
      if s.None? then DecNull(nullable, left)
      else if !Utf8(s.value) then Err(InvalidUtf8)
      else Ok((VString(s.value), left))
    case TBytes =>
      var (data, left) :- GetBlob(compact, 4, bs);
      if data.None? then DecNull(nullable, left) else Ok((VBytes(data.value), left))
    case TArray(elem) =>
      var (len, more) :- GetLen(compact, 4, bs);
      if len.None? then DecNull(nullable, more)
      else
        var (items, left) :- DecItems(env, elem, compact, len.value, more);
        Ok((VArray(items), left))
    case TStruct(wire, tagged) =>
      var (marker, start) :- if nullable.Some? then GetInt(1, true, bs) else Ok((1, bs));
      if marker < 0 then DecNull(nullable, start)
      else
        var (fields, more) :- DecFields(env, wire, start);
        if env.Flexible() then
          var (raws, left) :- GetTags(more);
          var (known, unknown) :- DecTagged(env, tagged, raws);
          Ok((VStruct(fields, known, unknown), left))
        else Ok((VStruct(fields, Absences(tagged), []), more))
  }

  /** A struct element has to consume input. */
  function DecItems(env: Env, elem: FieldType, compact: bool, n: nat, bs: Bytes): (r: Read<seq<Value>>)
    ensures r.Ok? ==> |r.value.0| == n && |r.value.1| <= |bs|
    decreases elem, 1 + n
  {
    if n == 0 then Ok(([], bs))
    else
      var (head, more) :- Dec(env, elem, None, compact, bs);
      if elem.TStruct? && |more| == |bs| then Err(NoProgress)
      else
        var (tail, left) :- DecItems(env, elem, compact, n - 1, more);
        Ok(([head] + tail, left))
  }

  /** Fields that are not on the wire keep their defaults. */
  function DecFields(env: Env, fs: Fields, bs: Bytes): (r: Read<Values>)
    ensures r.Ok? ==> |r.value.1| <= |bs|
    decreases fs, 0
  {
    match fs
    case NoFields => Ok((NoValues, bs))
    case More(f, rest) =>
      var (v, more) :- if env.OnWire(f) then Dec(env, f.ftype, env.Nullable(f), env.Compact(f), bs) else Ok((DefaultOf(f), bs));
      var (vs, left) :- DecFields(env, rest, more);
      Ok((Also(v, vs), left))
  }

  /** Known tags fill their fields, whose data must be used up; the others are kept raw. */
  function DecTagged(env: Env, fs: Fields, raws: seq<RawTag>): Result<(Values, seq<RawTag>), DecodeError>
    decreases fs, 0
  {
    match fs
    case NoFields => Ok((NoValues, raws))
    case More(f, rest) =>
      var data := Find(raws, f.tag);
      if env.OnWire(f) && data.Some? then
        var (v, left) :- Dec(env, f.ftype, env.Nullable(f), env.Compact(f), data.value);
        if left != [] then Err(InvalidLength)
        else
          var (vs, unknown) :- DecTagged(env, rest, Remove(raws, f.tag));
          Ok((Also(v, vs), unknown))
      else
        var (vs, unknown) :- DecTagged(env, rest, raws);
        Ok((Also(VAbsent, vs), unknown))
  }

  // ---- folding changes nothing --------------------------------------------------------

  lemma SameTests(env: Env, f: Field)
    requires env.folded && env.valid.Contains(env.version)
    ensures var plain := env.(folded := false);
            && env.Flexible() == plain.Flexible() && env.OnWire(f) == plain.OnWire(f) && env.Compact(f) == plain.Compact(f)
            && (env.OnWire(f) ==> env.Nullable(f) == plain.Nullable(f))
  {
    GuardIsMembership(env.flexible, env.valid, env.version);
    GuardIsMembership(f.versions, env.valid, env.version);
    if f.flexible.Some? {
      GuardIsMembership(f.flexible.value, env.valid, env.version);
    }
    if f.nullable.Some? && env.OnWire(f) {
      NestedGuardIsMembership(f.nullable.value, f.versions, env.valid, env.version);
    }
  }

  /** Compiling guards away changes no encoding. */
  lemma {:induction false} EncFolds(env: Env, t: FieldType, nullable: Option<bool>, compact: bool, v: Value)
    requires env.folded && env.valid.Contains(env.version)
    ensures Enc(env, t, nullable, compact, v) == Enc(env.(folded := false), t, nullable, compact, v)
    decreases t, 0
  {
    if t.TArray? && v.VArray? {
      EncItemsFolds(env, t.elem, compact, v.items);
    } else if t.TStruct? && v.VStruct? {
      EncFieldsFolds(env, t.wire, v.wire);
      EncTaggedFolds(env, t.tagged, v.tagged);
      GuardIsMembership(env.flexible, env.valid, env.version);
    }
  }

  lemma {:induction false} EncItemsFolds(env: Env, elem: FieldType, compact: bool, items: seq<Value>)
    requires env.folded && env.valid.Contains(env.version)
    ensures EncItems(env, elem, compact, items) == EncItems(env.(folded := false), elem, compact, items)
    decreases elem, 1 + |items|
  {
    if items != [] {
      EncFolds(env, elem, None, compact, items[0]);
      EncItemsFolds(env, elem, compact, items[1..]);
    }
  }

  lemma {:induction false} EncFieldsFolds(env: Env, fs: Fields, vs: Values)
    requires env.folded && env.valid.Contains(env.version)
    ensures EncFields(env, fs, vs) == EncFields(env.(folded := false), fs, vs)
    decreases fs, 0
  {
    if fs.More? && vs.Also? {
      SameTests(env, fs.field);
      EncFolds(env, fs.field.ftype, env.Nullable(fs.field), env.Compact(fs.field), vs.value);
      EncFieldsFolds(env, fs.rest, vs.others);
    }
  }

  lemma {:induction false} EncTaggedFolds(env: Env, fs: Fields, vs: Values)
    requires env.folded && env.valid.Contains(env.version)
    ensures EncTagged(env, fs, vs) == EncTagged(env.(folded := false), fs, vs)
    decreases fs, 0
  {
    if fs.More? && vs.Also? {
      SameTests(env, fs.field);
      EncFolds(env, fs.field.ftype, env.Nullable(fs.field), env.Compact(fs.field), vs.value);
      EncTaggedFolds(env, fs.rest, vs.others);
    }
  }

  /** Nor any decoding. */
  lemma {:induction false} DecFolds(env: Env, t: FieldType, nullable: Option<bool>, compact: bool, bs: Bytes)
    requires env.folded && env.valid.Contains(env.version)
    ensures Dec(env, t, nullable, compact, bs) == Dec(env.(folded := false), t, nullable, compact, bs)
    decreases t, 0
  {
    if t.TArray? {
      var len := GetLen(compact, 4, bs);
      if len.Ok? && len.value.0.Some? {
        DecItemsFolds(env, t.elem, compact, len.value.0.value, len.value.1);
      }
    } else if t.TStruct? {
      var marker := GetInt(1, true, bs);
      if nullable.None? || marker.Ok? {
        var start := if nullable.None? then bs else marker.value.1;
        DecFieldsFolds(env, t.wire, start);
        var fields := DecFields(env, t.wire, start);
        if fields.Ok? && GetTags(fields.value.1).Ok? {
          DecTaggedFolds(env, t.tagged, GetTags(fields.value.1).value.0);
        }
        GuardIsMembership(env.flexible, env.valid, env.version);
      }
    }
  }

  lemma {:induction false} DecItemsFolds(env: Env, elem: FieldType, compact: bool, n: nat, bs: Bytes)
    requires env.folded && env.valid.Contains(env.version)
    ensures DecItems(env, elem, compact, n, bs) == DecItems(env.(folded := false), elem, compact, n, bs)
    decreases elem, 1 + n
  {
    if n > 0 {
      DecFolds(env, elem, None, compact, bs);
      var head := Dec(env, elem, None, compact, bs);
      if head.Ok? {
        DecItemsFolds(env, elem, compact, n - 1, head.value.1);
      }
      SameItems(env, env.(folded := false), elem, compact, n, bs);
    }
  }

  lemma SameItems(a: Env, b: Env, elem: FieldType, compact: bool, n: nat, bs: Bytes)
    requires n > 0 && Dec(a, elem, None, compact, bs) == Dec(b, elem, None, compact, bs)
    requires var head := Dec(a, elem, None, compact, bs);
             head.Ok? ==> DecItems(a, elem, compact, n - 1, head.value.1) == DecItems(b, elem, compact, n - 1, head.value.1)
    ensures DecItems(a, elem, compact, n, bs) == DecItems(b, elem, compact, n, bs)
  {
  }

  lemma {:induction false} DecFieldsFolds(env: Env, fs: Fields, bs: Bytes)
    requires env.folded && env.valid.Contains(env.version)
    ensures DecFields(env, fs, bs) == DecFields(env.(folded := false), fs, bs)
    decreases fs, 0
  {
    if fs.More? {
      var f := fs.field;
      SameTests(env, f);
      DecFolds(env, f.ftype, env.Nullable(f), env.Compact(f), bs);
      var head := Dec(env, f.ftype, env.Nullable(f), env.Compact(f), bs);
      if !env.OnWire(f) {
        DecFieldsFolds(env, fs.rest, bs);
      } else if head.Ok? {
        DecFieldsFolds(env, fs.rest, head.value.1);
      }
    }
  }

  lemma {:induction false} DecTaggedFolds(env: Env, fs: Fields, raws: seq<RawTag>)
    requires env.folded && env.valid.Contains(env.version)
    ensures DecTagged(env, fs, raws) == DecTagged(env.(folded := false), fs, raws)
    decreases fs, 0
  {
    if fs.More? {
      var f := fs.field;
      SameTests(env, f);
      var data := Find(raws, f.tag);
      if env.OnWire(f) && data.Some? {
        DecFolds(env, f.ftype, env.Nullable(f), env.Compact(f), data.value);
        DecTaggedFolds(env, fs.rest, Remove(raws, f.tag));
      } else {
        DecTaggedFolds(env, fs.rest, raws);
      }
    }
  }
}
