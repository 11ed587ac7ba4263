/** What the compiled encoders put on the wire, said of the bytes themselves: which values can be
    encoded at a version, and how each is laid out there. Nothing here goes through the writers. */
module Layout {
  import opened Wrappers
  import opened Wire
  import opened Schema
  import opened Codec
  import opened Tags
  import opened RoundTrip
  import Frame

  // ---- integers and lengths -----------------------------------------------------------

  function Pow(base: nat, n: nat): nat {
    if n == 0 then 1 else base * Pow(base, n - 1)
  }

  /** The most significant byte comes first. */
  function BigEndian(bs: Bytes): nat {
    if bs == [] then 0 else bs[0] as nat * Pow(256, |bs| - 1) + BigEndian(bs[1..])
  }

  /** `n` in `w` bytes, in two's complement if it is negative. */
  predicate IsInt(bs: Bytes, w: nat, n: int) {
    |bs| == w && BigEndian(bs) == if n < 0 then n + Pow(256, w) else n
  }

  /** Groups of seven bits, the lowest first. */
  function Groups(bs: Bytes): nat {
    if bs == [] then 0 else bs[0] as nat % 128 + 128 * Groups(bs[1..])
  }

  /** Every byte but the last has its high bit set, and no shorter form would do. */
  predicate IsVarint(bs: Bytes, n: nat) {
    && bs != [] && Groups(bs) == n
    && (forall i :: 0 <= i < |bs| - 1 ==> bs[i] >= 128)
    && bs[|bs| - 1] < 128 && (|bs| > 1 ==> bs[|bs| - 1] > 0)
  }

  /** A length, or none: compact, a varint of one more, or zero; classic, `w` bytes, or -1. */
  predicate IsLength(bs: Bytes, compact: bool, w: nat, len: Option<nat>) {
    if compact then IsVarint(bs, if len.Some? then len.value + 1 else 0)
    else IsInt(bs, w, if len.Some? then len.value else -1)
  }

  ghost predicate IsBlob(bs: Bytes, compact: bool, w: nat, data: Bytes) {
    exists len: Bytes :: IsLength(len, compact, w, Some(|data|)) && bs == len + data
  }

  // ---- tagged sections ----------------------------------------------------------------

  ghost predicate IsTag(bs: Bytes, r: RawTag) {
    exists tag: Bytes, len: Bytes :: IsVarint(tag, r.tag) && IsVarint(len, |r.data|) && bs == tag + len + r.data
  }

  ghost predicate AreTags(bs: Bytes, raws: seq<RawTag>)
    decreases raws
  {
    if raws == [] then bs == []
    else exists head: Bytes, tail: Bytes :: IsTag(head, raws[0]) && AreTags(tail, raws[1..]) && bs == head + tail
  }

  ghost predicate IsSection(bs: Bytes, raws: seq<RawTag>) {
    exists count: Bytes, tags: Bytes :: IsVarint(count, |raws|) && AreTags(tags, raws) && bs == count + tags
  }

  /** The order of a section: as they are where a struct has no tagged fields; by tag otherwise. */
  predicate Arranged(tagged: Fields, unknown: seq<RawTag>, known: seq<RawTag>, raws: seq<RawTag>) {
    if tagged.NoFields? then raws == unknown
    else Sorted(raws) && multiset(raws) == multiset(unknown) + multiset(known)
  }

  // ---- versions -----------------------------------------------------------------------

  /** A message at one version, and the versions at which it is flexible. */
  datatype At = At(flexible: VersionRange, version: int) {
    predicate Has(f: Field) {
      f.versions.min <= version <= f.versions.max
    }

    predicate Flexible() {
      flexible.min <= version <= flexible.max
    }

    /** Inside the field's own flexible range, or the message's when it has none. */
    predicate IsCompact(f: Field) {
      var range := if f.flexible.Some? then f.flexible.value else flexible;
      range.min <= version <= range.max
    }

    predicate MayBeNull(f: Field) {
      f.nullable.Some? && f.nullable.value.min <= version <= f.nullable.value.max
    }
  }

  // ---- values that fit ----------------------------------------------------------------

  /** A length can be written in the form asked for. */
  predicate LengthFits(compact: bool, w: nat, len: nat) {
    compact || 2 * len < Pow(256, w)
  }

  /** The value has its field's type, and is not too long for it. `marked` says that the field is
      nullable at some version, `mayBeNull` that it is at this one. */
  predicate Fitting(at: At, t: FieldType, marked: bool, mayBeNull: bool, compact: bool, v: Value)
    decreases t, 0
  {
    if marked && v.VNull? then mayBeNull && (t.TString? || t.TBytes? || t.TArray? || t.TStruct?)
    else
      match t
      case TBool => v.VBool?
      case TInt(w, signed) => v.VInt? && if signed then 0 <= 2 * v.n + Pow(256, w) && 2 * v.n < Pow(256, w) else 0 <= v.n < Pow(256, w)
      case TFloat => v.VFloat? && |v.bits| == 8
      case TUuid => v.VUuid? && |v.id| == 16
      case TString => v.VString? && Utf8(v.s) && LengthFits(compact, 2, |v.s|)
      case TBytes => v.VBytes? && LengthFits(compact, 4, |v.data|)
      case TArray(elem) => v.VArray? && LengthFits(compact, 4, |v.items|) && FittingItems(at, elem, compact, v.items)
      case TStruct(wire, tagged) =>
        && v.VStruct? && FittingFields(at, wire, v.wire) && TagsFit(v.unknown)
        && (at.Flexible() ==> FittingTagged(at, tagged, v.tagged))
  }

  predicate FittingItems(at: At, elem: FieldType, compact: bool, items: seq<Value>)
    decreases elem, 1 + |items|
  {
    items == [] || (Fitting(at, elem, false, false, compact, items[0]) && FittingItems(at, elem, compact, items[1..]))
  }

  predicate FittingFields(at: At, fs: Fields, vs: Values)
    decreases fs, 0
  {
    match fs
    case NoFields => vs.NoValues?
    case More(f, rest) =>
      && vs.Also?
      && (at.Has(f) ==> Fitting(at, f.ftype, f.nullable.Some?, at.MayBeNull(f), at.IsCompact(f), vs.value))
      && FittingFields(at, rest, vs.others)
  }

  predicate FittingTagged(at: At, fs: Fields, vs: Values)
    decreases fs, 0
  {
    match fs
    case NoFields => vs.NoValues?
    case More(f, rest) =>
      && vs.Also?
      && (at.Has(f) && !vs.value.VAbsent? ==> Fitting(at, f.ftype, f.nullable.Some?, at.MayBeNull(f), at.IsCompact(f), vs.value))
      && FittingTagged(at, rest, vs.others)
  }

  // ---- how they are laid out ----------------------------------------------------------

  ghost predicate Laid(at: At, t: FieldType, marked: bool, compact: bool, v: Value, bs: Bytes)
    decreases t, 0
  {
    if marked && v.VNull? then
      match t
      case TString => IsLength(bs, compact, 2, None)
      case TStruct(_, _) => IsInt(bs, 1, -1)
      case _ => IsLength(bs, compact, 4, None)
    else
      match t
      case TBool => v.VBool? && bs == [if v.b then 1 else 0]
      case TInt(w, _) => v.VInt? && IsInt(bs, w, v.n)
      case TFloat => v.VFloat? && bs == v.bits
      case TUuid => v.VUuid? && bs == v.id
      case TString => v.VString? && IsBlob(bs, compact, 2, v.s)
      case TBytes => v.VBytes? && IsBlob(bs, compact, 4, v.data)
      case TArray(elem) =>
        v.VArray? && exists len: Bytes, body: Bytes ::
          IsLength(len, compact, 4, Some(|v.items|)) && LaidItems(at, elem, compact, v.items, body) && bs == len + body
      case TStruct(wire, tagged) =>
        v.VStruct? && exists body: Bytes, section: Bytes ::
          && LaidFields(at, wire, v.wire, body) && LaidSection(at, tagged, v, section)
          && bs == (if marked then [1] else []) + (body + section)
  }

  ghost predicate LaidItems(at: At, elem: FieldType, compact: bool, items: seq<Value>, bs: Bytes)
    decreases elem, 1 + |items|
  {
    if items == [] then bs == []
    else exists head: Bytes, tail: Bytes ::
      Laid(at, elem, false, compact, items[0], head) && LaidItems(at, elem, compact, items[1..], tail) && bs == head + tail
  }

  /** The fields the version has, one after another in schema order. */
  ghost predicate LaidFields(at: At, fs: Fields, vs: Values, bs: Bytes)
    decreases fs, 0
  {
    match fs
    case NoFields => vs.NoValues? && bs == []
    case More(f, rest) =>
      vs.Also? &&
      if at.Has(f) then exists head: Bytes, tail: Bytes ::
        Laid(at, f.ftype, f.nullable.Some?, at.IsCompact(f), vs.value, head) && LaidFields(at, rest, vs.others, tail) && bs == head + tail
      else LaidFields(at, rest, vs.others, bs)
  }

  /** The tagged fields the version has and the value sets, each laid out in its own bytes. */
  ghost predicate LaidTagged(at: At, fs: Fields, vs: Values, known: seq<RawTag>)
    decreases fs, 0
  {
    match fs
    case NoFields => vs.NoValues? && known == []
    case More(f, rest) =>
      vs.Also? &&
      if at.Has(f) && !vs.value.VAbsent? then
        && known != [] && known[0].tag == f.tag
        && Laid(at, f.ftype, f.nullable.Some?, at.IsCompact(f), vs.value, known[0].data)
        && LaidTagged(at, rest, vs.others, known[1..])
      else LaidTagged(at, rest, vs.others, known)
  }

  /** Flexible versions end with the tagged section; the others have none. */
  ghost predicate LaidSection(at: At, tagged: Fields, v: Value, bs: Bytes)
    requires v.VStruct?
    decreases tagged, 1
  {
    if at.Flexible() then
      exists known: seq<RawTag>, raws: seq<RawTag> ::
        LaidTagged(at, tagged, v.tagged, known) && Arranged(tagged, v.unknown, known, raws) && IsSection(bs, raws)
    else bs == []
  }

  // ---- the primitives -----------------------------------------------------------------

  lemma {:induction false} PowIsPow256(w: nat)
    ensures Pow(256, w) == Pow256(w)
  {
    if w > 0 {
      PowIsPow256(w - 1);
    }
  }

  lemma {:induction false} BigEndianSnoc(bs: Bytes, b: byte)
    ensures BigEndian(bs + [b]) == BigEndian(bs) * 256 + b as nat
  {
    if bs == [] {
      assert ([] + [b])[1..] == [];
    } else {
      BigEndianSnoc(bs[1..], b);
      assert (bs + [b])[1..] == bs[1..] + [b];
      assert bs[0] as nat * Pow(256, |bs|) == bs[0] as nat * Pow(256, |bs| - 1) * 256;
    }
  }

  lemma {:induction false} UintIsBigEndian(w: nat, n: nat)
    requires n < Pow256(w)
    ensures BigEndian(PutUint(w, n)) == n
  {
    if w > 0 {
      UintIsBigEndian(w - 1, n / 256);
      BigEndianSnoc(PutUint(w - 1, n / 256), (n % 256) as byte);
    }
  }

  lemma IntIsBigEndian(w: nat, n: int)
    requires 0 <= n + Pow256(w) && n < Pow256(w)
    ensures IsInt(PutInt(w, n), w, n)
  {
    PowIsPow256(w);
    Residue(n, Pow256(w));
    UintIsBigEndian(w, n % Pow256(w));
  }

  lemma {:induction false} VarintIsVarint(n: nat)
    ensures IsVarint(PutVarint(n), n)
  {
    var bs := PutVarint(n);
    if n >= 128 {
      var rest := PutVarint(n / 128);
      VarintIsVarint(n / 128);
      assert bs[1..] == rest && bs[0] as nat == n % 128 + 128;
      assert Groups(bs) == n % 128 + 128 * Groups(rest);
      assert |rest| == 1 ==> rest[0] as nat == n / 128;
      forall i | 0 <= i < |bs| - 1 ensures bs[i] >= 128 {
        assert i > 0 ==> bs[i] == rest[i - 1];
      }
      assert bs[|bs| - 1] == rest[|rest| - 1];
    } else {
      assert bs[1..] == [];
    }
  }

  lemma LengthIsLength(compact: bool, w: nat, len: Option<nat>)
    requires w > 0 && PutLen(compact, w, len).Ok?
    ensures IsLength(PutLen(compact, w, len).value, compact, w, len)
  {
    if compact {
      VarintIsVarint(if len.Some? then len.value + 1 else 0);
    } else {
      MinusOneFits(w);
      IntIsBigEndian(w, if len.Some? then len.value else -1);
    }
  }

  lemma LengthIsWritten(compact: bool, w: nat, len: nat)
    ensures PutLen(compact, w, Some(len)).Ok? <==> LengthFits(compact, w, len)
  {
    PowIsPow256(w);
  }

  lemma BlobIsBlob(compact: bool, w: nat, data: Bytes)
    requires w > 0
    ensures PutBlob(compact, w, Some(data)).Ok? <==> LengthFits(compact, w, |data|)
    ensures PutBlob(compact, w, Some(data)).Ok? ==> IsBlob(PutBlob(compact, w, Some(data)).value, compact, w, data)
  {
    LengthIsWritten(compact, w, |data|);
    if PutBlob(compact, w, Some(data)).Ok? {
      LengthIsLength(compact, w, Some(|data|));
    }
  }

  lemma NullIsNull(t: FieldType, compact: bool)
    requires t.TString? || t.TBytes? || t.TArray? || t.TStruct?
    ensures EncNull(t, compact).Ok?
    ensures match t
            case TString => IsLength(EncNull(t, compact).value, compact, 2, None)
            case TStruct(_, _) => IsInt(EncNull(t, compact).value, 1, -1)
            case _ => IsLength(EncNull(t, compact).value, compact, 4, None)
  {
    if t.TStruct? {
      PowersOf256();
      IntIsBigEndian(1, -1);
    } else {
      var w := if t.TString? then 2 else 4;
      LengthIsLength(compact, w, None);
      assert PutLen(compact, w, None).value + [] == PutLen(compact, w, None).value;
    }
  }

  lemma TagIsTag(r: RawTag)
    ensures IsTag(PutTag(r), r)
  {
    VarintIsVarint(r.tag);
    VarintIsVarint(|r.data|);
  }

  lemma {:induction false} TagsAreTags(raws: seq<RawTag>)
    ensures AreTags(PutTagList(raws), raws)
  {
    if raws != [] {
      TagIsTag(raws[0]);
      TagsAreTags(raws[1..]);
    }
  }

  lemma SectionIsSection(raws: seq<RawTag>)
    ensures IsSection(PutTags(raws), raws)
  {
    VarintIsVarint(|raws|);
    TagsAreTags(raws);
  }

  lemma {:induction false} InsertKeepsAll(raws: seq<RawTag>, r: RawTag)
    ensures multiset(Insert(raws, r)) == multiset(raws) + multiset{r}
  {
    if raws != [] && raws[|raws| - 1].tag > r.tag {
      InsertKeepsAll(raws[..|raws| - 1], r);
      assert raws == raws[..|raws| - 1] + [raws[|raws| - 1]];
    }
  }

  lemma {:induction false} SortKeepsAll(raws: seq<RawTag>)
    ensures multiset(SortByTag(raws)) == multiset(raws)
  {
    if raws != [] {
      SortKeepsAll(raws[..|raws| - 1]);
      InsertKeepsAll(SortByTag(raws[..|raws| - 1]), raws[|raws| - 1]);
      assert raws == raws[..|raws| - 1] + [raws[|raws| - 1]];
    }
  }

  lemma SectionIsArranged(tagged: Fields, unknown: seq<RawTag>, known: seq<RawTag>)
    ensures Arranged(tagged, unknown, known, Section(tagged, unknown, known))
  {
    if tagged.More? {
      SortSorts(unknown + known);
      SortKeepsAll(unknown + known);
    }
  }

  // ---- the encoders -------------------------------------------------------------------

  /** The version of an unfolded encoder. */
  function AtOf(env: Env): At {
    At(env.flexible, env.version)
  }

  predicate Agree(env: Env, at: At, marked: bool, mayBeNull: bool, nullable: Option<bool>) {
    && !env.folded && at == AtOf(env)
    && (nullable.Some? <==> marked) && (marked ==> nullable.value == mayBeNull)
  }

  lemma {:induction false} EncLays(env: Env, at: At, t: FieldType, marked: bool, mayBeNull: bool, nullable: Option<bool>, compact: bool, v: Value)
    requires Accepted(t, marked) && Agree(env, at, marked, mayBeNull, nullable)
    ensures Enc(env, t, nullable, compact, v).Ok? <==> Fitting(at, t, marked, mayBeNull, compact, v)
    ensures Enc(env, t, nullable, compact, v).Ok? ==> Laid(at, t, marked, compact, v, Enc(env, t, nullable, compact, v).value)
    decreases t, 1
  {
    if marked && v.VNull? {
      NullIsNull(t, compact);
    } else if t.TArray? {
      ArrayLays(env, at, t, marked, mayBeNull, nullable, compact, v);
    } else if t.TStruct? {
      StructLays(env, at, t, marked, mayBeNull, nullable, compact, v);
    } else if t.TString? || t.TBytes? {
      BlobLays(env, at, t, marked, mayBeNull, nullable, compact, v);
    } else {
      LeafLays(env, at, t, marked, mayBeNull, nullable, compact, v);
    }
  }

  lemma NumberIsLaid(w: nat, signed: bool, n: int)
    ensures InRange(w, signed, n) <==> if signed then 0 <= 2 * n + Pow(256, w) && 2 * n < Pow(256, w) else 0 <= n < Pow(256, w)
    ensures InRange(w, signed, n) ==> IsInt(PutInt(w, n), w, n)
  {
    PowIsPow256(w);
    if InRange(w, signed, n) {
      IntIsBigEndian(w, n);
    }
  }

  lemma BlobLays(env: Env, at: At, t: FieldType, marked: bool, mayBeNull: bool, nullable: Option<bool>, compact: bool, v: Value)
    requires (t.TString? || t.TBytes?) && Agree(env, at, marked, mayBeNull, nullable) && !(marked && v.VNull?)
    ensures Enc(env, t, nullable, compact, v).Ok? <==> Fitting(at, t, marked, mayBeNull, compact, v)
    ensures Enc(env, t, nullable, compact, v).Ok? ==> Laid(at, t, marked, compact, v, Enc(env, t, nullable, compact, v).value)
  {
    if t.TString? && v.VString? {
      BlobIsBlob(compact, 2, v.s);
    } else if t.TBytes? && v.VBytes? {
      BlobIsBlob(compact, 4, v.data);
    }
  }

  lemma LeafLays(env: Env, at: At, t: FieldType, marked: bool, mayBeNull: bool, nullable: Option<bool>, compact: bool, v: Value)
    requires !t.TArray? && !t.TStruct? && !t.TString? && !t.TBytes?
    requires Agree(env, at, marked, mayBeNull, nullable) && !(marked && v.VNull?)
    ensures Enc(env, t, nullable, compact, v).Ok? <==> Fitting(at, t, marked, mayBeNull, compact, v)
    ensures Enc(env, t, nullable, compact, v).Ok? ==> Laid(at, t, marked, compact, v, Enc(env, t, nullable, compact, v).value)
  {
    if t.TInt? && v.VInt? {
      NumberIsLaid(t.width, t.signed, v.n);
    }
  }

  lemma {:induction false} ArrayLays(env: Env, at: At, t: FieldType, marked: bool, mayBeNull: bool, nullable: Option<bool>, compact: bool, v: Value)
    requires t.TArray? && Accepted(t, marked) && Agree(env, at, marked, mayBeNull, nullable) && !(marked && v.VNull?)
    ensures Enc(env, t, nullable, compact, v).Ok? <==> Fitting(at, t, marked, mayBeNull, compact, v)
    ensures Enc(env, t, nullable, compact, v).Ok? ==> Laid(at, t, marked, compact, v, Enc(env, t, nullable, compact, v).value)
    decreases t, 0
  {
    if v.VArray? {
      LengthIsWritten(compact, 4, |v.items|);
      ItemsLay(env, at, t.elem, compact, v.items);
      if Enc(env, t, nullable, compact, v).Ok? {
        LengthIsLength(compact, 4, Some(|v.items|));
      }
    }
  }

  lemma {:induction false} ItemsLay(env: Env, at: At, elem: FieldType, compact: bool, items: seq<Value>)
    requires Accepted(elem, false) && Agree(env, at, false, false, None)
    ensures EncItems(env, elem, compact, items).Ok? <==> FittingItems(at, elem, compact, items)
    ensures EncItems(env, elem, compact, items).Ok? ==> LaidItems(at, elem, compact, items, EncItems(env, elem, compact, items).value)
    decreases elem, 1 + |items|
  {
    if items != [] {
      EncLays(env, at, elem, false, false, None, compact, items[0]);
      ItemsLay(env, at, elem, compact, items[1..]);
    }
  }

  lemma SameField(env: Env, at: At, f: Field)
    requires !env.folded && at == AtOf(env)
    ensures env.OnWire(f) == at.Has(f) && env.Compact(f) == at.IsCompact(f)
    ensures Agree(env, at, f.nullable.Some?, at.MayBeNull(f), env.Nullable(f))
  {
  }

  lemma {:induction false} FieldsLay(env: Env, at: At, fs: Fields, vs: Values)
    requires AcceptedFields(fs) && !env.folded && at == AtOf(env)
    ensures EncFields(env, fs, vs).Ok? <==> FittingFields(at, fs, vs)
    ensures EncFields(env, fs, vs).Ok? ==> LaidFields(at, fs, vs, EncFields(env, fs, vs).value)
    decreases fs, 0
  {
    if fs.More? && vs.Also? {
      var f := fs.field;
      SameField(env, at, f);
      EncLays(env, at, f.ftype, f.nullable.Some?, at.MayBeNull(f), env.Nullable(f), env.Compact(f), vs.value);
      FieldsLay(env, at, fs.rest, vs.others);
    }
  }

  lemma {:induction false} TaggedLay(env: Env, at: At, fs: Fields, vs: Values)
    requires AcceptedFields(fs) && !env.folded && at == AtOf(env)
    ensures EncTagged(env, fs, vs).Ok? <==> FittingTagged(at, fs, vs)
    ensures EncTagged(env, fs, vs).Ok? ==> LaidTagged(at, fs, vs, EncTagged(env, fs, vs).value)
    decreases fs, 0
  {
    if fs.More? && vs.Also? {
      var f := fs.field;
      SameField(env, at, f);
      EncLays(env, at, f.ftype, f.nullable.Some?, at.MayBeNull(f), env.Nullable(f), env.Compact(f), vs.value);
      TaggedLay(env, at, fs.rest, vs.others);
      if EncTagged(env, fs, vs).Ok? && at.Has(f) && !vs.value.VAbsent? {
        assert EncTagged(env, fs, vs).value[1..] == EncTagged(env, fs.rest, vs.others).value;
      }
    }
  }

  lemma {:induction false} StructLays(env: Env, at: At, t: FieldType, marked: bool, mayBeNull: bool, nullable: Option<bool>, compact: bool, v: Value)
    requires t.TStruct? && Accepted(t, marked) && Agree(env, at, marked, mayBeNull, nullable) && !(marked && v.VNull?)
    ensures Enc(env, t, nullable, compact, v).Ok? <==> Fitting(at, t, marked, mayBeNull, compact, v)
    ensures Enc(env, t, nullable, compact, v).Ok? ==> Laid(at, t, marked, compact, v, Enc(env, t, nullable, compact, v).value)
    decreases t, 0
  {
    if v.VStruct? {
      FieldsLay(env, at, t.wire, v.wire);
      TaggedLay(env, at, t.tagged, v.tagged);
      if Enc(env, t, nullable, compact, v).Ok? {
        StructIsLaid(env, at, t, marked, nullable, compact, v);
      }
    }
  }

  lemma StructIsLaid(env: Env, at: At, t: FieldType, marked: bool, nullable: Option<bool>, compact: bool, v: Value)
    requires t.TStruct? && v.VStruct? && !env.folded && at == AtOf(env) && (nullable.Some? <==> marked)
    requires Enc(env, t, nullable, compact, v).Ok?
    requires EncFields(env, t.wire, v.wire).Ok? && LaidFields(at, t.wire, v.wire, EncFields(env, t.wire, v.wire).value)
    requires EncTagged(env, t.tagged, v.tagged).Ok? ==> LaidTagged(at, t.tagged, v.tagged, EncTagged(env, t.tagged, v.tagged).value)
    ensures Laid(at, t, marked, compact, v, Enc(env, t, nullable, compact, v).value)
  {
    var body := EncFields(env, t.wire, v.wire).value;
    PowersOf256();
    assert PutInt(1, 1) == [1] by {
      assert PutUint(1, 1) == PutUint(0, 0) + [1];
    }
    if env.Flexible() {
      var known := EncTagged(env, t.tagged, v.tagged).value;
      var raws := Section(t.tagged, v.unknown, known);
      SectionIsArranged(t.tagged, v.unknown, known);
      SectionIsSection(raws);
      assert LaidSection(at, t.tagged, v, PutTags(raws));
    } else {
      assert body + [] == body;
      assert LaidSection(at, t.tagged, v, []);
    }
  }

  /** For every accepted schema and every version of it: exactly the values of its types that are
      short enough are encoded, and each is laid out as the version prescribes. */
  lemma EncodingIsLaidOut(env: Env, fs: Fields, vs: Values)
    requires AcceptedFields(fs) && env.valid.Contains(env.version)
    ensures var at := At(env.flexible, env.version);
            && (EncFields(env, fs, vs).Ok? <==> FittingFields(at, fs, vs))
            && (EncFields(env, fs, vs).Ok? ==> LaidFields(at, fs, vs, EncFields(env, fs, vs).value))
  {
    if env.folded {
      EncFieldsFolds(env, fs, vs);
      FieldsLay(env.(folded := false), AtOf(env), fs, vs);
    } else {
      FieldsLay(env, AtOf(env), fs, vs);
    }
  }

  /** A message: the fields of its top-level struct and, at flexible versions, their section. */
  lemma MessageIsLaidOut(env: Env, wire: Fields, tagged: Fields, v: Value)
    requires AcceptedFields(wire) && AcceptedFields(tagged) && TagsAscend(-1, tagged) && env.valid.Contains(env.version)
    ensures var at := At(env.flexible, env.version);
            var t := TStruct(wire, tagged);
            var r := Enc(env, t, None, at.Flexible(), v);
            && (r.Ok? <==> Fitting(at, t, false, false, at.Flexible(), v))
            && (r.Ok? ==> Laid(at, t, false, at.Flexible(), v, r.value))
  {
    var at, t := AtOf(env), TStruct(wire, tagged);
    if env.folded {
      EncFolds(env, t, None, at.Flexible(), v);
      EncLays(env.(folded := false), at, t, false, false, None, at.Flexible(), v);
    } else {
      EncLays(env, at, t, false, false, None, at.Flexible(), v);
    }
  }

  // ---- fields a version does not have -------------------------------------------------

  /** What a literal stands for in a field of type `t`. */
  predicate Denotes(t: FieldType, literal: Literal, v: Value) {
    match literal
    case LNull => v.VNull?
    case LBool(b) => t.TBool? && v == VBool(b)
    case LInt(n) => t.TInt? && v == VInt(n)
    case LFloat(bits) => t.TFloat? && v == VFloat(bits)
    case LString(s) => t.TString? && v == VString(s)
  }

  predicate Zero(t: FieldType, v: Value) {
    match t
    case TBool => v == VBool(false)
    case TInt(_, _) => v == VInt(0)
    case TFloat => v.VFloat? && |v.bits| == 8 && forall i :: 0 <= i < 8 ==> v.bits[i] == 0
    case TUuid => v.VUuid? && |v.id| == 16 && forall i :: 0 <= i < 16 ==> v.id[i] == 0
    case TString => v == VString([])
    case TBytes => v == VBytes([])
    case TArray(_) => v == VArray([])
    case TStruct(_, _) => v.VStruct? && v.unknown == []
  }

  predicate Suits(t: FieldType, literal: Literal) {
    match literal
    case LNull => true
    case LBool(_) => t.TBool?
    case LInt(_) => t.TInt?
    case LFloat(_) => t.TFloat?
    case LString(_) => t.TString?
  }

  lemma DefaultIsDeclared(f: Field)
    requires f.default == Some(LNull) ==> f.nullable.Some?
    ensures f.default.None? ==> Zero(f.ftype, DefaultOf(f))
    ensures f.default.Some? && Suits(f.ftype, f.default.value) ==> Denotes(f.ftype, f.default.value, DefaultOf(f))
  {
  }

  /** A field the version does not have reads no byte and comes back as its declared default, or
      as the zero of its type when it declares none. */
  lemma AbsentFieldReadsDefault(env: Env, f: Field, rest: Fields, bs: Bytes)
    requires env.valid.Contains(env.version) && !AtOf(env).Has(f) && DecFields(env, More(f, rest), bs).Ok?
    requires f.default == Some(LNull) ==> f.nullable.Some?
    ensures var (vs, left) := DecFields(env, More(f, rest), bs).value;
            && DecFields(env, rest, bs) == Ok((vs.others, left))
            && (f.default.None? ==> Zero(f.ftype, vs.value))
            && (f.default.Some? && Suits(f.ftype, f.default.value) ==> Denotes(f.ftype, f.default.value, vs.value))
  {
    GuardIsMembership(f.versions, env.valid, env.version);
    var r := DecFields(env, rest, bs);
    assert DecFields(env, More(f, rest), bs) == Ok((Also(DefaultOf(f), r.value.0), r.value.1));
    DefaultIsDeclared(f);
  }

  // ---- the envelope -------------------------------------------------------------------

  /** A frame is its payload behind the payload's length in four bytes. */
  lemma FrameIsLaidOut(payload: Bytes)
    requires |payload| <= I32_MAX
    ensures IsInt(Frame.Framed(payload)[..4], 4, |payload|) && Frame.Framed(payload)[4..] == payload
  {
    PowersOf256();
    IntIsBigEndian(4, |payload|);
    assert Frame.Framed(payload)[..4] == PutInt(4, |payload|);
  }
}
