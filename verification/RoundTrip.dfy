/** Decoding undoes encoding, for every schema the compiler accepts. */
module RoundTrip {
  import opened Wrappers
  import opened Wire
  import opened Schema
  import opened Codec
  import opened Tags

  // ---- what a version leaves of a value -----------------------------------------------

  /** The value as it comes back: fields off the wire at their defaults, tagged fields off the
      wire absent, unknown tags in order. */
  function Norm(env: Env, t: FieldType, v: Value): Value
    decreases t, 0
  {
    if t.TArray? && v.VArray? then VArray(NormItems(env, t.elem, v.items))
    else if t.TStruct? && v.VStruct? then
      if env.Flexible() then
        VStruct(NormFields(env, t.wire, v.wire), NormTagged(env, t.tagged, v.tagged), Section(t.tagged, v.unknown, []))
      else VStruct(NormFields(env, t.wire, v.wire), Absences(t.tagged), [])
    else v
  }

  function NormItems(env: Env, elem: FieldType, items: seq<Value>): (r: seq<Value>)
    ensures |r| == |items|
    decreases elem, 1 + |items|
  {
    if items == [] then [] else [Norm(env, elem, items[0])] + NormItems(env, elem, items[1..])
  }

  function NormFields(env: Env, fs: Fields, vs: Values): Values
    decreases fs, 0
  {
    if fs.NoFields? || vs.NoValues? then NoValues
    else
      Also(if env.OnWire(fs.field) then Norm(env, fs.field.ftype, vs.value) else DefaultOf(fs.field), NormFields(env, fs.rest, vs.others))
  }

  function NormTagged(env: Env, fs: Fields, vs: Values): Values
    decreases fs, 0
  {
    if fs.NoFields? || vs.NoValues? then NoValues
    else
      Also(if env.OnWire(fs.field) && !vs.value.VAbsent? then Norm(env, fs.field.ftype, vs.value) else VAbsent,
           NormTagged(env, fs.rest, vs.others))
  }

  // ---- which values can come back -----------------------------------------------------

  predicate NoneKnown(env: Env, fs: Fields, raws: seq<RawTag>) {
    match fs
    case NoFields => true
    case More(f, rest) => (env.OnWire(f) ==> Find(raws, f.tag).None?) && NoneKnown(env, rest, raws)
  }

  /** Unknown tags are distinct and unknown, and where the struct has no tagged fields of its
      own, in order: nothing sorts them there. Vectors are no longer than memory allows. */
  predicate Proper(env: Env, t: FieldType, v: Value)
    decreases t, 0
  {
    if t.TArray? && v.VArray? then |v.items| <= I64_MAX && ProperItems(env, t.elem, v.items)
    else if t.TStruct? && v.VStruct? then
      && ProperFields(env, t.wire, v.wire)
      && (env.Flexible() ==>
            && ProperFields(env, t.tagged, v.tagged)
            && if t.tagged.NoFields? then Ascending(-1, v.unknown) else Distinct(v.unknown) && NoneKnown(env, t.tagged, v.unknown))
    else true
  }

  predicate ProperItems(env: Env, elem: FieldType, items: seq<Value>)
    decreases elem, 1 + |items|
  {
    items == [] || (Proper(env, elem, items[0]) && ProperItems(env, elem, items[1..]))
  }

  predicate ProperFields(env: Env, fs: Fields, vs: Values)
    decreases fs, 0
  {
    fs.NoFields? || vs.NoValues? ||
    ((env.OnWire(fs.field) ==> Proper(env, fs.field.ftype, vs.value)) && ProperFields(env, fs.rest, vs.others))
  }

  /** A struct none of whose fields takes a byte at this version. */
  predicate Widthless(env: Env, t: FieldType)
    decreases t
  {
    t.TStruct? && !env.Flexible() && WidthlessFields(env, t.wire)
  }

  predicate WidthlessFields(env: Env, fs: Fields)
    decreases fs
  {
    match fs
    case NoFields => true
    case More(f, rest) => (env.OnWire(f) ==> f.nullable.None? && Widthless(env, f.ftype)) && WidthlessFields(env, rest)
  }

  /** No array on the wire holds structs that take no bytes. */
  predicate Steady(env: Env, t: FieldType, v: Value)
    decreases t, 0
  {
    if t.TArray? && v.VArray? then SteadyItems(env, t.elem, v.items)
    else if t.TStruct? && v.VStruct? then
      SteadyFields(env, t.wire, v.wire) && (env.Flexible() ==> SteadyTagged(env, t.tagged, v.tagged))
    else true
  }

  predicate SteadyItems(env: Env, elem: FieldType, items: seq<Value>)
    decreases elem, 1 + |items|
  {
    items == [] || (!Widthless(env, elem) && Steady(env, elem, items[0]) && SteadyItems(env, elem, items[1..]))
  }

  predicate SteadyFields(env: Env, fs: Fields, vs: Values)
    decreases fs, 0
  {
    fs.NoFields? || vs.NoValues? ||
    ((env.OnWire(fs.field) ==> Steady(env, fs.field.ftype, vs.value)) && SteadyFields(env, fs.rest, vs.others))
  }

  predicate SteadyTagged(env: Env, fs: Fields, vs: Values)
    decreases fs, 0
  {
    fs.NoFields? || vs.NoValues? ||
    ((env.OnWire(fs.field) && !vs.value.VAbsent? ==> Steady(env, fs.field.ftype, vs.value)) && SteadyTagged(env, fs.rest, vs.others))
  }

  // ---- widths -------------------------------------------------------------------------

  /** Whether an encoding is empty depends on the schema and the version alone. */
  lemma {:induction false} WidthIsStatic(env: Env, t: FieldType, nullable: Option<bool>, compact: bool, v: Value)
    requires Accepted(t, nullable.Some?) && Enc(env, t, nullable, compact, v).Ok?
    ensures Enc(env, t, nullable, compact, v).value == [] <==> nullable.None? && Widthless(env, t)
    decreases t, 0
  {
    if t.TStruct? && v.VStruct? {
      WidthOfFields(env, t.wire, v.wire);
    }
  }

  lemma {:induction false} WidthOfFields(env: Env, fs: Fields, vs: Values)
    requires AcceptedFields(fs) && EncFields(env, fs, vs).Ok?
    ensures EncFields(env, fs, vs).value == [] <==> WidthlessFields(env, fs)
    decreases fs, 0
  {
    if fs.More? {
      if env.OnWire(fs.field) {
        WidthIsStatic(env, fs.field.ftype, env.Nullable(fs.field), env.Compact(fs.field), vs.value);
      }
      WidthOfFields(env, fs.rest, vs.others);
    }
  }

  // ---- tagged sections ----------------------------------------------------------------

  lemma {:induction false} AscendingHasNone(previous: int, raws: seq<RawTag>, tag: nat)
    requires Ascending(previous, raws) && tag <= previous
    ensures Find(raws, tag).None?
    decreases raws
  {
    if raws != [] {
      AscendingHasNone(raws[0].tag, raws[1..], tag);
    }
  }

  lemma {:induction false} KnownAscend(env: Env, fs: Fields, vs: Values, previous: int)
    requires TagsAscend(previous, fs) && EncTagged(env, fs, vs).Ok? && |PutTagList(EncTagged(env, fs, vs).value)| <= I64_MAX
    ensures Ascending(previous, EncTagged(env, fs, vs).value)
    decreases fs
  {
    if fs.More? {
      var known := EncTagged(env, fs, vs).value;
      if env.OnWire(fs.field) && !vs.value.VAbsent? {
        assert known[1..] == EncTagged(env, fs.rest, vs.others).value;
        KnownAscend(env, fs.rest, vs.others, fs.field.tag);
      } else {
        KnownAscend(env, fs.rest, vs.others, fs.field.tag);
        LowerStart(previous, fs.field.tag, known);
      }
    }
  }

  lemma LowerStart(low: int, high: int, raws: seq<RawTag>)
    requires low <= high && Ascending(high, raws)
    ensures Ascending(low, raws)
  {
  }

  predicate Apart(a: seq<RawTag>, b: seq<RawTag>) {
    b == [] || (Find(a, b[|b| - 1].tag).None? && Apart(a, b[..|b| - 1]))
  }

  lemma {:induction false} ApartCons(a: seq<RawTag>, r: RawTag, b: seq<RawTag>)
    requires Find(a, r.tag).None? && Apart(a, b)
    ensures Apart(a, [r] + b)
  {
    if b != [] {
      ApartCons(a, r, b[..|b| - 1]);
      assert ([r] + b)[..|b|] == [r] + b[..|b| - 1];
    } else {
      assert [r] + b == [r] && [r][..0] == [];
    }
  }

  lemma {:induction false} KnownApart(env: Env, fs: Fields, vs: Values, unknown: seq<RawTag>)
    requires NoneKnown(env, fs, unknown) && EncTagged(env, fs, vs).Ok?
    ensures Apart(unknown, EncTagged(env, fs, vs).value)
    decreases fs
  {
    if fs.More? {
      KnownApart(env, fs.rest, vs.others, unknown);
      if env.OnWire(fs.field) && !vs.value.VAbsent? {
        ApartCons(unknown, EncTagged(env, fs, vs).value[0], EncTagged(env, fs.rest, vs.others).value);
      }
    }
  }

  lemma {:induction false} LastIsHighest(previous: int, raws: seq<RawTag>)
    requires Ascending(previous, raws) && raws != []
    ensures Find(raws[..|raws| - 1], raws[|raws| - 1].tag).None? && previous < raws[|raws| - 1].tag
    decreases raws
  {
    if |raws| > 1 {
      LastIsHighest(raws[0].tag, raws[1..]);
      assert raws[..|raws| - 1][1..] == raws[1..][..|raws| - 2];
    }
  }

  lemma {:induction false} DistinctConcat(a: seq<RawTag>, b: seq<RawTag>)
    requires Distinct(a) && Ascending(-1, b) && Apart(a, b)
    ensures Distinct(a + b)
  {
    if b == [] {
      assert a + b == a;
    } else {
      var init, last := b[..|b| - 1], b[|b| - 1];
      AscendingInit(-1, b);
      DistinctConcat(a, init);
      LastIsHighest(-1, b);
      FindConcat(a, init, last.tag);
      assert (a + b)[..|a + b| - 1] == a + init;
    }
  }

  // ---- the round trip -----------------------------------------------------------------

  /** Decoding an encoding followed by anything gives back the value as the version leaves it
      and exactly what followed; unless some array on the wire holds structs of no width, and
      then it fails. */
  lemma {:induction false} DecodeInvertsEncode(env: Env, t: FieldType, nullable: Option<bool>, compact: bool, v: Value, suffix: Bytes)
    requires Accepted(t, nullable.Some?) && Proper(env, t, v)
    requires Enc(env, t, nullable, compact, v).Ok? && |Enc(env, t, nullable, compact, v).value| <= I64_MAX
    ensures Dec(env, t, nullable, compact, Enc(env, t, nullable, compact, v).value + suffix)
         == if Steady(env, t, v) then Ok((Norm(env, t, v), suffix)) else Err(NoProgress)
    decreases t, 1
  {
    if nullable.Some? && v.VNull? {
      NullInverse(env, t, compact, suffix);
    } else if t.TArray? {
      var len := PutLen(compact, 4, Some(|v.items|)).value;
      var body := EncItems(env, t.elem, compact, v.items).value;
      Assoc(len, body, suffix);
      LenInverse(compact, 4, Some(|v.items|), body + suffix);
      ItemsInverse(env, t.elem, compact, v.items, suffix);
    } else if !t.TStruct? {
      LeafInverse(env, t, nullable, compact, v, suffix);
    } else if env.Flexible() {
      FlexibleStructInverse(env, t, nullable, compact, v, suffix);
    } else {
      PlainStructInverse(env, t, nullable, compact, v, suffix);
    }
  }

  lemma LeafInverse(env: Env, t: FieldType, nullable: Option<bool>, compact: bool, v: Value, suffix: Bytes)
    requires !t.TArray? && !t.TStruct? && Accepted(t, nullable.Some?) && !(nullable.Some? && v.VNull?)
    requires Enc(env, t, nullable, compact, v).Ok? && |Enc(env, t, nullable, compact, v).value| <= I64_MAX
    ensures Dec(env, t, nullable, compact, Enc(env, t, nullable, compact, v).value + suffix) == Ok((v, suffix))
  {
    var bs := Enc(env, t, nullable, compact, v).value;
    match t
    case TBool =>
      assert (bs + suffix)[1..] == suffix;
    case TInt(w, signed) =>
      IntInverse(w, signed, v.n, suffix);
    case TFloat =>
      Cut(bs, suffix);
    case TUuid =>
      Cut(bs, suffix);
    case TString =>
      BlobInverse(compact, 2, Some(v.s), suffix);
    case TBytes =>
      BlobInverse(compact, 4, Some(v.data), suffix);
  }

  lemma NullInverse(env: Env, t: FieldType, compact: bool, suffix: Bytes)
    requires EncNull(t, compact).Ok?
    ensures Dec(env, t, Some(true), compact, EncNull(t, compact).value + suffix) == Ok((VNull, suffix))
  {
    match t
    case TString => BlobInverse(compact, 2, None, suffix);
    case TBytes => BlobInverse(compact, 4, None, suffix);
    case TArray(_) => LenInverse(compact, 4, None, suffix);
    case TStruct(_, _) =>
      MinusOneFits(1);
      IntInverse(1, true, -1, suffix);
  }

  lemma {:induction false} ItemsInverse(env: Env, elem: FieldType, compact: bool, items: seq<Value>, suffix: Bytes)
    requires Accepted(elem, false) && ProperItems(env, elem, items)
    requires EncItems(env, elem, compact, items).Ok? && |EncItems(env, elem, compact, items).value| <= I64_MAX
    ensures DecItems(env, elem, compact, |items|, EncItems(env, elem, compact, items).value + suffix)
         == if SteadyItems(env, elem, items) then Ok((NormItems(env, elem, items), suffix)) else Err(NoProgress)
    decreases elem, 1 + |items|
  {
    if items == [] {
      assert EncItems(env, elem, compact, items).value + suffix == suffix;
    } else {
      var head := Enc(env, elem, None, compact, items[0]).value;
      var tail := EncItems(env, elem, compact, items[1..]).value;
      Assoc(head, tail, suffix);
      WidthIsStatic(env, elem, None, compact, items[0]);
      DecodeInvertsEncode(env, elem, None, compact, items[0], tail + suffix);
      ItemsInverse(env, elem, compact, items[1..], suffix);
      assert |head + (tail + suffix)| == |tail + suffix| <==> head == [];
      ItemsStep(env, elem, compact, items, head + (tail + suffix), tail + suffix, suffix);
    }
  }

  /** From the first item and the others to all of them. */
  lemma ItemsStep(env: Env, elem: FieldType, compact: bool, items: seq<Value>, bs: Bytes, more: Bytes, suffix: Bytes)
    requires items != [] && (|more| == |bs| <==> Widthless(env, elem))
    requires Dec(env, elem, None, compact, bs)
          == if Steady(env, elem, items[0]) then Ok((Norm(env, elem, items[0]), more)) else Err(NoProgress)
    requires DecItems(env, elem, compact, |items| - 1, more)
          == if SteadyItems(env, elem, items[1..]) then Ok((NormItems(env, elem, items[1..]), suffix)) else Err(NoProgress)
    ensures DecItems(env, elem, compact, |items|, bs)
         == if SteadyItems(env, elem, items) then Ok((NormItems(env, elem, items), suffix)) else Err(NoProgress)
  {
  }

  lemma {:induction false} FieldsInverse(env: Env, fs: Fields, vs: Values, suffix: Bytes)
    requires AcceptedFields(fs) && ProperFields(env, fs, vs)
    requires EncFields(env, fs, vs).Ok? && |EncFields(env, fs, vs).value| <= I64_MAX
    ensures DecFields(env, fs, EncFields(env, fs, vs).value + suffix)
         == if SteadyFields(env, fs, vs) then Ok((NormFields(env, fs, vs), suffix)) else Err(NoProgress)
    decreases fs, 0
  {
    match fs
    case NoFields =>
      assert EncFields(env, fs, vs).value + suffix == suffix;
    case More(f, rest) =>
      if env.OnWire(f) {
        var head := Enc(env, f.ftype, env.Nullable(f), env.Compact(f), vs.value).value;
        var tail := EncFields(env, rest, vs.others).value;
        Assoc(head, tail, suffix);
        DecodeInvertsEncode(env, f.ftype, env.Nullable(f), env.Compact(f), vs.value, tail + suffix);
      }
      FieldsInverse(env, rest, vs.others, suffix);
  }

  /** The known tags are found in the sorted section, and taking them out leaves the unknown. */
  lemma {:induction false} TaggedInverse(env: Env, fs: Fields, vs: Values, unknown: seq<RawTag>, previous: int)
    requires AcceptedFields(fs) && TagsAscend(previous, fs) && ProperFields(env, fs, vs) && NoneKnown(env, fs, unknown)
    requires EncTagged(env, fs, vs).Ok? && |PutTagList(EncTagged(env, fs, vs).value)| <= I64_MAX
    ensures DecTagged(env, fs, SortByTag(unknown + EncTagged(env, fs, vs).value))
         == if SteadyTagged(env, fs, vs) then Ok((NormTagged(env, fs, vs), SortByTag(unknown))) else Err(NoProgress)
    decreases fs, 0
  {
    var known := EncTagged(env, fs, vs).value;
    match fs
    case NoFields =>
      assert unknown + known == unknown;
    case More(f, rest) =>
      var others := EncTagged(env, rest, vs.others).value;
      FindSorted(unknown + known, f.tag);
      FindConcat(unknown, known, f.tag);
      if env.OnWire(f) && !vs.value.VAbsent? {
        var data := Enc(env, f.ftype, env.Nullable(f), env.Compact(f), vs.value).value;
        assert known == [RawTag(f.tag, data)] + others && known[1..] == others;
        DecodeInvertsEncode(env, f.ftype, env.Nullable(f), env.Compact(f), vs.value, []);
        assert data + [] == data;
        TaggedInverse(env, rest, vs.others, unknown, f.tag);
        OneKnownRemoved(env, rest, vs.others, unknown, RawTag(f.tag, data));
      } else {
        TaggedInverse(env, rest, vs.others, unknown, f.tag);
        KnownAscend(env, rest, vs.others, f.tag);
        AscendingHasNone(f.tag, others, f.tag);
      }
  }

  lemma OneKnownRemoved(env: Env, rest: Fields, vs: Values, unknown: seq<RawTag>, r: RawTag)
    requires TagsAscend(r.tag, rest) && Find(unknown, r.tag).None?
    requires EncTagged(env, rest, vs).Ok? && |PutTagList(EncTagged(env, rest, vs).value)| <= I64_MAX
    ensures Remove(SortByTag(unknown + ([r] + EncTagged(env, rest, vs).value)), r.tag) == SortByTag(unknown + EncTagged(env, rest, vs).value)
  {
    var others := EncTagged(env, rest, vs).value;
    RemoveSorted(unknown + ([r] + others), r.tag);
    RemoveConcat(unknown, [r] + others, r.tag);
    RemoveAbsent(unknown, r.tag);
    KnownAscend(env, rest, vs, r.tag);
    AscendingHasNone(r.tag, others, r.tag);
    RemoveAbsent(others, r.tag);
    assert ([r] + others)[1..] == others;
  }

  /** The section of a proper struct is strictly ascending. */
  lemma SectionAscends(env: Env, tagged: Fields, vs: Values, unknown: seq<RawTag>)
    requires TagsAscend(-1, tagged) && EncTagged(env, tagged, vs).Ok? && |PutTagList(EncTagged(env, tagged, vs).value)| <= I64_MAX
    requires if tagged.NoFields? then Ascending(-1, unknown) else Distinct(unknown) && NoneKnown(env, tagged, unknown)
    ensures Ascending(-1, Section(tagged, unknown, EncTagged(env, tagged, vs).value))
  {
    if tagged.More? {
      KnownAscend(env, tagged, vs, -1);
      KnownApart(env, tagged, vs, unknown);
      DistinctConcat(unknown, EncTagged(env, tagged, vs).value);
      SortAscends(unknown + EncTagged(env, tagged, vs).value);
    }
  }

  lemma SectionSize(tagged: Fields, unknown: seq<RawTag>, known: seq<RawTag>)
    requires tagged.NoFields? ==> known == []
    ensures |PutTagList(Section(tagged, unknown, known))| == |PutTagList(unknown)| + |PutTagList(known)|
  {
    if tagged.More? {
      SortedSize(unknown + known);
      ListConcat(unknown, known);
    }
  }

  lemma {:induction false} PlainStructInverse(env: Env, t: FieldType, nullable: Option<bool>, compact: bool, v: Value, suffix: Bytes)
    requires t.TStruct? && Accepted(t, nullable.Some?) && Proper(env, t, v) && v.VStruct? && !env.Flexible()
    requires Enc(env, t, nullable, compact, v).Ok? && |Enc(env, t, nullable, compact, v).value| <= I64_MAX
    ensures Dec(env, t, nullable, compact, Enc(env, t, nullable, compact, v).value + suffix)
         == if Steady(env, t, v) then Ok((Norm(env, t, v), suffix)) else Err(NoProgress)
    decreases t, 0
  {
    var marker: Bytes := if nullable.Some? then PutInt(1, 1) else [];
    var body := EncFields(env, t.wire, v.wire).value;
    Assoc(marker, body, suffix);
    MarkerInverse(nullable, body + suffix);
    FieldsInverse(env, t.wire, v.wire, suffix);
  }

  /** What the tagged section of a struct decodes to. */
  lemma {:induction false} SectionInverse(env: Env, tagged: Fields, v: Value, suffix: Bytes)
    requires v.VStruct? && AcceptedFields(tagged) && TagsAscend(-1, tagged) && ProperFields(env, tagged, v.tagged)
    requires if tagged.NoFields? then Ascending(-1, v.unknown) else Distinct(v.unknown) && NoneKnown(env, tagged, v.unknown)
    requires EncTagged(env, tagged, v.tagged).Ok?
    requires |PutTags(Section(tagged, v.unknown, EncTagged(env, tagged, v.tagged).value))| <= I64_MAX
    ensures var section := Section(tagged, v.unknown, EncTagged(env, tagged, v.tagged).value);
            && GetTags(PutTags(section) + suffix) == Ok((section, suffix))
            && DecTagged(env, tagged, section)
            == if SteadyTagged(env, tagged, v.tagged) then Ok((NormTagged(env, tagged, v.tagged), Section(tagged, v.unknown, [])))
               else Err(NoProgress)
    decreases tagged, 1
  {
    var known := EncTagged(env, tagged, v.tagged).value;
    SectionSize(tagged, v.unknown, known);
    SectionAscends(env, tagged, v.tagged, v.unknown);
    TagsInverse(Section(tagged, v.unknown, known), suffix);
    if tagged.More? {
      TaggedInverse(env, tagged, v.tagged, v.unknown, -1);
      assert v.unknown + [] == v.unknown;
    }
  }

  lemma {:induction false} FlexibleStructInverse(env: Env, t: FieldType, nullable: Option<bool>, compact: bool, v: Value, suffix: Bytes)
    requires t.TStruct? && Accepted(t, nullable.Some?) && Proper(env, t, v) && v.VStruct? && env.Flexible()
    requires Enc(env, t, nullable, compact, v).Ok? && |Enc(env, t, nullable, compact, v).value| <= I64_MAX
    ensures Dec(env, t, nullable, compact, Enc(env, t, nullable, compact, v).value + suffix)
         == if Steady(env, t, v) then Ok((Norm(env, t, v), suffix)) else Err(NoProgress)
    decreases t, 0
  {
    var marker: Bytes := if nullable.Some? then PutInt(1, 1) else [];
    var body := EncFields(env, t.wire, v.wire).value;
    var section := PutTags(Section(t.tagged, v.unknown, EncTagged(env, t.tagged, v.tagged).value));
    Assoc(marker, body + section, suffix);
    Assoc(body, section, suffix);
    MarkerInverse(nullable, body + (section + suffix));
    FieldsInverse(env, t.wire, v.wire, section + suffix);
    SectionInverse(env, t.tagged, v, suffix);
  }

  lemma MarkerInverse(nullable: Option<bool>, suffix: Bytes)
    ensures var marker: Bytes := if nullable.Some? then PutInt(1, 1) else [];
            nullable.Some? ==> GetInt(1, true, marker + suffix) == Ok((1, suffix))
    ensures [] + suffix == suffix
  {
    PowersOf256();
    IntInverse(1, true, 1, suffix);
  }

  // ---- where it does not return -------------------------------------------------------

  /** The compiler accepts a struct whose only field came in version 1. At version 0 an array
      holding one is encoded, and refused by the decoder. */
  lemma WidthlessElementIsRefused() returns (t: FieldType, v: Value, env: Env)
    ensures Accepted(t, false) && Proper(env, t, v) && env.valid.Contains(env.version)
    ensures Enc(env, t, None, false, v).Ok? && Dec(env, t, None, false, Enc(env, t, None, false, v).value) == Err(NoProgress)
  {
    env := Env(VersionRange(0, 1), VersionRange(1, 0), 0, true);
    var field := Field(TBool, VersionRange(1, 1), None, 0, None, None);
    t := TArray(TStruct(More(field, NoFields), NoFields));
    v := VArray([VStruct(Also(VBool(true), NoValues), NoValues, [])]);
    assert env.valid.Contains(1) && !env.OnWire(field);
    PowersOf256();
    assert v.items[1..] == [];
    DecodeInvertsEncode(env, t, None, false, v, []);
    assert Enc(env, t, None, false, v).value + [] == Enc(env, t, None, false, v).value;
  }
}
