/** Exactly which values a decoder gives back: what the round trip asks of tagged fields is
    not only enough but needed. */
module TagOrder {
  import opened Wrappers
  import opened Wire
  import opened Schema
  import opened Codec
  import opened Tags
  import opened RoundTrip
  import opened Reencode

  // ---- what order in a section says of its parts --------------------------------------

  lemma {:induction false} InsertedFit(raws: seq<RawTag>, r: RawTag)
    requires TagsFit(raws) && r.tag <= U32_MAX
    ensures TagsFit(Insert(raws, r))
  {
    if raws != [] && raws[|raws| - 1].tag > r.tag {
      InsertedFit(raws[..|raws| - 1], r);
    }
  }

  lemma {:induction false} SortedFit(raws: seq<RawTag>)
    requires TagsFit(raws)
    ensures TagsFit(SortByTag(raws))
  {
    if raws != [] {
      SortedFit(raws[..|raws| - 1]);
      InsertedFit(SortByTag(raws[..|raws| - 1]), raws[|raws| - 1]);
    }
  }

  /** Inserting keeps an order that is strict only if it was strict and the tag is new. */
  lemma {:induction false} InsertAscendsOnlyIf(raws: seq<RawTag>, r: RawTag)
    requires Ascending(-1, Insert(raws, r))
    ensures Ascending(-1, raws) && Find(raws, r.tag).None? && r.tag <= U32_MAX && |r.data| <= I64_MAX
    ensures raws != [] ==> raws[|raws| - 1].tag <= Insert(raws, r)[|raws|].tag
  {
    var s := Insert(raws, r);
    AscendingInit(-1, s);
    if raws == [] || raws[|raws| - 1].tag <= r.tag {
      assert s[..|s| - 1] == raws;
      LastIsHighest(-1, s);
    } else {
      var init, last := raws[..|raws| - 1], raws[|raws| - 1];
      assert s[..|s| - 1] == Insert(init, r) && s[|s| - 1] == last;
      InsertAscendsOnlyIf(init, r);
      assert raws == init + [last];
      FindConcat(init, [last], r.tag);
      assert init != [] ==> init[|init| - 1].tag < last.tag;
      AscendingSnoc(-1, init, last);
    }
  }

  /** Only distinct tags can be sorted into strict order. */
  lemma {:induction false} SortAscendsOnlyIf(raws: seq<RawTag>)
    requires Ascending(-1, SortByTag(raws))
    ensures Distinct(raws)
  {
    if raws != [] {
      var init, last := raws[..|raws| - 1], raws[|raws| - 1];
      InsertAscendsOnlyIf(SortByTag(init), last);
      SortAscendsOnlyIf(init);
      FindSorted(init, last.tag);
    }
  }

  lemma {:induction false} DistinctParts(a: seq<RawTag>, b: seq<RawTag>)
    requires Distinct(a + b)
    ensures Distinct(a) && Apart(a, b)
  {
    if b == [] {
      assert a + b == a;
    } else {
      var init, last := b[..|b| - 1], b[|b| - 1];
      assert (a + b)[..|a + b| - 1] == a + init;
      DistinctParts(a, init);
      FindConcat(a, init, last.tag);
    }
  }

  /** The unknown tags of a struct at a version, beside the known ones it writes: distinct, and
      none of them written; in order where nothing sorts them. */
  ghost predicate InOrder(tagged: Fields, unknown: seq<RawTag>, known: seq<RawTag>) {
    if tagged.NoFields? then Ascending(-1, unknown) else Distinct(unknown) && Apart(unknown, known)
  }

  lemma SectionAscendsIff(env: Env, tagged: Fields, vs: Values, unknown: seq<RawTag>)
    requires TagsAscend(-1, tagged) && EncTagged(env, tagged, vs).Ok? && |PutTagList(EncTagged(env, tagged, vs).value)| <= I64_MAX
    ensures var known := EncTagged(env, tagged, vs).value;
            Ascending(-1, Section(tagged, unknown, known)) <==> InOrder(tagged, unknown, known)
  {
    var known := EncTagged(env, tagged, vs).value;
    if tagged.More? {
      if Ascending(-1, SortByTag(unknown + known)) {
        SortAscendsOnlyIf(unknown + known);
        DistinctParts(unknown, known);
      }
      if Distinct(unknown) && Apart(unknown, known) {
        KnownAscend(env, tagged, vs, -1);
        DistinctConcat(unknown, known);
        SortAscends(unknown + known);
      }
    }
  }

  /** A section of any tags is read back if they are in order, and refused if not. */
  lemma SectionExact(env: Env, tagged: Fields, vs: Values, unknown: seq<RawTag>, suffix: Bytes)
    requires TagsAscend(-1, tagged) && EncTagged(env, tagged, vs).Ok? && TagsFit(unknown)
    requires |PutTags(Section(tagged, unknown, EncTagged(env, tagged, vs).value))| <= I64_MAX
    ensures var known := EncTagged(env, tagged, vs).value;
            var section := Section(tagged, unknown, known);
            GetTags(PutTags(section) + suffix)
            == if InOrder(tagged, unknown, known) then Ok((section, suffix)) else Err(TaggedFieldOrder)
  {
    var known := EncTagged(env, tagged, vs).value;
    SectionSize(tagged, unknown, known);
    SectionAscendsIff(env, tagged, vs, unknown);
    if tagged.More? {
      KnownAscend(env, tagged, vs, -1);
      AscendingFits(known);
      SortedFit(unknown + known);
    }
    TagsExact(Section(tagged, unknown, known), suffix);
  }

  // ---- what comes back ----------------------------------------------------------------

  /** No vector is longer than memory allows. */
  predicate Fits(v: Value)
    decreases v
  {
    match v
    case VArray(items) => |items| <= I64_MAX && ItemsFit(items)
    case VStruct(wire, tagged, _) => AllFit(wire) && AllFit(tagged)
    case _ => true
  }

  predicate ItemsFit(items: seq<Value>)
    decreases items
  {
    items == [] || (Fits(items[0]) && ItemsFit(items[1..]))
  }

  predicate AllFit(vs: Values)
    decreases vs
  {
    vs.NoValues? || (Fits(vs.value) && AllFit(vs.others))
  }

  lemma NothingReadsAbsent(env: Env, t: FieldType, nullable: Option<bool>, compact: bool, bs: Bytes)
    ensures Dec(env, t, nullable, compact, bs).Ok? ==> !Dec(env, t, nullable, compact, bs).value.0.VAbsent?
  {
  }

  /** Whatever decodes from an encoding is followed by exactly what followed it; and if it is
      the value that was encoded, that value was proper. */
  lemma {:induction false} OnlyProperReturns(env: Env, t: FieldType, nullable: Option<bool>, compact: bool, v: Value, suffix: Bytes)
    requires Accepted(t, nullable.Some?) && Fits(v)
    requires Enc(env, t, nullable, compact, v).Ok? && |Enc(env, t, nullable, compact, v).value| <= I64_MAX
    ensures var r := Dec(env, t, nullable, compact, Enc(env, t, nullable, compact, v).value + suffix);
            r.Ok? ==> r.value.1 == suffix && (r.value.0 == Norm(env, t, v) ==> Proper(env, t, v))
    decreases t, 1
  {
    if nullable.Some? && v.VNull? {
      DecodeInvertsEncode(env, t, nullable, compact, v, suffix);
    } else if t.TArray? {
      ArrayReturns(env, t, nullable, compact, v, suffix);
    } else if t.TStruct? {
      StructReturns(env, t, nullable, compact, v, suffix);
    } else {
      DecodeInvertsEncode(env, t, nullable, compact, v, suffix);
    }
  }

  lemma {:induction false} ArrayReturns(env: Env, t: FieldType, nullable: Option<bool>, compact: bool, v: Value, suffix: Bytes)
    requires t.TArray? && v.VArray? && Accepted(t, nullable.Some?) && Fits(v)
    requires Enc(env, t, nullable, compact, v).Ok? && |Enc(env, t, nullable, compact, v).value| <= I64_MAX
    ensures var r := Dec(env, t, nullable, compact, Enc(env, t, nullable, compact, v).value + suffix);
            r.Ok? ==> r.value.1 == suffix && (r.value.0 == Norm(env, t, v) ==> Proper(env, t, v))
    decreases t, 0
  {
    var len := PutLen(compact, 4, Some(|v.items|)).value;
    var body := EncItems(env, t.elem, compact, v.items).value;
    Assoc(len, body, suffix);
    LenInverse(compact, 4, Some(|v.items|), body + suffix);
    ItemsReturn(env, t.elem, compact, v.items, suffix);
  }

  /** From the first item and the others to all of them. */
  lemma ItemsCons(env: Env, elem: FieldType, compact: bool, items: seq<Value>, bs: Bytes, more: Bytes, suffix: Bytes)
    requires items != []
    requires var r := Dec(env, elem, None, compact, bs);
             r.Ok? ==> r.value.1 == more && (r.value.0 == Norm(env, elem, items[0]) ==> Proper(env, elem, items[0]))
    requires var r := DecItems(env, elem, compact, |items| - 1, more);
             r.Ok? ==> r.value.1 == suffix && (r.value.0 == NormItems(env, elem, items[1..]) ==> ProperItems(env, elem, items[1..]))
    ensures var r := DecItems(env, elem, compact, |items|, bs);
            r.Ok? ==> r.value.1 == suffix && (r.value.0 == NormItems(env, elem, items) ==> ProperItems(env, elem, items))
  {
    var r := DecItems(env, elem, compact, |items|, bs);
    if r.Ok? && r.value.0 == NormItems(env, elem, items) {
      assert r.value.0[1..] == NormItems(env, elem, items[1..]);
    }
  }

  lemma {:induction false} ItemsReturn(env: Env, elem: FieldType, compact: bool, items: seq<Value>, suffix: Bytes)
    requires Accepted(elem, false) && ItemsFit(items)
    requires EncItems(env, elem, compact, items).Ok? && |EncItems(env, elem, compact, items).value| <= I64_MAX
    ensures var r := DecItems(env, elem, compact, |items|, EncItems(env, elem, compact, items).value + suffix);
            r.Ok? ==> r.value.1 == suffix && (r.value.0 == NormItems(env, elem, items) ==> ProperItems(env, elem, items))
    decreases elem, 1 + |items|
  {
    if items == [] {
      assert EncItems(env, elem, compact, items).value + suffix == suffix;
    } else {
      var head := Enc(env, elem, None, compact, items[0]).value;
      var tail := EncItems(env, elem, compact, items[1..]).value;
      Assoc(head, tail, suffix);
      OnlyProperReturns(env, elem, None, compact, items[0], tail + suffix);
      ItemsReturn(env, elem, compact, items[1..], suffix);
      ItemsCons(env, elem, compact, items, head + (tail + suffix), tail + suffix, suffix);
    }
  }

  lemma {:induction false} FieldsReturn(env: Env, fs: Fields, vs: Values, suffix: Bytes)
    requires AcceptedFields(fs) && AllFit(vs)
    requires EncFields(env, fs, vs).Ok? && |EncFields(env, fs, vs).value| <= I64_MAX
    ensures var r := DecFields(env, fs, EncFields(env, fs, vs).value + suffix);
            r.Ok? ==> r.value.1 == suffix && (r.value.0 == NormFields(env, fs, vs) ==> ProperFields(env, fs, vs))
    decreases fs, 0
  {
    match fs
    case NoFields =>
      assert EncFields(env, fs, vs).value + suffix == suffix;
    case More(f, rest) =>
      if env.OnWire(f) {
        var head := Enc(env, f.ftype, env.Nullable(f), env.Compact(f), vs.value).value;
        var tail := EncFields(env, rest, vs.others).value;
        Assoc(head, tail, suffix);
        OnlyProperReturns(env, f.ftype, env.Nullable(f), env.Compact(f), vs.value, tail + suffix);
      }
      FieldsReturn(env, rest, vs.others, suffix);
  }

  /** An absent field comes back absent only if no unknown tag is its own. */
  lemma {:induction false} TaggedReturn(env: Env, fs: Fields, vs: Values, unknown: seq<RawTag>, previous: int)
    requires AcceptedFields(fs) && TagsAscend(previous, fs) && AllFit(vs)
    requires EncTagged(env, fs, vs).Ok? && |PutTagList(EncTagged(env, fs, vs).value)| <= I64_MAX
    requires Apart(unknown, EncTagged(env, fs, vs).value)
    requires var r := DecTagged(env, fs, SortByTag(unknown + EncTagged(env, fs, vs).value));
             r.Ok? && r.value.0 == NormTagged(env, fs, vs)
    ensures NoneKnown(env, fs, unknown) && ProperFields(env, fs, vs)
    decreases fs, 1
  {
    if fs.More? {
      var f, known := fs.field, EncTagged(env, fs, vs).value;
      var others := EncTagged(env, fs.rest, vs.others).value;
      FindSorted(unknown + known, f.tag);
      FindConcat(unknown, known, f.tag);
      if env.OnWire(f) && !vs.value.VAbsent? {
        PresentReturns(env, fs, vs, unknown);
      } else {
        KnownAscend(env, fs.rest, vs.others, f.tag);
        AscendingHasNone(f.tag, others, f.tag);
        if env.OnWire(f) && Find(unknown, f.tag).Some? {
          NothingReadsAbsent(env, f.ftype, env.Nullable(f), env.Compact(f), Find(unknown, f.tag).value);
          assert false;
        }
        TaggedReturn(env, fs.rest, vs.others, unknown, f.tag);
      }
    }
  }

  lemma {:induction false} PresentReturns(env: Env, fs: Fields, vs: Values, unknown: seq<RawTag>)
    requires fs.More? && vs.Also? && env.OnWire(fs.field) && !vs.value.VAbsent?
    requires AcceptedFields(fs) && TagsAscend(fs.field.tag, fs.rest) && AllFit(vs)
    requires EncTagged(env, fs, vs).Ok? && |PutTagList(EncTagged(env, fs, vs).value)| <= I64_MAX
    requires Apart(unknown, EncTagged(env, fs, vs).value)
    requires var r := DecTagged(env, fs, SortByTag(unknown + EncTagged(env, fs, vs).value));
             r.Ok? && r.value.0 == NormTagged(env, fs, vs)
    ensures NoneKnown(env, fs, unknown) && ProperFields(env, fs, vs)
    decreases fs, 0
  {
    var f, known := fs.field, EncTagged(env, fs, vs).value;
    var others := EncTagged(env, fs.rest, vs.others).value;
    var data := Enc(env, f.ftype, env.Nullable(f), env.Compact(f), vs.value).value;
    assert known == [RawTag(f.tag, data)] + others && known[1..] == others;
    ApartTail(unknown, RawTag(f.tag, data), others);
    FindSorted(unknown + known, f.tag);
    FindConcat(unknown, known, f.tag);
    OneKnownRemoved(env, fs.rest, vs.others, unknown, RawTag(f.tag, data));
    assert data + [] == data;
    OnlyProperReturns(env, f.ftype, env.Nullable(f), env.Compact(f), vs.value, []);
    TaggedReturn(env, fs.rest, vs.others, unknown, f.tag);
  }

  lemma {:induction false} ApartTail(a: seq<RawTag>, r: RawTag, b: seq<RawTag>)
    requires Apart(a, [r] + b)
    ensures Find(a, r.tag).None? && Apart(a, b)
  {
    if b == [] {
      assert [r] + b == [r];
    } else {
      assert ([r] + b)[..|b|] == [r] + b[..|b| - 1];
      ApartTail(a, r, b[..|b| - 1]);
    }
  }

  lemma {:induction false} StructReturns(env: Env, t: FieldType, nullable: Option<bool>, compact: bool, v: Value, suffix: Bytes)
    requires t.TStruct? && v.VStruct? && Accepted(t, nullable.Some?) && Fits(v)
    requires Enc(env, t, nullable, compact, v).Ok? && |Enc(env, t, nullable, compact, v).value| <= I64_MAX
    ensures var r := Dec(env, t, nullable, compact, Enc(env, t, nullable, compact, v).value + suffix);
            r.Ok? ==> r.value.1 == suffix && (r.value.0 == Norm(env, t, v) ==> Proper(env, t, v))
    decreases t, 0
  {
    var marker: Bytes := if nullable.Some? then PutInt(1, 1) else [];
    var body := EncFields(env, t.wire, v.wire).value;
    if env.Flexible() {
      var known := EncTagged(env, t.tagged, v.tagged).value;
      var section := PutTags(Section(t.tagged, v.unknown, known));
      Assoc(marker, body + section, suffix);
      Assoc(body, section, suffix);
      MarkerInverse(nullable, body + (section + suffix));
      FieldsReturn(env, t.wire, v.wire, section + suffix);
      SectionExact(env, t.tagged, v.tagged, v.unknown, suffix);
      TagsReturn(env, t.tagged, v, suffix);
    } else {
      Assoc(marker, body, suffix);
      MarkerInverse(nullable, body + suffix);
      FieldsReturn(env, t.wire, v.wire, suffix);
    }
  }

  lemma {:induction false} TagsReturn(env: Env, tagged: Fields, v: Value, suffix: Bytes)
    requires v.VStruct? && AcceptedFields(tagged) && TagsAscend(-1, tagged) && AllFit(v.tagged) && TagsFit(v.unknown)
    requires EncTagged(env, tagged, v.tagged).Ok?
    requires |PutTags(Section(tagged, v.unknown, EncTagged(env, tagged, v.tagged).value))| <= I64_MAX
    ensures var known := EncTagged(env, tagged, v.tagged).value;
            var r := DecTagged(env, tagged, Section(tagged, v.unknown, known));
            InOrder(tagged, v.unknown, known) && r.Ok? && r.value.0 == NormTagged(env, tagged, v.tagged) ==>
              ProperFields(env, tagged, v.tagged)
              && if tagged.NoFields? then Ascending(-1, v.unknown) else Distinct(v.unknown) && NoneKnown(env, tagged, v.unknown)
    decreases tagged, 2
  {
    var known := EncTagged(env, tagged, v.tagged).value;
    SectionSize(tagged, v.unknown, known);
    if tagged.More? {
      var r := DecTagged(env, tagged, Section(tagged, v.unknown, known));
      if InOrder(tagged, v.unknown, known) && r.Ok? && r.value.0 == NormTagged(env, tagged, v.tagged) {
        TaggedReturn(env, tagged, v.tagged, v.unknown, -1);
      }
    }
  }

  /** The round trip, exactly. For every accepted schema, version and value that encodes, and
      whatever follows: decoding gives back the value as the version leaves it, and what
      followed, if and only if the tags in it are proper and no array on the wire holds structs
      of no width. */
  lemma RoundTripsIff(env: Env, t: FieldType, nullable: Option<bool>, compact: bool, v: Value, suffix: Bytes)
    requires Accepted(t, nullable.Some?) && Fits(v)
    requires Enc(env, t, nullable, compact, v).Ok? && |Enc(env, t, nullable, compact, v).value| <= I64_MAX
    ensures Dec(env, t, nullable, compact, Enc(env, t, nullable, compact, v).value + suffix) == Ok((Norm(env, t, v), suffix))
            <==> Proper(env, t, v) && Steady(env, t, v)
  {
    if Proper(env, t, v) {
      DecodeInvertsEncode(env, t, nullable, compact, v, suffix);
    } else {
      OnlyProperReturns(env, t, nullable, compact, v, suffix);
    }
  }

  /** Where a struct's own tags are out of order, repeated, or one of them is unknown and yet
      written as a known one too, the struct is written and then refused. */
  lemma DisorderIsRefused(env: Env, t: FieldType, nullable: Option<bool>, compact: bool, v: Value, suffix: Bytes)
    requires t.TStruct? && v.VStruct? && env.Flexible() && Accepted(t, nullable.Some?)
    requires Enc(env, t, nullable, compact, v).Ok? && |Enc(env, t, nullable, compact, v).value| <= I64_MAX
    requires ProperFields(env, t.wire, v.wire) && SteadyFields(env, t.wire, v.wire)
    requires !InOrder(t.tagged, v.unknown, EncTagged(env, t.tagged, v.tagged).value)
    ensures Dec(env, t, nullable, compact, Enc(env, t, nullable, compact, v).value + suffix) == Err(TaggedFieldOrder)
  {
    var marker: Bytes := if nullable.Some? then PutInt(1, 1) else [];
    var body := EncFields(env, t.wire, v.wire).value;
    var section := PutTags(Section(t.tagged, v.unknown, EncTagged(env, t.tagged, v.tagged).value));
    Assoc(marker, body + section, suffix);
    Assoc(body, section, suffix);
    MarkerInverse(nullable, body + (section + suffix));
    FieldsInverse(env, t.wire, v.wire, section + suffix);
    SectionExact(env, t.tagged, v.tagged, v.unknown, suffix);
  }

  /** A struct without tagged fields of its own writes unknown tags in the order they were put
      in. If its other fields come back, it does if and only if that order was ascending, and is
      refused if not; sorting would have done for any distinct tags. */
  lemma UnsortedTagsAreRefused(env: Env, wire: Fields, nullable: Option<bool>, compact: bool, v: Value, suffix: Bytes)
    requires v.VStruct? && env.Flexible() && Accepted(TStruct(wire, NoFields), nullable.Some?)
    requires Enc(env, TStruct(wire, NoFields), nullable, compact, v).Ok?
    requires |Enc(env, TStruct(wire, NoFields), nullable, compact, v).value| <= I64_MAX
    requires ProperFields(env, wire, v.wire) && SteadyFields(env, wire, v.wire)
    ensures var t := TStruct(wire, NoFields);
            Dec(env, t, nullable, compact, Enc(env, t, nullable, compact, v).value + suffix)
            == if Ascending(-1, v.unknown) then Ok((Norm(env, t, v), suffix)) else Err(TaggedFieldOrder)
    ensures Distinct(v.unknown) ==> Ascending(-1, SortByTag(v.unknown))
  {
    var t := TStruct(wire, NoFields);
    if Ascending(-1, v.unknown) {
      DecodeInvertsEncode(env, t, nullable, compact, v, suffix);
    } else {
      DisorderIsRefused(env, t, nullable, compact, v, suffix);
    }
    if Distinct(v.unknown) {
      SortAscends(v.unknown);
    }
  }
}
