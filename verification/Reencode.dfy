/** Encoding undoes decoding: what a decoder accepted is written again without loss. */
module Reencode {
  import opened Wrappers
  import opened Wire
  import opened Schema
  import opened Codec
  import opened Tags
  import opened RoundTrip

  // ---- lists of tags ------------------------------------------------------------------

  lemma {:induction false} AscendingIsDistinct(raws: seq<RawTag>)
    requires Ascending(-1, raws)
    ensures Distinct(raws)
  {
    if raws != [] {
      AscendingInit(-1, raws);
      AscendingIsDistinct(raws[..|raws| - 1]);
      LastIsHighest(-1, raws);
    }
  }

  lemma {:induction false} AscendingIsBelow(raws: seq<RawTag>, top: nat)
    requires Ascending(-1, raws) && (raws != [] ==> raws[|raws| - 1].tag <= top)
    ensures Below(raws, top)
  {
    if raws != [] {
      AscendingInit(-1, raws);
      AscendingIsBelow(raws[..|raws| - 1], top);
    }
  }

  /** Sorting leaves an ascending list as it is. */
  lemma {:induction false} SortOfAscending(raws: seq<RawTag>)
    requires Ascending(-1, raws)
    ensures SortByTag(raws) == raws
  {
    if raws != [] {
      var init, last := raws[..|raws| - 1], raws[|raws| - 1];
      AscendingInit(-1, raws);
      SortOfAscending(init);
      AscendingIsBelow(init, last.tag);
      InsertLast(init, last);
    }
  }

  lemma {:induction false} RemoveOne(previous: int, raws: seq<RawTag>, tag: nat)
    requires Ascending(previous, raws) && Find(raws, tag).Some?
    ensures Ascending(previous, Remove(raws, tag)) && |Remove(raws, tag)| == |raws| - 1
    ensures |PutTagList(Remove(raws, tag))| + |PutTag(RawTag(tag, Find(raws, tag).value))| == |PutTagList(raws)|
    ensures |Find(raws, tag).value| <= I64_MAX
    decreases raws
  {
    if raws[0].tag == tag {
      AscendingHasNone(tag, raws[1..], tag);
      RemoveAbsent(raws[1..], tag);
      LowerStart(previous, tag, raws[1..]);
    } else {
      RemoveOne(raws[0].tag, raws[1..], tag);
      assert Remove(raws, tag)[1..] == Remove(raws[1..], tag);
    }
  }

  lemma TagShrinks(tag: nat, data: Bytes, data': Bytes)
    requires |data'| <= |data|
    ensures |PutTag(RawTag(tag, data'))| <= |PutTag(RawTag(tag, data))|
  {
    VarintGrows(|data'|, |data|);
  }

  /** The tags a struct reads into its own fields at this version. */
  predicate IsKnown(env: Env, fs: Fields, tag: nat) {
    match fs
    case NoFields => false
    case More(f, rest) => (env.OnWire(f) && f.tag == tag) || IsKnown(env, rest, tag)
  }

  /** Everything but the known tags stays, untouched. */
  lemma {:induction false} UnknownStay(env: Env, fs: Fields, raws: seq<RawTag>, tag: nat)
    requires DecTagged(env, fs, raws).Ok?
    ensures Find(DecTagged(env, fs, raws).value.1, tag) == if IsKnown(env, fs, tag) then None else Find(raws, tag)
    decreases fs
  {
    if fs.More? {
      var f := fs.field;
      if env.OnWire(f) && Find(raws, f.tag).Some? {
        UnknownStay(env, fs.rest, Remove(raws, f.tag), tag);
        FindAfterRemove(raws, f.tag, tag);
      } else {
        UnknownStay(env, fs.rest, raws, tag);
      }
    }
  }

  lemma {:induction false} NoneKnownStays(env: Env, fs: Fields, all: Fields, raws: seq<RawTag>)
    requires DecTagged(env, all, raws).Ok? && forall tag :: IsKnown(env, fs, tag) ==> IsKnown(env, all, tag)
    ensures NoneKnown(env, fs, DecTagged(env, all, raws).value.1)
    decreases fs
  {
    if fs.More? {
      UnknownStay(env, all, raws, fs.field.tag);
      assert env.OnWire(fs.field) ==> IsKnown(env, fs, fs.field.tag);
      forall tag | IsKnown(env, fs.rest, tag) ensures IsKnown(env, all, tag) {
        assert IsKnown(env, fs, tag);
      }
      NoneKnownStays(env, fs.rest, all, raws);
    }
  }

  // ---- structs of no width ------------------------------------------------------------

  lemma {:induction false} WidthlessReadsNothing(env: Env, t: FieldType, compact: bool, bs: Bytes)
    requires Widthless(env, t) && Dec(env, t, None, compact, bs).Ok?
    ensures Dec(env, t, None, compact, bs).value.1 == bs
    decreases t
  {
    WidthlessFieldsReadNothing(env, t.wire, bs);
  }

  lemma {:induction false} WidthlessFieldsReadNothing(env: Env, fs: Fields, bs: Bytes)
    requires WidthlessFields(env, fs) && DecFields(env, fs, bs).Ok?
    ensures DecFields(env, fs, bs).value.1 == bs
    decreases fs
  {
    if fs.More? {
      if env.OnWire(fs.field) {
        WidthlessReadsNothing(env, fs.field.ftype, env.Compact(fs.field), bs);
      }
      WidthlessFieldsReadNothing(env, fs.rest, bs);
    }
  }

  // ---- re-encoding --------------------------------------------------------------------

  /** What was decoded can be encoded again at the same version, in no more bytes, and is a
      value the round trip covers and leaves as it is. */
  predicate Restored(env: Env, t: FieldType, nullable: Option<bool>, compact: bool, v: Value, size: int) {
    && v != VAbsent
    && Enc(env, t, nullable, compact, v).Ok? && |Enc(env, t, nullable, compact, v).value| <= size
    && Proper(env, t, v) && Steady(env, t, v) && Norm(env, t, v) == v
  }

  lemma {:induction false} EncodeInvertsDecode(env: Env, t: FieldType, nullable: Option<bool>, compact: bool, bs: Bytes)
    requires Accepted(t, nullable.Some?) && |bs| <= I64_MAX
    requires Dec(env, t, nullable, compact, bs).Ok?
    ensures var (v, left) := Dec(env, t, nullable, compact, bs).value;
            Restored(env, t, nullable, compact, v, |bs| - |left|) && (!t.TStruct? ==> |left| < |bs|)
    decreases t, 1
  {
    if t.TStruct? {
      if env.Flexible() {
        FlexibleStructRestored(env, t, nullable, compact, bs);
      } else {
        PlainStructRestored(env, t, nullable, compact, bs);
      }
    } else if t.TArray? {
      ArrayRestored(env, t, nullable, compact, bs);
    } else {
      LeafRestored(env, t, nullable, compact, bs);
    }
  }

  lemma BlobRestored(env: Env, t: FieldType, nullable: Option<bool>, compact: bool, bs: Bytes)
    requires t.TString? || t.TBytes?
    requires Dec(env, t, nullable, compact, bs).Ok?
    ensures var (v, left) := Dec(env, t, nullable, compact, bs).value;
            Restored(env, t, nullable, compact, v, |bs| - |left|) && |left| < |bs|
  {
    ReadBlob(compact, if t.TString? then 2 else 4, bs);
  }

  lemma LeafRestored(env: Env, t: FieldType, nullable: Option<bool>, compact: bool, bs: Bytes)
    requires Accepted(t, nullable.Some?) && !t.TStruct? && !t.TArray?
    requires Dec(env, t, nullable, compact, bs).Ok?
    ensures var (v, left) := Dec(env, t, nullable, compact, bs).value;
            Restored(env, t, nullable, compact, v, |bs| - |left|) && |left| < |bs|
  {
    if t.TString? || t.TBytes? {
      BlobRestored(env, t, nullable, compact, bs);
    }
  }

  lemma {:induction false} ArrayRestored(env: Env, t: FieldType, nullable: Option<bool>, compact: bool, bs: Bytes)
    requires t.TArray? && Accepted(t, nullable.Some?) && |bs| <= I64_MAX
    requires Dec(env, t, nullable, compact, bs).Ok?
    ensures var (v, left) := Dec(env, t, nullable, compact, bs).value;
            Restored(env, t, nullable, compact, v, |bs| - |left|) && |left| < |bs|
    decreases t, 0
  {
    ReadLen(compact, 4, bs);
    var (len, more) := GetLen(compact, 4, bs).value;
    if len.Some? {
      ItemsRestored(env, t.elem, compact, len.value, more);
    }
  }

  lemma {:induction false} ItemsRestored(env: Env, elem: FieldType, compact: bool, n: nat, bs: Bytes)
    requires Accepted(elem, false) && |bs| <= I64_MAX && DecItems(env, elem, compact, n, bs).Ok?
    ensures var (items, left) := DecItems(env, elem, compact, n, bs).value;
            && EncItems(env, elem, compact, items).Ok? && |EncItems(env, elem, compact, items).value| <= |bs| - |left|
            && |items| <= |bs| - |left|
            && ProperItems(env, elem, items) && SteadyItems(env, elem, items) && NormItems(env, elem, items) == items
    decreases elem, 1 + n
  {
    if n > 0 {
      EncodeInvertsDecode(env, elem, None, compact, bs);
      var (head, more) := Dec(env, elem, None, compact, bs).value;
      if Widthless(env, elem) {
        WidthlessReadsNothing(env, elem, compact, bs);
      }
      ItemsRestored(env, elem, compact, n - 1, more);
      var (tail, left) := DecItems(env, elem, compact, n - 1, more).value;
      assert ([head] + tail)[1..] == tail;
    }
  }

  lemma {:induction false} FieldsRestored(env: Env, fs: Fields, bs: Bytes)
    requires AcceptedFields(fs) && |bs| <= I64_MAX && DecFields(env, fs, bs).Ok?
    ensures var (vs, left) := DecFields(env, fs, bs).value;
            && EncFields(env, fs, vs).Ok? && |EncFields(env, fs, vs).value| <= |bs| - |left|
            && ProperFields(env, fs, vs) && SteadyFields(env, fs, vs) && NormFields(env, fs, vs) == vs
    decreases fs, 0
  {
    if fs.More? {
      var f := fs.field;
      if env.OnWire(f) {
        EncodeInvertsDecode(env, f.ftype, env.Nullable(f), env.Compact(f), bs);
        FieldsRestored(env, fs.rest, Dec(env, f.ftype, env.Nullable(f), env.Compact(f), bs).value.1);
      } else {
        FieldsRestored(env, fs.rest, bs);
      }
    }
  }

  lemma {:induction false} TaggedRestored(env: Env, fs: Fields, raws: seq<RawTag>, previous: int)
    requires AcceptedFields(fs) && TagsAscend(previous, fs) && Ascending(-1, raws) && DecTagged(env, fs, raws).Ok?
    ensures var (vs, unknown) := DecTagged(env, fs, raws).value;
            && EncTagged(env, fs, vs).Ok?
            && |unknown| + |EncTagged(env, fs, vs).value| == |raws|
            && |PutTagList(unknown)| + |PutTagList(EncTagged(env, fs, vs).value)| <= |PutTagList(raws)|
            && Ascending(-1, unknown)
            && ProperFields(env, fs, vs) && SteadyTagged(env, fs, vs) && NormTagged(env, fs, vs) == vs
    decreases fs, 0
  {
    if fs.More? {
      var f := fs.field;
      var data := Find(raws, f.tag);
      if env.OnWire(f) && data.Some? {
        RemoveOne(-1, raws, f.tag);
        EncodeInvertsDecode(env, f.ftype, env.Nullable(f), env.Compact(f), data.value);
        var v := Dec(env, f.ftype, env.Nullable(f), env.Compact(f), data.value).value.0;
        var data' := Enc(env, f.ftype, env.Nullable(f), env.Compact(f), v).value;
        TagShrinks(f.tag, data.value, data');
        TaggedRestored(env, fs.rest, Remove(raws, f.tag), f.tag);
        var vs := DecTagged(env, fs.rest, Remove(raws, f.tag)).value.0;
        var known := EncTagged(env, fs, Also(v, vs)).value;
        assert known[1..] == EncTagged(env, fs.rest, vs).value;
      } else {
        TaggedRestored(env, fs.rest, raws, f.tag);
      }
    }
  }

  /** A tagged section is written again with the same tags, known and unknown merged back into
      strictly ascending order, and the bytes of every unknown tag unchanged. */
  lemma {:induction false} SectionRestored(env: Env, tagged: Fields, raws: seq<RawTag>)
    requires AcceptedFields(tagged) && TagsAscend(-1, tagged) && Ascending(-1, raws) && DecTagged(env, tagged, raws).Ok?
    requires |PutTagList(raws)| <= I64_MAX
    ensures var (vs, unknown) := DecTagged(env, tagged, raws).value;
            && EncTagged(env, tagged, vs).Ok?
            && var section := Section(tagged, unknown, EncTagged(env, tagged, vs).value);
               && Ascending(-1, section) && |section| == |raws| && |PutTagList(section)| <= |PutTagList(raws)|
               && forall tag :: !IsKnown(env, tagged, tag) ==> Find(section, tag) == Find(raws, tag)
    ensures var (vs, unknown) := DecTagged(env, tagged, raws).value;
            && TagsFit(unknown) && Section(tagged, unknown, []) == unknown
            && (if tagged.NoFields? then Ascending(-1, unknown) else Distinct(unknown) && NoneKnown(env, tagged, unknown))
            && ProperFields(env, tagged, vs) && SteadyTagged(env, tagged, vs) && NormTagged(env, tagged, vs) == vs
    decreases tagged, 1
  {
    var (vs, unknown) := DecTagged(env, tagged, raws).value;
    TaggedRestored(env, tagged, raws, -1);
    var known := EncTagged(env, tagged, vs).value;
    NoneKnownStays(env, tagged, tagged, raws);
    AscendingIsDistinct(unknown);
    AscendingFits(unknown);
    SectionAscends(env, tagged, vs, unknown);
    SectionSize(tagged, unknown, known);
    SortOfAscending(unknown);
    assert unknown + [] == unknown;
    forall tag | !IsKnown(env, tagged, tag) ensures Find(Section(tagged, unknown, known), tag) == Find(raws, tag) {
      UnknownStay(env, tagged, raws, tag);
      FindSorted(unknown + known, tag);
      FindConcat(unknown, known, tag);
      KnownIsKnown(env, tagged, vs, tag);
    }
  }

  lemma {:induction false} AscendingFits(raws: seq<RawTag>)
    requires Ascending(-1, raws)
    ensures TagsFit(raws)
  {
    if raws != [] {
      AscendingInit(-1, raws);
      AscendingFits(raws[..|raws| - 1]);
    }
  }

  lemma {:induction false} KnownIsKnown(env: Env, fs: Fields, vs: Values, tag: nat)
    requires EncTagged(env, fs, vs).Ok? && !IsKnown(env, fs, tag)
    ensures Find(EncTagged(env, fs, vs).value, tag).None?
    decreases fs
  {
    if fs.More? {
      KnownIsKnown(env, fs.rest, vs.others, tag);
      var known := EncTagged(env, fs, vs).value;
      if env.OnWire(fs.field) && !vs.value.VAbsent? {
        assert known[1..] == EncTagged(env, fs.rest, vs.others).value;
      }
    }
  }

  lemma {:induction false} PlainStructRestored(env: Env, t: FieldType, nullable: Option<bool>, compact: bool, bs: Bytes)
    requires t.TStruct? && Accepted(t, nullable.Some?) && |bs| <= I64_MAX && !env.Flexible()
    requires Dec(env, t, nullable, compact, bs).Ok?
    ensures var (v, left) := Dec(env, t, nullable, compact, bs).value;
            Restored(env, t, nullable, compact, v, |bs| - |left|)
    decreases t, 0
  {
    if nullable.None? {
      FieldsRestored(env, t.wire, bs);
    } else if GetInt(1, true, bs).value.0 >= 0 {
      FieldsRestored(env, t.wire, GetInt(1, true, bs).value.1);
    }
  }

  lemma {:induction false} FlexibleStructRestored(env: Env, t: FieldType, nullable: Option<bool>, compact: bool, bs: Bytes)
    requires t.TStruct? && Accepted(t, nullable.Some?) && |bs| <= I64_MAX && env.Flexible()
    requires Dec(env, t, nullable, compact, bs).Ok?
    ensures var (v, left) := Dec(env, t, nullable, compact, bs).value;
            Restored(env, t, nullable, compact, v, |bs| - |left|)
    decreases t, 0
  {
    if nullable.None? || GetInt(1, true, bs).value.0 >= 0 {
      var start := if nullable.Some? then GetInt(1, true, bs).value.1 else bs;
      FieldsRestored(env, t.wire, start);
      var (fields, more) := DecFields(env, t.wire, start).value;
      ReadTags(more);
      var (raws, left) := GetTags(more).value;
      SectionRestored(env, t.tagged, raws);
      var (known, unknown) := DecTagged(env, t.tagged, raws).value;
      StructRestored(env, t, nullable, compact, fields, known, unknown, |start| - |more|, |PutTags(raws)|);
    }
  }

  /** From the parts of a flexible struct to the struct. */
  lemma StructRestored(env: Env, t: FieldType, nullable: Option<bool>, compact: bool, fields: Values, known: Values, unknown: seq<RawTag>,
                       width: int, section: int)
    requires t.TStruct? && env.Flexible()
    requires EncFields(env, t.wire, fields).Ok? && |EncFields(env, t.wire, fields).value| <= width
    requires ProperFields(env, t.wire, fields) && SteadyFields(env, t.wire, fields) && NormFields(env, t.wire, fields) == fields
    requires EncTagged(env, t.tagged, known).Ok? && TagsFit(unknown) && Section(t.tagged, unknown, []) == unknown
    requires |PutTags(Section(t.tagged, unknown, EncTagged(env, t.tagged, known).value))| <= section
    requires if t.tagged.NoFields? then Ascending(-1, unknown) else Distinct(unknown) && NoneKnown(env, t.tagged, unknown)
    requires ProperFields(env, t.tagged, known) && SteadyTagged(env, t.tagged, known) && NormTagged(env, t.tagged, known) == known
    ensures Restored(env, t, nullable, compact, VStruct(fields, known, unknown), (if nullable.Some? then 1 else 0) + width + section)
  {
  }

  /** Re-encoding loses nothing: whatever bytes a decoder accepts, encoding the result at the
      same version succeeds, in no more bytes, and decodes to the same value. */
  lemma ReencodingLosesNothing(env: Env, t: FieldType, nullable: Option<bool>, compact: bool, bs: Bytes, suffix: Bytes)
    requires Accepted(t, nullable.Some?) && |bs| <= I64_MAX && Dec(env, t, nullable, compact, bs).Ok?
    ensures var (v, left) := Dec(env, t, nullable, compact, bs).value;
            && Enc(env, t, nullable, compact, v).Ok?
            && |Enc(env, t, nullable, compact, v).value| <= |bs| - |left|
            && Dec(env, t, nullable, compact, Enc(env, t, nullable, compact, v).value + suffix) == Ok((v, suffix))
  {
    EncodeInvertsDecode(env, t, nullable, compact, bs);
    DecodeInvertsEncode(env, t, nullable, compact, Dec(env, t, nullable, compact, bs).value.0, suffix);
  }
}
