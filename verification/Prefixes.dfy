/** What follows a message never changes how it is read, so a message that was cut short is
    refused, whatever its schema. */
module Prefixes {
  import opened Wrappers
  import opened Wire
  import opened Schema
  import opened Codec
  import opened RoundTrip

  /** With `more` behind it the input reads to the same, and leaves `more` behind. */
  ghost predicate Extends<T>(r: Read<T>, r': Read<T>, more: Bytes) {
    r.Ok? ==> r' == Ok((r.value.0, r.value.1 + more))
  }

  // ---- primitives ---------------------------------------------------------------------

  lemma DropExtends(bs: Bytes, n: nat, more: Bytes)
    requires n <= |bs|
    ensures (bs + more)[..n] == bs[..n] && (bs + more)[n..] == bs[n..] + more
  {
  }

  lemma IntExtends(w: nat, signed: bool, bs: Bytes, more: Bytes)
    ensures Extends(GetInt(w, signed, bs), GetInt(w, signed, bs + more), more)
  {
    if w <= |bs| {
      DropExtends(bs, w, more);
    }
  }

  lemma {:induction false} VarintAfterExtends(k: nat, bs: Bytes, more: Bytes)
    requires k <= 9
    ensures Extends(GetVarintAfter(k, bs), GetVarintAfter(k, bs + more), more)
    decreases 9 - k
  {
    if bs != [] {
      DropExtends(bs, 1, more);
      if k < 9 {
        VarintAfterExtends(k + 1, bs[1..], more);
      }
    }
  }

  lemma VarintExtends(bs: Bytes, more: Bytes)
    ensures Extends(GetVarint(bs), GetVarint(bs + more), more)
  {
    VarintAfterExtends(0, bs, more);
  }

  lemma LenExtends(compact: bool, w: nat, bs: Bytes, more: Bytes)
    requires w > 0
    ensures Extends(GetLen(compact, w, bs), GetLen(compact, w, bs + more), more)
  {
    if compact {
      VarintExtends(bs, more);
    } else {
      IntExtends(w, true, bs, more);
    }
  }

  lemma BlobExtends(compact: bool, w: nat, bs: Bytes, more: Bytes)
    requires w > 0
    ensures Extends(GetBlob(compact, w, bs), GetBlob(compact, w, bs + more), more)
  {
    LenExtends(compact, w, bs, more);
    if GetBlob(compact, w, bs).Ok? && GetLen(compact, w, bs).value.0.Some? {
      var (len, left) := GetLen(compact, w, bs).value;
      DropExtends(left, len.value, more);
    }
  }

  lemma TagExtends(previous: int, bs: Bytes, more: Bytes)
    ensures Extends(GetTag(previous, bs), GetTag(previous, bs + more), more)
  {
    if GetTag(previous, bs).Ok? {
      VarintExtends(bs, more);
      var rest := GetVarint(bs).value.1;
      VarintExtends(rest, more);
      var (len, left) := GetVarint(rest).value;
      DropExtends(left, len, more);
    }
  }

  lemma {:induction false} TagListExtends(n: nat, previous: int, bs: Bytes, more: Bytes)
    ensures Extends(GetTagList(n, previous, bs), GetTagList(n, previous, bs + more), more)
  {
    if n > 0 {
      TagExtends(previous, bs, more);
      if GetTag(previous, bs).Ok? {
        var (raw, rest) := GetTag(previous, bs).value;
        TagListExtends(n - 1, raw.tag, rest, more);
      }
    }
  }

  lemma TagsExtend(bs: Bytes, more: Bytes)
    ensures Extends(GetTags(bs), GetTags(bs + more), more)
  {
    VarintExtends(bs, more);
    if GetVarint(bs).Ok? {
      TagListExtends(GetVarint(bs).value.0, -1, GetVarint(bs).value.1, more);
    }
  }

  // ---- values -------------------------------------------------------------------------

  lemma LeafExtends(env: Env, t: FieldType, nullable: Option<bool>, compact: bool, bs: Bytes, more: Bytes)
    requires !t.TArray? && !t.TStruct?
    ensures Extends(Dec(env, t, nullable, compact, bs), Dec(env, t, nullable, compact, bs + more), more)
  {
    match t
    case TBool => if bs != [] { DropExtends(bs, 1, more); }
    case TInt(w, signed) => IntExtends(w, signed, bs, more);
    case TFloat => if |bs| >= 8 { DropExtends(bs, 8, more); }
    case TUuid => if |bs| >= 16 { DropExtends(bs, 16, more); }
    case TString => BlobExtends(compact, 2, bs, more);
    case TBytes => BlobExtends(compact, 4, bs, more);
  }

  /** Whatever decodes at all decodes to the same value in front of anything else. */
  lemma {:induction false} DecodingExtends(env: Env, t: FieldType, nullable: Option<bool>, compact: bool, bs: Bytes, more: Bytes)
    ensures Extends(Dec(env, t, nullable, compact, bs), Dec(env, t, nullable, compact, bs + more), more)
    decreases t, 0
  {
    if t.TArray? {
      LenExtends(compact, 4, bs, more);
      var len := GetLen(compact, 4, bs);
      if len.Ok? && len.value.0.Some? {
        ItemsExtend(env, t.elem, compact, len.value.0.value, len.value.1, more);
      }
    } else if t.TStruct? {
      var marker := GetInt(1, true, bs);
      IntExtends(1, true, bs, more);
      if nullable.None? {
        BodyExtends(env, t, bs, more);
      } else if marker.Ok? && marker.value.0 >= 0 {
        BodyExtends(env, t, marker.value.1, more);
      }
    } else {
      LeafExtends(env, t, nullable, compact, bs, more);
    }
  }

  /** The fields of a struct, and the tagged section behind them. */
  lemma {:induction false} BodyExtends(env: Env, t: FieldType, bs: Bytes, more: Bytes)
    requires t.TStruct?
    ensures Extends(DecFields(env, t.wire, bs), DecFields(env, t.wire, bs + more), more)
    ensures DecFields(env, t.wire, bs).Ok? ==>
              var rest := DecFields(env, t.wire, bs).value.1; Extends(GetTags(rest), GetTags(rest + more), more)
    decreases t.wire, 1
  {
    FieldsExtend(env, t.wire, bs, more);
    if DecFields(env, t.wire, bs).Ok? {
      TagsExtend(DecFields(env, t.wire, bs).value.1, more);
    }
  }

  lemma {:induction false} ItemsExtend(env: Env, elem: FieldType, compact: bool, n: nat, bs: Bytes, more: Bytes)
    ensures Extends(DecItems(env, elem, compact, n, bs), DecItems(env, elem, compact, n, bs + more), more)
    decreases elem, 1 + n
  {
    if n > 0 {
      DecodingExtends(env, elem, None, compact, bs, more);
      var head := Dec(env, elem, None, compact, bs);
      if head.Ok? {
        ItemsExtend(env, elem, compact, n - 1, head.value.1, more);
      }
    }
  }

  lemma {:induction false} FieldsExtend(env: Env, fs: Fields, bs: Bytes, more: Bytes)
    ensures Extends(DecFields(env, fs, bs), DecFields(env, fs, bs + more), more)
    decreases fs, 0
  {
    if fs.More? {
      var f := fs.field;
      if env.OnWire(f) {
        DecodingExtends(env, f.ftype, env.Nullable(f), env.Compact(f), bs, more);
        var head := Dec(env, f.ftype, env.Nullable(f), env.Compact(f), bs);
        if head.Ok? {
          FieldsExtend(env, fs.rest, head.value.1, more);
        }
      } else {
        FieldsExtend(env, fs.rest, bs, more);
      }
    }
  }

  // ---- messages cut short -------------------------------------------------------------

  /** No message decodes when any of its last bytes are missing: of a byte string that decodes as
      a whole every shorter prefix is refused. */
  lemma TruncatedIsRefused(env: Env, t: FieldType, nullable: Option<bool>, compact: bool, bs: Bytes, k: nat)
    requires Dec(env, t, nullable, compact, bs).Ok? && Dec(env, t, nullable, compact, bs).value.1 == [] && k < |bs|
    ensures Dec(env, t, nullable, compact, bs[..k]).Err?
  {
    assert bs[..k] + bs[k..] == bs;
    DecodingExtends(env, t, nullable, compact, bs[..k], bs[k..]);
  }

  /** So nothing that returns from a round trip survives being cut short. */
  lemma TruncatedEncodingIsRefused(env: Env, t: FieldType, nullable: Option<bool>, compact: bool, v: Value, k: nat)
    requires Accepted(t, nullable.Some?) && Proper(env, t, v) && Steady(env, t, v)
    requires Enc(env, t, nullable, compact, v).Ok? && k < |Enc(env, t, nullable, compact, v).value| <= I64_MAX
    ensures Dec(env, t, nullable, compact, Enc(env, t, nullable, compact, v).value[..k]).Err?
  {
    var bs := Enc(env, t, nullable, compact, v).value;
    DecodeInvertsEncode(env, t, nullable, compact, v, []);
    assert bs + [] == bs;
    TruncatedIsRefused(env, t, nullable, compact, bs, k);
  }

  /** A byte that is not 0 is true, whichever it is. */
  lemma AnyByteIsABool(env: Env, nullable: Option<bool>, compact: bool, b: byte, more: Bytes)
    ensures Dec(env, TBool, nullable, compact, [b] + more) == Ok((VBool(b > 0), more))
  {
    assert ([b] + more)[1..] == more;
  }
}
