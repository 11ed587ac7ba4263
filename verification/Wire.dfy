/** The wire primitives: big-endian integers, unsigned varints, length prefixes in their
    classic and compact forms, strings, byte strings and tagged-field sections.
    A writer yields bytes; a reader yields a value and the bytes it left unread. */
module Wire {
  import opened Wrappers

  datatype DecodeError = Truncated | VarintOverflow | InvalidLength | InvalidUtf8 | TaggedFieldOrder | NoProgress

  datatype EncodeError = TooLong | NullField | IllTyped

  type Read<T> = Result<(T, Bytes), DecodeError>

  // ---- fixed-width integers -----------------------------------------------------------

  function Pow256(w: nat): (p: nat)
    ensures p > 0
  {
    if w == 0 then 1 else 256 * Pow256(w - 1)
  }

  /** The `w` low bytes of `n`, big-endian. */
  function PutUint(w: nat, n: nat): (bs: Bytes)
    ensures |bs| == w
  {
    if w == 0 then [] else PutUint(w - 1, n / 256) + [(n % 256) as byte]
  }

  function UintOf(bs: Bytes): (n: nat)
    ensures n < Pow256(|bs|)
  {
    if bs == [] then 0 else UintOf(bs[..|bs| - 1]) * 256 + bs[|bs| - 1] as int
  }

  lemma {:induction false} UintInverse(w: nat, n: nat)
    requires n < Pow256(w)
    ensures UintOf(PutUint(w, n)) == n
  {
    if w > 0 {
      UintInverse(w - 1, n / 256);
      assert PutUint(w, n)[..w - 1] == PutUint(w - 1, n / 256);
    }
  }

  /** The values a `w`-byte integer takes; signed ones in two's complement. */
  predicate InRange(w: nat, signed: bool, n: int) {
    if signed then 0 <= 2 * n + Pow256(w) && 2 * n < Pow256(w) else 0 <= n < Pow256(w)
  }

  function PutInt(w: nat, n: int): (bs: Bytes)
    ensures |bs| == w
  {
    PutUint(w, n % Pow256(w))
  }

  function GetInt(w: nat, signed: bool, bs: Bytes): (r: Read<int>)
    ensures r.Ok? <==> |bs| >= w
    ensures r.Ok? ==> InRange(w, signed, r.value.0) && r.value.1 == bs[w..]
  {
    if |bs| < w then Err(Truncated)
    else
      var u := UintOf(bs[..w]);
      Ok((if signed && 2 * u >= Pow256(w) then u - Pow256(w) else u, bs[w..]))
  }

  lemma Residue(n: int, p: nat)
    requires p > 0 && 0 <= n + p && n < p
    ensures n % p == if n < 0 then n + p else n
  {
    if n < 0 {
      assert (n + p) % p == n % p by {
        assert n + p == n + 1 * p;
      }
    }
  }

  lemma IntInverse(w: nat, signed: bool, n: int, suffix: Bytes)
    requires InRange(w, signed, n)
    ensures GetInt(w, signed, PutInt(w, n) + suffix) == Ok((n, suffix))
  {
    Residue(n, Pow256(w));
    UintInverse(w, n % Pow256(w));
    assert (PutInt(w, n) + suffix)[..w] == PutInt(w, n);
    assert (PutInt(w, n) + suffix)[w..] == suffix;
  }

  // ---- unsigned varints ---------------------------------------------------------------

  /** Seven bits a byte, low ones first; the high bit says more follow. */
  function PutVarint(n: nat): (bs: Bytes)
    ensures |bs| >= 1
  {
    if n < 128 then [n as byte] else [(n % 128 + 128) as byte] + PutVarint(n / 128)
  }

  /** After `k` bytes. A tenth byte has room for one bit only. */
  function GetVarintAfter(k: nat, bs: Bytes): (r: Read<nat>)
    requires k <= 9
    ensures r.Ok? ==> |r.value.1| < |bs|
    decreases 9 - k
  {
    if bs == [] then Err(Truncated)
    else if k == 9 && bs[0] >= 2 then Err(VarintOverflow)
    else if bs[0] < 128 then Ok((bs[0] as nat, bs[1..]))
    else
      var (rest, left) :- GetVarintAfter(k + 1, bs[1..]);
      Ok((bs[0] as nat - 128 + 128 * rest, left))
  }

  function GetVarint(bs: Bytes): (r: Read<nat>)
    ensures r.Ok? ==> |r.value.1| < |bs|
  {
    GetVarintAfter(0, bs)
  }

  /** What still fits a 64-bit value after `k` groups of seven bits. */
  function Room(k: nat): nat
    requires k <= 9
    decreases 9 - k
  {
    if k == 9 then 2 else 128 * Room(k + 1)
  }

  lemma RoomIsWhole()
    ensures Room(0) == U64_MAX + 1
  {
    assert Room(9) == 2;
    assert Room(7) == 128 * (128 * 2);
    assert Room(5) == 128 * (128 * Room(7));
    assert Room(3) == 128 * (128 * Room(5));
    assert Room(1) == 128 * (128 * Room(3));
  }

  lemma {:induction false} VarintInverseAfter(k: nat, n: nat, suffix: Bytes)
    requires k <= 9 && n < Room(k)
    ensures GetVarintAfter(k, PutVarint(n) + suffix) == Ok((n, suffix))
    decreases 9 - k
  {
    if n < 128 {
      assert (PutVarint(n) + suffix)[1..] == suffix;
    } else {
      var bs := PutVarint(n) + suffix;
      assert k < 9 && Room(k) == 128 * Room(k + 1);
      VarintInverseAfter(k + 1, n / 128, suffix);
      assert bs[1..] == PutVarint(n / 128) + suffix && bs[0] as nat == n % 128 + 128;
      assert GetVarintAfter(k, bs) == Ok((n % 128 + 128 * (n / 128), suffix));
    }
  }

  lemma VarintInverse(n: nat, suffix: Bytes)
    requires n <= U64_MAX
    ensures GetVarint(PutVarint(n) + suffix) == Ok((n, suffix))
  {
    RoomIsWhole();
    VarintInverseAfter(0, n, suffix);
  }

  lemma {:induction false} VarintGrows(m: nat, n: nat)
    requires m <= n
    ensures |PutVarint(m)| <= |PutVarint(n)|
    decreases n
  {
    if m >= 128 {
      VarintGrows(m / 128, n / 128);
    }
  }

  lemma OneMoreGroup(low: nat, rest: nat)
    requires low < 128
    ensures |PutVarint(low + 128 * rest)| <= 1 + |PutVarint(rest)|
  {
    var n := low + 128 * rest;
    if n >= 128 {
      assert n / 128 == rest;
      assert PutVarint(n) == [(n % 128 + 128) as byte] + PutVarint(rest);
    } else {
      assert PutVarint(n) == [n as byte];
    }
  }

  /** What was read fits 64 bits, and is written in no more bytes than it was read from. */
  lemma {:induction false} VarintIsShortest(k: nat, bs: Bytes)
    requires k <= 9 && GetVarintAfter(k, bs).Ok?
    ensures GetVarintAfter(k, bs).value.0 < Room(k)
    ensures |PutVarint(GetVarintAfter(k, bs).value.0)| <= |bs| - |GetVarintAfter(k, bs).value.1|
    decreases 9 - k
  {
    if bs[0] >= 128 {
      VarintIsShortest(k + 1, bs[1..]);
      var (rest, left) := GetVarintAfter(k + 1, bs[1..]).value;
      assert GetVarintAfter(k, bs) == Ok((bs[0] as nat - 128 + 128 * rest, left));
      assert Room(k) == 128 * Room(k + 1);
      OneMoreGroup(bs[0] as nat - 128, rest);
    }
  }

  lemma ReadVarint(bs: Bytes)
    requires GetVarint(bs).Ok?
    ensures var (n, left) := GetVarint(bs).value; n <= U64_MAX && |PutVarint(n)| <= |bs| - |left|
  {
    RoomIsWhole();
    VarintIsShortest(0, bs);
  }

  // ---- length prefixes ----------------------------------------------------------------

  /** A count or a null marker: a signed `w`-byte integer with -1 for null, or in the compact
      form a varint of the count plus one with 0 for null. */
  function PutLen(compact: bool, w: nat, len: Option<nat>): (r: Result<Bytes, EncodeError>)
    ensures r.Ok? && w > 0 ==> |r.value| > 0
  {
    if compact then Ok(PutVarint(if len.Some? then len.value + 1 else 0))
    else if len.None? then Ok(PutInt(w, -1))
    else if InRange(w, true, len.value) then Ok(PutInt(w, len.value))
    else Err(TooLong)
  }

  function GetLen(compact: bool, w: nat, bs: Bytes): (r: Read<Option<nat>>)
    requires w > 0
    ensures r.Ok? ==> |r.value.1| < |bs|
  {
    if compact then
      var (n, left) :- GetVarint(bs);
      Ok((if n == 0 then None else Some(n - 1), left))
    else
      var (n, left) :- GetInt(w, true, bs);
      if n == -1 then Ok((None, left))
      else if n < 0 then Err(InvalidLength)
      else Ok((Some(n), left))
  }

  lemma MinusOneFits(w: nat)
    requires w > 0
    ensures InRange(w, true, -1)
  {
    assert Pow256(w) >= 256 * 1;
  }

  lemma LenInverse(compact: bool, w: nat, len: Option<nat>, suffix: Bytes)
    requires w > 0 && PutLen(compact, w, len).Ok? && (len.Some? ==> len.value < U64_MAX)
    ensures GetLen(compact, w, PutLen(compact, w, len).value + suffix) == Ok((len, suffix))
  {
    if compact {
      VarintInverse(if len.Some? then len.value + 1 else 0, suffix);
    } else {
      MinusOneFits(w);
      IntInverse(w, true, if len.Some? then len.value else -1, suffix);
    }
  }

  lemma PowersOf256()
    ensures Pow256(1) == 0x100 && Pow256(2) == 0x1_0000 && Pow256(4) == 0x1_0000_0000
  {
    assert Pow256(2) == 256 * Pow256(1);
    assert Pow256(4) == 256 * (256 * Pow256(2));
  }

  lemma ReadLen(compact: bool, w: nat, bs: Bytes)
    requires (w == 2 || w == 4) && GetLen(compact, w, bs).Ok?
    ensures var (len, left) := GetLen(compact, w, bs).value;
            && PutLen(compact, w, len).Ok? && |PutLen(compact, w, len).value| <= |bs| - |left|
            && (len.Some? ==> len.value < U64_MAX)
  {
    if compact {
      ReadVarint(bs);
    } else {
      PowersOf256();
    }
  }

  // ---- strings and byte strings -------------------------------------------------------

  function PutBlob(compact: bool, w: nat, data: Option<Bytes>): (r: Result<Bytes, EncodeError>)
    ensures r.Ok? && w > 0 ==> |r.value| > 0
    ensures r.Ok? && data.Some? ==> |data.value| <= |r.value|
  {
    var len :- PutLen(compact, w, if data.Some? then Some(|data.value|) else None);
    Ok(len + if data.Some? then data.value else [])
  }

  function GetBlob(compact: bool, w: nat, bs: Bytes): (r: Read<Option<Bytes>>)
    requires w > 0
    ensures r.Ok? ==> |r.value.1| < |bs|
  {
    var (len, left) :- GetLen(compact, w, bs);
    if len.None? then Ok((None, left))
    else if |left| < len.value then Err(Truncated)
    else Ok((Some(left[..len.value]), left[len.value..]))
  }

  lemma Assoc(a: Bytes, b: Bytes, c: Bytes)
    ensures a + b + c == a + (b + c)
  {
  }

  lemma Cut(a: Bytes, b: Bytes)
    ensures (a + b)[..|a|] == a && (a + b)[|a|..] == b
  {
  }

  lemma BlobInverse(compact: bool, w: nat, data: Option<Bytes>, suffix: Bytes)
    requires w > 0 && PutBlob(compact, w, data).Ok? && (data.Some? ==> |data.value| < U64_MAX)
    ensures GetBlob(compact, w, PutBlob(compact, w, data).value + suffix) == Ok((data, suffix))
  {
    if data.Some? {
      var len := PutLen(compact, w, Some(|data.value|)).value;
      Assoc(len, data.value, suffix);
      LenInverse(compact, w, Some(|data.value|), data.value + suffix);
      Cut(data.value, suffix);
    } else {
      LenInverse(compact, w, None, suffix);
      assert PutBlob(compact, w, data).value == PutLen(compact, w, None).value;
    }
  }

  lemma ReadBlob(compact: bool, w: nat, bs: Bytes)
    requires (w == 2 || w == 4) && GetBlob(compact, w, bs).Ok?
    ensures var (data, left) := GetBlob(compact, w, bs).value;
            && PutBlob(compact, w, data).Ok? && |PutBlob(compact, w, data).value| <= |bs| - |left|
            && (data.Some? ==> |data.value| < U64_MAX)
  {
    ReadLen(compact, w, bs);
  }

  predicate Continuation(b: byte) {
    0x80 <= b < 0xc0
  }

  /** Well-formed UTF-8: shortest forms only, no surrogates, nothing past U+10FFFF. */
  predicate Utf8(bs: Bytes) {
    bs == [] ||
    (var a := bs[0];
     if a < 0x80 then Utf8(bs[1..])
     else if 0xc2 <= a < 0xe0 then |bs| >= 2 && Continuation(bs[1]) && Utf8(bs[2..])
     else if 0xe0 <= a < 0xf0 then
       && |bs| >= 3 && Continuation(bs[1]) && Continuation(bs[2])
       && (a == 0xe0 ==> bs[1] >= 0xa0) && (a == 0xed ==> bs[1] < 0xa0) && Utf8(bs[3..])
     else if 0xf0 <= a < 0xf5 then
       && |bs| >= 4 && Continuation(bs[1]) && Continuation(bs[2]) && Continuation(bs[3])
       && (a == 0xf0 ==> bs[1] >= 0x90) && (a == 0xf4 ==> bs[1] < 0x90) && Utf8(bs[4..])
     else false)
  }

  // ---- tagged fields ------------------------------------------------------------------

  datatype RawTag = RawTag(tag: nat, data: Bytes)

  function PutTag(r: RawTag): Bytes {
    PutVarint(r.tag) + PutVarint(|r.data|) + r.data
  }

  function PutTagList(raws: seq<RawTag>): (bs: Bytes)
    ensures |bs| >= 2 * |raws|
  {
    if raws == [] then [] else PutTag(raws[0]) + PutTagList(raws[1..])
  }

  /** In the order given. */
  function PutTags(raws: seq<RawTag>): Bytes {
    PutVarint(|raws|) + PutTagList(raws)
  }

  /** One tagged field; its tag has to exceed `previous`. */
  function GetTag(previous: int, bs: Bytes): (r: Read<RawTag>)
    ensures r.Ok? ==> |r.value.1| < |bs| && previous < r.value.0.tag
  {
    var (tag, more) :- GetVarint(bs);
    if tag > U32_MAX then Err(VarintOverflow)
    else if tag <= previous then Err(TaggedFieldOrder)
    else
      var (len, left) :- GetVarint(more);
      if len > I64_MAX then Err(InvalidLength)
      else if |left| < len then Err(Truncated)
      else Ok((RawTag(tag, left[..len]), left[len..]))
  }

  function GetTagList(n: nat, previous: int, bs: Bytes): (r: Read<seq<RawTag>>)
    ensures r.Ok? ==> |r.value.0| == n && |r.value.1| <= |bs|
  {
    if n == 0 then Ok(([], bs))
    else
      var (raw, more) :- GetTag(previous, bs);
      var (raws, left) :- GetTagList(n - 1, raw.tag, more);
      Ok(([raw] + raws, left))
  }

  function GetTags(bs: Bytes): (r: Read<seq<RawTag>>)
    ensures r.Ok? ==> |r.value.1| < |bs|
  {
    var (n, more) :- GetVarint(bs);
    GetTagList(n, -1, more)
  }

  /** Strictly ascending tags that fit 32 bits, above `previous`. */
  predicate Ascending(previous: int, raws: seq<RawTag>)
    decreases raws
  {
    raws == [] || (previous < raws[0].tag <= U32_MAX && |raws[0].data| <= I64_MAX && Ascending(raws[0].tag, raws[1..]))
  }

  lemma TagInverse(previous: int, raw: RawTag, suffix: Bytes)
    requires previous < raw.tag <= U32_MAX && |raw.data| <= I64_MAX
    ensures GetTag(previous, PutTag(raw) + suffix) == Ok((raw, suffix))
  {
    var tail := raw.data + suffix;
    assert PutTag(raw) + suffix == PutVarint(raw.tag) + (PutVarint(|raw.data|) + tail);
    VarintInverse(raw.tag, PutVarint(|raw.data|) + tail);
    VarintInverse(|raw.data|, tail);
    assert tail[..|raw.data|] == raw.data && tail[|raw.data|..] == suffix;
  }

  lemma {:induction false} TagListInverse(previous: int, raws: seq<RawTag>, suffix: Bytes)
    requires Ascending(previous, raws)
    ensures GetTagList(|raws|, previous, PutTagList(raws) + suffix) == Ok((raws, suffix))
    decreases raws
  {
    if raws == [] {
      assert PutTagList(raws) + suffix == suffix;
    } else {
      var tail := PutTagList(raws[1..]) + suffix;
      Assoc(PutTag(raws[0]), PutTagList(raws[1..]), suffix);
      TagInverse(previous, raws[0], tail);
      TagListInverse(raws[0].tag, raws[1..], suffix);
      assert [raws[0]] + raws[1..] == raws;
    }
  }

  /** A section written in strictly ascending order reads back. */
  lemma TagsInverse(raws: seq<RawTag>, suffix: Bytes)
    requires Ascending(-1, raws) && |raws| <= U64_MAX
    ensures GetTags(PutTags(raws) + suffix) == Ok((raws, suffix))
  {
    Assoc(PutVarint(|raws|), PutTagList(raws), suffix);
    VarintInverse(|raws|, PutTagList(raws) + suffix);
    TagListInverse(-1, raws, suffix);
  }

  lemma {:induction false} TagListExact(previous: int, raws: seq<RawTag>, suffix: Bytes)
    requires forall i :: 0 <= i < |raws| ==> raws[i].tag <= U32_MAX
    requires |PutTagList(raws)| <= I64_MAX
    ensures GetTagList(|raws|, previous, PutTagList(raws) + suffix)
         == if Ascending(previous, raws) then Ok((raws, suffix)) else Err(TaggedFieldOrder)
    decreases raws
  {
    if raws == [] {
      assert PutTagList(raws) + suffix == suffix;
    } else {
      var r := raws[0];
      var tail := PutTagList(raws[1..]) + suffix;
      Assoc(PutTag(r), PutTagList(raws[1..]), suffix);
      if previous < r.tag {
        TagInverse(previous, r, tail);
        TagListExact(r.tag, raws[1..], suffix);
        assert [r] + raws[1..] == raws;
      } else {
        Assoc(PutVarint(r.tag), PutVarint(|r.data|) + r.data, tail);
        Assoc(PutVarint(r.tag), PutVarint(|r.data|), r.data);
        VarintInverse(r.tag, PutVarint(|r.data|) + r.data + tail);
      }
    }
  }

  /** A section reads back if and only if it was written in strictly ascending order; in any
      other it is refused. */
  lemma TagsExact(raws: seq<RawTag>, suffix: Bytes)
    requires forall i :: 0 <= i < |raws| ==> raws[i].tag <= U32_MAX
    requires |PutTags(raws)| <= I64_MAX
    ensures GetTags(PutTags(raws) + suffix) == if Ascending(-1, raws) then Ok((raws, suffix)) else Err(TaggedFieldOrder)
  {
    Assoc(PutVarint(|raws|), PutTagList(raws), suffix);
    VarintInverse(|raws|, PutTagList(raws) + suffix);
    TagListExact(-1, raws, suffix);
  }

  lemma ReadTag(previous: int, bs: Bytes)
    requires GetTag(previous, bs).Ok?
    ensures var (raw, more) := GetTag(previous, bs).value;
            previous < raw.tag <= U32_MAX && |raw.data| <= I64_MAX && |PutTag(raw)| <= |bs| - |more|
  {
    ReadVarint(bs);
    ReadVarint(GetVarint(bs).value.1);
  }

  lemma {:induction false} ReadTagList(n: nat, previous: int, bs: Bytes)
    requires GetTagList(n, previous, bs).Ok?
    ensures var (raws, left) := GetTagList(n, previous, bs).value;
            Ascending(previous, raws) && |PutTagList(raws)| <= |bs| - |left|
  {
    if n > 0 {
      ReadTag(previous, bs);
      var (raw, more) := GetTag(previous, bs).value;
      ReadTagList(n - 1, raw.tag, more);
      var (raws, left) := GetTagList(n - 1, raw.tag, more).value;
      assert ([raw] + raws)[1..] == raws;
    }
  }

  /** A section that was read is strictly ascending, and no longer when written again. */
  lemma ReadTags(bs: Bytes)
    requires GetTags(bs).Ok?
    ensures var (raws, left) := GetTags(bs).value;
            Ascending(-1, raws) && |raws| <= U64_MAX && |PutTags(raws)| <= |bs| - |left|
  {
    ReadVarint(bs);
    var (n, more) := GetVarint(bs).value;
    ReadTagList(n, -1, more);
  }
}
