/** Framing and splitting, proved inverse to each other however the stream is cut. */
module Frame {
  import opened Wrappers
  import opened Wire

  datatype FrameError = BadLength(raw: int) | TooLarge | PayloadFailed

  /** A payload inside its envelope. */
  function Framed(payload: Bytes): (bs: Bytes)
    ensures |bs| == 4 + |payload|
  {
    PutInt(4, |payload|) + payload
  }

  /** An accepted length is the prefix itself; any other prefix is an error. */
  function CheckLen(prefix: Bytes, maxLen: nat): (r: Result<nat, FrameError>)
    requires |prefix| == 4
    ensures r.Ok? ==> r.value <= maxLen
  {
    var len := GetInt(4, true, prefix).value.0;
    if len < 0 || len > maxLen then Err(BadLength(len)) else Ok(len)
  }

  /** The first whole frame of `bs` and what follows it; nothing while it is incomplete. */
  function Split(bs: Bytes, maxLen: nat): (r: Result<Option<(Bytes, Bytes)>, FrameError>)
    ensures r.Ok? && r.value.Some? ==> |r.value.value.1| < |bs|
  {
    if |bs| < 4 then Ok(None)
    else
      var len :- CheckLen(bs[..4], maxLen);
      if |bs| < 4 + len then Ok(None) else Ok(Some((bs[4..4 + len], bs[4 + len..])))
  }

  /** A growable byte buffer. */
  class Buffer {
    var data: Bytes

    constructor ()
      ensures data == []
    {
      data := [];
    }

    /** Append one frame around the bytes a payload writer appends before it succeeds or fails.
        When it fails, or wrote too much, the buffer is as it was. */
    method Frame(written: Bytes, outcome: Result<(), FrameError>) returns (r: Result<(), FrameError>)
      modifies this
      ensures r.Ok? <==> outcome.Ok? && |written| <= I32_MAX
      ensures r.Err? && outcome.Err? ==> r.error == outcome.error
      ensures data == if r.Ok? then old(data) + Framed(written) else old(data)
    {
      var start := |data|;
      r := FrameInPlace(start, written, outcome);
      if r.Err? {
        data := data[..start];
      }
    }

    /** Write the payload behind a blank prefix, then fill the prefix in. */
    method FrameInPlace(start: nat, written: Bytes, outcome: Result<(), FrameError>) returns (r: Result<(), FrameError>)
      requires start == |data|
      modifies this
      ensures r.Ok? <==> outcome.Ok? && |written| <= I32_MAX
      ensures r.Err? && outcome.Err? ==> r.error == outcome.error
      ensures |data| >= start && data[..start] == old(data)
      ensures r.Ok? ==> data == old(data) + Framed(written)
    {
      data := data + PutInt(4, 0);
      data := data + written;
      if outcome.Err? {
        return outcome;
      }
      var len := |data| - start - 4;
      if len > I32_MAX {
        return Err(TooLarge);
      }
      data := data[..start] + PutInt(4, len) + data[start + 4..];
      assert data[start..] == Framed(written);
      r := Ok(());
    }

    /** Split off the payload of the first whole frame. Nothing is consumed otherwise. */
    method TrySplit(maxLen: nat) returns (r: Result<Option<Bytes>, FrameError>)
      modifies this
      ensures var spec := Split(old(data), maxLen);
              if spec.Err? then r == Err(spec.error) && data == old(data)
              else if spec.value.None? then r == Ok(None) && data == old(data)
              else r == Ok(Some(spec.value.value.0)) && data == spec.value.value.1
    {
      if |data| < 4 {
        return Ok(None);
      }
      var len :- CheckLen(data[..4], maxLen);
      if |data| < 4 + len {
        return Ok(None);
      }
      data := data[4..];
      var payload := data[..len];
      data := data[len..];
      assert payload == old(data)[4..4 + len] && data == old(data)[4 + len..];
      r := Ok(Some(payload));
    }
  }

  // ---- streams ------------------------------------------------------------------------

  /** Every whole frame at the head of `bs`, and what is left when `Split` yields no more. */
  function Drain(bs: Bytes, maxLen: nat): (seq<Bytes>, Bytes)
    decreases |bs|
  {
    var r := Split(bs, maxLen);
    if r.Ok? && r.value.Some? then
      var (payload, rest) := r.value.value;
      var (payloads, left) := Drain(rest, maxLen);
      ([payload] + payloads, left)
    else ([], bs)
  }

  /** Reading `chunks` one by one into a buffer that holds `held`, draining after each. */
  function Feed(held: Bytes, chunks: seq<Bytes>, maxLen: nat): (seq<Bytes>, Bytes) {
    if chunks == [] then ([], held)
    else
      var (before, left) := Feed(held, chunks[..|chunks| - 1], maxLen);
      var (payloads, rest) := Drain(left + chunks[|chunks| - 1], maxLen);
      (before + payloads, rest)
  }

  function Joined(chunks: seq<Bytes>): Bytes {
    if chunks == [] then [] else Joined(chunks[..|chunks| - 1]) + chunks[|chunks| - 1]
  }

  function Stream(payloads: seq<Bytes>): Bytes {
    if payloads == [] then [] else Stream(payloads[..|payloads| - 1]) + Framed(payloads[|payloads| - 1])
  }

  lemma SplitIgnoresWhatFollows(a: Bytes, b: Bytes, maxLen: nat)
    requires Split(a, maxLen).Ok? && Split(a, maxLen).value.Some?
    ensures var (payload, rest) := Split(a, maxLen).value.value;
            Split(a + b, maxLen) == Ok(Some((payload, rest + b)))
  {
    var len := CheckLen(a[..4], maxLen).value;
    assert (a + b)[..4] == a[..4];
    assert (a + b)[4..4 + len] == a[4..4 + len];
    assert (a + b)[4 + len..] == a[4 + len..] + b;
  }

  lemma {:induction false} DrainMore(a: Bytes, b: Bytes, maxLen: nat)
    ensures var (early, left) := Drain(a, maxLen);
            var (late, rest) := Drain(left + b, maxLen);
            Drain(a + b, maxLen) == (early + late, rest)
    decreases |a|
  {
    var r := Split(a, maxLen);
    if r.Ok? && r.value.Some? {
      var (payload, rest) := r.value.value;
      SplitIgnoresWhatFollows(a, b, maxLen);
      DrainMore(rest, b, maxLen);
      var (early, left) := Drain(rest, maxLen);
      var (late, _) := Drain(left + b, maxLen);
      Concat([payload], early, late);
    } else {
      var late := Drain(a + b, maxLen).0;
      assert [] + late == late;
    }
  }

  lemma Concat<T>(a: seq<T>, b: seq<T>, c: seq<T>)
    ensures a + b + c == a + (b + c)
    ensures [] + c == c
  {
  }

  /** However a stream of bytes, well formed or not, is cut into reads, the same payloads come
      out in the same order and the same bytes are left. */
  lemma {:induction false} ChunkingDoesNotMatter(chunks: seq<Bytes>, maxLen: nat)
    ensures Feed([], chunks, maxLen) == Drain(Joined(chunks), maxLen)
  {
    if chunks != [] {
      var init, last := chunks[..|chunks| - 1], chunks[|chunks| - 1];
      ChunkingDoesNotMatter(init, maxLen);
      DrainMore(Joined(init), last, maxLen);
    }
  }

  lemma FramedSplits(payload: Bytes, maxLen: nat, tail: Bytes)
    requires |payload| <= maxLen && |payload| <= I32_MAX
    ensures Split(Framed(payload) + tail, maxLen) == Ok(Some((payload, tail)))
  {
    PowersOf256();
    IntInverse(4, true, |payload|, []);
    var bs := Framed(payload) + tail;
    assert PutInt(4, |payload|) + [] == PutInt(4, |payload|) == bs[..4];
    assert bs[4..4 + |payload|] == payload && bs[4 + |payload|..] == tail;
  }

  /** Framed payloads within the limit drain to exactly those payloads, and then to whatever
      follows them. */
  lemma {:induction false} FramesComeBack(payloads: seq<Bytes>, maxLen: nat, tail: Bytes)
    requires forall i :: 0 <= i < |payloads| ==> |payloads[i]| <= maxLen && |payloads[i]| <= I32_MAX
    ensures var (more, left) := Drain(tail, maxLen);
            Drain(Stream(payloads) + tail, maxLen) == (payloads + more, left)
  {
    var more := Drain(tail, maxLen).0;
    if payloads == [] {
      assert Stream(payloads) + tail == tail && [] + more == more;
    } else {
      var init, last := payloads[..|payloads| - 1], payloads[|payloads| - 1];
      FramesComeBack(init, maxLen, Framed(last) + tail);
      LastFrame(last, maxLen, tail);
      Assoc(Stream(init), Framed(last), tail);
      Concat(init, [last], more);
      assert init + [last] == payloads;
    }
  }

  lemma LastFrame(payload: Bytes, maxLen: nat, tail: Bytes)
    requires |payload| <= maxLen && |payload| <= I32_MAX
    ensures Drain(Framed(payload) + tail, maxLen) == ([payload] + Drain(tail, maxLen).0, Drain(tail, maxLen).1)
  {
    FramedSplits(payload, maxLen, tail);
  }

  /** The round trip through any cutting: payloads within the limit, framed, cut into reads
      anywhere, come out as they went in, and nothing is left over. */
  lemma FramedStreamIsInsensitiveToChunking(payloads: seq<Bytes>, chunks: seq<Bytes>, maxLen: nat)
    requires forall i :: 0 <= i < |payloads| ==> |payloads[i]| <= maxLen && |payloads[i]| <= I32_MAX
    requires Joined(chunks) == Stream(payloads)
    ensures Feed([], chunks, maxLen) == (payloads, [])
  {
    ChunkingDoesNotMatter(chunks, maxLen);
    FramesComeBack(payloads, maxLen, []);
    assert Stream(payloads) + [] == Stream(payloads) && payloads + [] == payloads;
  }
}
