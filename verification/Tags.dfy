/** What sorting, finding and removing do to lists of tagged fields. */
module Tags {
  import opened Wrappers
  import opened Wire
  import opened Codec

  // ---- finding and removing -----------------------------------------------------------

  lemma {:induction false} FindConcat(a: seq<RawTag>, b: seq<RawTag>, tag: nat)
    ensures Find(a + b, tag) == if Find(a, tag).Some? then Find(a, tag) else Find(b, tag)
  {
    if a == [] {
      assert a + b == b;
    } else {
      assert (a + b)[1..] == a[1..] + b;
      FindConcat(a[1..], b, tag);
    }
  }

  lemma {:induction false} RemoveConcat(a: seq<RawTag>, b: seq<RawTag>, tag: nat)
    ensures Remove(a + b, tag) == Remove(a, tag) + Remove(b, tag)
  {
    if a == [] {
      assert a + b == b;
    } else {
      assert (a + b)[1..] == a[1..] + b;
      RemoveConcat(a[1..], b, tag);
    }
  }

  lemma RemoveLast(init: seq<RawTag>, last: RawTag, tag: nat)
    ensures Remove(init + [last], tag) == if last.tag == tag then Remove(init, tag) else Remove(init, tag) + [last]
  {
    RemoveConcat(init, [last], tag);
    assert [last][1..] == [];
  }

  lemma {:induction false} RemoveAbsent(raws: seq<RawTag>, tag: nat)
    requires Find(raws, tag).None?
    ensures Remove(raws, tag) == raws
  {
    if raws != [] {
      RemoveAbsent(raws[1..], tag);
    }
  }

  lemma {:induction false} FindAfterRemove(raws: seq<RawTag>, gone: nat, tag: nat)
    ensures Find(Remove(raws, gone), tag) == if tag == gone then None else Find(raws, tag)
  {
    if raws != [] {
      FindAfterRemove(raws[1..], gone, tag);
      assert raws[0].tag != gone ==> Remove(raws, gone)[1..] == Remove(raws[1..], gone);
    }
  }

  // ---- sorting ------------------------------------------------------------------------

  /** No tag is above `top`. */
  predicate Below(raws: seq<RawTag>, top: nat) {
    raws == [] || (raws[|raws| - 1].tag <= top && Below(raws[..|raws| - 1], top))
  }

  predicate Sorted(raws: seq<RawTag>) {
    raws == [] || (Sorted(raws[..|raws| - 1]) && Below(raws[..|raws| - 1], raws[|raws| - 1].tag))
  }

  lemma {:induction false} BelowHigher(raws: seq<RawTag>, low: nat, high: nat)
    requires Below(raws, low) && low <= high
    ensures Below(raws, high)
  {
    if raws != [] {
      BelowHigher(raws[..|raws| - 1], low, high);
    }
  }

  lemma {:induction false} InsertBelow(raws: seq<RawTag>, r: RawTag, top: nat)
    requires Below(raws, top) && r.tag <= top
    ensures Below(Insert(raws, r), top)
  {
    var s := Insert(raws, r);
    if raws == [] || raws[|raws| - 1].tag <= r.tag {
      assert s[..|s| - 1] == raws;
    } else {
      InsertBelow(raws[..|raws| - 1], r, top);
      assert s[..|s| - 1] == Insert(raws[..|raws| - 1], r);
    }
  }

  lemma {:induction false} InsertKeepsSorted(raws: seq<RawTag>, r: RawTag)
    requires Sorted(raws)
    ensures Sorted(Insert(raws, r))
  {
    var s := Insert(raws, r);
    if raws == [] {
    } else if raws[|raws| - 1].tag <= r.tag {
      assert s[..|s| - 1] == raws;
      BelowHigher(raws[..|raws| - 1], raws[|raws| - 1].tag, r.tag);
    } else {
      InsertKeepsSorted(raws[..|raws| - 1], r);
      InsertBelow(raws[..|raws| - 1], r, raws[|raws| - 1].tag);
      assert s[..|s| - 1] == Insert(raws[..|raws| - 1], r);
    }
  }

  lemma {:induction false} SortSorts(raws: seq<RawTag>)
    ensures Sorted(SortByTag(raws))
  {
    if raws != [] {
      SortSorts(raws[..|raws| - 1]);
      InsertKeepsSorted(SortByTag(raws[..|raws| - 1]), raws[|raws| - 1]);
    }
  }

  lemma {:induction false} FindInserted(raws: seq<RawTag>, r: RawTag, tag: nat)
    ensures Find(Insert(raws, r), tag) == if Find(raws, tag).Some? then Find(raws, tag) else if r.tag == tag then Some(r.data) else None
  {
    if raws == [] || raws[|raws| - 1].tag <= r.tag {
      FindConcat(raws, [r], tag);
    } else {
      var init, last := raws[..|raws| - 1], raws[|raws| - 1];
      FindInserted(init, r, tag);
      FindConcat(Insert(init, r), [last], tag);
      assert raws == init + [last];
      FindConcat(init, [last], tag);
    }
  }

  lemma {:induction false} FindSorted(raws: seq<RawTag>, tag: nat)
    ensures Find(SortByTag(raws), tag) == Find(raws, tag)
  {
    if raws != [] {
      var init, last := raws[..|raws| - 1], raws[|raws| - 1];
      FindSorted(init, tag);
      FindInserted(SortByTag(init), last, tag);
      assert raws == init + [last];
      FindConcat(init, [last], tag);
    }
  }

  lemma InsertLast(raws: seq<RawTag>, r: RawTag)
    requires Below(raws, r.tag)
    ensures Insert(raws, r) == raws + [r]
  {
  }

  lemma {:induction false} RemoveBelow(raws: seq<RawTag>, tag: nat, top: nat)
    requires Below(raws, top)
    ensures Below(Remove(raws, tag), top)
  {
    if raws != [] {
      var init, last := raws[..|raws| - 1], raws[|raws| - 1];
      RemoveBelow(init, tag, top);
      assert raws == init + [last];
      RemoveLast(init, last, tag);
      var s := Remove(raws, tag);
      assert last.tag != tag ==> s[..|s| - 1] == Remove(init, tag) && s[|s| - 1] == last;
    }
  }

  lemma InsertBefore(init: seq<RawTag>, last: RawTag, r: RawTag)
    requires r.tag < last.tag
    ensures Insert(init + [last], r) == Insert(init, r) + [last]
  {
    assert (init + [last])[..|init|] == init;
  }

  lemma {:induction false} RemoveInserted(raws: seq<RawTag>, r: RawTag, tag: nat)
    requires Sorted(raws)
    ensures Remove(Insert(raws, r), tag) == if r.tag == tag then Remove(raws, tag) else Insert(Remove(raws, tag), r)
  {
    if raws == [] {
      RemoveLast([], r, tag);
    } else {
      var init, last := raws[..|raws| - 1], raws[|raws| - 1];
      assert raws == init + [last];
      if last.tag <= r.tag {
        RemoveLast(raws, r, tag);
        BelowHigher(init, last.tag, r.tag);
        RemoveBelow(raws, tag, r.tag);
        InsertLast(Remove(raws, tag), r);
      } else {
        RemoveInserted(init, r, tag);
        RemoveLast(Insert(init, r), last, tag);
        RemoveLast(init, last, tag);
        InsertBefore(Remove(init, tag), last, r);
      }
    }
  }

  lemma SortSnoc(init: seq<RawTag>, last: RawTag)
    ensures SortByTag(init + [last]) == Insert(SortByTag(init), last)
  {
    assert (init + [last])[..|init|] == init;
  }

  lemma {:induction false} RemoveSorted(raws: seq<RawTag>, tag: nat)
    ensures Remove(SortByTag(raws), tag) == SortByTag(Remove(raws, tag))
  {
    if raws != [] {
      var init, last := raws[..|raws| - 1], raws[|raws| - 1];
      assert raws == init + [last];
      RemoveSorted(init, tag);
      SortSorts(init);
      RemoveInserted(SortByTag(init), last, tag);
      RemoveLast(init, last, tag);
      if last.tag != tag {
        SortSnoc(Remove(init, tag), last);
      }
    }
  }

  // ---- strict order -------------------------------------------------------------------

  /** No tag twice, and every one fits. */
  predicate Distinct(raws: seq<RawTag>) {
    raws == [] ||
    (var init, last := raws[..|raws| - 1], raws[|raws| - 1];
     Distinct(init) && Find(init, last.tag).None? && last.tag <= U32_MAX && |last.data| <= I64_MAX)
  }

  lemma {:induction false} AscendingInit(previous: int, raws: seq<RawTag>)
    requires Ascending(previous, raws) && raws != []
    ensures Ascending(previous, raws[..|raws| - 1])
    ensures previous < raws[|raws| - 1].tag <= U32_MAX && |raws[|raws| - 1].data| <= I64_MAX
    ensures |raws| > 1 ==> raws[|raws| - 2].tag < raws[|raws| - 1].tag
    decreases raws
  {
    if |raws| > 1 {
      AscendingInit(raws[0].tag, raws[1..]);
      assert raws[1..][..|raws| - 2] == raws[..|raws| - 1][1..];
    }
  }

  lemma {:induction false} AscendingSnoc(previous: int, raws: seq<RawTag>, r: RawTag)
    requires Ascending(previous, raws) && previous < r.tag <= U32_MAX && |r.data| <= I64_MAX
    requires raws != [] ==> raws[|raws| - 1].tag < r.tag
    ensures Ascending(previous, raws + [r])
    decreases raws
  {
    if raws != [] {
      if |raws| > 1 {
        AscendingInit(raws[0].tag, raws[1..]);
      }
      AscendingSnoc(raws[0].tag, raws[1..], r);
      assert (raws + [r])[1..] == raws[1..] + [r];
    }
  }

  lemma {:induction false} InsertAscends(raws: seq<RawTag>, r: RawTag)
    requires Ascending(-1, raws) && Find(raws, r.tag).None? && r.tag <= U32_MAX && |r.data| <= I64_MAX
    ensures Ascending(-1, Insert(raws, r))
    ensures var s := Insert(raws, r); s[|s| - 1] == r || (raws != [] && s[|s| - 1] == raws[|raws| - 1])
  {
    if raws == [] {
      AscendingSnoc(-1, raws, r);
    } else {
      var init, last := raws[..|raws| - 1], raws[|raws| - 1];
      assert raws == init + [last];
      FindConcat(init, [last], r.tag);
      if last.tag <= r.tag {
        AscendingSnoc(-1, raws, r);
      } else {
        AscendingInit(-1, raws);
        InsertAscends(init, r);
        AscendingSnoc(-1, Insert(init, r), last);
      }
    }
  }

  /** Sorting distinct tags puts them in strictly ascending order. */
  lemma {:induction false} SortAscends(raws: seq<RawTag>)
    requires Distinct(raws)
    ensures Ascending(-1, SortByTag(raws))
  {
    if raws != [] {
      var init, last := raws[..|raws| - 1], raws[|raws| - 1];
      SortAscends(init);
      FindSorted(init, last.tag);
      InsertAscends(SortByTag(init), last);
    }
  }

  // ---- size ---------------------------------------------------------------------------

  lemma {:induction false} ListConcat(a: seq<RawTag>, b: seq<RawTag>)
    ensures PutTagList(a + b) == PutTagList(a) + PutTagList(b)
  {
    if a == [] {
      assert a + b == b;
    } else {
      assert (a + b)[1..] == a[1..] + b;
      ListConcat(a[1..], b);
    }
  }

  lemma {:induction false} InsertedSize(raws: seq<RawTag>, r: RawTag)
    ensures |PutTagList(Insert(raws, r))| == |PutTagList(raws)| + |PutTag(r)|
  {
    assert [r][1..] == [] && PutTagList([r]) == PutTag(r);
    if raws == [] || raws[|raws| - 1].tag <= r.tag {
      ListConcat(raws, [r]);
    } else {
      var init, last := raws[..|raws| - 1], raws[|raws| - 1];
      InsertedSize(init, r);
      ListConcat(Insert(init, r), [last]);
      assert raws == init + [last];
      ListConcat(init, [last]);
    }
  }

  /** Sorting changes the order of a section and not its size. */
  lemma {:induction false} SortedSize(raws: seq<RawTag>)
    ensures |PutTagList(SortByTag(raws))| == |PutTagList(raws)|
  {
    if raws != [] {
      var init, last := raws[..|raws| - 1], raws[|raws| - 1];
      SortedSize(init);
      InsertedSize(SortByTag(init), last);
      assert raws == init + [last];
      ListConcat(init, [last]);
      assert [last][1..] == [] && PutTagList([last]) == PutTag(last);
    }
  }
}
