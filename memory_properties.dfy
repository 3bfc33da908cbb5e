/**
 * What `getOffset` promises about the order of its calls into the operating
 * system, about the region it stops at, about its offset chain and about its
 * two result modes.
 */
module MemoryProperties {
  import opened Wrappers
  import opened Machine
  import opened Memory

  /** A call after which `getOffset` goes on to the next region's query. */
  predicate Closing(c: OsCall)
  {
    (c.Query? && c.answer.None?) || (c.Elevate? && !c.granted) || c.Scan?
  }

  /** A protection change is made only for the region the query just before it reported. */
  ghost predicate ElevatesQueried(calls: seq<OsCall>)
  {
    forall k :: 0 <= k < |calls| && calls[k].Elevate? ==>
      k >= 1 && calls[k - 1].Query? && calls[k - 1].answer == Some(RegionInfo(calls[k].base, calls[k].size))
  }

  /**
   * A granted protection change is undone by the very next call, for the same
   * region and with the protection it reported, and a scan follows.
   */
  ghost predicate GrantsUndone(proc: Process, calls: seq<OsCall>)
  {
    forall k :: 0 <= k < |calls| && calls[k].Elevate? && calls[k].granted ==>
      && k + 2 < |calls|
      && calls[k + 1].Restore? && calls[k + 1].base == calls[k].base && calls[k + 1].size == calls[k].size
      && proc.protect(calls[k].base, calls[k].size) == Some(calls[k + 1].protection)
      && calls[k + 2].Scan?
  }

  /**
   * Every scan covers the region queried three calls before it, after a granted
   * protection change of that size and its restoration.
   */
  ghost predicate ScansGuarded(calls: seq<OsCall>)
  {
    forall k :: 0 <= k < |calls| && calls[k].Scan? ==>
      && k >= 3 && calls[k - 3].Query? && calls[k - 3].at == calls[k].begin
      && calls[k - 2].Elevate? && calls[k - 2].granted && calls[k - 2].size == calls[k].size
      && calls[k - 1].Restore?
  }

  /** After a failed call or a scan, the next call is a query. */
  ghost predicate QueryFollows(calls: seq<OsCall>)
  {
    forall k :: 0 <= k < |calls| - 1 && Closing(calls[k]) ==> calls[k + 1].Query?
  }

  /** The calls of a walk come in the order `getOffset` makes them. */
  ghost predicate WellOrdered(proc: Process, calls: seq<OsCall>)
  {
    && (|calls| > 0 ==> calls[0].Query?)
    && ElevatesQueried(calls) && GrantsUndone(proc, calls) && ScansGuarded(calls) && QueryFollows(calls)
  }

  lemma ConcatElevatesQueried(a: seq<OsCall>, b: seq<OsCall>)
    requires ElevatesQueried(a) && ElevatesQueried(b)
    ensures ElevatesQueried(a + b)
  {
    var c := a + b;
    forall k | 0 <= k < |c| && c[k].Elevate?
      ensures k >= 1 && c[k - 1].Query? && c[k - 1].answer == Some(RegionInfo(c[k].base, c[k].size))
    {
      if k >= |a| {
        assert c[k] == b[k - |a|];
        assert k - |a| >= 1;
        assert c[k - 1] == b[k - 1 - |a|];
      }
    }
  }

  lemma ConcatGrantsUndone(proc: Process, a: seq<OsCall>, b: seq<OsCall>)
    requires GrantsUndone(proc, a) && GrantsUndone(proc, b)
    ensures GrantsUndone(proc, a + b)
  {
    var c := a + b;
    forall k | 0 <= k < |c| && c[k].Elevate? && c[k].granted
      ensures k + 2 < |c| && c[k + 1] == (if k < |a| then a[k + 1] else b[k + 1 - |a|])
      ensures c[k + 2] == (if k < |a| then a[k + 2] else b[k + 2 - |a|])
    {
      if k >= |a| {
        assert c[k] == b[k - |a|];
      }
    }
  }

  lemma ConcatScansGuarded(a: seq<OsCall>, b: seq<OsCall>)
    requires ScansGuarded(a) && ScansGuarded(b)
    ensures ScansGuarded(a + b)
  {
    var c := a + b;
    forall k | 0 <= k < |c| && c[k].Scan?
      ensures k >= 3 && c[k - 3] == (if k < |a| then a[k - 3] else b[k - 3 - |a|])
      ensures c[k - 2] == (if k < |a| then a[k - 2] else b[k - 2 - |a|])
      ensures c[k - 1] == (if k < |a| then a[k - 1] else b[k - 1 - |a|])
    {
      if k >= |a| {
        assert c[k] == b[k - |a|];
      }
    }
  }

  lemma ConcatQueryFollows(a: seq<OsCall>, b: seq<OsCall>)
    requires QueryFollows(a) && QueryFollows(b)
    requires |a| > 0 ==> Closing(a[|a| - 1])
    requires |b| > 0 ==> b[0].Query?
    ensures QueryFollows(a + b)
  {
    var c := a + b;
    forall k | 0 <= k < |c| - 1 && Closing(c[k])
      ensures c[k + 1].Query?
    {
      if k + 1 == |a| {
        assert c[k + 1] == b[0];
      } else if k >= |a| {
        assert c[k] == b[k - |a|] && c[k + 1] == b[k + 1 - |a|];
      }
    }
  }

  /** Two well-ordered traces, the first ending with a closing call, make a well-ordered trace. */
  lemma ConcatWellOrdered(proc: Process, a: seq<OsCall>, b: seq<OsCall>)
    requires WellOrdered(proc, a) && WellOrdered(proc, b)
    requires |a| > 0 ==> Closing(a[|a| - 1])
    ensures WellOrdered(proc, a + b)
  {
    ConcatElevatesQueried(a, b);
    ConcatGrantsUndone(proc, a, b);
    ConcatScansGuarded(a, b);
    ConcatQueryFollows(a, b);
    if |a| == 0 {
      assert a + b == b;
    }
  }

  /** What one pass of the region loop does, as the walk lemmas use it. */
  lemma VisitFacts(patt: PatternStruct, proc: Process, curr: u32, step: u32)
    requires ScannablePattern(patt) && RegionsWellFormed(proc)
    requires curr as int < USER_SPACE_END
    requires 1 <= step as int <= MAX_REGION_SIZE
    ensures var v := VisitRegion(patt, proc, curr, step);
      && 1 <= |v.calls| <= 4
      && v.calls[0] == Query(curr, proc.query(curr))
      && (forall k :: 1 <= k < |v.calls| ==> !v.calls[k].Query?)
      && (forall k :: 0 <= k < |v.calls| ==> !v.calls[k].Read?)
      && Closing(v.calls[|v.calls| - 1])
      && (forall k :: 0 <= k < |v.calls| && v.calls[k].Scan? ==>
            && k == |v.calls| - 1 && v.calls[k].begin == curr && v.calls[k].found == v.found
            && |patt.mask| <= v.calls[k].size as int
            && v.found == ScanValue(patt.pattern, patt.mask, curr, v.calls[k].size, proc.mem))
      && (v.found != 0 ==> v.calls[|v.calls| - 1].Scan?)
  {
  }

  /** The four calls of a scanned region are in order. */
  lemma ScannedWellOrdered(proc: Process, at: u32, info: RegionInfo, previous: u32, found: u32)
    requires proc.protect(info.baseAddress, info.regionSize) == Some(previous)
    ensures WellOrdered(proc, [Query(at, Some(info)), Elevate(info.baseAddress, info.regionSize, true),
                               Restore(info.baseAddress, info.regionSize, previous), Scan(at, info.regionSize, found)])
  {
    var calls := [Query(at, Some(info)), Elevate(info.baseAddress, info.regionSize, true),
                  Restore(info.baseAddress, info.regionSize, previous), Scan(at, info.regionSize, found)];
    assert GrantsUndone(proc, calls) by {
      forall k | 0 <= k < 4 && calls[k].Elevate? && calls[k].granted
        ensures k == 1
      {
      }
    }
    assert ScansGuarded(calls) by {
      forall k | 0 <= k < 4 && calls[k].Scan?
        ensures k == 3
      {
      }
    }
  }

  lemma VisitWellOrdered(patt: PatternStruct, proc: Process, curr: u32, step: u32)
    requires ScannablePattern(patt) && RegionsWellFormed(proc)
    requires curr as int < USER_SPACE_END
    requires 1 <= step as int <= MAX_REGION_SIZE
    ensures WellOrdered(proc, VisitRegion(patt, proc, curr, step).calls)
  {
    var v := VisitRegion(patt, proc, curr, step);
    match proc.query(curr)
    case None =>
      assert v.calls == [Query(curr, None)];
    case Some(info) =>
      match proc.protect(info.baseAddress, info.regionSize)
      case None =>
        assert v.calls == [Query(curr, Some(info)), Elevate(info.baseAddress, info.regionSize, false)];
      case Some(previous) =>
        ScannedWellOrdered(proc, curr, info, previous, v.found);
  }

  /** Every recorded scan is `patternScan` on that region, and the walk stops at the first non-zero one. */
  lemma {:induction false} WalkStopsAtFirstHit(patt: PatternStruct, proc: Process, curr: u32, end: int, step: u32)
    requires ScannablePattern(patt) && RegionsWellFormed(proc)
    requires end <= USER_SPACE_END
    requires 1 <= step as int <= MAX_REGION_SIZE
    decreases end - curr as int
    ensures var o := WalkFrom(patt, proc, curr, end, step);
      && (forall k :: 0 <= k < |o.calls| && o.calls[k].Scan? ==>
            |patt.mask| <= o.calls[k].size as int &&
            o.calls[k].found == ScanValue(patt.pattern, patt.mask, o.calls[k].begin, o.calls[k].size, proc.mem))
      && (forall k :: 0 <= k < |o.calls| && o.calls[k].Scan? && (o.value == 0 || k < |o.calls| - 1) ==>
            o.calls[k].found == 0)
      && (o.value != 0 ==> |o.calls| > 0 && o.calls[|o.calls| - 1].Scan? && o.calls[|o.calls| - 1].found == o.value)
  {
    if curr as int < end {
      var v := VisitRegion(patt, proc, curr, step);
      VisitFacts(patt, proc, curr, step);
      if v.found == 0 {
        var rest := WalkFrom(patt, proc, v.next, end, v.nextStep);
        WalkStopsAtFirstHit(patt, proc, v.next, end, v.nextStep);
        var calls := v.calls + rest.calls;
        forall k | 0 <= k < |calls| && calls[k].Scan?
          ensures |patt.mask| <= calls[k].size as int
          ensures calls[k].found == ScanValue(patt.pattern, patt.mask, calls[k].begin, calls[k].size, proc.mem)
          ensures (rest.value == 0 || k < |calls| - 1) ==> calls[k].found == 0
        {
          if k >= |v.calls| {
            assert calls[k] == rest.calls[k - |v.calls|];
          }
        }
      }
    }
  }

  lemma {:induction false} WalkWellOrdered(patt: PatternStruct, proc: Process, curr: u32, end: int, step: u32)
    requires ScannablePattern(patt) && RegionsWellFormed(proc)
    requires end <= USER_SPACE_END
    requires 1 <= step as int <= MAX_REGION_SIZE
    decreases end - curr as int
    ensures WellOrdered(proc, WalkFrom(patt, proc, curr, end, step).calls)
  {
    if curr as int < end {
      var v := VisitRegion(patt, proc, curr, step);
      VisitFacts(patt, proc, curr, step);
      VisitWellOrdered(patt, proc, curr, step);
      if v.found == 0 {
        WalkWellOrdered(patt, proc, v.next, end, v.nextStep);
        ConcatWellOrdered(proc, v.calls, WalkFrom(patt, proc, v.next, end, v.nextStep).calls);
      }
    }
  }

  /** Every query of the trace asks about an address in `[lo, hi)`. */
  ghost predicate QueriesWithin(calls: seq<OsCall>, lo: int, hi: int)
  {
    forall k :: 0 <= k < |calls| && calls[k].Query? ==> lo <= calls[k].at as int < hi
  }

  /** The queries of the trace ask about strictly increasing addresses. */
  ghost predicate QueriesAscend(calls: seq<OsCall>)
  {
    forall k1, k2 :: 0 <= k1 < k2 < |calls| && calls[k1].Query? && calls[k2].Query? ==>
      calls[k1].at < calls[k2].at
  }

  lemma ConcatQueriesWithin(a: seq<OsCall>, b: seq<OsCall>, lo: int, mid: int, hi: int)
    requires QueriesWithin(a, lo, mid) && QueriesWithin(b, mid, hi)
    requires lo <= mid <= hi
    ensures QueriesWithin(a + b, lo, hi)
  {
    var c := a + b;
    forall k | 0 <= k < |c| && c[k].Query?
      ensures lo <= c[k].at as int < hi
    {
      if k >= |a| {
        assert c[k] == b[k - |a|];
      }
    }
  }

  lemma ConcatQueriesAscend(a: seq<OsCall>, b: seq<OsCall>, mid: int)
    requires QueriesAscend(a) && QueriesAscend(b)
    requires QueriesWithin(a, 0, mid) && QueriesWithin(b, mid, WORD_MODULUS)
    ensures QueriesAscend(a + b)
  {
    var c := a + b;
    forall k1, k2 | 0 <= k1 < k2 < |c| && c[k1].Query? && c[k2].Query?
      ensures c[k1].at < c[k2].at
    {
      if k2 >= |a| {
        assert c[k2] == b[k2 - |a|];
        if k1 >= |a| {
          assert c[k1] == b[k1 - |a|];
        }
      }
    }
  }

  /** Every queried address lies in the module's range, and each is queried once, in increasing order. */
  lemma {:induction false} WalkQueriesAscend(patt: PatternStruct, proc: Process, curr: u32, end: int, step: u32)
    requires ScannablePattern(patt) && RegionsWellFormed(proc)
    requires end <= USER_SPACE_END
    requires 1 <= step as int <= MAX_REGION_SIZE
    decreases end - curr as int
    ensures QueriesWithin(WalkFrom(patt, proc, curr, end, step).calls, curr as int, end)
    ensures QueriesAscend(WalkFrom(patt, proc, curr, end, step).calls)
  {
    if curr as int < end {
      var v := VisitRegion(patt, proc, curr, step);
      VisitFacts(patt, proc, curr, step);
      assert QueriesWithin(v.calls, curr as int, curr as int + 1);
      if v.found == 0 {
        var rest := WalkFrom(patt, proc, v.next, end, v.nextStep).calls;
        WalkQueriesAscend(patt, proc, v.next, end, v.nextStep);
        if v.next as int >= end {
          assert rest == [];
          assert v.calls + rest == v.calls;
        } else {
          ConcatQueriesWithin(v.calls, rest, curr as int, v.next as int, end);
          ConcatQueriesAscend(v.calls, rest, v.next as int);
        }
      }
    }
  }

  /** No call of the trace is a word read. */
  ghost predicate NoReads(calls: seq<OsCall>)
  {
    forall k :: 0 <= k < |calls| ==> !calls[k].Read?
  }

  /** The walk makes no word reads: all reads belong to the offset chain. */
  lemma {:induction false} WalkMakesNoReads(patt: PatternStruct, proc: Process, curr: u32, end: int, step: u32)
    requires ScannablePattern(patt) && RegionsWellFormed(proc)
    requires end <= USER_SPACE_END
    requires 1 <= step as int <= MAX_REGION_SIZE
    decreases end - curr as int
    ensures NoReads(WalkFrom(patt, proc, curr, end, step).calls)
  {
    if curr as int < end {
      var v := VisitRegion(patt, proc, curr, step);
      VisitFacts(patt, proc, curr, step);
      if v.found == 0 {
        var rest := WalkFrom(patt, proc, v.next, end, v.nextStep).calls;
        WalkMakesNoReads(patt, proc, v.next, end, v.nextStep);
        var calls := v.calls + rest;
        forall k | 0 <= k < |calls|
          ensures !calls[k].Read?
        {
          if k >= |v.calls| {
            assert calls[k] == rest[k - |v.calls|];
          }
        }
      }
    }
  }

  /** A module of size 0 (the record `operator[]` inserts) is not walked at all: the match stays 0. */
  lemma EmptyModuleFindsNothing(patt: PatternStruct, proc: Process, m: ModuleRecord)
    requires ScannablePattern(patt) && RegionsWellFormed(proc) && FitsUserSpace(m)
    requires m.size == 0
    ensures ModuleWalk(patt, proc, m) == Outcome(0, [])
  {
  }

  /** Every call of the trace reads one word, and records the word stored there. */
  ghost predicate ReadsOnly(proc: Process, calls: seq<OsCall>)
  {
    forall k :: 0 <= k < |calls| ==> calls[k].Read? && calls[k].value == LoadWord(proc.mem, calls[k].at)
  }

  /** Each offset makes exactly one read, of the word at the running address plus the offset. */
  lemma {:induction false} ChainReadsOncePerOffset(proc: Process, moduleBase: u32, addr: u32, offsets: seq<i32>)
    decreases |offsets|
    ensures var calls := Chain(proc, moduleBase, addr, offsets).calls;
      && |calls| == |offsets|
      && ReadsOnly(proc, calls)
      && (|offsets| > 0 ==> calls[0].at == Add(addr, offsets[0] as int))
  {
    if |offsets| > 0 {
      var at := Add(addr, offsets[0] as int);
      var value := LoadWord(proc.mem, at);
      var rest := Chain(proc, moduleBase, Sub(value, moduleBase), offsets[1..]).calls;
      ChainReadsOncePerOffset(proc, moduleBase, Sub(value, moduleBase), offsets[1..]);
      var calls := [Read(at, value)] + rest;
      forall k | 0 <= k < |calls|
        ensures calls[k].Read? && calls[k].value == LoadWord(proc.mem, calls[k].at)
      {
        if k > 0 {
          assert calls[k] == rest[k - 1];
        }
      }
    }
  }

  /** Running the chain over `o1 + o2` is running it over `o1`, then over `o2` from where `o1` ended. */
  lemma {:induction false} ChainSplit(proc: Process, moduleBase: u32, addr: u32, o1: seq<i32>, o2: seq<i32>)
    decreases |o1|
    ensures var first := Chain(proc, moduleBase, addr, o1);
      Chain(proc, moduleBase, addr, o1 + o2) == Then(first.calls, Chain(proc, moduleBase, first.value, o2))
  {
    if |o1| == 0 {
      assert o1 + o2 == o2;
    } else {
      var at := Add(addr, o1[0] as int);
      var value := LoadWord(proc.mem, at);
      var next := Sub(value, moduleBase);
      assert (o1 + o2)[0] == o1[0] && (o1 + o2)[1..] == o1[1..] + o2;
      ChainSplit(proc, moduleBase, next, o1[1..], o2);
      var rest := Chain(proc, moduleBase, next, o1[1..]);
      assert Chain(proc, moduleBase, addr, o1) == Then([Read(at, value)], rest);
      assert Chain(proc, moduleBase, addr, o1 + o2) == Then([Read(at, value)], Chain(proc, moduleBase, next, o1[1..] + o2));
      ThenAssoc([Read(at, value)], rest.calls, Chain(proc, moduleBase, rest.value, o2));
    }
  }

  /** The last offset of a chain: add it, read one word there, subtract the module base. */
  lemma ChainLastStep(proc: Process, moduleBase: u32, addr: u32, offsets: seq<i32>, last: i32)
    ensures var before := Chain(proc, moduleBase, addr, offsets).value;
      Chain(proc, moduleBase, addr, offsets + [last]).value ==
        Sub(LoadWord(proc.mem, Add(before, last as int)), moduleBase)
  {
    ChainSplit(proc, moduleBase, addr, offsets, [last]);
    assert [last][1..] == [];
  }

  /**
   * `getOffset` first walks, then makes exactly one read per offset, whether or
   * not the walk found a match.
   */
  lemma ResolveReadsAfterWalk(patt: PatternStruct, proc: Process, m: ModuleRecord)
    requires ScannablePattern(patt) && RegionsWellFormed(proc) && FitsUserSpace(m)
    ensures var walk := ModuleWalk(patt, proc, m).calls;
      var calls := Resolve(patt, proc, m).calls;
      && |walk| <= |calls|
      && calls[..|walk|] == walk && NoReads(walk)
      && |calls| - |walk| == |patt.offsets| && ReadsOnly(proc, calls[|walk|..])
  {
    var walk := ModuleWalk(patt, proc, m);
    WalkMakesNoReads(patt, proc, m.base, m.base as int + m.size as int, INITIAL_REGION_SIZE);
    var chain := Chain(proc, m.base, walk.value, patt.offsets);
    ChainReadsOncePerOffset(proc, m.base, walk.value, patt.offsets);
    var calls := Resolve(patt, proc, m).calls;
    assert calls == walk.calls + chain.calls;
    assert calls[..|walk.calls|] == walk.calls;
    assert calls[|walk.calls|..] == chain.calls;
  }

  /** With no offsets the result is the matched address plus `extra`, not `extra` alone. */
  lemma EmptyOffsetsKeepMatch(patt: PatternStruct, proc: Process, m: ModuleRecord)
    requires ScannablePattern(patt) && RegionsWellFormed(proc) && FitsUserSpace(m)
    requires patt.offsets == []
    ensures var found := ModuleWalk(patt, proc, m).value;
      var r := Resolve(patt, proc, m).value;
      && (patt.relative ==> r == Add(found, patt.extra as int))
      && (!patt.relative ==> r as int == Add(found, patt.extra as int) as int % LOW_HALF)
  {
  }

  /** Truncated mode yields the low 16 bits of what relative mode yields, so never more than 0xFFFF. */
  lemma TruncatedIsLowHalfOfRelative(addr: u32, extra: i32)
    ensures Finish(addr, false, extra) as int <= 0xFFFF
    ensures Finish(addr, false, extra) as int == Finish(addr, true, extra) as int % LOW_HALF
    ensures (Finish(addr, true, extra) as int - addr as int - extra as int) % WORD_MODULUS == 0
  {
  }
}
