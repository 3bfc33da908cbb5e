/**
 * The signature scanner and offset resolver of the `memory` class:
 * `patternScan` copies one region of the target process and searches it for a
 * wildcarded byte pattern; `getOffset` walks a module region by region until
 * a scan succeeds, follows the pattern's offset chain and returns the result
 * either whole (relative mode) or cut to its low 16 bits.
 *
 * The operating system is not modelled. `VirtualQueryEx`,
 * `VirtualProtectEx` and `ReadProcessMemory` are the fields of a `Process`
 * value (oracles), and every call the resolver makes to them is recorded, in
 * order, as an `OsCall`, so that the order of the calls can be stated.
 */
module Memory {
  import opened Wrappers
  import opened Machine

  const PAGE_SIZE: int := 0x1000
  /** End of the 2 GB user-mode address space of a 32-bit process. */
  const USER_SPACE_END: int := 0x8000_0000
  /** The largest page-granular region size below 2 GB. */
  const MAX_REGION_SIZE: int := 0x7FFF_F000
  /** The step `mbi.RegionSize` is initialised with before the first query. */
  const INITIAL_REGION_SIZE: u32 := 0x1000
  /** `x & 0x0000ffff` keeps `x % LOW_HALF`. */
  const LOW_HALF: int := 0x1_0000
  /** The largest value an `int` loop counter can take. */
  const INT_MAX: int := 0x7FFF_FFFF

  /** A `patternStruct`: `pattern` holds the raw bytes, `mask` the characters of the mask up to its NUL. */
  datatype PatternStruct = PatternStruct(
    pattern: seq<u8>,
    mask: seq<char>,
    moduleName: string,
    relative: bool,
    extra: i32,
    offsets: seq<i32>)

  /** The value the `modules` table keeps per module: base address and size. */
  datatype ModuleRecord = ModuleRecord(base: u32, size: u32)

  /** The two fields of `MEMORY_BASIC_INFORMATION` that `getOffset` uses. */
  datatype RegionInfo = RegionInfo(baseAddress: u32, regionSize: u32)

  /**
   * The foreign calls, as oracles over the target process:
   * `query(a)` is what `VirtualQueryEx` reports for address `a` (None when it fails);
   * `protect(b, s)` is the previous protection that `VirtualProtectEx` reports when it
   * switches the region at `b` of size `s` to PAGE_EXECUTE_READWRITE (None when it fails);
   * `mem(a)` is the byte `ReadProcessMemory` copies from address `a`.
   */
  datatype Process = Process(
    query: u32 -> Option<RegionInfo>,
    protect: (u32, u32) -> Option<u32>,
    mem: u32 -> u8)

  /** One call from the resolver into the operating system, with what it returned. */
  datatype OsCall =
    | Query(at: u32, answer: Option<RegionInfo>)
    | Elevate(base: u32, size: u32, granted: bool)
    | Restore(base: u32, size: u32, protection: u32)
    | Scan(begin: u32, size: u32, found: u32)
    | Read(at: u32, value: u32)

  /** A computed value together with the calls made to compute it. */
  datatype Outcome = Outcome(value: u32, calls: seq<OsCall>)

  function Then(calls: seq<OsCall>, o: Outcome): Outcome
  {
    Outcome(o.value, calls + o.calls)
  }

  // ---------------------------------------------------------------------
  // patternScan
  // ---------------------------------------------------------------------

  /** The pattern matches `buffer` at offset `i`: every position not masked by '?' is equal. */
  predicate MatchesAt(pattern: seq<u8>, mask: seq<char>, buffer: seq<u8>, i: nat)
    requires |mask| <= |pattern|
  {
    i + |mask| <= |buffer| &&
    forall j :: 0 <= j < |mask| ==> mask[j] == '?' || pattern[j] == buffer[i + j]
  }

  /**
   * The first offset at or after `i` that the scan loop tests and finds matching.
   * The loop tests the offsets below `|buffer| - |mask|` only.
   */
  function FirstMatchFrom(pattern: seq<u8>, mask: seq<char>, buffer: seq<u8>, i: nat): (r: Option<nat>)
    requires |mask| <= |pattern|
    requires i + |mask| <= |buffer|
    decreases |buffer| - i
    ensures r.Some? ==> i <= r.value && r.value + |mask| < |buffer| && MatchesAt(pattern, mask, buffer, r.value)
    ensures forall k :: i <= k && k + |mask| < |buffer| && (r.None? || k < r.value) ==>
              !MatchesAt(pattern, mask, buffer, k)
  {
    if i + |mask| == |buffer| then None
    else if MatchesAt(pattern, mask, buffer, i) then Some(i)
    else FirstMatchFrom(pattern, mask, buffer, i + 1)
  }

  /** The `size` bytes starting at `begin` as `ReadProcessMemory` copies them into the buffer. */
  function Snapshot(mem: u32 -> u8, begin: u32, size: u32): (buffer: seq<u8>)
  {
    seq(size as int, k => mem(Add(begin, k)))
  }

  /** What `patternScan(pattern, mask, begin, size)` returns: `begin + i` for the first match `i`, else 0. */
  function ScanValue(pattern: seq<u8>, mask: seq<char>, begin: u32, size: u32, mem: u32 -> u8): u32
    requires |mask| <= |pattern| && |mask| <= size as int
  {
    match FirstMatchFrom(pattern, mask, Snapshot(mem, begin, size), 0)
    case Some(i) => Add(begin, i)
    case None => 0
  }

  /**
   * `patternScan`: the nested loops of memory.cpp over a heap buffer.
   * The caller must keep `strlen(mask) <= size` (else `size - length` wraps and
   * the loop reads past the buffer) and must not let the `int` counter overflow.
   */
  method PatternScan(pattern: seq<u8>, mask: seq<char>, begin: u32, size: u32, mem: u32 -> u8) returns (ret: u32)
    requires |mask| <= |pattern|
    requires |mask| <= size as int
    requires size as int - |mask| <= INT_MAX
    ensures ret == ScanValue(pattern, mask, begin, size, mem)
  {
    ret := 0;
    var buffer := new u8[size as int](k => mem(Add(begin, k)));
    assert buffer[..] == Snapshot(mem, begin, size);
    var length := |mask|;
    var i := 0;
    while i < size as int - length
      invariant 0 <= i <= size as int - length
      invariant FirstMatchFrom(pattern, mask, buffer[..], 0) == FirstMatchFrom(pattern, mask, buffer[..], i)
    {
      var j := 0;
      while j < length
        invariant 0 <= j <= length
        invariant forall k :: 0 <= k < j ==> mask[k] == '?' || pattern[k] == buffer[i + k]
      {
        if mask[j] != '?' && pattern[j] != buffer[i + j] {
          break;
        }
        j := j + 1;
      }
      if j == length {
        assert MatchesAt(pattern, mask, buffer[..], i);
        ret := Add(begin, i);
        break;
      }
      assert !MatchesAt(pattern, mask, buffer[..], i);
      i := i + 1;
    }
  }

  /** Pattern bytes under a '?' of the mask never influence the scan. */
  lemma {:induction false} WildcardBytesIgnored(p1: seq<u8>, p2: seq<u8>, mask: seq<char>, buffer: seq<u8>, i: nat)
    requires |mask| <= |p1| && |mask| <= |p2|
    requires i + |mask| <= |buffer|
    requires forall j :: 0 <= j < |mask| && mask[j] != '?' ==> p1[j] == p2[j]
    ensures FirstMatchFrom(p1, mask, buffer, i) == FirstMatchFrom(p2, mask, buffer, i)
    decreases |buffer| - i
  {
    if i + |mask| < |buffer| {
      assert MatchesAt(p1, mask, buffer, i) == MatchesAt(p2, mask, buffer, i);
      WildcardBytesIgnored(p1, p2, mask, buffer, i + 1);
    }
  }

  /** A match flush with the end of the buffer is never reported: that offset is not tested. */
  lemma FlushMatchMissed(pattern: seq<u8>, mask: seq<char>, buffer: seq<u8>)
    requires |mask| <= |pattern| && |mask| <= |buffer|
    requires MatchesAt(pattern, mask, buffer, |buffer| - |mask|)
    requires forall k :: 0 <= k < |buffer| - |mask| ==> !MatchesAt(pattern, mask, buffer, k)
    ensures FirstMatchFrom(pattern, mask, buffer, 0) == None
  {
  }

  // ---------------------------------------------------------------------
  // getOffset, first part: the region walk
  // ---------------------------------------------------------------------

  /** What the operating system guarantees about `VirtualQueryEx` in a 32-bit process. */
  predicate RegionsWellFormed(proc: Process)
  {
    forall a: u32 :: proc.query(a).Some? ==>
      PAGE_SIZE <= proc.query(a).value.regionSize as int <= MAX_REGION_SIZE
  }

  /** The module lies in the user-mode address space. */
  predicate FitsUserSpace(m: ModuleRecord)
  {
    m.base as int + m.size as int <= USER_SPACE_END
  }

  /** The pattern has a byte for every mask character, and fits in one page. */
  predicate ScannablePattern(patt: PatternStruct)
  {
    |patt.mask| <= |patt.pattern| && |patt.mask| <= PAGE_SIZE
  }

  /** The calls one pass of the region loop makes, what it found, and where the next pass starts. */
  datatype Visit = Visit(calls: seq<OsCall>, found: u32, next: u32, nextStep: u32)

  /**
   * One pass of the region loop of `getOffset` at cursor `curr`, with `step` the
   * last known `RegionSize`: a failed query skips `step` bytes; a failed
   * protection change skips the region just reported; otherwise the old
   * protection is restored and the region is scanned.
   */
  function VisitRegion(patt: PatternStruct, proc: Process, curr: u32, step: u32): (v: Visit)
    requires ScannablePattern(patt) && RegionsWellFormed(proc)
    requires curr as int < USER_SPACE_END
    requires 1 <= step as int <= MAX_REGION_SIZE
    ensures 1 <= v.nextStep as int <= MAX_REGION_SIZE
    ensures v.next as int == curr as int + v.nextStep as int
    ensures proc.query(curr).None? ==> v.nextStep == step && v.found == 0
    ensures proc.query(curr).Some? ==> v.nextStep == proc.query(curr).value.regionSize
    ensures proc.query(curr).Some? && proc.protect(proc.query(curr).value.baseAddress, v.nextStep).None? ==> v.found == 0
  {
    match proc.query(curr)
    case None =>
      Visit([Query(curr, None)], 0, Add(curr, step as int), step)
    case Some(info) =>
      var size := info.regionSize;
      match proc.protect(info.baseAddress, size)
      case None =>
        Visit([Query(curr, Some(info)), Elevate(info.baseAddress, size, false)], 0, Add(curr, size as int), size)
      case Some(previous) =>
        var found := ScanValue(patt.pattern, patt.mask, curr, size, proc.mem);
        Visit([Query(curr, Some(info)), Elevate(info.baseAddress, size, true),
               Restore(info.baseAddress, size, previous), Scan(curr, size, found)],
              found, Add(curr, size as int), size)
  }

  /** The region loop of `getOffset` from cursor `curr` on: it stops at the first non-zero scan result. */
  function WalkFrom(patt: PatternStruct, proc: Process, curr: u32, end: int, step: u32): (o: Outcome)
    requires ScannablePattern(patt) && RegionsWellFormed(proc)
    requires end <= USER_SPACE_END
    requires 1 <= step as int <= MAX_REGION_SIZE
    decreases end - curr as int
  {
    if curr as int >= end then Outcome(0, [])
    else
      var v := VisitRegion(patt, proc, curr, step);
      if v.found != 0 then Outcome(v.found, v.calls)
      else Then(v.calls, WalkFrom(patt, proc, v.next, end, v.nextStep))
  }

  /** The walk over module `m`, as `getOffset` starts it. */
  function ModuleWalk(patt: PatternStruct, proc: Process, m: ModuleRecord): Outcome
    requires ScannablePattern(patt) && RegionsWellFormed(proc) && FitsUserSpace(m)
  {
    WalkFrom(patt, proc, m.base, m.base as int + m.size as int, INITIAL_REGION_SIZE)
  }

  /** Lines 68-77 of `getOffset`: the `for` loop over the module's regions. */
  method WalkModule(patt: PatternStruct, proc: Process, m: ModuleRecord) returns (addr: u32, calls: seq<OsCall>)
    requires ScannablePattern(patt) && RegionsWellFormed(proc) && FitsUserSpace(m)
    ensures Outcome(addr, calls) == ModuleWalk(patt, proc, m)
  {
    ghost var total := ModuleWalk(patt, proc, m);
    addr := 0;
    calls := [];
    var regionSize := INITIAL_REGION_SIZE;
    var end := Add(m.base, m.size as int);
    var curr := m.base;
    while curr < end
      invariant 1 <= regionSize as int <= MAX_REGION_SIZE
      invariant addr == 0
      invariant total == Then(calls, WalkFrom(patt, proc, curr, end as int, regionSize))
      decreases end as int - curr as int
    {
      ghost var done, here := calls, curr;
      var pre: seq<OsCall>;
      var answer := proc.query(curr);
      if answer.None? {
        pre := [Query(curr, None)];
        calls := calls + pre;
        curr := Add(curr, regionSize as int);
        ThenAssoc(done, pre, WalkFrom(patt, proc, curr, end as int, regionSize));
        continue;
      }
      var info := answer.value;
      regionSize := info.regionSize;
      var previous := proc.protect(info.baseAddress, regionSize);
      if previous.None? {
        pre := [Query(curr, answer), Elevate(info.baseAddress, regionSize, false)];
        calls := calls + pre;
        curr := Add(curr, regionSize as int);
        ThenAssoc(done, pre, WalkFrom(patt, proc, curr, end as int, regionSize));
        continue;
      }
      addr := PatternScan(patt.pattern, patt.mask, curr, regionSize, proc.mem);
      pre := [Query(curr, answer), Elevate(info.baseAddress, regionSize, true),
              Restore(info.baseAddress, regionSize, previous.value), Scan(curr, regionSize, addr)];
      calls := calls + pre;
      if addr != 0 {
        break;
      }
      curr := Add(curr, regionSize as int);
      ThenAssoc(done, pre, WalkFrom(patt, proc, curr, end as int, regionSize));
    }
    assert calls + [] == calls;
  }

  lemma ThenAssoc(c1: seq<OsCall>, c2: seq<OsCall>, o: Outcome)
    ensures Then(c1, Then(c2, o)) == Then(c1 + c2, o)
  {
    assert c1 + (c2 + o.calls) == (c1 + c2) + o.calls;
  }

  // ---------------------------------------------------------------------
  // getOffset, second part: the offset chain and the two result modes
  // ---------------------------------------------------------------------

  /** Lines 79-83 of `getOffset` from `addr` on: per offset, add it, read one word, subtract the module base. */
  function Chain(proc: Process, moduleBase: u32, addr: u32, offsets: seq<i32>): Outcome
    decreases |offsets|
  {
    if |offsets| == 0 then Outcome(addr, [])
    else
      var at := Add(addr, offsets[0] as int);
      var value := LoadWord(proc.mem, at);
      Then([Read(at, value)], Chain(proc, moduleBase, Sub(value, moduleBase), offsets[1..]))
  }

  /** The `for (auto& offset : patt.offsets)` loop, reassigning `addr` in place. */
  method FollowChain(proc: Process, moduleBase: u32, start: u32, offsets: seq<i32>) returns (addr: u32, chainCalls: seq<OsCall>)
    ensures Outcome(addr, chainCalls) == Chain(proc, moduleBase, start, offsets)
  {
    addr := start;
    chainCalls := [];
    for k := 0 to |offsets|
      invariant Chain(proc, moduleBase, start, offsets) == Then(chainCalls, Chain(proc, moduleBase, addr, offsets[k..]))
    {
      var at := Add(addr, offsets[k] as int);
      var value := LoadWord(proc.mem, at);
      ChainUnfold(proc, moduleBase, addr, offsets, k);
      ThenAssoc(chainCalls, [Read(at, value)], Chain(proc, moduleBase, Sub(value, moduleBase), offsets[k + 1..]));
      chainCalls := chainCalls + [Read(at, value)];
      addr := Sub(value, moduleBase);
    }
    assert offsets[|offsets|..] == [];
    assert chainCalls + [] == chainCalls;
  }

  lemma ChainUnfold(proc: Process, moduleBase: u32, addr: u32, offsets: seq<i32>, k: int)
    requires 0 <= k < |offsets|
    ensures var at := Add(addr, offsets[k] as int);
      var value := LoadWord(proc.mem, at);
      Chain(proc, moduleBase, addr, offsets[k..])
        == Then([Read(at, value)], Chain(proc, moduleBase, Sub(value, moduleBase), offsets[k + 1..]))
  {
    assert offsets[k..][0] == offsets[k] && offsets[k..][1..] == offsets[k + 1..];
  }

  /** The two return statements of `getOffset`. */
  function Finish(addr: u32, relative: bool, extra: i32): (r: u32)
    ensures relative ==> (r as int - addr as int - extra as int) % WORD_MODULUS == 0
    ensures !relative ==> r as int == (addr as int + extra as int) % LOW_HALF
  {
    if relative then Add(addr, extra as int) else (Add(addr, extra as int) as int % LOW_HALF) as u32
  }

  /** Everything `getOffset` computes for module record `m`: the result and the calls, in order. */
  function Resolve(patt: PatternStruct, proc: Process, m: ModuleRecord): Outcome
    requires ScannablePattern(patt) && RegionsWellFormed(proc) && FitsUserSpace(m)
  {
    var found := ModuleWalk(patt, proc, m);
    var chain := Chain(proc, m.base, found.value, patt.offsets);
    Outcome(Finish(chain.value, patt.relative, patt.extra), found.calls + chain.calls)
  }

  /** One entry of a Toolhelp module snapshot. */
  datatype ModuleEntry = ModuleEntry(szModule: string, modBaseAddr: u32, modBaseSize: u32)

  /**
   * The `memory` object as far as the resolver uses it: the name-to-module table.
   * Names are compared by content here; the source keys its table by the
   * address of the wide-character literal.
   */
  class MemoryAccess {
    var modules: map<string, ModuleRecord>

    ghost predicate Valid()
      reads this
    {
      forall name :: name in modules ==> FitsUserSpace(modules[name])
    }

    constructor ()
      ensures Valid() && modules == map[]
    {
      modules := map[];
    }

    /**
     * `setModuleInfo` over a module snapshot: `Module32First` yields
     * `snapshot[0]`, but the loop calls `Module32Next` before looking at an
     * entry, so the search starts at `snapshot[1]`.
     */
    method SetModuleInfo(name: string, snapshot: seq<ModuleEntry>) returns (found: bool)
      requires Valid()
      requires forall e :: e in snapshot ==> FitsUserSpace(ModuleRecord(e.modBaseAddr, e.modBaseSize))
      modifies this
      ensures Valid()
      ensures found <==> exists k :: 1 <= k < |snapshot| && snapshot[k].szModule == name
      ensures !found ==> modules == old(modules)
      ensures found ==>
                exists k :: 1 <= k < |snapshot| && snapshot[k].szModule == name &&
                  (forall k' :: 1 <= k' < k ==> snapshot[k'].szModule != name) &&
                  modules == old(modules)[name := ModuleRecord(snapshot[k].modBaseAddr, snapshot[k].modBaseSize)]
    {
      if |snapshot| == 0 {
        return false;
      }
      var k := 1;
      while k < |snapshot|
        invariant 1 <= k <= |snapshot|
        invariant forall k' :: 1 <= k' < k ==> snapshot[k'].szModule != name
      {
        var entry := snapshot[k];
        if entry.szModule == name {
          assert entry in snapshot;
          modules := modules[name := ModuleRecord(entry.modBaseAddr, entry.modBaseSize)];
          return true;
        }
        k := k + 1;
      }
      return false;
    }

    /**
     * `getOffset`. Looking the module up with `operator[]` inserts an empty
     * record for a name the table does not hold.
     */
    method GetOffset(patt: PatternStruct, proc: Process) returns (r: u32, calls: seq<OsCall>)
      requires Valid() && ScannablePattern(patt) && RegionsWellFormed(proc)
      modifies this
      ensures Valid()
      ensures modules == if patt.moduleName in old(modules) then old(modules)
                         else old(modules)[patt.moduleName := ModuleRecord(0, 0)]
      ensures Outcome(r, calls) == Resolve(patt, proc, modules[patt.moduleName])
    {
      if patt.moduleName !in modules {
        modules := modules[patt.moduleName := ModuleRecord(0, 0)];
      }
      var m := modules[patt.moduleName];
      var addr, walkCalls := WalkModule(patt, proc, m);
      var value, chainCalls := FollowChain(proc, m.base, addr, patt.offsets);
      r := Finish(value, patt.relative, patt.extra);
      calls := walkCalls + chainCalls;
    }
  }
}
