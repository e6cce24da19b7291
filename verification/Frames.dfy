/** The physical frame allocator over the boot loader's memory map, and the mapping of the
    kernel heap. Frames are named by their number, address divided by 4096. */
module Frames {
  import opened Runs

  const PAGE: nat := 4096

  datatype Region = Region(start: nat, end: nat, usable: bool)

  /** Number of frame addresses in a region: start, start + 4096, ... below end. */
  function Count(r: Region): nat {
    if r.usable && r.start < r.end then (r.end - r.start + PAGE - 1) / PAGE else 0
  }

  /** The frames containing those addresses. */
  function FramesOf(r: Region): (s: seq<nat>)
    ensures |s| == Count(r)
  {
    seq(Count(r), k requires 0 <= k => (r.start + k * PAGE) / PAGE)
  }

  /** The frames of all usable regions, in the order of the map. */
  function UsableFrames(regions: seq<Region>): seq<nat> {
    if regions == [] then [] else FramesOf(regions[0]) + UsableFrames(regions[1..])
  }

  /** The allocator. */
  class BootInfoFrameAllocator {
    const regions: seq<Region>
    var next: nat

    constructor (regions: seq<Region>)
      ensures this.regions == regions && next == 0
    {
      this.regions, next := regions, 0;
    }

    method AllocateFrame() returns (frame: Option<nat>)
      modifies this
      ensures next == old(next) + 1
      ensures var all := UsableFrames(regions);
              frame == if old(next) < |all| then Some(all[old(next)]) else None
    {
      frame := Nth(regions, next);
      next := next + 1;
    }

    /** The nth element of the flattened iterator: skip whole regions, then index. */
    static method Nth(regions: seq<Region>, n: nat) returns (frame: Option<nat>)
      ensures var all := UsableFrames(regions);
              frame == if n < |all| then Some(all[n]) else None
    {
      var i: nat, left: nat := 0, n;
      while i < |regions|
        invariant i <= |regions| && left <= n
        invariant var all, rest := UsableFrames(regions), UsableFrames(regions[i..]);
                  n - left <= |all| && rest == all[n - left..]
      {
        var c := Count(regions[i]);
        assert UsableFrames(regions[i..]) == FramesOf(regions[i]) + UsableFrames(regions[i + 1..]) by {
          assert regions[i..][1..] == regions[i + 1..];
        }
        if left < c {
          assert UsableFrames(regions)[n] == UsableFrames(regions)[n - left..][left] == FramesOf(regions[i])[left];
          return Some((regions[i].start + left * PAGE) / PAGE);
        }
        left, i := left - c, i + 1;
      }
      assert regions[i..] == [];
      return None;
    }
  }

  // ---- No frame twice ----

  /** First frame of a region, and the one after its last. */
  function Low(r: Region): nat {
    r.start / PAGE
  }

  function High(r: Region): nat {
    Low(r) + Count(r)
  }

  lemma FrameNumber(r: Region, k: nat)
    requires k < Count(r)
    ensures FramesOf(r)[k] == Low(r) + k
  {
    assert (r.start + k * PAGE) / PAGE == r.start / PAGE + k;
  }

  /** The page ranges of different regions do not meet. */
  ghost predicate RangesDisjoint(regions: seq<Region>) {
    forall i: nat, j: nat :: i < j < |regions| ==>
      Count(regions[i]) == 0 || Count(regions[j]) == 0 || High(regions[i]) <= Low(regions[j]) || High(regions[j]) <= Low(regions[i])
  }

  ghost predicate Distinct(s: seq<nat>) {
    forall i: nat, j: nat :: i < j < |s| ==> s[i] != s[j]
  }

  /** A frame number comes from a region of the map. */
  lemma {:induction false} FrameSource(regions: seq<Region>, n: nat) returns (i: nat)
    requires n < |UsableFrames(regions)|
    ensures i < |regions| && Low(regions[i]) <= UsableFrames(regions)[n] < High(regions[i])
  {
    var c := Count(regions[0]);
    if n < c {
      i := 0;
      FrameNumber(regions[0], n);
    } else {
      i := FrameSource(regions[1..], n - c);
      i := i + 1;
    }
  }

  /** Every page in the range of a region occurs. */
  lemma {:induction false} FrameIndex(regions: seq<Region>, i: nat, f: nat) returns (n: nat)
    requires i < |regions| && Low(regions[i]) <= f < High(regions[i])
    ensures n < |UsableFrames(regions)| && UsableFrames(regions)[n] == f
  {
    if i == 0 {
      n := f - Low(regions[0]);
      FrameNumber(regions[0], n);
    } else {
      n := FrameIndex(regions[1..], i - 1, f);
      n := n + Count(regions[0]);
    }
  }

  lemma {:induction false} DisjointImpliesDistinct(regions: seq<Region>)
    requires RangesDisjoint(regions)
    ensures Distinct(UsableFrames(regions))
  {
    if regions != [] {
      var rest, c := regions[1..], Count(regions[0]);
      DisjointImpliesDistinct(rest);
      var all := UsableFrames(regions);
      forall m: nat, n: nat | m < n < |all| ensures all[m] != all[n] {
        if m < c {
          FrameNumber(regions[0], m);
          if n < c { FrameNumber(regions[0], n); }
          else { var j := FrameSource(rest, n - c); assert rest[j] == regions[j + 1]; }
        } else {
          assert all[m] == UsableFrames(rest)[m - c] && all[n] == UsableFrames(rest)[n - c];
        }
      }
    }
  }

  /** A region whose pages meet those of the first one repeats a frame. */
  lemma OverlapRepeats(regions: seq<Region>, j: nat)
    requires 0 < j < |regions| && Count(regions[0]) > 0 && Count(regions[j]) > 0
    requires High(regions[0]) > Low(regions[j]) && High(regions[j]) > Low(regions[0])
    ensures !Distinct(UsableFrames(regions))
  {
    var all, c := UsableFrames(regions), Count(regions[0]);
    var f := if Low(regions[0]) < Low(regions[j]) then Low(regions[j]) else Low(regions[0]);
    FrameNumber(regions[0], f - Low(regions[0]));
    var n := FrameIndex(regions[1..], j - 1, f);
    assert all[f - Low(regions[0])] == f == all[n + c];
  }

  lemma {:induction false} DistinctImpliesDisjoint(regions: seq<Region>)
    requires Distinct(UsableFrames(regions))
    ensures RangesDisjoint(regions)
  {
    if regions != [] {
      var all, rest, c := UsableFrames(regions), regions[1..], Count(regions[0]);
      assert Distinct(UsableFrames(rest)) by {
        forall m: nat, n: nat | m < n < |UsableFrames(rest)| ensures UsableFrames(rest)[m] != UsableFrames(rest)[n] {
          assert all[m + c] == UsableFrames(rest)[m] && all[n + c] == UsableFrames(rest)[n];
        }
      }
      DistinctImpliesDisjoint(rest);
      forall j: nat | 0 < j < |regions| && c > 0 && Count(regions[j]) > 0
        ensures High(regions[0]) <= Low(regions[j]) || High(regions[j]) <= Low(regions[0]) {
        if High(regions[0]) > Low(regions[j]) && High(regions[j]) > Low(regions[0]) { OverlapRepeats(regions, j); }
      }
      forall i: nat, j: nat | 0 < i < j < |regions|
        ensures Count(regions[i]) == 0 || Count(regions[j]) == 0 || High(regions[i]) <= Low(regions[j]) || High(regions[j]) <= Low(regions[i]) {
        assert regions[i] == rest[i - 1] && regions[j] == rest[j - 1];
      }
    }
  }

  /** The allocator never hands out a frame twice if and only if the page ranges of the usable
      regions do not meet. */
  lemma NeverTwiceIff(regions: seq<Region>)
    ensures Distinct(UsableFrames(regions)) <==> RangesDisjoint(regions)
  {
    if RangesDisjoint(regions) { DisjointImpliesDistinct(regions); }
    if Distinct(UsableFrames(regions)) { DistinctImpliesDisjoint(regions); }
  }

  ghost predicate Aligned(r: Region) {
    r.start % PAGE == 0 && r.end % PAGE == 0
  }

  /** Frame f lies within the region. */
  ghost predicate Inside(r: Region, f: nat) {
    r.start <= f * PAGE && (f + 1) * PAGE <= r.end
  }

  /** All frames of a usable region lie within it if and only if its bounds are aligned. */
  lemma InsideIffAligned(r: Region)
    requires Count(r) > 0
    ensures (forall f: nat :: Low(r) <= f < High(r) ==> Inside(r, f)) <==> Aligned(r)
  {
    if Aligned(r) {
      AlignedCount(r);
      forall f: nat | Low(r) <= f < High(r) ensures Inside(r, f) {}
    }
    if forall f: nat :: Low(r) <= f < High(r) ==> Inside(r, f) {
      assert Inside(r, Low(r)) && Inside(r, High(r) - 1);
      AlignedIfInside(r);
    }
  }

  lemma AlignedIfInside(r: Region)
    requires Count(r) > 0 && Inside(r, Low(r)) && Inside(r, High(r) - 1)
    ensures Aligned(r)
  {
    assert r.start == Low(r) * PAGE + r.start % PAGE;
    assert Count(r) * PAGE < r.end - r.start + PAGE;
  }

  lemma AlignedCount(r: Region)
    requires Aligned(r) && r.usable && r.start < r.end
    ensures High(r) == r.end / PAGE && r.start == Low(r) * PAGE && r.end == High(r) * PAGE
  {
    assert r.end - r.start == (r.end / PAGE - Low(r)) * PAGE;
    assert Count(r) == r.end / PAGE - Low(r);
  }

  ghost predicate InUsable(regions: seq<Region>, f: nat) {
    exists i: nat :: i < |regions| && regions[i].usable && Inside(regions[i], f)
  }

  ghost predicate UsableAligned(regions: seq<Region>) {
    forall i: nat :: i < |regions| && regions[i].usable ==> Aligned(regions[i])
  }

  lemma ListedIffUsable(regions: seq<Region>, f: nat)
    requires UsableAligned(regions)
    ensures f in UsableFrames(regions) <==> InUsable(regions, f)
  {
    if f in UsableFrames(regions) {
      var n :| 0 <= n < |UsableFrames(regions)| && UsableFrames(regions)[n] == f;
      var i := FrameSource(regions, n);
      InsideIffAligned(regions[i]);
      assert Inside(regions[i], f);
    }
    if InUsable(regions, f) {
      var i: nat :| i < |regions| && regions[i].usable && Inside(regions[i], f);
      AlignedCount(regions[i]);
      var n := FrameIndex(regions, i, f);
    }
  }

  /** For a map of aligned, disjoint regions: what is handed out lies in a usable region, each
      frame once; and every frame in a usable region is handed out before the first None. */
  lemma HandedOutExactly(regions: seq<Region>)
    requires RangesDisjoint(regions) && UsableAligned(regions)
    ensures Distinct(UsableFrames(regions))
    ensures forall f: nat :: f in UsableFrames(regions) <==> InUsable(regions, f)
  {
    DisjointImpliesDistinct(regions);
    forall f: nat ensures f in UsableFrames(regions) <==> InUsable(regions, f) { ListedIffUsable(regions, f); }
  }

  // ---- The heap ----

  const HEAP_START: nat := 0x4444_4444_0000
  const HEAP_SIZE: nat := 1024 * 1024

  /** The pages from the one containing the first heap byte to the one containing the last. */
  const FIRST_PAGE: nat := HEAP_START / PAGE
  const LAST_PAGE: nat := (HEAP_START + HEAP_SIZE - 1) / PAGE

  /** What the mapping of the heap produced: the frame of each page mapped so far, in order, and
      the frames the mapper drew for page tables. */
  datatype Mapping = Mapping(pages: seq<nat>, tables: seq<nat>)

  function Total(draws: seq<nat>): nat {
    if draws == [] then 0 else Total(draws[..|draws| - 1]) + draws[|draws| - 1]
  }

  /** The frames handed out between two values of the counter. */
  function Drawn(regions: seq<Region>, from: nat, to: nat): seq<nat>
    requires from <= to
  {
    var all := UsableFrames(regions);
    if to <= |all| then all[from..to] else if from <= |all| then all[from..] else []
  }

  lemma DrawnMore(regions: seq<Region>, from: nat, to: nat)
    requires from <= to < |UsableFrames(regions)|
    ensures Drawn(regions, from, to + 1) == Drawn(regions, from, to) + [UsableFrames(regions)[to]]
  {}

  /** Draw n frames for page tables. */
  method DrawTables(allocator: BootInfoFrameAllocator, n: nat) returns (ok: bool, tables: seq<nat>)
    modifies allocator
    ensures ok <==> n == 0 || old(allocator.next) + n <= |UsableFrames(allocator.regions)|
    ensures ok ==> allocator.next == old(allocator.next) + n && tables == Drawn(allocator.regions, old(allocator.next), allocator.next)
  {
    tables := [];
    var k: nat := 0;
    ghost var start := allocator.next;
    while k < n
      invariant k <= n && allocator.next == start + k
      invariant k > 0 ==> allocator.next <= |UsableFrames(allocator.regions)|
      invariant tables == Drawn(allocator.regions, start, allocator.next)
    {
      if allocator.next < |UsableFrames(allocator.regions)| { DrawnMore(allocator.regions, start, allocator.next); }
      var f := allocator.AllocateFrame();
      if f.None? { return false, tables; }
      tables := tables + [f.value];
      k := k + 1;
    }
    return true, tables;
  }

  /** The frames drawn since `start` are those of the pages and tables so far. */
  ghost predicate Uses(m: Mapping, regions: seq<Region>, start: nat, next: nat) {
    start <= next && multiset(m.pages) + multiset(m.tables) == multiset(Drawn(regions, start, next))
  }

  /** Map one page: a frame for the page, then n frames for tables. */
  method MapPage(allocator: BootInfoFrameAllocator, n: nat, m: Mapping, ghost start: nat) returns (ok: bool, m': Mapping)
    requires Uses(m, allocator.regions, start, allocator.next)
    modifies allocator
    ensures ok <==> old(allocator.next) + 1 + n <= |UsableFrames(allocator.regions)|
    ensures ok ==> allocator.next == old(allocator.next) + 1 + n && |m'.pages| == |m.pages| + 1
                   && Uses(m', allocator.regions, start, allocator.next)
  {
    var frame := allocator.AllocateFrame();
    if frame.None? { return false, m; }
    UsesPage(m, allocator.regions, start, allocator.next - 1);
    ok, m' := MapTables(allocator, n, Mapping(m.pages + [frame.value], m.tables), start);
  }

  method MapTables(allocator: BootInfoFrameAllocator, n: nat, m: Mapping, ghost start: nat) returns (ok: bool, m': Mapping)
    requires Uses(m, allocator.regions, start, allocator.next) && allocator.next <= |UsableFrames(allocator.regions)|
    modifies allocator
    ensures ok <==> old(allocator.next) + n <= |UsableFrames(allocator.regions)|
    ensures ok ==> allocator.next == old(allocator.next) + n && m'.pages == m.pages
                   && Uses(m', allocator.regions, start, allocator.next)
  {
    ghost var mid := allocator.next;
    var fine, tables := DrawTables(allocator, n);
    if !fine { return false, m; }
    UsesTables(m, allocator.regions, start, mid, allocator.next);
    return true, Mapping(m.pages, m.tables + tables);
  }

  lemma UsesPage(m: Mapping, regions: seq<Region>, start: nat, next: nat)
    requires Uses(m, regions, start, next) && next < |UsableFrames(regions)|
    ensures Uses(Mapping(m.pages + [UsableFrames(regions)[next]], m.tables), regions, start, next + 1)
  {
    DrawnMore(regions, start, next);
  }

  lemma UsesTables(m: Mapping, regions: seq<Region>, start: nat, mid: nat, next: nat)
    requires Uses(m, regions, start, mid) && mid <= next && mid <= |UsableFrames(regions)|
    ensures Uses(Mapping(m.pages, m.tables + Drawn(regions, mid, next)), regions, start, next)
  {
    DrawnConcat(regions, start, mid, next);
  }

  /** Map the heap: for each page one frame, and then the frames the mapper draws for page
      tables, `draws[k]` for the k-th page. The mapper refuses the pages in `refused`, which are
      mapped already or lie in a huge page. It succeeds exactly if there are enough frames and no
      page is refused, and then every frame drawn is used once, for a page or for a table. */
  method InitHeap(allocator: BootInfoFrameAllocator, draws: seq<nat>, refused: set<nat>) returns (ok: bool, m: Mapping)
    requires |draws| == LAST_PAGE + 1 - FIRST_PAGE
    modifies allocator
    ensures ok <==> old(allocator.next) + |draws| + Total(draws) <= |UsableFrames(allocator.regions)|
                    && forall k: nat :: k < |draws| ==> k !in refused
    ensures ok ==> |m.pages| == LAST_PAGE + 1 - FIRST_PAGE && Uses(m, allocator.regions, old(allocator.next), allocator.next)
    ensures ok && RangesDisjoint(allocator.regions) ==>
              Distinct(m.pages) && Distinct(m.tables) && forall f: nat :: !(f in m.pages && f in m.tables)
  {
    ghost var start := allocator.next;
    ok, m := MapPages(allocator, draws, refused);
    if ok && RangesDisjoint(allocator.regions) { HeapFramesDistinct(allocator.regions, start, allocator.next, m); }
  }

  /** The loop over the pages. */
  method MapPages(allocator: BootInfoFrameAllocator, draws: seq<nat>, refused: set<nat>) returns (ok: bool, m: Mapping)
    requires draws != []
    modifies allocator
    ensures ok <==> old(allocator.next) + |draws| + Total(draws) <= |UsableFrames(allocator.regions)|
                    && forall k: nat :: k < |draws| ==> k !in refused
    ensures ok ==> |m.pages| == |draws| && Uses(m, allocator.regions, old(allocator.next), allocator.next)
  {
    m := Mapping([], []);
    var k: nat := 0;
    ghost var start := allocator.next;
    while k < |draws|
      invariant k <= |draws| && |m.pages| == k && forall j: nat :: j < k ==> j !in refused
      invariant allocator.next == start + k + Total(draws[..k]) && (k > 0 ==> allocator.next <= |UsableFrames(allocator.regions)|)
      invariant Uses(m, allocator.regions, start, allocator.next)
    {
      TotalGrows(draws, k);
      var fine;
      fine, m := MapPage(allocator, draws[k], m, start);
      if !fine || k in refused { return false, m; }
      k := k + 1;
    }
    assert draws[..|draws|] == draws;
    return true, m;
  }

  lemma DrawnConcat(regions: seq<Region>, a: nat, b: nat, c: nat)
    requires a <= b <= c && b <= |UsableFrames(regions)|
    ensures Drawn(regions, a, c) == Drawn(regions, a, b) + Drawn(regions, b, c)
  {}

  lemma {:induction false} TotalGrows(draws: seq<nat>, k: nat)
    requires k < |draws|
    ensures Total(draws[..k + 1]) == Total(draws[..k]) + draws[k]
    ensures |draws| + Total(draws) >= k + 1 + Total(draws[..k + 1])
    decreases |draws| - k
  {
    assert draws[..k + 1][..k] == draws[..k];
    if k + 1 < |draws| { TotalGrows(draws, k + 1); } else { assert draws[..k + 1] == draws; }
  }

  /** With a map of disjoint regions, all heap pages get frames that differ from each other and
      from those of the page tables. */
  lemma HeapFramesDistinct(regions: seq<Region>, from: nat, to: nat, m: Mapping)
    requires RangesDisjoint(regions) && Uses(m, regions, from, to)
    ensures Distinct(m.pages) && Distinct(m.tables) && forall f: nat :: !(f in m.pages && f in m.tables)
  {
    DisjointImpliesDistinct(regions);
    var drawn := Drawn(regions, from, to);
    assert Distinct(drawn);
    forall f: nat ensures multiset(m.pages)[f] + multiset(m.tables)[f] <= 1 {
      AtMostOnce(drawn, f);
      assert (multiset(m.pages) + multiset(m.tables))[f] <= 1;
    }
    OnceIsDistinct(m.pages);
    OnceIsDistinct(m.tables);
    forall f: nat ensures !(f in m.pages && f in m.tables) {
      assert f in m.pages <==> multiset(m.pages)[f] > 0;
      assert f in m.tables <==> multiset(m.tables)[f] > 0;
    }
  }

  lemma {:induction false} AtMostOnce(s: seq<nat>, f: nat)
    requires Distinct(s)
    ensures multiset(s)[f] <= 1
  {
    if s != [] {
      AtMostOnce(s[1..], f);
      assert s == [s[0]] + s[1..];
      if s[0] == f { assert forall i: nat :: i < |s[1..]| ==> s[1..][i] != f; }
    }
  }

  lemma OnceIsDistinct(s: seq<nat>)
    requires forall f: nat :: multiset(s)[f] <= 1
    ensures Distinct(s)
  {
    forall i: nat, j: nat | i < j < |s| ensures s[i] != s[j] {
      assert s == s[..j] + [s[j]] + s[j + 1..];
      assert s[..j][i] == s[i];
      assert multiset(s)[s[j]] <= 1;
    }
  }

  /** The pages that are mapped are exactly those with a byte of the heap, which has 1 MiB. */
  lemma HeapIsCovered(page: nat)
    ensures FIRST_PAGE <= page <= LAST_PAGE <==>
              exists address: nat :: HEAP_START <= address < HEAP_START + HEAP_SIZE && address / 4096 == page
    ensures LAST_PAGE + 1 - FIRST_PAGE == 256 && HEAP_START == 0x4444_4444_0000 && HEAP_SIZE == 0x10_0000
  {
    if FIRST_PAGE <= page <= LAST_PAGE {
      var address := page * 4096;
      assert HEAP_START <= address < HEAP_START + HEAP_SIZE && address / 4096 == page;
    }
  }
}
