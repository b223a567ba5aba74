/** The bump allocator of src/arena.c.

    An arena is the record {reserve_size, commit_size, alloc_pos, commit_pos,
    alignment}; every operation rewrites `alloc_pos` and `commit_pos` in place.
    Positions are byte offsets from the start of the reserved region, whose first
    bytes hold the record itself.  The operating system is not modelled: whether a
    reservation or a commit is granted, and the page size, are parameters. */
module Arena {
  import opened Common

  /** sizeof(arena_allocator): five 8-byte fields. */
  const HeaderSize: nat := 40

  // ---------------------------------------------------------------------------
  // ALIGN_UP_POW2 (src/arena.c:8), computed with the bit mask it uses

  /** Bitwise AND of two naturals. */
  function BitAnd(x: nat, y: nat): nat
  {
    if x == 0 || y == 0 then 0
    else 2 * BitAnd(x / 2, y / 2) + (if x % 2 == 1 && y % 2 == 1 then 1 else 0)
  }

  lemma {:induction false} BitAndBounded(x: nat, y: nat)
    ensures BitAnd(x, y) <= x && BitAnd(x, y) <= y
  {
    if x != 0 && y != 0 {
      BitAndBounded(x / 2, y / 2);
    }
  }

  predicate IsPow2(p: nat)
  {
    p == 1 || (p >= 2 && p % 2 == 0 && IsPow2(p / 2))
  }

  /** `(n + (p - 1)) & ~(p - 1)`.  Clearing the bits of `p - 1` is subtracting
      `BitAnd(x, p - 1)`; for `p == 0` the mask `~(0 - 1)` is zero. */
  function AlignUpPow2(n: nat, p: nat): nat
  {
    if p == 0 then 0
    else
      var x := n + (p - 1);
      BitAndBounded(x, p - 1);
      x - BitAnd(x, p - 1)
  }

  lemma ModOfDouble(x: nat, q: nat)
    requires q > 0
    ensures x % (2 * q) == 2 * ((x / 2) % q) + x % 2
  {
    var h, b := x / 2, x % 2;
    var hq, hr := h / q, h % q;
    assert x == 2 * h + b;
    assert h == q * hq + hr;
    assert x == (2 * q) * hq + (2 * hr + b);
    assert 0 <= 2 * hr + b < 2 * q;
    ModUnique(x, 2 * q, hq, 2 * hr + b);
  }

  /** For a power of two, the low mask keeps exactly the remainder. */
  lemma {:induction false} BitAndLowMask(x: nat, p: nat)
    requires IsPow2(p)
    ensures BitAnd(x, p - 1) == x % p
  {
    if p == 1 {
    } else if x == 0 {
    } else {
      var q := p / 2;
      assert p == 2 * q && (p - 1) / 2 == q - 1 && (p - 1) % 2 == 1;
      BitAndLowMask(x / 2, q);
      ModOfDouble(x, q);
    }
  }

  /** For a power of two `p`, ALIGN_UP_POW2(n, p) is the least multiple of `p`
      that is at least `n`. */
  lemma AlignUpIsLeastMultiple(n: nat, p: nat)
    requires IsPow2(p)
    ensures AlignUpPow2(n, p) % p == 0
    ensures n <= AlignUpPow2(n, p) < n + p
    ensures forall m: nat :: n <= m && m % p == 0 ==> AlignUpPow2(n, p) <= m
  {
    var x := n + (p - 1);
    BitAndLowMask(x, p);
    ModUnique(x - x % p, p, x / p, 0);
    forall m: nat | n <= m && m % p == 0
      ensures AlignUpPow2(n, p) <= m
    {
      if m < AlignUpPow2(n, p) {
        MultiplesAreApart(m, AlignUpPow2(n, p), p);
      }
    }
  }

  /** Two distinct multiples of `p` are at least `p` apart. */
  lemma MultiplesAreApart(m: nat, r: nat, p: nat)
    requires p > 0 && m % p == 0 && r % p == 0 && m < r
    ensures m + p <= r
  {
    assert r - m == p * (r / p - m / p);
    MulFarFromZero(p, r / p - m / p);
  }

  /** For any positive `p`, power of two or not, the mask removes at most
      `p - 1`, so the rounded value still covers `n`. */
  lemma AlignUpCovers(n: nat, p: nat)
    requires p >= 1
    ensures n <= AlignUpPow2(n, p) <= n + (p - 1)
  {
    BitAndBounded(n + (p - 1), p - 1);
  }

  /** A page-rounded commit size need not be a power of two (three 4096-byte
      pages), and then the mask does not round to a multiple of it: a one-byte
      shortfall commits one page, not one commit step. */
  lemma NonPow2CommitStep()
    ensures AlignUpPow2(12288, 4096) == 12288 && !IsPow2(12288)
    ensures AlignUpPow2(1, 12288) == 4096 && 4096 % 12288 != 0
  {
    ThreePagesNotPow2();
    PageRoundsThreePages();
    BitAndShift12();
    assert BitAnd(3, 2) == 2;
  }

  /** 12288 is three times a power of two. */
  lemma ThreePagesNotPow2()
    ensures !IsPow2(12288)
  {
    assert !IsPow2(3);
    assert !IsPow2(6) && !IsPow2(12) && !IsPow2(24) && !IsPow2(48) && !IsPow2(96);
    assert !IsPow2(192) && !IsPow2(384) && !IsPow2(768) && !IsPow2(1536);
    assert !IsPow2(3072) && !IsPow2(6144);
  }

  /** Three whole pages are already page-aligned. */
  lemma PageRoundsThreePages()
    ensures AlignUpPow2(12288, 4096) == 12288
  {
    assert IsPow2(4096);
    BitAndLowMask(16383, 4096);
  }

  lemma BitAndEvenStep(x: nat, y: nat)
    requires x > 0 && y > 0 && x % 2 == 0
    ensures BitAnd(x, y) == 2 * BitAnd(x / 2, y / 2)
  {
  }

  lemma BitAndShift12()
    ensures BitAnd(12288, 12287) == 4096 * BitAnd(3, 2)
  {
    // Peel the twelve zero bits of 12288 one at a time.
    BitAndEvenStep(12288, 12287);
    BitAndEvenStep(6144, 6143);
    BitAndEvenStep(3072, 3071);
    BitAndEvenStep(1536, 1535);
    BitAndEvenStep(768, 767);
    BitAndEvenStep(384, 383);
    BitAndEvenStep(192, 191);
    BitAndEvenStep(96, 95);
    BitAndEvenStep(48, 47);
    BitAndEvenStep(24, 23);
    BitAndEvenStep(12, 11);
    BitAndEvenStep(6, 5);
  }

  // ---------------------------------------------------------------------------
  // The arena record and what each operation does to it

  datatype ArenaState = ArenaState(
    reserveSize: nat,
    commitSize: nat,
    allocPos: nat,
    commitPos: nat,
    alignment: nat)

  /** The first position after the header, where allocation starts. */
  function BasePos(alignment: nat): nat
  {
    AlignUpPow2(HeaderSize, alignment)
  }

  /** The record create_arena writes once the OS has granted the reservation
      and the first commit. */
  function CreateSpec(reserveSize: nat, commitSize: nat, alignment: nat, pageSize: nat): ArenaState
  {
    var commitAligned := AlignUpPow2(commitSize, pageSize);
    ArenaState(AlignUpPow2(reserveSize, pageSize), commitAligned, BasePos(alignment),
               commitAligned, alignment)
  }

  /** The number of bytes a request for `nEl` elements of `elSize` bytes takes. */
  function RequestSize(alignment: nat, elSize: nat, nEl: nat): nat
  {
    AlignUpPow2(elSize * nEl, alignment)
  }

  /** How much alloc_arena adds to commit_pos when a request ending at `end`
      passes it: the shortfall rounded by the commit-size mask, then capped at
      the reserve size. */
  function CommitIncrement(s: ArenaState, end: nat): nat
    requires end > s.commitPos
  {
    var toCommit := AlignUpPow2(end - s.commitPos, s.commitSize);
    if toCommit > s.reserveSize then s.reserveSize else toCommit
  }

  /** A state together with what alloc_arena returned: the offset of the new
      block, or `None` for the NULL return. */
  datatype AllocOutcome = AllocOutcome(state: ArenaState, mem: Option<nat>)

  function AllocSpec(s: ArenaState, elSize: nat, nEl: nat, commitGranted: bool): AllocOutcome
  {
    var end := s.allocPos + RequestSize(s.alignment, elSize, nEl);
    if end > s.reserveSize then AllocOutcome(s, None)
    else if end > s.commitPos then
      if commitGranted then
        AllocOutcome(s.(allocPos := end, commitPos := s.commitPos + CommitIncrement(s, end)),
                     Some(s.allocPos))
      else AllocOutcome(s, None)
    else AllocOutcome(s.(allocPos := end), Some(s.allocPos))
  }

  function FreeSpec(s: ArenaState): ArenaState
  {
    s.(allocPos := BasePos(s.alignment))
  }

  function FreeSizeSpec(s: ArenaState, size: nat): ArenaState
    requires s.allocPos >= BasePos(s.alignment)
  {
    var base := BasePos(s.alignment);
    s.(allocPos := if size < s.allocPos - base then s.allocPos - size else base)
  }

  function FreeToSpec(s: ArenaState, newPos: nat): ArenaState
  {
    var base := BasePos(s.alignment);
    s.(allocPos := if newPos > base then newPos else base)
  }

  // ---------------------------------------------------------------------------
  // The arena object

  class Allocator {
    var reserveSize: nat
    var commitSize: nat
    var allocPos: nat
    var commitPos: nat
    var alignment: nat

    function State(): ArenaState
      reads this
    {
      ArenaState(reserveSize, commitSize, allocPos, commitPos, alignment)
    }

    /** Allocation never starts inside the header. */
    ghost predicate Valid()
      reads this
    {
      allocPos >= BasePos(alignment)
    }

    constructor (s: ArenaState)
      ensures State() == s
    {
      reserveSize, commitSize, allocPos, commitPos, alignment :=
        s.reserveSize, s.commitSize, s.allocPos, s.commitPos, s.alignment;
    }

    /** alloc_arena: the offset of a fresh block, or `None`.  `commitGranted`
        is the operating system's answer to the commit request, if one is made. */
    method Alloc(elSize: nat, nEl: nat, commitGranted: bool) returns (mem: Option<nat>)
      requires Valid()
      modifies this
      ensures Valid()
      ensures AllocOutcome(State(), mem) == AllocSpec(old(State()), elSize, nEl, commitGranted)
    {
      var size := AlignUpPow2(elSize * nEl, alignment);
      if allocPos + size > reserveSize {
        return None;
      }
      if allocPos + size > commitPos {
        var toCommit := allocPos + size - commitPos;
        toCommit := AlignUpPow2(toCommit, commitSize);
        toCommit := if toCommit > reserveSize then reserveSize else toCommit;
        if !commitGranted {
          return None;
        }
        commitPos := commitPos + toCommit;
      }
      mem := Some(allocPos);
      allocPos := allocPos + size;
    }

    /** free_arena: roll back everything allocated. */
    method Free()
      requires Valid()
      modifies this
      ensures Valid() && State() == FreeSpec(old(State()))
    {
      allocPos := AlignUpPow2(HeaderSize, alignment);
    }

    /** free_size_arena: roll back the last `size` bytes, never into the header. */
    method FreeSize(size: nat)
      requires Valid()
      modifies this
      ensures Valid() && State() == FreeSizeSpec(old(State()), size)
    {
      var basePos := AlignUpPow2(HeaderSize, alignment);
      var newPos := if size < allocPos - basePos then allocPos - size else basePos;
      allocPos := newPos;
    }

    /** free_to_arena: roll back (or forward) to a saved position. */
    method FreeTo(newPos: nat)
      requires Valid()
      modifies this
      ensures Valid() && State() == FreeToSpec(old(State()), newPos)
    {
      var basePos := AlignUpPow2(HeaderSize, alignment);
      allocPos := if newPos > basePos then newPos else basePos;
    }
  }

  /** create_arena.  `reserveGranted` and `commitGranted` are the answers of
      the reservation and of the initial commit. */
  method CreateArena(reserveSize: nat, commitSize: nat, alignment: nat, pageSize: nat,
                     reserveGranted: bool, commitGranted: bool)
    returns (a: Allocator?)
    ensures a == null <==> !(reserveGranted && commitGranted)
    ensures a != null ==> fresh(a) && a.Valid()
    ensures a != null ==> a.State() == CreateSpec(reserveSize, commitSize, alignment, pageSize)
  {
    var reserveAligned := AlignUpPow2(reserveSize, pageSize);
    var commitAligned := AlignUpPow2(commitSize, pageSize);
    if !reserveGranted {
      return null;
    }
    if !commitGranted {
      return null;
    }
    a := new Allocator(ArenaState(reserveAligned, commitAligned,
                                  AlignUpPow2(HeaderSize, alignment), commitAligned, alignment));
  }

  // ---------------------------------------------------------------------------
  // Properties of the arena operations

  /** create_arena rounds both sizes up to whole pages, starts committed space
      at the rounded commit size and starts allocation at the aligned header end. */
  lemma CreateFacts(reserveSize: nat, commitSize: nat, alignment: nat, pageSize: nat)
    requires IsPow2(pageSize)
    ensures var s := CreateSpec(reserveSize, commitSize, alignment, pageSize);
      && s.reserveSize % pageSize == 0 && reserveSize <= s.reserveSize < reserveSize + pageSize
      && s.commitSize % pageSize == 0 && commitSize <= s.commitSize < commitSize + pageSize
      && s.commitPos == s.commitSize
      && s.alignment == alignment
      && (IsPow2(alignment) ==> s.allocPos % alignment == 0 && HeaderSize <= s.allocPos)
  {
    AlignUpIsLeastMultiple(reserveSize, pageSize);
    AlignUpIsLeastMultiple(commitSize, pageSize);
    if IsPow2(alignment) {
      AlignUpIsLeastMultiple(HeaderSize, alignment);
    }
  }

  /** An allocation succeeds exactly when it fits in the reservation and either
      fits in the committed space or the commit is granted.  On success the
      block starts at the old position and the position moves by exactly the
      rounded request; on failure nothing changes. */
  lemma AllocCases(s: ArenaState, elSize: nat, nEl: nat, commitGranted: bool)
    ensures var o := AllocSpec(s, elSize, nEl, commitGranted);
      var end := s.allocPos + RequestSize(s.alignment, elSize, nEl);
      && (o.mem.Some? <==> end <= s.reserveSize && (end <= s.commitPos || commitGranted))
      && (o.mem.Some? ==> o.mem.value == s.allocPos && o.state.allocPos == end)
      && (o.mem.None? ==> o.state == s)
      && o.state.reserveSize == s.reserveSize && o.state.commitSize == s.commitSize
      && o.state.alignment == s.alignment
      && s.commitPos <= o.state.commitPos
      && (end <= s.commitPos ==> o.state.commitPos == s.commitPos)
  {
  }

  /** With a power-of-two alignment every block is a whole number of
      alignment units, so an aligned position stays aligned. */
  lemma AllocKeepsAlignment(s: ArenaState, elSize: nat, nEl: nat, commitGranted: bool)
    requires IsPow2(s.alignment) && s.allocPos % s.alignment == 0
    ensures var o := AllocSpec(s, elSize, nEl, commitGranted);
      o.state.allocPos % s.alignment == 0
      && (o.mem.Some? ==> o.state.allocPos - s.allocPos >= elSize * nEl)
  {
    RequestIsMultiple(s.alignment, elSize, nEl);
    AlignedSum(s.allocPos, RequestSize(s.alignment, elSize, nEl), s.alignment);
  }

  /** With a power-of-two alignment a rounded request is a multiple of the
      alignment and covers the requested bytes. */
  lemma RequestIsMultiple(alignment: nat, elSize: nat, nEl: nat)
    requires IsPow2(alignment)
    ensures alignment > 0 && RequestSize(alignment, elSize, nEl) % alignment == 0
    ensures RequestSize(alignment, elSize, nEl) >= elSize * nEl
  {
    AlignUpIsLeastMultiple(elSize * nEl, alignment);
  }

  /** The sum of two multiples of `p` is a multiple of `p`. */
  lemma AlignedSum(x: nat, y: nat, p: nat)
    requires p > 0 && x % p == 0 && y % p == 0
    ensures (x + y) % p == 0
  {
    ModUnique(x + y, p, x / p + y / p, 0);
  }

  /** The growth of the committed region: it covers the shortfall unless the
      cap applies, it never exceeds the reservation, and with a power-of-two
      commit size it is a whole number of commit steps unless capped. */
  lemma CommitIncrementFacts(s: ArenaState, end: nat)
    requires end > s.commitPos && s.commitSize >= 1
    ensures CommitIncrement(s, end) <= s.reserveSize
    ensures CommitIncrement(s, end) >= end - s.commitPos || CommitIncrement(s, end) == s.reserveSize
    ensures IsPow2(s.commitSize) ==>
      CommitIncrement(s, end) % s.commitSize == 0 || CommitIncrement(s, end) == s.reserveSize
  {
    AlignUpCovers(end - s.commitPos, s.commitSize);
    if IsPow2(s.commitSize) {
      AlignUpIsLeastMultiple(end - s.commitPos, s.commitSize);
    }
  }

  /** After a successful allocation the block lies inside committed memory,
      provided the commit size is not zero. */
  lemma AllocStaysCommitted(s: ArenaState, elSize: nat, nEl: nat, commitGranted: bool)
    requires s.commitSize >= 1
    requires AllocSpec(s, elSize, nEl, commitGranted).mem.Some?
    ensures var o := AllocSpec(s, elSize, nEl, commitGranted);
      o.state.allocPos <= o.state.commitPos
  {
    var end := s.allocPos + RequestSize(s.alignment, elSize, nEl);
    if end > s.commitPos {
      CommitIncrementFacts(s, end);
    }
  }

  /** With a commit size of zero the mask rounds every shortfall to zero, so a
      request past the committed region succeeds without growing it. */
  lemma ZeroCommitSizeNeverGrows()
    ensures var s := ArenaState(8192, 0, 64, 64, 1);
      var o := AllocSpec(s, 100, 1, true);
      o.mem == Some(64) && o.state.commitPos == 64 && o.state.allocPos == 164
  {
    assert BitAnd(99, 0) == 0;
  }

  /** The cap bounds the increment, not the new commit position: when less
      than one commit step of the reservation is left beyond the committed
      region, a request that needs a commit pushes the commit position past
      the reservation. */
  lemma CommitCapOvershoots(s: ArenaState, elSize: nat, nEl: nat)
    requires IsPow2(s.commitSize) && s.commitSize <= s.reserveSize
    requires s.reserveSize < s.commitPos + s.commitSize
    requires var end := s.allocPos + RequestSize(s.alignment, elSize, nEl);
      s.commitPos < end <= s.reserveSize
    ensures AllocSpec(s, elSize, nEl, true).mem.Some?
    ensures AllocSpec(s, elSize, nEl, true).state.commitPos > s.reserveSize
  {
    var end := s.allocPos + RequestSize(s.alignment, elSize, nEl);
    AtLeastOneStep(end - s.commitPos, s.commitSize);
  }

  /** A positive shortfall rounds up to at least one commit step. */
  lemma AtLeastOneStep(d: nat, p: nat)
    requires IsPow2(p) && d > 0
    ensures AlignUpPow2(d, p) >= p
  {
    AlignUpIsLeastMultiple(d, p);
    MultiplesAreApart(0, AlignUpPow2(d, p), p);
  }

  /** free_size_arena moves back by `size` but never below the base. */
  lemma FreeSizeClamps(s: ArenaState, size: nat)
    requires s.allocPos >= BasePos(s.alignment)
    ensures FreeSizeSpec(s, size).allocPos == Max(s.allocPos - size, BasePos(s.alignment))
    ensures FreeSizeSpec(s, size).allocPos >= BasePos(s.alignment)
  {
  }

  /** Freeing the size of the last block undoes that allocation's move. */
  lemma FreeSizeUndoesAlloc(s: ArenaState, elSize: nat, nEl: nat, commitGranted: bool)
    requires s.allocPos >= BasePos(s.alignment)
    requires AllocSpec(s, elSize, nEl, commitGranted).mem.Some?
    ensures var o := AllocSpec(s, elSize, nEl, commitGranted);
      FreeSizeSpec(o.state, RequestSize(s.alignment, elSize, nEl)).allocPos == s.allocPos
  {
  }

  /** free_to_arena only clamps from below: a position past the reservation is
      kept, after which every allocation fails. */
  lemma FreeToHasNoUpperClamp(s: ArenaState, newPos: nat, elSize: nat, nEl: nat, commitGranted: bool)
    requires newPos > s.reserveSize && newPos > BasePos(s.alignment)
    ensures FreeToSpec(s, newPos).allocPos == newPos
    ensures AllocSpec(FreeToSpec(s, newPos), elSize, nEl, commitGranted).mem == None
  {
  }

  // ---------------------------------------------------------------------------
  // Sequences of arena calls

  datatype ArenaCall =
    | AllocCall(elSize: nat, nEl: nat, commitGranted: bool)
    | FreeCall
    | FreeSizeCall(size: nat)
    | FreeToCall(newPos: nat)

  ghost predicate ValidState(s: ArenaState)
  {
    s.allocPos >= BasePos(s.alignment)
  }

  function Step(s: ArenaState, c: ArenaCall): ArenaState
    requires ValidState(s)
  {
    match c
    case AllocCall(e, n, g) => AllocSpec(s, e, n, g).state
    case FreeCall => FreeSpec(s)
    case FreeSizeCall(size) => FreeSizeSpec(s, size)
    case FreeToCall(p) => FreeToSpec(s, p)
  }

  /** The state after performing `calls` in order, starting from `s`. */
  function Run(s: ArenaState, calls: seq<ArenaCall>): (r: ArenaState)
    requires ValidState(s)
    ensures ValidState(r)
    decreases |calls|
  {
    if calls == [] then s
    else
      var t := Run(s, calls[..|calls| - 1]);
      Step(t, calls[|calls| - 1])
  }

  lemma RunPrefix(s: ArenaState, calls: seq<ArenaCall>, k: nat)
    requires ValidState(s) && k < |calls|
    ensures Run(s, calls[..k + 1]) == Step(Run(s, calls[..k]), calls[k])
  {
    assert calls[..k + 1][..k] == calls[..k];
  }

  /** Whatever is called, the committed region never shrinks and the fixed
      fields never change. */
  lemma {:induction false} RunKeepsCommitted(s: ArenaState, calls: seq<ArenaCall>)
    requires ValidState(s)
    ensures Run(s, calls).commitPos >= s.commitPos
    ensures Run(s, calls).reserveSize == s.reserveSize
    ensures Run(s, calls).commitSize == s.commitSize
    ensures Run(s, calls).alignment == s.alignment
    decreases |calls|
  {
    if calls != [] {
      RunKeepsCommitted(s, calls[..|calls| - 1]);
    }
  }

  predicate AllAllocs(calls: seq<ArenaCall>)
  {
    forall i :: 0 <= i < |calls| ==> calls[i].AllocCall?
  }

  /** The block handed out by call `k`, as its start offset, when it succeeded. */
  function BlockAt(s: ArenaState, calls: seq<ArenaCall>, k: nat): Option<nat>
    requires ValidState(s) && k < |calls| && calls[k].AllocCall?
  {
    var c := calls[k];
    AllocSpec(Run(s, calls[..k]), c.elSize, c.nEl, c.commitGranted).mem
  }

  /** One allocation call never moves the position back. */
  lemma AllocStep(s: ArenaState, calls: seq<ArenaCall>, k: nat)
    requires ValidState(s) && k < |calls| && calls[k].AllocCall?
    ensures Run(s, calls[..k]).allocPos <= Run(s, calls[..k + 1]).allocPos
  {
    RunPrefix(s, calls, k);
  }

  /** Allocation calls only move the position forward. */
  lemma {:induction false} AllocsAdvance(s: ArenaState, calls: seq<ArenaCall>, i: nat, j: nat)
    requires ValidState(s) && AllAllocs(calls) && i <= j <= |calls|
    ensures Run(s, calls[..i]).allocPos <= Run(s, calls[..j]).allocPos
    decreases j - i
  {
    if i < j {
      AllocsAdvance(s, calls, i, j - 1);
      AllocStep(s, calls, j - 1);
    }
  }

  /** Successful allocations with no free in between hand out disjoint blocks
      in increasing order: block `i` ends at or before block `j` starts. */
  lemma AllocationsDisjoint(s: ArenaState, calls: seq<ArenaCall>, i: nat, j: nat)
    requires ValidState(s) && AllAllocs(calls) && i < j < |calls|
    requires BlockAt(s, calls, i).Some? && BlockAt(s, calls, j).Some?
    ensures BlockAt(s, calls, i).value
              + RequestSize(s.alignment, calls[i].elSize, calls[i].nEl)
            <= BlockAt(s, calls, j).value
  {
    RunPrefix(s, calls, i);
    AllocsAdvance(s, calls, i + 1, j);
    RunKeepsCommitted(s, calls[..i]);
  }

  /** `t` can replay whatever `s` could: same position and fixed fields, and at
      least as much committed. */
  ghost predicate Covers(t: ArenaState, s: ArenaState)
  {
    t.allocPos == s.allocPos && t.reserveSize == s.reserveSize
    && t.commitSize == s.commitSize && t.alignment == s.alignment
    && t.commitPos >= s.commitPos
  }

  /** The committed region only grows along a run: later states have at least
      as much committed as earlier ones. */
  lemma StepKeepsCommitted(s: ArenaState, c: ArenaCall)
    requires ValidState(s)
    ensures Step(s, c).commitPos >= s.commitPos
  {
  }

  /** One call never shrinks the committed region. */
  lemma CommitStep(s: ArenaState, calls: seq<ArenaCall>, k: nat)
    requires ValidState(s) && k < |calls|
    ensures Run(s, calls[..k]).commitPos <= Run(s, calls[..k + 1]).commitPos
  {
    RunPrefix(s, calls, k);
    StepKeepsCommitted(Run(s, calls[..k]), calls[k]);
  }

  lemma {:induction false} CommitMonotone(s: ArenaState, calls: seq<ArenaCall>, i: nat, j: nat)
    requires ValidState(s) && i <= j <= |calls|
    ensures Run(s, calls[..i]).commitPos <= Run(s, calls[..j]).commitPos
    decreases j - i
  {
    if i < j {
      CommitMonotone(s, calls, i, j - 1);
      CommitStep(s, calls, j - 1);
    }
  }

  /** Re-issuing, from a state with the same position and at least as much
      committed, an allocation that succeeded returns the same block and moves
      to the same position. */
  lemma ReplayAllocSameBlock(t: ArenaState, s: ArenaState, elSize: nat, nEl: nat, commitGranted: bool)
    requires Covers(t, s)
    requires AllocSpec(s, elSize, nEl, commitGranted).mem.Some?
    ensures AllocSpec(t, elSize, nEl, commitGranted).mem == AllocSpec(s, elSize, nEl, commitGranted).mem
    ensures AllocSpec(t, elSize, nEl, commitGranted).state.allocPos
            == AllocSpec(s, elSize, nEl, commitGranted).state.allocPos
  {
  }

  /** The state free_to_arena leaves when rolling back to the position `s` had,
      after `calls` were made from `s`. */
  function RolledBack(s: ArenaState, calls: seq<ArenaCall>): ArenaState
    requires ValidState(s)
  {
    FreeToSpec(Run(s, calls), s.allocPos)
  }

  lemma {:induction false} ReplayPrefix(s: ArenaState, calls: seq<ArenaCall>, k: nat)
    requires ValidState(s) && AllAllocs(calls) && k <= |calls|
    requires forall i :: 0 <= i < k ==> BlockAt(s, calls, i).Some?
    ensures ValidState(RolledBack(s, calls))
    ensures Covers(Run(RolledBack(s, calls), calls[..k]), Run(s, calls[..k]))
  {
    RunKeepsCommitted(s, calls);
    var t := RolledBack(s, calls);
    if k == 0 {
      assert calls[..0] == [];
    } else {
      ReplayPrefix(s, calls, k - 1);
      RunPrefix(s, calls, k - 1);
      RunPrefix(t, calls, k - 1);
      var c := calls[k - 1];
      var sk, tk := Run(s, calls[..k - 1]), Run(t, calls[..k - 1]);
      assert BlockAt(s, calls, k - 1).Some?;
      ReplayAllocSameBlock(tk, sk, c.elSize, c.nEl, c.commitGranted);
      RunKeepsCommitted(t, calls[..k]);
      CommitMonotone(s, calls, k, |calls|);
      assert calls[..|calls|] == calls;
    }
  }

  /** Rolling back to a checkpoint with free_to_arena and re-issuing the same
      requests hands out the same blocks again, as long as the first time they
      all succeeded: checkpoint replay is deterministic. */
  lemma ReplayRun(s: ArenaState, calls: seq<ArenaCall>, k: nat)
    requires ValidState(s) && AllAllocs(calls) && k < |calls|
    requires forall i :: 0 <= i <= k ==> BlockAt(s, calls, i).Some?
    ensures ValidState(RolledBack(s, calls))
    ensures BlockAt(RolledBack(s, calls), calls, k) == BlockAt(s, calls, k)
  {
    ReplayPrefix(s, calls, k);
    var c := calls[k];
    assert BlockAt(s, calls, k).Some?;
    ReplayAllocSameBlock(Run(RolledBack(s, calls), calls[..k]), Run(s, calls[..k]),
                         c.elSize, c.nEl, c.commitGranted);
  }
}
