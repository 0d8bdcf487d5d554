/** The arguments of a new program: `execv` packs them into one block (lib/exec.c:35-67), and `do_exec`
    moves the block to the top of the new image and relocates its pointers (mm/exec.c:54-81). */
module Argv {
  import opened Const
  import opened BlockDevice
  import opened Words

  const PROC_ORIGIN_STACK := 0x400
  /** Where the block goes: PROC_IMAGE_SIZE_DEFAULT - PROC_ORIGIN_STACK. */
  const ORIG_STACK := 0xFFC00
  const PTR_SIZE := 4
  /** Words in a buffer of PROC_ORIGIN_STACK bytes. */
  const PTRS := 0x100

  /** C strings: no NUL inside. */
  predicate Strings(argv: seq<seq<byte>>) { forall i :: 0 <= i < |argv| ==> 0 !in argv[i] }

  /** Where string `i` begins in the block, behind the pointers, their null and the strings before it. */
  function Offset(argv: seq<seq<byte>>, i: nat): (p: nat)
    requires i <= |argv|
    ensures PTR_SIZE * (|argv| + 1) + i <= p
  {
    if i == 0 then PTR_SIZE * (|argv| + 1) else Offset(argv, i - 1) + |argv[i - 1]| + 1
  }

  /** The length of the whole block. */
  function Total(argv: seq<seq<byte>>): nat { Offset(argv, |argv|) }

  lemma {:induction false} OffsetGrows(argv: seq<seq<byte>>, i: nat, j: nat)
    requires i < j <= |argv|
    ensures Offset(argv, i) + |argv[i]| + 1 <= Offset(argv, j)
  {
    if j > i + 1 {
      OffsetGrows(argv, i, j - 1);
    }
  }

  /** The strings stand back to back behind as many pointers and one null, each with its NUL. */
  lemma OffsetLayout(argv: seq<seq<byte>>, i: nat)
    requires i <= |argv|
    ensures Offset(argv, 0) == 4 * |argv| + 4
    ensures Offset(argv, i) == if i == 0 then 4 * |argv| + 4 else Offset(argv, i - 1) + |argv[i - 1]| + 1
  {
  }

  /** Pointer `i` of the block at address `base` points to string `i`, and the string is there. */
  predicate Entry(b: seq<byte>, argv: seq<seq<byte>>, base: nat, i: nat)
    requires i < |argv| && PTR_SIZE * i + 4 <= |b|
  {
    && Offset(argv, i) + |argv[i]| < |b| && WordAt(b, PTR_SIZE * i) == base + Offset(argv, i)
    && b[Offset(argv, i)..Offset(argv, i) + |argv[i]|] == argv[i] && b[Offset(argv, i) + |argv[i]|] == 0
  }

  /** The block at address `base` holds the arguments: every pointer, and a null after the last. */
  predicate Block(b: seq<byte>, argv: seq<seq<byte>>, base: nat) {
    && Total(argv) <= |b| && WordAt(b, PTR_SIZE * |argv|) == 0
    && forall i :: 0 <= i < |argv| ==> Entry(b, argv, base, i)
  }

  /** Bytes outside [lo, hi) are the same. */
  predicate SameOutside(b: seq<byte>, c: seq<byte>, lo: int, hi: int) {
    |b| == |c| && forall q :: 0 <= q < |b| && !(lo <= q < hi) ==> b[q] == c[q]
  }

  lemma WordOutside(b: seq<byte>, c: seq<byte>, lo: int, hi: int, p: nat)
    requires SameOutside(b, c, lo, hi) && p + 4 <= |b| && (p + 4 <= lo || hi <= p)
    ensures WordAt(b, p) == WordAt(c, p)
  {
    hide WordAt;
    assert b[p..p + 4] == c[p..p + 4];
    WordSame(b, p, c, p);
  }

  /** A change that meets neither the pointer nor the string keeps an entry. */
  lemma EntryOutside(b: seq<byte>, c: seq<byte>, lo: int, hi: int, argv: seq<seq<byte>>, base: nat, i: nat)
    requires i < |argv| && Total(argv) <= |b| && SameOutside(b, c, lo, hi) && Entry(b, argv, base, i)
    requires PTR_SIZE * i + 4 <= lo || hi <= PTR_SIZE * i
    requires Offset(argv, i) + |argv[i]| + 1 <= lo || hi <= Offset(argv, i)
    ensures Entry(c, argv, base, i)
  {
    hide WordAt, Offset;
    WordOutside(b, c, lo, hi, PTR_SIZE * i);
    var p := Offset(argv, i);
    assert b[p..p + |argv[i]|] == c[p..p + |argv[i]|];
  }

  /** Store a pointer. */
  method PutPointer(a: array<byte>, p: nat, w: word)
    requires p + 4 <= a.Length
    modifies a
    ensures SameOutside(old(a[..]), a[..], p, p + 4) && WordAt(a[..], p) == w
  {
    hide WordAt, WordBytes;
    var b := WordBytes(w);
    a[p], a[p + 1], a[p + 2], a[p + 3] := b[0], b[1], b[2], b[3];
    assert a[..][p..p + 4] == b[0..4];
    WordSame(a[..], p, b, 0);
    WordRound(w);
  }

  /** `strcpy`. */
  method PutString(a: array<byte>, p: nat, s: seq<byte>)
    requires p + |s| + 1 <= a.Length
    modifies a
    ensures SameOutside(old(a[..]), a[..], p, p + |s| + 1) && a[..][p..p + |s|] == s && a[p + |s|] == 0
  {
    var k := 0;
    while k < |s|
      invariant 0 <= k <= |s| && a[..][p..p + k] == s[..k]
      invariant SameOutside(old(a[..]), a[..], p, p + |s| + 1)
    {
      a[p + k] := s[k];
      assert a[..][p..p + k + 1] == a[..][p..p + k] + [s[k]];
      k := k + 1;
    }
    a[p + k] := 0;
  }

  /** `execv` (lib/exec.c:35-61): the two loops on the block at address `addr`. Its assertions hold exactly
      when the block with all pointers and strings is shorter than the stack. */
  method Execv(argv: seq<seq<byte>>, stack: array<byte>, addr: nat) returns (ok: bool, stackLen: nat)
    requires Strings(argv) && stack.Length == PROC_ORIGIN_STACK && addr + PROC_ORIGIN_STACK <= WORD
    modifies stack
    ensures ok <==> Total(argv) < 0x400
    ensures ok ==> stackLen == Total(argv) && Block(stack[..], argv, addr)
  {
    hide WordAt, Entry, SameOutside;
    stackLen := 0;
    var k := 0;
    while k < |argv|
      invariant 0 <= k <= |argv| && stackLen == PTR_SIZE * k && (k > 0 ==> stackLen + PTR_SIZE < PROC_ORIGIN_STACK)
    {
      if stackLen + 2 * PTR_SIZE >= PROC_ORIGIN_STACK {
        return false, stackLen;
      }
      stackLen, k := stackLen + PTR_SIZE, k + 1;
    }
    PutPointer(stack, stackLen, 0);
    stackLen := stackLen + PTR_SIZE;
    k := 0;
    while k < |argv|
      invariant 0 <= k <= |argv| && stackLen == Offset(argv, k) && (k > 0 ==> stackLen < PROC_ORIGIN_STACK)
      invariant Total(argv) < PROC_ORIGIN_STACK ==> Filled(stack[..], argv, addr, k)
    {
      if stackLen + |argv[k]| + 1 >= PROC_ORIGIN_STACK {
        if k + 1 < |argv| { OffsetGrows(argv, k, |argv|); }
        return false, stackLen;
      }
      ghost var b := stack[..];
      PutPointer(stack, PTR_SIZE * k, addr + stackLen);
      ghost var c := stack[..];
      PutString(stack, stackLen, argv[k]);
      if Total(argv) < PROC_ORIGIN_STACK {
        FillNext(b, c, stack[..], argv, addr, k);
      }
      stackLen, k := stackLen + |argv[k]| + 1, k + 1;
    }
    ok := true;
  }

  /** The null and the first `k` entries are in place. */
  predicate Filled(b: seq<byte>, argv: seq<seq<byte>>, base: nat, k: nat) {
    && k <= |argv| && Total(argv) <= |b| && WordAt(b, PTR_SIZE * |argv|) == 0
    && forall i :: 0 <= i < k ==> Entry(b, argv, base, i)
  }

  lemma FillNext(b: seq<byte>, c: seq<byte>, d: seq<byte>, argv: seq<seq<byte>>, base: nat, k: nat)
    requires k < |argv| && Filled(b, argv, base, k) && |c| == |b| == |d|
    requires SameOutside(b, c, PTR_SIZE * k, PTR_SIZE * k + 4) && WordAt(c, PTR_SIZE * k) == base + Offset(argv, k)
    requires SameOutside(c, d, Offset(argv, k), Offset(argv, k) + |argv[k]| + 1)
    requires Offset(argv, k) + |argv[k]| + 1 <= |b|
    requires d[Offset(argv, k)..Offset(argv, k) + |argv[k]|] == argv[k] && d[Offset(argv, k) + |argv[k]|] == 0
    ensures Filled(d, argv, base, k + 1)
  {
    hide WordAt, SameOutside, Entry, Offset;
    var lo, p := PTR_SIZE * k, Offset(argv, k);
    WordOutside(b, c, lo, lo + 4, PTR_SIZE * |argv|);
    WordOutside(c, d, p, p + |argv[k]| + 1, PTR_SIZE * |argv|);
    WordOutside(c, d, p, p + |argv[k]| + 1, lo);
    NewEntry(d, argv, base, k);
    forall i | 0 <= i < k ensures Entry(d, argv, base, i) {
      OffsetGrows(argv, i, k);
      EntryOutside(b, c, lo, lo + 4, argv, base, i);
      EntryOutside(c, d, p, p + |argv[k]| + 1, argv, base, i);
    }
  }

  lemma NewEntry(d: seq<byte>, argv: seq<seq<byte>>, base: nat, k: nat)
    requires k < |argv| && Total(argv) <= |d| && WordAt(d, PTR_SIZE * k) == base + Offset(argv, k)
    requires Offset(argv, k) + |argv[k]| < |d|
    requires d[Offset(argv, k)..Offset(argv, k) + |argv[k]|] == argv[k] && d[Offset(argv, k) + |argv[k]|] == 0
    ensures Entry(d, argv, base, k)
  {
    hide WordAt, Offset;
  }

  // ---------------------------------------------------------------- relocation

  /** 32-bit arithmetic. */
  function Relocated(p: word, delta: int): word { (p + delta) % WORD }

  /** The first `k` words are not null. */
  predicate NoNull(b: seq<byte>, k: nat)
    requires PTR_SIZE * k <= |b|
  {
    forall i :: 0 <= i < k ==> WordAt(b, PTR_SIZE * i) != 0
  }

  /** The first `k` words have been moved, and nothing else. */
  predicate Shifted(b: seq<byte>, c: seq<byte>, from: nat, k: nat) {
    && |c| == |b| && PTR_SIZE * k <= |b|
    && (forall i :: 0 <= i < k ==> WordAt(c, PTR_SIZE * i) == Relocated(WordAt(b, PTR_SIZE * i), ORIG_STACK - from))
    && forall q :: PTR_SIZE * k <= q < |b| ==> c[q] == b[q]
  }

  /** The loop of `do_exec` (mm/exec.c:63-70), where the block was at `from`, on whatever it finds there. It goes
      astray when it meets no null in the buffer. */
  method Relocate(stackcopy: array<byte>, from: nat) returns (argc: Option<nat>)
    requires stackcopy.Length == PROC_ORIGIN_STACK
    modifies stackcopy
    ensures argc.None? <==> NoNull(old(stackcopy[..]), PTRS)
    ensures argc.Some? ==> argc.value < PTRS && NoNull(old(stackcopy[..]), argc.value)
    ensures argc.Some? ==> WordAt(old(stackcopy[..]), PTR_SIZE * argc.value) == 0
    ensures argc.Some? ==> Shifted(old(stackcopy[..]), stackcopy[..], from, argc.value)
  {
    hide WordAt, SameOutside;
    ghost var b := stackcopy[..];
    var n := 0;
    while n < PTRS
      invariant 0 <= n <= PTRS && NoNull(b, n) && Shifted(b, stackcopy[..], from, n)
    {
      ghost var c := stackcopy[..];
      var w := ReadPointer(stackcopy, PTR_SIZE * n);
      TailWord(b, c, n);
      if w == 0 {
        return Some(n);
      }
      PutPointer(stackcopy, PTR_SIZE * n, Relocated(w, ORIG_STACK - from));
      ShiftNext(b, c, stackcopy[..], from, n);
      n := n + 1;
    }
    argc := None;
  }

  /** Equal bytes hold equal words. */
  lemma TailWord(b: seq<byte>, c: seq<byte>, n: nat)
    requires |c| == |b| && PTR_SIZE * n + 4 <= |b| && forall q :: PTR_SIZE * n <= q < |b| ==> c[q] == b[q]
    ensures WordAt(b, PTR_SIZE * n) == WordAt(c, PTR_SIZE * n)
  {
    var p := PTR_SIZE * n;
    assert b[p..p + 4] == c[p..p + 4];
    WordSame(b, p, c, p);
  }

  lemma ShiftNext(b: seq<byte>, c: seq<byte>, d: seq<byte>, from: nat, n: nat)
    requires Shifted(b, c, from, n) && PTR_SIZE * n + 4 <= |b|
    requires SameOutside(c, d, PTR_SIZE * n, PTR_SIZE * n + 4)
    requires WordAt(d, PTR_SIZE * n) == Relocated(WordAt(b, PTR_SIZE * n), ORIG_STACK - from)
    ensures Shifted(b, d, from, n + 1)
  {
    hide WordAt;
    forall i | 0 <= i < n ensures WordAt(d, PTR_SIZE * i) == WordAt(c, PTR_SIZE * i) {
      WordOutside(c, d, PTR_SIZE * n, PTR_SIZE * n + 4, PTR_SIZE * i);
    }
  }

  method ReadPointer(a: array<byte>, p: nat) returns (w: word)
    requires p + 4 <= a.Length
    ensures w == WordAt(a[..], p)
  {
    w := WordAt(a[..], p);
  }

  lemma PointerIs(b: seq<byte>, argv: seq<seq<byte>>, base: nat, i: nat)
    requires i < |argv| && Total(argv) <= |b| <= PROC_ORIGIN_STACK && Entry(b, argv, base, i)
    ensures WordAt(b, PTR_SIZE * i) == base + Offset(argv, i) && 0 < Offset(argv, i) < PROC_ORIGIN_STACK
  {
    hide WordAt;
    OffsetGrows(argv, i, |argv|);
  }

  /** 32-bit pointers into the old block and into the new one correspond. */
  lemma RelocatedIff(w: word, from: nat, o: nat)
    requires from + o < WORD && ORIG_STACK + o < WORD
    ensures Relocated(w, ORIG_STACK - from) == ORIG_STACK + o <==> w == from + o
  {
  }

  lemma EntryShiftedIff(b: seq<byte>, c: seq<byte>, argv: seq<seq<byte>>, from: nat, i: nat)
    requires i < |argv| && Shifted(b, c, from, |argv|) && Total(argv) <= |b| == PROC_ORIGIN_STACK
    requires from + PROC_ORIGIN_STACK <= WORD
    ensures Entry(b, argv, from, i) <==> Entry(c, argv, ORIG_STACK, i)
  {
    hide WordAt, Offset;
    OffsetGrows(argv, i, |argv|);
    var p := Offset(argv, i);
    RelocatedIff(WordAt(b, PTR_SIZE * i), from, p);
    assert b[p..p + |argv[i]|] == c[p..p + |argv[i]|];
  }

  /** The relocated block is the list at its new address exactly when the block was the list at the old one. */
  lemma ShiftedIff(b: seq<byte>, c: seq<byte>, argv: seq<seq<byte>>, from: nat, k: nat)
    requires Total(argv) <= |b| == PROC_ORIGIN_STACK && from + PROC_ORIGIN_STACK <= WORD && k < PTRS
    requires Shifted(b, c, from, k) && NoNull(b, k) && WordAt(b, PTR_SIZE * k) == 0
    ensures Block(b, argv, from) <==> k == |argv| && Block(c, argv, ORIG_STACK)
  {
    hide WordAt, Entry;
    if Block(b, argv, from) { NullAt(b, argv, from, k); }
    if k == |argv| {
      TailWord(b, c, k);
      forall i | 0 <= i < |argv| ensures Entry(b, argv, from, i) <==> Entry(c, argv, ORIG_STACK, i) {
        EntryShiftedIff(b, c, argv, from, i);
      }
    }
  }

  /** The first null of a block is behind its last pointer. */
  lemma NullAt(b: seq<byte>, argv: seq<seq<byte>>, base: nat, k: nat)
    requires Block(b, argv, base) && |b| == PROC_ORIGIN_STACK && k < PTRS
    requires NoNull(b, k) && WordAt(b, PTR_SIZE * k) == 0
    ensures k == |argv|
  {
    hide WordAt;
    if k < |argv| { PointerIs(b, argv, base, k); }
  }

  // ---------------------------------------------------------------- the new image

  /** PROC_IMAGE_SIZE_DEFAULT. */
  const IMAGE_SIZE := 0x100000

  /** A PT_LOAD entry of the program: its address, its size in memory, and its bytes in the file. */
  datatype Segment = Segment(vaddr: nat, memsz: nat, data: seq<byte>)

  /** What `do_exec` asserts of a segment (mm/exec.c:45-46). */
  predicate Small(g: Segment) { g.vaddr + g.memsz < IMAGE_SIZE }

  predicate Fits(g: Segment, size: nat) { g.vaddr + |g.data| <= size }

  /** The address space after the segments, later ones over earlier ones. */
  function Loaded(m: seq<byte>, segs: seq<Segment>): (r: seq<byte>)
    requires forall g :: g in segs ==> Fits(g, |m|)
    ensures |r| == |m|
  {
    if |segs| == 0 then m
    else
      var g := segs[|segs| - 1];
      assert g in segs && Fits(g, |m|);
      Splice(Loaded(m, segs[..|segs| - 1]), g.vaddr, g.data)
  }

  predicate Covers(g: Segment, p: nat) { g.vaddr <= p < g.vaddr + |g.data| }

  /** A byte of the image is that of the last segment that covers it, and what was there when none does. */
  lemma {:induction false} LoadedByte(m: seq<byte>, segs: seq<Segment>, p: nat, k: nat)
    requires (forall g :: g in segs ==> Fits(g, |m|)) && p < |m| && k <= |segs|
    requires forall j :: k < j < |segs| ==> !Covers(segs[j], p)
    requires if k < |segs| then Covers(segs[k], p) else forall j :: 0 <= j < |segs| ==> !Covers(segs[j], p)
    ensures Loaded(m, segs)[p] == if k < |segs| then segs[k].data[p - segs[k].vaddr] else m[p]
    decreases |segs|
  {
    if |segs| > 0 {
      var n := |segs| - 1;
      assert segs[n] in segs && Fits(segs[n], |m|);
      assert forall j :: 0 <= j < n ==> segs[..n][j] == segs[j];
      if k != n { LoadedByte(m, segs[..n], p, if k < n then k else n); }
    }
  }

  /** No segment meets the `n` bytes at `p`. */
  predicate Apart(segs: seq<Segment>, p: nat, n: nat) {
    forall g :: g in segs ==> g.vaddr + |g.data| <= p || p + n <= g.vaddr
  }

  lemma {:induction false} LoadedApart(m: seq<byte>, segs: seq<Segment>, p: nat, n: nat)
    requires (forall g :: g in segs ==> Fits(g, |m|)) && Apart(segs, p, n) && p + n <= |m|
    ensures Loaded(m, segs)[p..p + n] == m[p..p + n]
  {
    if |segs| > 0 {
      LoadedApart(m, segs[..|segs| - 1], p, n);
      assert segs[|segs| - 1] in segs;
    }
  }

  /** `phys_copy`. */
  method Copy(to: array<byte>, p: nat, from: array<byte>, q: nat, n: nat)
    requires p + n <= to.Length && q + n <= from.Length && to != from
    modifies to
    ensures to[..] == Splice(old(to[..]), p, from[q..q + n])
  {
    forall k | 0 <= k < n {
      to[p + k] := from[q + k];
    }
  }

  method PutBytes(to: array<byte>, p: nat, b: seq<byte>)
    requires p + |b| <= to.Length
    modifies to
    ensures to[..] == Splice(old(to[..]), p, b)
  {
    forall k | 0 <= k < |b| {
      to[p + k] := b[k];
    }
  }

  /** The loop over the program headers (mm/exec.c:41-52). */
  method Load(image: array<byte>, segs: seq<Segment>) returns (ok: bool)
    requires image.Length == IMAGE_SIZE && forall g :: g in segs ==> |g.data| <= g.memsz
    modifies image
    ensures ok <==> forall g :: g in segs ==> Small(g)
    ensures ok ==> (forall g :: g in segs ==> Fits(g, IMAGE_SIZE)) && image[..] == Loaded(old(image[..]), segs)
  {
    hide Splice;
    var i := 0;
    while i < |segs|
      invariant 0 <= i <= |segs| && forall g :: g in segs[..i] ==> Small(g)
      invariant image[..] == Loaded(old(image[..]), segs[..i])
    {
      assert segs[i] in segs;
      if segs[i].vaddr + segs[i].memsz >= IMAGE_SIZE {
        return false;
      }
      PutBytes(image, segs[i].vaddr, segs[i].data);
      assert segs[..i + 1][..i] == segs[..i];
      i := i + 1;
    }
    assert segs[..i] == segs;
    ok := true;
  }

  /** A block is its first bytes: what follows does not matter. */
  lemma BlockSame(b: seq<byte>, c: seq<byte>, argv: seq<seq<byte>>, base: nat)
    requires Block(b, argv, base) && Total(argv) <= |c| && b[..Total(argv)] == c[..Total(argv)]
    ensures Block(c, argv, base)
  {
    hide WordAt, Entry;
    var n := Total(argv);
    assert WordAt(b, PTR_SIZE * |argv|) == WordAt(c, PTR_SIZE * |argv|) by {
      WordSame(b[..n], PTR_SIZE * |argv|, b, PTR_SIZE * |argv|);
      WordSame(c[..n], PTR_SIZE * |argv|, c, PTR_SIZE * |argv|);
    }
    forall i | 0 <= i < |argv| ensures Entry(c, argv, base, i) { EntrySame(b, c, argv, base, i); }
  }

  lemma EntrySame(b: seq<byte>, c: seq<byte>, argv: seq<seq<byte>>, base: nat, i: nat)
    requires i < |argv| && Total(argv) <= |b| && Total(argv) <= |c| && b[..Total(argv)] == c[..Total(argv)]
    requires Entry(b, argv, base, i)
    ensures Entry(c, argv, base, i)
  {
    hide WordAt, Offset;
    var n, p, q := Total(argv), PTR_SIZE * i, Offset(argv, i);
    OffsetGrows(argv, i, |argv|);
    assert b[p..p + 4] == b[..n][p..p + 4] == c[p..p + 4];
    WordSame(b, p, c, p);
    assert b[q..q + |argv[i]|] == b[..n][q..q + |argv[i]|] == c[q..q + |argv[i]|];
    assert b[q + |argv[i]|] == b[..n][q + |argv[i]|] == c[q + |argv[i]|];
  }

  /** How `do_exec` ends: a segment fails the assertion, the relocation goes astray, or the program starts. */
  datatype Exec = TooLarge | Astray | Started(argc: nat)

  /** `do_exec` (mm/exec.c:40-77) on the address space of the caller, whose `len` bytes at `from` are to be the
      arguments `argv`, or nothing. The new program finds the list that `execv` was given at ORIG_STACK exactly when
      the block is still there after the segments have been loaded. Everything else is as the segments left it. */
  method DoExecArgs(image: array<byte>, segs: seq<Segment>, argv: seq<seq<byte>>, from: nat, len: nat)
    returns (r: Exec)
    requires image.Length == IMAGE_SIZE && forall g :: g in segs ==> |g.data| <= g.memsz
    requires from + len <= IMAGE_SIZE && len <= PROC_ORIGIN_STACK && (len == 0 || len == Total(argv))
    modifies image
    ensures r.TooLarge? <==> exists g :: g in segs && g.vaddr + g.memsz >= 0x100000
    ensures !r.TooLarge? ==> forall g :: g in segs ==> Fits(g, IMAGE_SIZE)
    ensures len == 0 && !r.TooLarge? ==> r == Started(0) && image[..] == Loaded(old(image[..]), segs)
    ensures len > 0 && !r.TooLarge? ==>
      (Block(Loaded(old(image[..]), segs)[from..from + len], argv, from) <==>
       r == Started(|argv|) && Block(image[0xFFC00..0xFFC00 + len], argv, 0xFFC00))
    ensures r.Started? ==> SameOutside(Loaded(old(image[..]), segs), image[..], 0xFFC00, 0xFFC00 + len)
  {
    hide WordAt, Entry, Loaded, Block;
    ghost var m := image[..];
    var ok := Load(image, segs);
    if !ok {
      return TooLarge;
    }
    ghost var loaded := image[..];
    if len == 0 {
      return Started(0);
    }
    var stackcopy := new byte[PROC_ORIGIN_STACK];
    Copy(stackcopy, 0, image, from, len);
    ghost var b := stackcopy[..];
    assert b[..len] == loaded[from..from + len];
    BlockPrefixIff(b, loaded[from..from + len], argv, from);
    var argc := Relocate(stackcopy, from);
    if argc.None? {
      if Block(b, argv, from) { NullThere(b, argv, from); }
      return Astray;
    }
    ShiftedIff(b, stackcopy[..], argv, from, argc.value);
    Copy(image, ORIG_STACK, stackcopy, 0, len);
    assert image[ORIG_STACK..ORIG_STACK + len] == stackcopy[..len];
    BlockPrefixIff(stackcopy[..], image[ORIG_STACK..ORIG_STACK + len], argv, ORIG_STACK);
    r := Started(argc.value);
  }

  lemma BlockPrefixIff(b: seq<byte>, c: seq<byte>, argv: seq<seq<byte>>, base: nat)
    requires |c| == Total(argv) <= |b| && b[..|c|] == c
    ensures Block(b, argv, base) <==> Block(c, argv, base)
  {
    hide WordAt, Entry, Block;
    assert c[..|c|] == c;
    if Block(b, argv, base) { BlockSame(b, c, argv, base); }
    if Block(c, argv, base) { BlockSame(c, b, argv, base); }
  }

  lemma NullThere(b: seq<byte>, argv: seq<seq<byte>>, base: nat)
    requires Block(b, argv, base) && |b| == PROC_ORIGIN_STACK
    ensures !NoNull(b, PTRS)
  {
    hide WordAt, Entry;
  }

  /** A program whose segments stay away from the block finds its arguments. */
  lemma ApartKeepsBlock(m: seq<byte>, segs: seq<Segment>, argv: seq<seq<byte>>, from: nat)
    requires (forall g :: g in segs ==> Fits(g, |m|)) && Apart(segs, from, Total(argv)) && from + Total(argv) <= |m|
    ensures Block(Loaded(m, segs)[from..from + Total(argv)], argv, from) <==>
            Block(m[from..from + Total(argv)], argv, from)
  {
    LoadedApart(m, segs, from, Total(argv));
  }

  /** A program that the assertion accepts and that loses its arguments: it puts a null over the first pointer. */
  lemma SegmentLosesBlock(m: seq<byte>, argv: seq<seq<byte>>, from: nat)
    requires |m| == IMAGE_SIZE && |argv| > 0 && from + Total(argv) <= |m|
    ensures var g := Segment(from, 4, [0, 0, 0, 0]);
      Small(g) && Fits(g, |m|) && !Block(Loaded(m, [g])[from..from + Total(argv)], argv, from)
  {
    hide WordAt, Offset, Loaded;
    var g := Segment(from, 4, [0, 0, 0, 0]);
    OffsetGrows(argv, 0, |argv|);
    assert Fits(g, |m|);
    LoadedOne(m, g);
    var b := Loaded(m, [g])[from..from + Total(argv)];
    assert b[0..4] == g.data;
    ZeroWord(b);
    assert !Entry(b, argv, from, 0);
  }

  lemma LoadedOne(m: seq<byte>, g: Segment)
    requires Fits(g, |m|)
    ensures Loaded(m, [g]) == Splice(m, g.vaddr, g.data)
  {
    assert [g][..0] == [];
  }

  lemma ZeroWord(b: seq<byte>)
    requires 4 <= |b| && b[0..4] == [0, 0, 0, 0]
    ensures WordAt(b, 0) == 0
  {
    assert b[0] == b[0..4][0] && b[1] == b[0..4][1] && b[2] == b[0..4][2] && b[3] == b[0..4][3];
    assert ByteVal(0) == 0;
  }

  /** Every pointer lies in the new block, and the length of the list can be read off it. */
  lemma PointersInside(b: seq<byte>, argv: seq<seq<byte>>, i: nat)
    requires Block(b, argv, ORIG_STACK) && Total(argv) < PROC_ORIGIN_STACK && |b| == PROC_ORIGIN_STACK && i <= |argv|
    ensures WordAt(b, PTR_SIZE * i) == 0 <==> i == |argv|
    ensures i < |argv| ==> ORIG_STACK < WordAt(b, PTR_SIZE * i) < ORIG_STACK + PROC_ORIGIN_STACK
  {
    hide WordAt;
    if i < |argv| { PointerIs(b, argv, ORIG_STACK, i); }
  }
}
