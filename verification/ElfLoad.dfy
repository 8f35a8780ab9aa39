/** Loading an ELF image: every program header's segment goes to its physical address, in place in memory. */
module ElfLoad {
  import opened Bytes

  /** The fields of a program header the loader looks at. */
  datatype Segment = Segment(offset: U32, paddr: U32, filesz: U32, memsz: U32)

  function NumberAt(m: seq<Byte>, at: nat): U32
    requires at + 4 <= |m|
  {
    Number(m[at..at + 4])
  }

  /** The 32 bytes of a program header. */
  function SegmentAt(m: seq<Byte>, at: nat): Segment
    requires at + 32 <= |m|
  {
    Segment(NumberAt(m, at + 4), NumberAt(m, at + 12), NumberAt(m, at + 16), NumberAt(m, at + 20))
  }

  // What the loader does, whatever the image.

  /** An ELF header lies at addr. */
  predicate HasHeader(m: seq<Byte>, addr: nat) { addr + 52 <= |m| }

  function Entry(m: seq<Byte>, addr: nat): U32
    requires HasHeader(m, addr)
  {
    NumberAt(m, addr + 24)
  }

  function TableAt(m: seq<Byte>, addr: nat): nat
    requires HasHeader(m, addr)
  {
    addr + NumberAt(m, addr + 28)
  }

  /** e_phnum, a 16-bit field. */
  function Count(m: seq<Byte>, addr: nat): (n: nat)
    requires HasHeader(m, addr)
    ensures n < 0x1_0000
  {
    m[addr + 44] as int + 256 * (m[addr + 45] as int)
  }

  /** data in place of as many bytes from at on. */
  function Put(m: seq<Byte>, at: nat, data: seq<Byte>): (r: seq<Byte>)
    ensures |r| == |m|
  {
    seq(|m|, k requires 0 <= k < |m| => if at <= k < at + |data| then data[k - at] else m[k])
  }

  function Zeros(n: nat): (z: seq<Byte>)
    ensures |z| == n
  {
    seq(n, _ => 0)
  }

  /** n bytes from src on; no bytes wherever src is. */
  function FileBytes(m: seq<Byte>, src: nat, n: nat): (data: seq<Byte>)
    requires n == 0 || src + n <= |m|
    ensures |data| == n
  {
    if n == 0 then [] else m[src..src + n]
  }

  /** What a segment holds: its bytes in the image, then zeros. */
  function Contents(m: seq<Byte>, addr: nat, s: Segment): (data: seq<Byte>)
    requires s.filesz <= s.memsz && (s.filesz == 0 || addr + s.offset + s.filesz <= |m|)
    ensures |data| == s.memsz
  {
    FileBytes(m, addr + s.offset, s.filesz) + Zeros(s.memsz - s.filesz)
  }

  /**
   * A segment memcpy and memset can load: no larger in the file than in memory, both its places lie in memory,
   * and its bytes are not copied onto themselves.
   */
  predicate CanLoad(m: seq<Byte>, addr: nat, s: Segment) {
    && s.filesz <= s.memsz && (s.memsz > 0 ==> s.paddr + s.memsz <= |m|)
    && (s.filesz > 0 ==> var src := addr + s.offset;
      src + s.filesz <= |m| && (src + s.filesz <= s.paddr || s.paddr + s.filesz <= src))
  }

  /** Memory next is m after the n-th header, which lies at phdr, was loaded. */
  predicate IsStep(m: seq<Byte>, next: seq<Byte>, addr: nat, phdr: nat, n: nat) {
    && HasHeader(m, addr) && n < Count(m, addr) && phdr + 32 <= |m|
    && var s := SegmentAt(m, phdr);
       CanLoad(m, addr, s) && next == Put(m, s.paddr, Contents(m, addr, s))
  }

  /** The memories a loader goes through, from the first header, at phdr, until none is left. */
  ghost predicate IsRun(ms: seq<seq<Byte>>, addr: nat, phdr: nat) {
    && |ms| > 0 && (forall k | 0 <= k < |ms| - 1 :: StepAt(ms, addr, phdr, k))
    && var end := ms[|ms| - 1];
       HasHeader(end, addr) && Count(end, addr) <= |ms| - 1
  }

  predicate StepAt(ms: seq<seq<Byte>>, addr: nat, phdr: nat, k: nat)
    requires k + 1 < |ms|
  {
    IsStep(ms[k], ms[k + 1], addr, phdr + 32 * k, k)
  }

  /** memset with zeros. */
  method ZeroFill(mem: array<Byte>, at: nat, n: nat)
    requires at + n <= mem.Length
    modifies mem
    ensures mem[..] == Put(old(mem[..]), at, Zeros(n))
  {
    for k := 0 to n
      invariant forall a | 0 <= a < mem.Length :: mem[a] == if at <= a < at + k then 0 else old(mem[a])
    {
      mem[at + k] := 0;
    }
  }

  /** memcpy between places that do not overlap. */
  method CopyFile(mem: array<Byte>, at: nat, src: nat, n: nat)
    requires at + n <= mem.Length && src + n <= mem.Length && (src + n <= at || at + n <= src)
    modifies mem
    ensures mem[..] == Put(old(mem[..]), at, FileBytes(old(mem[..]), src, n))
  {
    for k := 0 to n
      invariant forall a | 0 <= a < mem.Length ::
        mem[a] == if at <= a < at + k then old(mem[src + (a - at)]) else old(mem[a])
    {
      mem[at + k] := mem[src + k];
    }
  }

  /** One program header. */
  method LoadSegment(mem: array<Byte>, addr: nat, s: Segment)
    requires CanLoad(mem[..], addr, s)
    modifies mem
    ensures mem[..] == Put(old(mem[..]), s.paddr, Contents(old(mem[..]), addr, s))
  {
    ghost var m := mem[..];
    ghost var file := FileBytes(m, addr + s.offset, s.filesz);
    if s.filesz != 0 {
      CopyFile(mem, s.paddr, addr + s.offset, s.filesz);
    }
    assert mem[..] == Put(m, s.paddr, file);
    if s.filesz != s.memsz {
      ZeroFill(mem, s.paddr + s.filesz, s.memsz - s.filesz);
    }
    TwoPuts(m, s.paddr, file, Zeros(s.memsz - s.filesz));
  }

  lemma TwoPuts(m: seq<Byte>, at: nat, a: seq<Byte>, b: seq<Byte>)
    ensures Put(Put(m, at, a), at + |a|, b) == Put(m, at, a + b)
    ensures b == [] ==> Put(m, at, a) == Put(m, at, a + b)
  {
  }

  lemma HeadersLeft(ms: seq<seq<Byte>>, addr: nat, phdr: nat, n: nat)
    requires IsRun(ms, addr, phdr) && n < |ms|
    ensures HasHeader(ms[n], addr)
    ensures n < Count(ms[n], addr) <==> n < |ms| - 1
  {
    if n < |ms| - 1 {
      assert StepAt(ms, addr, phdr, n);
    }
  }

  lemma StepOf(ms: seq<seq<Byte>>, addr: nat, phdr0: nat, n: nat, phdr: nat)
    returns (now: seq<Byte>, next: seq<Byte>)
    requires IsRun(ms, addr, phdr0) && n < |ms| - 1 && phdr == phdr0 + 32 * n
    ensures now == ms[n] && next == ms[n + 1] && IsStep(now, next, addr, phdr, n)
  {
    assert StepAt(ms, addr, phdr0, n);
    now, next := ms[n], ms[n + 1];
  }

  /** The n-th program header, which lies at phdr. */
  method LoadHeader(mem: array<Byte>, addr: nat, phdr: nat, ghost n: nat, ghost next: seq<Byte>)
    requires IsStep(mem[..], next, addr, phdr, n)
    modifies mem
    ensures mem[..] == next
  {
    LoadSegment(mem, addr, SegmentAt(mem[..], phdr));
  }

  method LoadNext(mem: array<Byte>, addr: nat, phdr: nat, ghost n: nat, ghost ms: seq<seq<Byte>>, ghost phdr0: nat)
    requires IsRun(ms, addr, phdr0) && n < |ms| - 1 && phdr == phdr0 + 32 * n && mem[..] == ms[n]
    modifies mem
    ensures mem[..] == ms[n + 1]
  {
    ghost var now, next := StepOf(ms, addr, phdr0, n, phdr);
    LoadHeader(mem, addr, phdr, n, next);
  }

  /**
   * load_elf_image_phdr: reads the headers and their number from memory as it goes, and returns the entry point.
   * ms are the memories it goes through.
   */
  method Load(mem: array<Byte>, addr: nat, ghost ms: seq<seq<Byte>>) returns (entry: U32)
    requires HasHeader(mem[..], addr) && IsRun(ms, addr, TableAt(mem[..], addr)) && ms[0] == mem[..]
    modifies mem
    ensures mem[..] == ms[|ms| - 1] && entry == Entry(mem[..], addr)
  {
    var phdr, n := TableAt(mem[..], addr), 0;
    ghost var phdr0 := phdr;
    HeadersLeft(ms, addr, phdr0, 0);
    while n < Count(mem[..], addr)
      invariant n <= |ms| - 1 && phdr == phdr0 + 32 * n && mem[..] == ms[n]
      invariant HasHeader(mem[..], addr) && (n < Count(mem[..], addr) <==> n < |ms| - 1)
      decreases |ms| - n
    {
      LoadNext(mem, addr, phdr, n, ms, phdr0);
      phdr, n := phdr + 32, n + 1;
      HeadersLeft(ms, addr, phdr0, n);
    }
    entry := Entry(mem[..], addr);
  }

  // Pieces put into memory one after the other.

  datatype Piece = Piece(at: nat, data: seq<Byte>)
  {
    predicate Covers(a: nat) { at <= a < at + |data| }
  }

  function PutAll(m: seq<Byte>, pieces: seq<Piece>): (r: seq<Byte>)
    ensures |r| == |m|
  {
    if pieces == [] then m
    else
      var last := pieces[|pieces| - 1];
      Put(PutAll(m, pieces[..|pieces| - 1]), last.at, last.data)
  }

  /** The byte at address a: that of the last of the pieces that covers it, or the old one. */
  function Final(m: seq<Byte>, pieces: seq<Piece>, a: nat): Byte
    requires a < |m|
  {
    if pieces == [] then m[a]
    else
      var last := pieces[|pieces| - 1];
      if last.Covers(a) then last.data[a - last.at] else Final(m, pieces[..|pieces| - 1], a)
  }

  lemma {:induction false} LastWins(m: seq<Byte>, pieces: seq<Piece>, a: nat)
    requires a < |m|
    ensures PutAll(m, pieces)[a] == Final(m, pieces, a)
  {
    if pieces != [] {
      LastWins(m, pieces[..|pieces| - 1], a);
    }
  }

  predicate Disjoint(pieces: seq<Piece>) {
    forall j, k | 0 <= j < k < |pieces| :: Apart(pieces[j], pieces[k])
  }

  predicate Apart(p: Piece, q: Piece) {
    p.data == [] || q.data == [] || p.at + |p.data| <= q.at || q.at + |q.data| <= p.at
  }

  lemma {:induction false} FinalOfPiece(m: seq<Byte>, pieces: seq<Piece>, a: nat, k: nat)
    requires Disjoint(pieces) && k < |pieces| && a < |m| && pieces[k].Covers(a)
    ensures Final(m, pieces, a) == pieces[k].data[a - pieces[k].at]
  {
    if k < |pieces| - 1 {
      assert Apart(pieces[k], pieces[|pieces| - 1]);
      FinalOfPiece(m, pieces[..|pieces| - 1], a, k);
    }
  }

  lemma {:induction false} FinalElsewhere(m: seq<Byte>, pieces: seq<Piece>, a: nat)
    requires a < |m| && forall k | 0 <= k < |pieces| :: !pieces[k].Covers(a)
    ensures Final(m, pieces, a) == m[a]
  {
    if pieces != [] {
      FinalElsewhere(m, pieces[..|pieces| - 1], a);
    }
  }

  // An image that no segment is loaded over.

  /** An image of len bytes at address addr. */
  datatype Image = Image(addr: nat, len: nat)
  {
    predicate In(m: seq<Byte>) { 52 <= len && addr + len <= |m| }

    predicate HasTable(m: seq<Byte>)
      requires In(m)
    {
      TableAt(m, addr) + 32 * Count(m, addr) <= addr + len
    }

    function SegmentOf(m: seq<Byte>, k: nat): Segment
      requires In(m) && HasTable(m) && k < Count(m, addr)
    {
      SegmentAt(m, TableAt(m, addr) + 32 * k)
    }

    /**
     * The segment's bytes, if any, lie in the image; its place, if it takes any, lies in memory and apart from
     * the image.
     */
    predicate Fits(m: seq<Byte>, s: Segment) {
      && s.filesz <= s.memsz
      && (s.filesz > 0 ==> s.offset + s.filesz <= len)
      && (s.memsz > 0 ==> s.paddr + s.memsz <= |m| && (s.paddr + s.memsz <= addr || addr + len <= s.paddr))
    }

    predicate Loadable(m: seq<Byte>) {
      In(m) && HasTable(m) && forall k | 0 <= k < Count(m, addr) :: Fits(m, SegmentOf(m, k))
    }

    /** Where the segments go, and what they hold. */
    function Pieces(m: seq<Byte>): (pieces: seq<Piece>)
      requires Loadable(m)
      ensures |pieces| == Count(m, addr)
      ensures forall k | 0 <= k < |pieces| :: pieces[k] == PieceOf(m, SegmentOf(m, k))
    {
      seq(Count(m, addr), k requires 0 <= k < Count(m, addr) => PieceOf(m, SegmentOf(m, k)))
    }

    function PieceOf(m: seq<Byte>, s: Segment): Piece
      requires In(m) && Fits(m, s)
    {
      Piece(s.paddr, Contents(m, addr, s))
    }

    /** A piece keeps off the image. */
    predicate Clear(p: Piece) { p.data == [] || p.at + |p.data| <= addr || addr + len <= p.at }
  }

  /** Both hold the same image. */
  predicate SameImage(i: Image, a: seq<Byte>, b: seq<Byte>) {
    i.In(a) && |a| == |b| && a[i.addr..i.addr + i.len] == b[i.addr..i.addr + i.len]
  }

  /** What lies at a place in the image is the same wherever the image is the same. */
  lemma SameWithin(i: Image, a: seq<Byte>, b: seq<Byte>, from: nat, to: nat)
    requires SameImage(i, a, b) && i.addr <= from <= to <= i.addr + i.len
    ensures a[from..to] == b[from..to]
  {
    SliceOfSlice(a, i.addr, i.addr + i.len, from - i.addr, to - i.addr);
    SliceOfSlice(b, i.addr, i.addr + i.len, from - i.addr, to - i.addr);
  }

  lemma SameHeader(i: Image, a: seq<Byte>, b: seq<Byte>)
    requires SameImage(i, a, b)
    ensures TableAt(a, i.addr) == TableAt(b, i.addr) && Count(a, i.addr) == Count(b, i.addr)
    ensures Entry(a, i.addr) == Entry(b, i.addr)
  {
    SameWithin(i, a, b, i.addr + 24, i.addr + 28);
    SameWithin(i, a, b, i.addr + 28, i.addr + 32);
    SameWithin(i, a, b, i.addr + 44, i.addr + 46);
    assert a[i.addr + 44] == a[i.addr + 44..i.addr + 46][0] && a[i.addr + 45] == a[i.addr + 44..i.addr + 46][1];
    assert b[i.addr + 44] == b[i.addr + 44..i.addr + 46][0] && b[i.addr + 45] == b[i.addr + 44..i.addr + 46][1];
  }

  lemma SameSegment(i: Image, a: seq<Byte>, b: seq<Byte>, at: nat)
    requires SameImage(i, a, b) && i.addr <= at && at + 32 <= i.addr + i.len
    ensures SegmentAt(a, at) == SegmentAt(b, at)
  {
    SameWithin(i, a, b, at + 4, at + 8);
    SameWithin(i, a, b, at + 12, at + 16);
    SameWithin(i, a, b, at + 16, at + 20);
    SameWithin(i, a, b, at + 20, at + 24);
  }

  lemma SameContents(i: Image, a: seq<Byte>, b: seq<Byte>, s: Segment)
    requires SameImage(i, a, b) && i.Fits(a, s)
    ensures CanLoad(b, i.addr, s) && Contents(a, i.addr, s) == Contents(b, i.addr, s)
  {
    if s.filesz > 0 {
      SameWithin(i, a, b, i.addr + s.offset, i.addr + s.offset + s.filesz);
    }
  }

  lemma PutKeepsImage(i: Image, a: seq<Byte>, b: seq<Byte>, p: Piece)
    requires SameImage(i, a, b) && i.Clear(p)
    ensures SameImage(i, a, Put(b, p.at, p.data))
  {
    var r := Put(b, p.at, p.data);
    assert forall k | i.addr <= k < i.addr + i.len :: r[k] == b[k];
    assert r[i.addr..i.addr + i.len] == b[i.addr..i.addr + i.len];
  }

  /** Segments apart from the image leave it alone. */
  lemma {:induction false} ImageKept(i: Image, m: seq<Byte>, pieces: seq<Piece>)
    requires i.In(m) && forall k | 0 <= k < |pieces| :: i.Clear(pieces[k])
    ensures SameImage(i, m, PutAll(m, pieces))
  {
    if pieces != [] {
      ImageKept(i, m, pieces[..|pieces| - 1]);
      PutKeepsImage(i, m, PutAll(m, pieces[..|pieces| - 1]), pieces[|pieces| - 1]);
    }
  }

  lemma PiecesClear(i: Image, m: seq<Byte>)
    requires i.Loadable(m)
    ensures forall k | 0 <= k < |i.Pieces(m)| :: i.Clear(i.Pieces(m)[k])
  {
  }

  /** The next step puts the next piece into memory. */
  lemma NextPiece(i: Image, m: seq<Byte>, now: seq<Byte>, n: nat, phdr: nat)
    requires i.Loadable(m) && n < Count(m, i.addr) && phdr == TableAt(m, i.addr) + 32 * n && SameImage(i, m, now)
    ensures var p := i.Pieces(m)[n]; IsStep(now, Put(now, p.at, p.data), i.addr, phdr, n)
  {
    SameHeader(i, m, now);
    SameSegment(i, m, now, phdr);
    SameContents(i, m, now, i.SegmentOf(m, n));
  }

  /** Memory after each of the segments. */
  function Memories(i: Image, m: seq<Byte>): (ms: seq<seq<Byte>>)
    requires i.Loadable(m)
    ensures |ms| == Count(m, i.addr) + 1
    ensures forall k | 0 <= k < |ms| :: ms[k] == PutAll(m, i.Pieces(m)[..k])
  {
    seq(Count(m, i.addr) + 1, k requires 0 <= k <= Count(m, i.addr) => PutAll(m, i.Pieces(m)[..k]))
  }

  lemma MemoriesStep(i: Image, m: seq<Byte>, ms: seq<seq<Byte>>, phdr: nat)
    requires i.Loadable(m) && ms == Memories(i, m) && phdr == TableAt(m, i.addr)
    ensures forall k | 0 <= k < |ms| - 1 :: StepAt(ms, i.addr, phdr, k)
  {
    forall k | 0 <= k < |ms| - 1
      ensures StepAt(ms, i.addr, phdr, k)
    {
      PieceStep(i, m, k, phdr + 32 * k, ms[k], ms[k + 1]);
    }
  }

  /**
   * An image whose segments lie apart from it loads, although its headers are read while loading: memory goes
   * through its segments, applied in order; the image is kept, and so is its entry point.
   */
  lemma ImageRuns(i: Image, m: seq<Byte>)
    requires i.Loadable(m)
    ensures var ms := Memories(i, m);
      IsRun(ms, i.addr, TableAt(m, i.addr)) && ms[0] == m && ms[|ms| - 1] == PutAll(m, i.Pieces(m))
    ensures var r := PutAll(m, i.Pieces(m)); SameImage(i, m, r) && Entry(r, i.addr) == Entry(m, i.addr)
  {
    MemoriesStep(i, m, Memories(i, m), TableAt(m, i.addr));
    assert i.Pieces(m)[..|i.Pieces(m)|] == i.Pieces(m);
    ImageEnd(i, m);
  }

  lemma ImageEnd(i: Image, m: seq<Byte>)
    requires i.Loadable(m)
    ensures var r := PutAll(m, i.Pieces(m));
      SameImage(i, m, r) && Entry(r, i.addr) == Entry(m, i.addr) && Count(r, i.addr) == Count(m, i.addr)
  {
    PiecesClear(i, m);
    ImageKept(i, m, i.Pieces(m));
    SameHeader(i, m, PutAll(m, i.Pieces(m)));
  }

  lemma FirstKept(i: Image, m: seq<Byte>, n: nat)
    requires i.Loadable(m) && n <= Count(m, i.addr)
    ensures SameImage(i, m, PutAll(m, i.Pieces(m)[..n]))
  {
    PiecesClear(i, m);
    ImageKept(i, m, i.Pieces(m)[..n]);
  }

  lemma PieceStep(i: Image, m: seq<Byte>, n: nat, phdr: nat, now: seq<Byte>, next: seq<Byte>)
    requires i.Loadable(m) && n < Count(m, i.addr) && phdr == TableAt(m, i.addr) + 32 * n
    requires now == PutAll(m, i.Pieces(m)[..n]) && next == PutAll(m, i.Pieces(m)[..n + 1])
    ensures IsStep(now, next, i.addr, phdr, n)
  {
    FirstKept(i, m, n);
    NextPiece(i, m, now, n, phdr);
    assert i.Pieces(m)[..n + 1][..n] == i.Pieces(m)[..n];
  }

  /** The byte of a segment that belongs at address a: one of its bytes in the image, or zero behind them. */
  function ByteOf(i: Image, m: seq<Byte>, s: Segment, a: nat): Byte
    requires i.In(m) && i.Fits(m, s) && s.paddr <= a < s.paddr + s.memsz
  {
    if a < s.paddr + s.filesz then m[i.addr + s.offset + (a - s.paddr)] else 0
  }

  lemma PieceByte(i: Image, m: seq<Byte>, s: Segment, a: nat)
    requires i.In(m) && i.Fits(m, s) && s.paddr <= a < s.paddr + s.memsz
    ensures i.PieceOf(m, s).Covers(a) && i.PieceOf(m, s).data[a - s.paddr] == ByteOf(i, m, s, a)
  {
  }

  /** With disjoint segments each has its bytes and zeros in its place, and all other memory is as it was. */
  lemma SegmentsInPlace(i: Image, m: seq<Byte>, a: nat)
    requires i.Loadable(m) && Disjoint(i.Pieces(m)) && a < |m|
    ensures var r := PutAll(m, i.Pieces(m));
      && (forall k | 0 <= k < Count(m, i.addr) && i.Pieces(m)[k].Covers(a) ::
        r[a] == ByteOf(i, m, i.SegmentOf(m, k), a))
      && ((forall k | 0 <= k < Count(m, i.addr) :: !i.Pieces(m)[k].Covers(a)) ==> r[a] == m[a])
  {
    var pieces := i.Pieces(m);
    LastWins(m, pieces, a);
    forall k | 0 <= k < |pieces| && pieces[k].Covers(a)
      ensures Final(m, pieces, a) == ByteOf(i, m, i.SegmentOf(m, k), a)
    {
      FinalOfPiece(m, pieces, a, k);
      PieceByte(i, m, i.SegmentOf(m, k), a);
    }
    if forall k | 0 <= k < |pieces| :: !pieces[k].Covers(a) {
      FinalElsewhere(m, pieces, a);
    }
  }
}
