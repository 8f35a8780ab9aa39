/**
 * Reading and writing an EEPROM behind a bus of limited transfer length: transfers are cut so that none
 * leaves a page or an address block, on a device whose write pointer wraps around inside a page.
 */
module Eeprom {
  import opened Bytes
  import opened Division
  import opened Words

  /** The eight bits of a byte, least significant first. */
  type Bits8 = b: seq<bool> | |b| == 8 witness seq(8, _ => false)

  function Or8(a: Bits8, b: Bits8): Bits8 { seq(8, i requires 0 <= i < 8 => a[i] || b[i]) }

  /** One byte of one chip. */
  datatype Cell = Cell(chip: Bits8, addr: nat)

  type Memory = Cell -> Byte

  function Set(mem: Memory, c: Cell, v: Byte): Memory { d => if d == c then v else mem(d) }

  /**
   * The board: the bits of a device's own address, the number of bytes an address within a chip has, the
   * size of a write page and the longest transfer of the bus.
   */
  datatype Config = Config(dev: Bits8, long: bool, page: nat, maxTransfer: nat)
  {
    predicate Valid() { 1 <= page <= 256 && 256 % page == 0 && maxTransfer >= 1 }

    /** The bytes one chip address reaches. */
    function Span(): (n: nat)
      ensures n == 256 || n == 0x1_0000
    {
      if long then 0x1_0000 else 256
    }

    /** The upper bits of an offset select the chip, ORed into the device address as one byte. */
    function Chip(block: nat): Bits8 { Or8(Bits(block % 256, 8), dev) }

    function Locate(offset: nat): Cell { Cell(Chip(offset / Span()), offset % Span()) }
  }

  // What transfers do.

  /** Where the n-th byte of a page write lands. */
  function InPage(addr: nat, n: nat, page: nat): nat
    requires page > 0
  {
    addr - addr % page + (addr % page + n) % page
  }

  /** A page write: the pointer starts at addr and wraps around inside the page. */
  function PageWrite(mem: Memory, chip: Bits8, addr: nat, data: seq<Byte>, page: nat): Memory
    requires page > 0
  {
    if data == [] then mem
    else
      var n := |data| - 1;
      Set(PageWrite(mem, chip, addr, data[..n], page), Cell(chip, InPage(addr, n, page)), data[n])
  }

  /** A read: the pointer runs on through the chip. */
  function ChipRead(mem: Memory, chip: Bits8, addr: nat, len: nat, span: nat): (data: seq<Byte>)
    requires span > 0
    ensures |data| == len
  {
    if len == 0 then [] else ChipRead(mem, chip, addr, len - 1, span) + [mem(Cell(chip, (addr + len - 1) % span))]
  }

  // What they are for.

  /** data stored at consecutive offsets. */
  function Stored(c: Config, mem: Memory, offset: nat, data: seq<Byte>): Memory {
    if data == [] then mem
    else
      var n := |data| - 1;
      Set(Stored(c, mem, offset, data[..n]), c.Locate(offset + n), data[n])
  }

  /** The bytes at consecutive offsets. */
  function Loaded(c: Config, mem: Memory, offset: nat, n: nat): (data: seq<Byte>)
    ensures |data| == n
  {
    if n == 0 then [] else Loaded(c, mem, offset, n - 1) + [mem(c.Locate(offset + n - 1))]
  }

  lemma {:induction false} StoredTwice(c: Config, mem: Memory, offset: nat, a: seq<Byte>, b: seq<Byte>)
    ensures Stored(c, mem, offset, a + b) == Stored(c, Stored(c, mem, offset, a), offset + |a|, b)
  {
    if b == [] {
      assert a + b == a;
    } else {
      var n := |b| - 1;
      StoredTwice(c, mem, offset, a, b[..n]);
      StoredLast(c, mem, offset, a + b);
      StoredLast(c, Stored(c, mem, offset, a), offset + |a|, b);
      assert (a + b)[..|a| + n] == a + b[..n] && offset + (|a| + n) == offset + |a| + n;
    }
  }

  lemma StoredLast(c: Config, mem: Memory, offset: nat, data: seq<Byte>)
    requires data != []
    ensures var n := |data| - 1;
      Stored(c, mem, offset, data) == Set(Stored(c, mem, offset, data[..n]), c.Locate(offset + n), data[n])
  {
  }

  lemma {:induction false} LoadedTwice(c: Config, mem: Memory, offset: nat, m: nat, n: nat)
    ensures Loaded(c, mem, offset, m + n) == Loaded(c, mem, offset, m) + Loaded(c, mem, offset + m, n)
  {
    if n > 0 {
      LoadedTwice(c, mem, offset, m, n - 1);
      assert Loaded(c, mem, offset, m + n) == Loaded(c, mem, offset, m + (n - 1)) + [mem(c.Locate(offset + m + n - 1))];
    }
  }

  /** Offsets that do not leave a chip follow one another there. */
  lemma SameChip(c: Config, offset: nat, n: nat)
    requires offset % 256 + n < 256
    ensures c.Locate(offset + n) == Cell(c.Chip(offset / c.Span()), offset % c.Span() + n)
    ensures offset % c.Span() + n < c.Span()
  {
    if c.long {
      NextInBlock(offset, n);
    } else {
      NextInPage(offset, n);
    }
  }

  lemma NextInPage(offset: nat, n: nat)
    requires offset % 256 + n < 256
    ensures (offset + n) / 256 == offset / 256 && (offset + n) % 256 == offset % 256 + n
  {
  }

  lemma NextInBlock(offset: nat, n: nat)
    requires offset % 256 + n < 256
    ensures (offset + n) / 0x1_0000 == offset / 0x1_0000
    ensures (offset + n) % 0x1_0000 == offset % 0x1_0000 + n < 0x1_0000
  {
    var r := offset % 0x1_0000;
    assert r % 256 == offset % 256;
    assert r / 256 <= 255;
    assert r + n < 0x1_0000;
  }

  lemma NoWrap(addr: nat, n: nat, page: nat)
    requires page > 0 && addr % page + n < page
    ensures InPage(addr, n, page) == addr + n
  {
    SmallMod(addr % page + n, page);
  }

  lemma SmallMod(x: nat, m: nat)
    requires x < m
    ensures x % m == x
  {
  }

  /** What writing data from offset on does to a device whose transfer is not cut. */
  function Burst(c: Config, mem: Memory, offset: nat, data: seq<Byte>): Memory
    requires c.page > 0
  {
    PageWrite(mem, c.Chip(offset / c.Span()), offset % c.Span(), data, c.page)
  }

  /** A write that stays in its page, and in its block, stores its bytes at consecutive offsets. */
  lemma {:induction false} PageWriteStores(c: Config, mem: Memory, offset: nat, data: seq<Byte>)
    requires c.Valid() && offset % 256 + |data| <= 256 && (offset % c.Span()) % c.page + |data| <= c.page
    ensures Burst(c, mem, offset, data) == Stored(c, mem, offset, data)
  {
    if data != [] {
      var n := |data| - 1;
      PageWriteStores(c, mem, offset, data[..n]);
      SameChip(c, offset, n);
      NoWrap(offset % c.Span(), n, c.page);
    }
  }

  lemma {:induction false} ChipReadLoads(c: Config, mem: Memory, offset: nat, len: nat)
    requires offset % 256 + len <= 256
    ensures ChipRead(mem, c.Chip(offset / c.Span()), offset % c.Span(), len, c.Span()) == Loaded(c, mem, offset, len)
  {
    if len > 0 {
      ChipReadLoads(c, mem, offset, len - 1);
      SameChip(c, offset, len - 1);
      SmallMod(offset % c.Span() + len - 1, c.Span());
    }
  }

  // Cutting a range into transfers.

  /** What is left of a page lies within the block of 256 bytes. */
  lemma PageInBlock(x: nat, page: nat)
    requires x < 256 && 1 <= page <= 256 && 256 % page == 0
    ensures x - x % page + page <= 256
  {
    var q, m := x / page, 256 / page;
    assert x == page * q + x % page && 256 == page * m;
    if q < m {
      assert page * m == page * q + page * (m - q);
      MultipleGrows(page, m - q);
    } else {
      MoreMultiples(page, m, q);
      assert false;
    }
  }

  lemma MoreMultiples(page: nat, m: nat, q: nat)
    requires m <= q
    ensures page * m <= page * q
  {
    assert page * q == page * m + page * (q - m);
  }

  /** A transfer of len bytes from offset on. */
  datatype Transfer = Transfer(offset: nat, len: nat)

  /** It is not empty, not too long for the bus, and stays in its block, and when writing in its page. */
  predicate Allowed(c: Config, t: Transfer, writing: bool)
    requires c.Valid()
  {
    && 1 <= t.len <= c.maxTransfer && t.offset % 256 + t.len <= 256
    && (writing ==> t.offset % c.page + t.len <= c.page)
  }

  /** The transfers cover the offsets from start up to end, in order and without overlap. */
  predicate Tiles(c: Config, ts: seq<Transfer>, start: nat, end: nat, writing: bool)
    requires c.Valid()
  {
    if ts == [] then start == end
    else
      var t := ts[|ts| - 1];
      Allowed(c, t, writing) && t.offset + t.len == end && Tiles(c, ts[..|ts| - 1], start, t.offset, writing)
  }

  lemma WriteAllowed(c: Config, offset: nat, len: nat)
    requires c.Valid() && 1 <= len <= c.maxTransfer && len <= c.page - offset % 256 % c.page
    ensures Allowed(c, Transfer(offset, len), true)
    ensures (offset % c.Span()) % c.page + len <= c.page
  {
    ModMod(offset, 256, c.page);
    PageInBlock(offset % 256, c.page);
    ModMod(offset, c.Span(), 256);
    ModMod(offset % c.Span(), 256, c.page);
  }

  /** The bytes a call works on: none at all when the end of the range wraps around. */
  function Effective(offset: U32, cnt: U32): (n: nat)
    ensures n <= cnt
  {
    if offset + cnt < 0x1_0000_0000 then cnt else 0
  }

  lemma RangeEnd(offset: U32, cnt: U32)
    ensures var end, n := Wrap(offset + cnt), Effective(offset, cnt);
      if end <= offset then n == 0 else end == offset + n
  {
  }

  /** The length of the next write transfer: what is left, of the page, and of what the bus can take. */
  method WriteLength(c: Config, offset: nat, end: nat) returns (len: nat)
    requires c.Valid() && offset < end
    ensures len <= end - offset && Allowed(c, Transfer(offset, len), true)
    ensures (offset % c.Span()) % c.page + len <= c.page
    ensures len == end - offset || len == c.maxTransfer || offset % c.page + len == c.page
  {
    len := end - offset;
    var maxlen := c.page - offset % 256 % c.page;
    if maxlen > c.maxTransfer {
      maxlen := c.maxTransfer;
    }
    if len > maxlen {
      len := maxlen;
    }
    WriteAllowed(c, offset, len);
    ModMod(offset, 256, c.page);
  }

  /** The length of the next read transfer. */
  method ReadLength(c: Config, offset: nat, end: nat) returns (len: nat)
    requires c.Valid() && offset < end
    ensures len <= end - offset && Allowed(c, Transfer(offset, len), false)
    ensures len == end - offset || len == c.maxTransfer || offset % 256 + len == 256
  {
    len := end - offset;
    var maxlen := 256 - offset % 256;
    if maxlen > c.maxTransfer {
      maxlen := c.maxTransfer;
    }
    if len > maxlen {
      len := maxlen;
    }
  }

  /** The n-th transfer of the bus is acknowledged; if not, a write leaves memory in some other state. */
  datatype Behaviour = Behaviour(works: nat -> bool, after: nat -> Memory)

  /** Transfers from number a up to number b all work. */
  predicate AllWork(w: Behaviour, a: nat, b: nat) { forall n | a <= n < b :: w.works(n) }

  lemma AllWorkNext(w: Behaviour, a: nat, b: nat)
    requires a <= b
    ensures AllWork(w, a, b + 1) <==> AllWork(w, a, b) && w.works(b)
  {
  }

  lemma Appended(c: Config, done: seq<Transfer>, t: Transfer, start: nat, from: nat, writing: bool)
    requires c.Valid() && start <= |done| && Tiles(c, done[start..], from, t.offset, writing) && Allowed(c, t, writing)
    ensures Tiles(c, (done + [t])[start..], from, t.offset + t.len, writing)
    ensures (done + [t])[..|done|] == done
  {
    var ts := (done + [t])[start..];
    assert ts[..|ts| - 1] == done[start..];
  }

  class Bus {
    const c: Config
    const behaviour: Behaviour
    var mem: Memory
    var done: seq<Transfer>

    constructor (c: Config, behaviour: Behaviour, mem: Memory)
      requires c.Valid()
      ensures this.c == c && this.behaviour == behaviour && this.mem == mem && done == []
    {
      this.c, this.behaviour, this.mem, done := c, behaviour, mem, [];
    }

    ghost predicate Valid() { c.Valid() }

    method I2cWrite(offset: nat, data: seq<Byte>) returns (rc: int)
      requires Valid()
      modifies this
      ensures done == old(done) + [Transfer(offset, |data|)]
      ensures if behaviour.works(|old(done)|)
        then rc == 0 && mem == Burst(c, old(mem), offset, data)
        else rc == 1
    {
      if behaviour.works(|done|) {
        mem := Burst(c, mem, offset, data);
        rc := 0;
      } else {
        mem := behaviour.after(|done|);
        rc := 1;
      }
      done := done + [Transfer(offset, |data|)];
    }

    /** eeprom_write */
    method Write(offset: U32, buffer: array<Byte>, cnt: U32) returns (rc: int)
      requires Valid() && cnt <= buffer.Length
      modifies this
      ensures old(done) <= done
      ensures Tiles(c, done[|old(done)|..], offset, offset + Effective(offset, cnt), true)
      ensures rc == (if AllWork(behaviour, |old(done)|, |done|) then 0 else 1)
      ensures rc == 0 ==> mem == Stored(c, old(mem), offset, buffer[..Effective(offset, cnt)])
    {
      RangeEnd(offset, cnt);
      rc := WriteRange(offset, Wrap(offset + cnt), buffer, Effective(offset, cnt));
    }

    /** The loop of a write; n is the number of bytes before the end. */
    method WriteRange(offset0: nat, end: nat, buffer: array<Byte>, ghost n: nat) returns (rc: int)
      requires Valid() && n <= buffer.Length && (if end <= offset0 then n == 0 else end == offset0 + n)
      modifies this
      ensures old(done) <= done
      ensures Tiles(c, done[|old(done)|..], offset0, offset0 + n, true)
      ensures rc == (if AllWork(behaviour, |old(done)|, |done|) then 0 else 1)
      ensures rc == 0 ==> mem == Stored(c, old(mem), offset0, buffer[..n])
    {
      var offset, at := offset0, 0;
      rc := 0;
      assert done[|old(done)|..] == [];
      while offset < end
        invariant 0 <= at <= n && offset == offset0 + at
        invariant old(done) <= done
        invariant Tiles(c, done[|old(done)|..], offset0, offset, true)
        invariant rc == if AllWork(behaviour, |old(done)|, |done|) then 0 else 1
        invariant rc == 0 ==> mem == Stored(c, old(mem), offset0, buffer[..at])
      {
        var len := WriteLength(c, offset, end);
        var r := WriteNext(offset, buffer[at..at + len], old(mem), offset0, buffer[..at], |old(done)|, rc);
        if r != 0 {
          rc := 1;
        }
        assert buffer[..at + len] == buffer[..at] + buffer[at..at + len];
        offset, at := offset + len, at + len;
      }
    }

    /** One transfer of a write. */
    method WriteNext(offset: nat, data: seq<Byte>, ghost before: Memory, ghost offset0: nat, ghost written: seq<Byte>,
                     ghost start: nat, ghost rc: int) returns (r: int)
      requires Valid() && start <= |done| && offset == offset0 + |written|
      requires Allowed(c, Transfer(offset, |data|), true) && (offset % c.Span()) % c.page + |data| <= c.page
      requires Tiles(c, done[start..], offset0, offset, true)
      requires rc == if AllWork(behaviour, start, |done|) then 0 else 1
      requires rc == 0 ==> mem == Stored(c, before, offset0, written)
      modifies this
      ensures |done| == |old(done)| + 1 && old(done) <= done
      ensures Tiles(c, done[start..], offset0, offset + |data|, true)
      ensures (rc == 0 && r == 0) <==> AllWork(behaviour, start, |done|)
      ensures rc == 0 && r == 0 ==> mem == Stored(c, before, offset0, written + data)
    {
      PageWriteStores(c, mem, offset, data);
      StoredTwice(c, before, offset0, written, data);
      r := I2cWrite(offset, data);
      Appended(c, old(done), Transfer(offset, |data|), start, offset0, true);
      AllWorkNext(behaviour, start, |old(done)|);
    }

    /** i2c_read; a transfer that fails delivers nothing. */
    method I2cRead(offset: nat, len: nat) returns (rc: int, data: seq<Byte>)
      requires Valid()
      modifies `done
      ensures done == old(done) + [Transfer(offset, len)]
      ensures if behaviour.works(|old(done)|)
        then rc == 0 && data == ChipRead(mem, c.Chip(offset / c.Span()), offset % c.Span(), len, c.Span())
        else rc == 1 && data == []
    {
      if behaviour.works(|done|) {
        data := ChipRead(mem, c.Chip(offset / c.Span()), offset % c.Span(), len, c.Span());
        rc := 0;
      } else {
        rc, data := 1, [];
      }
      done := done + [Transfer(offset, len)];
    }

    /** eeprom_read */
    method Read(offset: U32, buffer: array<Byte>, cnt: U32) returns (rc: int)
      requires Valid() && cnt <= buffer.Length
      modifies `done, buffer
      ensures old(done) <= done
      ensures Tiles(c, done[|old(done)|..], offset, offset + Effective(offset, cnt), false)
      ensures rc == (if AllWork(behaviour, |old(done)|, |done|) then 0 else 1)
      ensures rc == 0 ==> buffer[..Effective(offset, cnt)] == Loaded(c, mem, offset, Effective(offset, cnt))
      ensures buffer[Effective(offset, cnt)..] == old(buffer[Effective(offset, cnt)..])
    {
      RangeEnd(offset, cnt);
      rc := ReadRange(offset, Wrap(offset + cnt), buffer, Effective(offset, cnt));
    }

    /** The loop of a read; n is the number of bytes before the end. */
    method ReadRange(offset0: nat, end: nat, buffer: array<Byte>, ghost n: nat) returns (rc: int)
      requires Valid() && n <= buffer.Length && (if end <= offset0 then n == 0 else end == offset0 + n)
      modifies `done, buffer
      ensures old(done) <= done
      ensures Tiles(c, done[|old(done)|..], offset0, offset0 + n, false)
      ensures rc == (if AllWork(behaviour, |old(done)|, |done|) then 0 else 1)
      ensures rc == 0 ==> buffer[..n] == Loaded(c, mem, offset0, n)
      ensures buffer[n..] == old(buffer[n..])
    {
      var offset, at := offset0, 0;
      ghost var was := buffer[..];
      rc := 0;
      assert done[|old(done)|..] == [];
      while offset < end
        invariant 0 <= at <= n && offset == offset0 + at
        invariant old(done) <= done
        invariant Tiles(c, done[|old(done)|..], offset0, offset, false)
        invariant rc == if AllWork(behaviour, |old(done)|, |done|) then 0 else 1
        invariant rc == 0 ==> buffer[..at] == Loaded(c, mem, offset0, at)
        invariant buffer[at..] == was[at..]
      {
        var len := ReadLength(c, offset, end);
        SameTail(buffer[..], was, at, len);
        var r := ReadInto(buffer, at, offset, len, offset0, |old(done)|, rc);
        if r != 0 {
          rc := 1;
        }
        offset, at := offset + len, at + len;
      }
    }

    /** One transfer of a read, and its bytes into the buffer. */
    method ReadInto(buffer: array<Byte>, at: nat, offset: nat, len: nat,
                    ghost offset0: nat, ghost start: nat, ghost rc: int)
      returns (r: int)
      requires Valid() && at + len <= buffer.Length
      requires start <= |done| && offset == offset0 + at && Allowed(c, Transfer(offset, len), false)
      requires Tiles(c, done[start..], offset0, offset, false)
      requires rc == if AllWork(behaviour, start, |done|) then 0 else 1
      requires rc == 0 ==> buffer[..at] == Loaded(c, mem, offset0, at)
      modifies `done, buffer
      ensures |done| == |old(done)| + 1 && old(done) <= done
      ensures Tiles(c, done[start..], offset0, offset + len, false)
      ensures (rc == 0 && r == 0) <==> AllWork(behaviour, start, |done|)
      ensures rc == 0 && r == 0 ==> buffer[..at + len] == Loaded(c, mem, offset0, at + len)
      ensures buffer[at + len..] == old(buffer[at + len..])
    {
      ghost var read := buffer[..at];
      var data;
      r, data := ReadNext(offset, len, offset0, read, start, rc);
      CopyInto(buffer, at, data);
      assert r == 0 ==> buffer[..at + len] == read + data;
    }

    /** One transfer of a read. */
    method ReadNext(offset: nat, len: nat, ghost offset0: nat, ghost read: seq<Byte>, ghost start: nat, ghost rc: int)
      returns (r: int, data: seq<Byte>)
      requires Valid() && start <= |done| && offset == offset0 + |read| && Allowed(c, Transfer(offset, len), false)
      requires Tiles(c, done[start..], offset0, offset, false)
      requires rc == if AllWork(behaviour, start, |done|) then 0 else 1
      requires rc == 0 ==> read == Loaded(c, mem, offset0, |read|)
      modifies `done
      ensures |done| == |old(done)| + 1 && old(done) <= done
      ensures Tiles(c, done[start..], offset0, offset + len, false)
      ensures (rc == 0 && r == 0) <==> AllWork(behaviour, start, |done|)
      ensures if r == 0 then |data| == len else data == []
      ensures rc == 0 && r == 0 ==> read + data == Loaded(c, mem, offset0, |read| + len)
    {
      r, data := I2cRead(offset, len);
      assert rc == 0 && r == 0 ==> read + data == Loaded(c, mem, offset0, |read| + len) by {
        ChipReadLoads(c, mem, offset, len);
        LoadedTwice(c, mem, offset0, |read|, len);
      }
      Appended(c, old(done), Transfer(offset, len), start, offset0, false);
      AllWorkNext(behaviour, start, |old(done)|);
    }
  }

  // Writing, then reading.

  /** No two bytes of the range share a cell. */
  ghost predicate DistinctCells(c: Config, offset: nat, n: nat) {
    forall i, j | 0 <= i < j < n :: Differ(c, offset, i, j)
  }

  predicate Differ(c: Config, offset: nat, i: nat, j: nat) { c.Locate(offset + i) != c.Locate(offset + j) }

  /** A cell none of the n bytes from offset on lies in. */
  ghost predicate Outside(c: Config, offset: nat, n: nat, cell: Cell) {
    forall i | 0 <= i < n :: IsNot(c, offset, i, cell)
  }

  predicate IsNot(c: Config, offset: nat, i: nat, cell: Cell) { c.Locate(offset + i) != cell }

  /** Bytes outside the range stay as they are. */
  lemma {:induction false} StoredOutside(c: Config, mem: Memory, offset: nat, data: seq<Byte>, cell: Cell)
    requires Outside(c, offset, |data|, cell)
    ensures Stored(c, mem, offset, data)(cell) == mem(cell)
  {
    if data != [] {
      var n := |data| - 1;
      StoredOutside(c, mem, offset, data[..n], cell);
      assert IsNot(c, offset, n, cell);
    }
  }

  lemma SameTail(a: seq<Byte>, b: seq<Byte>, at: nat, len: nat)
    requires at + len <= |a| == |b| && a[at..] == b[at..]
    ensures a[at + len..] == b[at + len..]
  {
    assert a[at..][len..] == a[at + len..] && b[at..][len..] == b[at + len..];
  }

  lemma {:induction false} StoredInside(c: Config, mem: Memory, offset: nat, data: seq<Byte>, k: nat)
    requires DistinctCells(c, offset, |data|) && k < |data|
    ensures Stored(c, mem, offset, data)(c.Locate(offset + k)) == data[k]
  {
    var n := |data| - 1;
    if k < n {
      assert Differ(c, offset, k, n);
      StoredInside(c, mem, offset, data[..n], k);
    }
  }

  lemma {:induction false} LoadedAt(c: Config, mem: Memory, offset: nat, n: nat, k: nat)
    requires k < n
    ensures Loaded(c, mem, offset, n)[k] == mem(c.Locate(offset + k))
  {
    if k < n - 1 {
      LoadedAt(c, mem, offset, n - 1, k);
    }
  }

  /** What a read finds after data was written to the range it reads. */
  function ReadBack(c: Config, mem: Memory, offset: U32, data: seq<Byte>): seq<Byte>
    requires |data| < 0x1_0000_0000
  {
    var n := Effective(offset, |data|);
    Loaded(c, Stored(c, mem, offset, data[..n]), offset, n)
  }

  /** cnt bytes at offset are read back as they were written, whatever they are. */
  ghost predicate RoundTrips(c: Config, mem: Memory, offset: U32, cnt: U32) {
    forall data: seq<Byte> | |data| == cnt :: ReadBack(c, mem, offset, data) == data
  }

  lemma BackWhenDistinct(c: Config, mem: Memory, offset: U32, data: seq<Byte>)
    requires offset + |data| < 0x1_0000_0000 && DistinctCells(c, offset, |data|)
    ensures ReadBack(c, mem, offset, data) == data
  {
    var after := Stored(c, mem, offset, data);
    assert data[..|data|] == data;
    forall k | 0 <= k < |data|
      ensures Loaded(c, after, offset, |data|)[k] == data[k]
    {
      LoadedAt(c, after, offset, |data|, k);
      StoredInside(c, mem, offset, data, k);
    }
  }

  /** Two bytes that share a cell cannot both be read back. */
  lemma NotBackWhenShared(c: Config, mem: Memory, offset: U32, cnt: U32, i: nat, j: nat)
    requires offset + cnt < 0x1_0000_0000 && i < j < cnt && c.Locate(offset + i) == c.Locate(offset + j)
    ensures !RoundTrips(c, mem, offset, cnt)
  {
    var data: seq<Byte> := seq(cnt, k => if k == i then 1 else 0);
    var after := Stored(c, mem, offset, data[..cnt]);
    LoadedAt(c, after, offset, cnt, i);
    LoadedAt(c, after, offset, cnt, j);
    assert data[i] != data[j];
    assert ReadBack(c, mem, offset, data) != data;
  }

  lemma NothingBack(c: Config, mem: Memory, offset: U32, cnt: U32)
    requires 0 < cnt && offset + cnt >= 0x1_0000_0000
    ensures !RoundTrips(c, mem, offset, cnt)
  {
    var data: seq<Byte> := seq(cnt, _ => 0);
    assert |ReadBack(c, mem, offset, data)| == 0;
  }

  /**
   * Exactly when a write is read back: the range must not reach the end of the 32-bit offsets (one that
   * does is skipped without an error), nor reach one cell by two offsets.
   */
  lemma RoundTripExact(c: Config, mem: Memory, offset: U32, cnt: U32)
    ensures RoundTrips(c, mem, offset, cnt)
      <==> cnt == 0 || (offset + cnt < 0x1_0000_0000 && DistinctCells(c, offset, cnt))
  {
    if cnt == 0 {
    } else if offset + cnt >= 0x1_0000_0000 {
      NothingBack(c, mem, offset, cnt);
    } else if DistinctCells(c, offset, cnt) {
      forall data: seq<Byte> | |data| == cnt
        ensures ReadBack(c, mem, offset, data) == data
      {
        BackWhenDistinct(c, mem, offset, data);
      }
    } else {
      var i, j :| 0 <= i < j < cnt && !Differ(c, offset, i, j);
      NotBackWhenShared(c, mem, offset, cnt, i, j);
    }
  }

  /** Block numbers below 256 that leave the device address bits alone select different chips. */
  lemma ClearBlocksDistinct(c: Config, offset: nat, n: nat)
    requires n > 0 && (offset + n - 1) / c.Span() < 256
    requires forall block | offset / c.Span() <= block <= (offset + n - 1) / c.Span() :: Clear(c, block)
    ensures DistinctCells(c, offset, n)
  {
    forall i, j | 0 <= i < j < n
      ensures Differ(c, offset, i, j)
    {
      var a, b := (offset + i) / c.Span(), (offset + j) / c.Span();
      BlocksBetween(c, offset, n, i);
      BlocksBetween(c, offset, n, j);
      assert Clear(c, a) && Clear(c, b);
      if a != b {
        DifferentChips(c, a, b);
      }
    }
  }

  predicate Clear(c: Config, block: nat) { NoneCommon(Bits(block % 256, 8), c.dev) }

  predicate NoneCommon(a: Bits8, b: Bits8) { forall i | 0 <= i < 8 :: !(a[i] && b[i]) }

  lemma BlocksBetween(c: Config, offset: nat, n: nat, i: nat)
    requires i < n
    ensures offset / c.Span() <= (offset + i) / c.Span() <= (offset + n - 1) / c.Span()
  {
  }

  lemma DifferentChips(c: Config, a: nat, b: nat)
    requires a < 256 && b < 256 && a != b && Clear(c, a) && Clear(c, b)
    ensures c.Chip(a) != c.Chip(b)
  {
    SmallMod(a, 256);
    SmallMod(b, 256);
    DifferentBytes(a, b, 8);
    OrApart(Bits(a, 8), Bits(b, 8), c.dev);
  }

  lemma DifferentBytes(a: nat, b: nat, n: nat)
    requires a < 256 && b < 256 && a != b && n == 8
    ensures Bits(a, n) != Bits(b, n)
  {
    assert Pow2(8) == 256 by {
      assert Pow2(4) == 16;
    }
    ValOfBits(a, n);
    ValOfBits(b, n);
  }

  lemma OrApart(x: Bits8, y: Bits8, d: Bits8)
    requires NoneCommon(x, d) && NoneCommon(y, d) && x != y
    ensures Or8(x, d) != Or8(y, d)
  {
    var i :| 0 <= i < 8 && x[i] != y[i];
    assert Or8(x, d)[i] != Or8(y, d)[i];
  }
}
