/**
 * Reading from a floppy disk: how block numbers become track, head and sector, and the read loop with
 * its nested retries, against a controller that answers every command but may refuse it or break off a
 * transfer.
 */
module Floppy {
  import opened Bytes
  import opened CInt
  import opened Division

  /** Sectors per track and number of heads; both fit the bytes of a command. */
  datatype Geometry = Geometry(sect: nat, heads: nat)
  {
    predicate Valid() { 0 < sect < 256 && 0 < heads <= 256 }
  }

  /** Where a block lies: sectors count from 1. */
  datatype Place = Place(track: nat, head: nat, sector: nat)

  function PlaceOf(g: Geometry, block: nat): Place
    requires g.Valid()
  {
    MultipleGrows(g.sect, g.heads);
    Digit(block, g.sect * g.heads, g.sect)
  }

  /** Splits a number twice: into multiples of a cylinder, then of a track. */
  function Digit(block: nat, cylinder: nat, sect: nat): Place
    requires cylinder > 0 && sect > 0
  {
    Place(block / cylinder, block % cylinder / sect, block % cylinder % sect + 1)
  }

  /** The place a command names: its track is a byte. */
  function Addressed(g: Geometry, block: nat): Place
    requires g.Valid()
  {
    PlaceOf(g, block).(track := PlaceOf(g, block).track % 256)
  }

  predicate OnDisk(g: Geometry, p: Place) { p.head < g.heads && 1 <= p.sector <= g.sect }

  function BlockAt(g: Geometry, p: Place): nat
    requires OnDisk(g, p)
  {
    (p.track * g.heads + p.head) * g.sect + p.sector - 1
  }

  lemma Digits(sect: nat, heads: nat, track: nat, head: nat, s: nat)
    requires head < heads && s < sect
    ensures (track * heads + head) * sect + s == (sect * heads) * track + (sect * head + s)
    ensures sect * head + s < sect * heads
  {
    assert (track * heads) * sect == (sect * heads) * track;
    assert sect * heads == sect * head + sect * (heads - head);
    MultipleGrows(sect, heads - head);
  }

  lemma PlaceFrom(g: Geometry, block: nat, track: nat, head: nat, s: nat)
    requires g.Valid() && head < g.heads && s < g.sect
    requires block == (track * g.heads + head) * g.sect + s
    ensures PlaceOf(g, block) == Place(track, head, s + 1)
    ensures block % g.sect == s
  {
    Digits(g.sect, g.heads, track, head, s);
    Quotient(block, g.sect * g.heads, track, g.sect * head + s);
    Quotient(g.sect * head + s, g.sect, head, s);
    Quotient(block, g.sect, track * g.heads + head, s);
  }

  lemma RemainderOfRemainder(rest: nat, sect: nat, heads: nat)
    requires sect > 0 && rest < sect * heads
    ensures rest == sect * (rest / sect) + rest % sect && rest / sect < heads
  {
    QuotientBelow(rest, sect, heads);
  }

  /** The numbers of a place, before they are put together. */
  lemma PlaceParts(g: Geometry, block: nat) returns (track: nat, head: nat, s: nat)
    requires g.Valid()
    ensures head < g.heads && s < g.sect
    ensures block == (track * g.heads + head) * g.sect + s
  {
    MultipleGrows(g.sect, g.heads);
    track, head, s := Parts(block, g.sect, g.heads);
  }

  lemma Parts(block: nat, sect: nat, heads: nat) returns (track: nat, head: nat, s: nat)
    requires sect > 0 && sect * heads > 0
    ensures head < heads && s < sect
    ensures block == (track * heads + head) * sect + s
  {
    var cylinder := sect * heads;
    track := block / cylinder;
    var rest := block % cylinder;
    RemainderOfRemainder(rest, sect, heads);
    head, s := rest / sect, rest % sect;
    Digits(sect, heads, track, head, s);
  }

  lemma PlaceSplits(g: Geometry, block: nat)
    requires g.Valid()
    ensures var p := PlaceOf(g, block);
      OnDisk(g, p) && BlockAt(g, p) == block && p.sector == block % g.sect + 1
  {
    var track, head, s := PlaceParts(g, block);
    PlaceFrom(g, block, track, head, s);
  }

  /** Blocks and places on the disk correspond one to one. */
  lemma PlacesAreBlocks(g: Geometry, block: nat, p: Place)
    requires g.Valid()
    ensures PlaceOf(g, block) == p <==> OnDisk(g, p) && BlockAt(g, p) == block
  {
    PlaceSplits(g, block);
    if OnDisk(g, p) && BlockAt(g, p) == block {
      PlaceFrom(g, block, p.track, p.head, p.sector - 1);
    }
  }

  /** The blocks that follow on the same track and head. */
  lemma NextSectors(g: Geometry, block: nat, k: nat)
    requires g.Valid() && block % g.sect + k < g.sect
    ensures PlaceOf(g, block + k) == PlaceOf(g, block).(sector := PlaceOf(g, block).sector + k)
  {
    PlaceSplits(g, block);
    var p := PlaceOf(g, block);
    PlaceFrom(g, block + k, p.track, p.head, p.sector - 1 + k);
  }

  /** A command addresses the block itself exactly when the block lies on one of the first 256 tracks. */
  lemma AddressExact(g: Geometry, block: nat)
    requires g.Valid()
    ensures Addressed(g, block) == PlaceOf(g, block) <==> block < 256 * (g.sect * g.heads)
  {
    MultipleGrows(g.sect, g.heads);
    QuotientBelow(block, g.sect * g.heads, 256);
  }

  /** From there on, tracks are confused: another block is addressed instead. */
  lemma TracksWrap(g: Geometry, block: nat)
    requires g.Valid()
    ensures Addressed(g, block + 256 * (g.sect * g.heads)) == Addressed(g, block)
  {
    var track, head, s := PlaceParts(g, block);
    FarBlock(track, g.heads, head, g.sect, s);
    SameByte(g, block, block + 256 * (g.sect * g.heads), track, head, s);
  }

  lemma SameByte(g: Geometry, block: nat, far: nat, track: nat, head: nat, s: nat)
    requires g.Valid() && head < g.heads && s < g.sect
    requires block == (track * g.heads + head) * g.sect + s
    requires far == ((track + 256) * g.heads + head) * g.sect + s
    ensures Addressed(g, far) == Addressed(g, block)
  {
    AddressFrom(g, block, track, head, s);
    AddressFrom(g, far, track + 256, head, s);
  }

  lemma AddressFrom(g: Geometry, block: nat, track: nat, head: nat, s: nat)
    requires g.Valid() && head < g.heads && s < g.sect
    requires block == (track * g.heads + head) * g.sect + s
    ensures Addressed(g, block) == Place(track % 256, head, s + 1)
  {
    PlaceFrom(g, block, track, head, s);
  }

  lemma FarBlock(track: nat, heads: nat, head: nat, sect: nat, s: nat)
    ensures ((track + 256) * heads + head) * sect + s == (track * heads + head) * sect + s + 256 * (sect * heads)
  {
    assert (track + 256) * heads == track * heads + 256 * heads;
    assert (track * heads + 256 * heads + head) * sect == (track * heads + head) * sect + (256 * heads) * sect;
  }

  // The disk and the controller.

  /** The bytes of each sector. */
  datatype Disk = Disk(size: nat, sector: Place -> seq<Byte>)
  {
    ghost predicate Valid() { size > 0 && forall p :: |sector(p)| == size }
  }

  /** count sectors from p on. */
  function Sectors(d: Disk, p: Place, count: nat): seq<Byte> {
    if count == 0 then [] else Sectors(d, p, count - 1) + d.sector(p.(sector := p.sector + count - 1))
  }

  /** The contents of consecutive blocks, as the commands address them. */
  function Blocks(g: Geometry, d: Disk, first: nat, count: nat): seq<Byte>
    requires g.Valid()
  {
    if count == 0 then [] else Blocks(g, d, first, count - 1) + d.sector(Addressed(g, first + count - 1))
  }

  lemma {:induction false} BlocksLength(g: Geometry, d: Disk, first: nat, count: nat)
    requires g.Valid() && d.Valid()
    ensures |Blocks(g, d, first, count)| == count * d.size
  {
    if count > 0 {
      BlocksLength(g, d, first, count - 1);
      assert count * d.size == (count - 1) * d.size + d.size;
    }
  }

  lemma {:induction false} BlocksAppend(g: Geometry, d: Disk, first: nat, m: nat, n: nat)
    requires g.Valid()
    ensures Blocks(g, d, first, m + n) == Blocks(g, d, first, m) + Blocks(g, d, first + m, n)
  {
    if n > 0 {
      BlocksAppend(g, d, first, m, n - 1);
      assert Blocks(g, d, first, m + n)
        == Blocks(g, d, first, m + (n - 1)) + d.sector(Addressed(g, first + m + n - 1));
      assert Blocks(g, d, first + m, n)
        == Blocks(g, d, first + m, n - 1) + d.sector(Addressed(g, first + m + n - 1));
    }
  }

  /** What one READ on one side of one track delivers is what the blocks it stands for hold. */
  lemma {:induction false} TrackIsBlocks(g: Geometry, d: Disk, first: nat, count: nat)
    requires g.Valid() && first % g.sect + count <= g.sect
    ensures Sectors(d, Addressed(g, first), count) == Blocks(g, d, first, count)
  {
    if count > 0 {
      TrackIsBlocks(g, d, first, count - 1);
      NextSectors(g, first, count - 1);
    }
  }

  /** With every block on the first 256 tracks, each byte comes from the place of its own block. */
  lemma {:induction false} BlocksAreRequested(g: Geometry, d: Disk, first: nat, count: nat, k: nat)
    requires g.Valid() && d.Valid() && k < count && first + count <= 256 * (g.sect * g.heads)
    ensures (k + 1) * d.size <= |Blocks(g, d, first, count)|
    ensures Blocks(g, d, first, count)[k * d.size..(k + 1) * d.size] == d.sector(PlaceOf(g, first + k))
  {
    var rest := Blocks(g, d, first + (k + 1), count - (k + 1));
    BlocksAppend(g, d, first, k + 1, count - (k + 1));
    BlocksLength(g, d, first, k);
    BlocksLength(g, d, first, k + 1);
    AddressExact(g, first + k);
    assert Blocks(g, d, first, count) == Blocks(g, d, first, k) + d.sector(PlaceOf(g, first + k)) + rest;
  }

  datatype Transfer = Complete | Broken(got: seq<Byte>) | Refused

  datatype Event =
    | Seek(done: bool)
    | Recalibrate(done: bool)
    | Read(first: Place, count: nat, transfer: Transfer)

  /** How the controller answers its n-th command: whether it takes it, and how a transfer of len bytes goes. */
  datatype Controller = Controller(takes: nat -> bool, transfer: (nat, nat) -> Transfer)
  {
    /** A transfer breaks off before its last byte. */
    ghost predicate Valid() {
      forall n, len :: transfer(n, len).Broken? ==> |transfer(n, len).got| < len
    }
  }

  /** The transfers that broke off. */
  function Errors(trace: seq<Event>): nat {
    if trace == [] then 0
    else
      var last := trace[|trace| - 1];
      Errors(trace[..|trace| - 1]) + if last.Read? && last.transfer.Broken? then 1 else 0
  }

  /** The blocks delivered. */
  function Delivered(trace: seq<Event>): nat {
    if trace == [] then 0
    else
      var last := trace[|trace| - 1];
      Delivered(trace[..|trace| - 1]) + if last.Read? && last.transfer.Complete? then last.count else 0
  }

  /** How many of the left blocks can be read in one go from block on. */
  function Chunk(g: Geometry, block: nat, left: nat): (n: nat)
    requires g.Valid()
    ensures n <= left && block % g.sect + n <= g.sect && (n == 0 ==> left == 0)
    ensures n < left ==> (block + n) % g.sect == 0
  {
    ChunkEnds(block, g.sect);
    Min(g.sect - block % g.sect, left)
  }

  /** After a chunk that is not the last one, the next starts a track. */
  lemma NextChunk(g: Geometry, block: nat, left: nat)
    requires g.Valid()
    ensures var n := Chunk(g, block, left);
      n < left ==> Chunk(g, block + n, left - n) == Min(g.sect, left - n)
  {
  }

  lemma ChunkEnds(block: nat, sect: nat)
    requires sect > 0
    ensures (block + (sect - block % sect)) % sect == 0
  {
    var q := block / sect;
    assert block == sect * q + block % sect;
    assert sect * (q + 1) == sect * q + sect;
    Quotient(block + (sect - block % sect), sect, q + 1, 0);
  }

  /** The READ for the next blocks: as many as are wanted and lie on the rest of the track. */
  predicate ReadsNext(g: Geometry, start: nat, blocks: nat, done: nat, e: Event)
    requires g.Valid()
  {
    && e.Read? && done <= blocks
    && e.first == Addressed(g, start + done)
    && e.count == Chunk(g, start + done, blocks - done)
  }

  /** Which command may follow a trace of commands. */
  predicate Follows(g: Geometry, start: nat, blocks: nat, trace: seq<Event>, e: Event)
    requires g.Valid()
  {
    if trace == [] then e.Seek?
    else
      match trace[|trace| - 1]
      case Seek(ok) => ok && ReadsNext(g, start, blocks, Delivered(trace), e)
      case Recalibrate(ok) => ok && e.Seek?
      case Read(_, _, Complete) => Delivered(trace) < blocks && e.Seek?
      case Read(_, _, Refused) => false
      case Read(_, _, Broken(_)) =>
        if Errors(trace) % 5 != 0 then ReadsNext(g, start, blocks, Delivered(trace), e)
        else Errors(trace) != 25 && e.Recalibrate?
  }

  /** The next READ may follow. */
  predicate MayRead(g: Geometry, start: nat, blocks: nat, trace: seq<Event>)
    requires g.Valid()
  {
    && Delivered(trace) <= blocks && trace != []
    && match trace[|trace| - 1]
       case Seek(ok) => ok
       case Read(_, _, Broken(_)) => Errors(trace) % 5 != 0
       case _ => false
  }

  /** What may follow a READ, by its outcome. */
  predicate After(g: Geometry, start: nat, blocks: nat, trace: seq<Event>, t: Transfer)
    requires g.Valid()
  {
    match t
    case Complete => Delivered(trace) < blocks ==> Follows(g, start, blocks, trace, Seek(true))
    case Refused => EndsRefused(trace)
    case Broken(_) =>
      if Errors(trace) % 5 != 0 then MayRead(g, start, blocks, trace)
      else Errors(trace) != 25 ==> Follows(g, start, blocks, trace, Recalibrate(true))
  }

  predicate Run(g: Geometry, start: nat, blocks: nat, trace: seq<Event>)
    requires g.Valid()
  {
    trace == [] ||
    (Run(g, start, blocks, trace[..|trace| - 1])
     && Follows(g, start, blocks, trace[..|trace| - 1], trace[|trace| - 1]))
  }

  /** A command of the trace's end was not carried out. */
  predicate EndsRefused(trace: seq<Event>) {
    trace != [] &&
    match trace[|trace| - 1]
    case Seek(ok) => !ok
    case Recalibrate(ok) => !ok
    case Read(_, _, t) => t.Refused?
  }

  lemma Extend(g: Geometry, start: nat, blocks: nat, trace: seq<Event>, e: Event)
    requires g.Valid() && Run(g, start, blocks, trace) && Follows(g, start, blocks, trace, e)
    ensures Run(g, start, blocks, trace + [e])
    ensures Errors(trace + [e]) == Errors(trace) + if e.Read? && e.transfer.Broken? then 1 else 0
    ensures Delivered(trace + [e]) == Delivered(trace) + if e.Read? && e.transfer.Complete? then e.count else 0
  {
    assert (trace + [e])[..|trace + [e]| - 1] == trace;
  }

  /** Block first and the ones that follow it are addressed as count consecutive sectors from p on. */
  predicate Consecutive(g: Geometry, first: nat, p: Place, count: nat)
    requires g.Valid()
  {
    count == 0 || (Consecutive(g, first, p, count - 1)
      && Addressed(g, first + count - 1) == p.(sector := p.sector + count - 1))
  }

  lemma {:induction false} SameTrack(g: Geometry, first: nat, count: nat)
    requires g.Valid() && first % g.sect + count <= g.sect
    ensures Consecutive(g, first, Addressed(g, first), count)
  {
    if count > 0 {
      SameTrack(g, first, count - 1);
      NextSectors(g, first, count - 1);
    }
  }

  /** Every READ of a run stays on one side of one track, and asks for no more than is still wanted. */
  lemma {:induction false} ReadsStayOnTrack(g: Geometry, start: nat, blocks: nat, trace: seq<Event>, k: nat)
    requires g.Valid() && Run(g, start, blocks, trace) && k < |trace| && trace[k].Read?
    ensures trace[k].first.head < g.heads && 1 <= trace[k].first.sector
    ensures trace[k].first.sector + trace[k].count <= g.sect + 1
    ensures Consecutive(g, start + Delivered(trace[..k]), trace[k].first, trace[k].count)
  {
    if k == |trace| - 1 {
      var first := start + Delivered(trace[..k]);
      PlaceSplits(g, first);
      assert (start + Delivered(trace[..k])) % g.sect + trace[k].count <= g.sect;
      SameTrack(g, first, trace[k].count);
    } else {
      ReadsStayOnTrack(g, start, blocks, trace[..|trace| - 1], k);
      assert trace[..|trace| - 1][..k] == trace[..k];
    }
  }

  /** A run breaks off 25 times at most, and the 25th time is its end. */
  lemma {:induction false} ErrorsBounded(g: Geometry, start: nat, blocks: nat, trace: seq<Event>)
    requires g.Valid() && Run(g, start, blocks, trace)
    ensures Errors(trace) <= 25
    ensures Errors(trace) == 25 ==>
      && trace[|trace| - 1].Read? && trace[|trace| - 1].transfer.Broken?
      && forall e :: !Follows(g, start, blocks, trace, e)
  {
    if trace != [] {
      ErrorsBounded(g, start, blocks, trace[..|trace| - 1]);
    }
  }

  // The reader.

  /** The buffer holds the first done blocks, and is as it was behind the space for all of them. */
  ghost predicate Holds(g: Geometry, d: Disk, start: nat, blocks: nat, done: nat, buffer: seq<Byte>, was: seq<Byte>)
    requires g.Valid()
  {
    && done * d.size <= blocks * d.size <= |buffer| == |was|
    && buffer[..done * d.size] == Blocks(g, d, start, done)
    && buffer[blocks * d.size..] == was[blocks * d.size..]
  }

  lemma Products(size: nat, done: nat, n: nat, blocks: nat)
    requires done + n <= blocks
    ensures done * size + n * size == (done + n) * size <= blocks * size
  {
    assert blocks * size == (done + n) * size + (blocks - done - n) * size;
  }

  lemma HoldsNothing(g: Geometry, d: Disk, start: nat, blocks: nat, buffer: seq<Byte>)
    requires g.Valid() && blocks * d.size <= |buffer|
    ensures Holds(g, d, start, blocks, 0, buffer, buffer)
  {
    Products(d.size, 0, 0, blocks);
  }

  lemma HoldsAfter(g: Geometry, d: Disk, start: nat, blocks: nat, done: nat, n: nat,
                   before: seq<Byte>, after: seq<Byte>, was: seq<Byte>, complete: bool)
    requires g.Valid() && Holds(g, d, start, blocks, done, before, was) && done + n <= blocks
    requires done * d.size + n * d.size <= |before| == |after|
    requires after[..done * d.size] == before[..done * d.size]
    requires after[done * d.size + n * d.size..] == before[done * d.size + n * d.size..]
    requires complete ==> after[done * d.size..done * d.size + n * d.size] == Blocks(g, d, start + done, n)
    ensures Holds(g, d, start, blocks, if complete then done + n else done, after, was)
  {
    Products(d.size, done, n, blocks);
    if complete {
      BlocksAppend(g, d, start, done, n);
    }
    Glue(before, after, was, done * d.size, done * d.size + n * d.size, blocks * d.size);
  }

  lemma Glue(before: seq<Byte>, after: seq<Byte>, was: seq<Byte>, a: nat, b: nat, z: nat)
    requires a <= b <= z <= |before| == |after| == |was|
    requires after[..a] == before[..a] && after[b..] == before[b..] && before[z..] == was[z..]
    ensures after[z..] == was[z..]
    ensures after[..b] == before[..a] + after[a..b]
  {
    assert after[z..] == after[b..][z - b..] && before[z..] == before[b..][z - b..];
  }

  datatype Retry = ReadAgain | RecalibrateFirst | GiveUp

  /** The nested counters of broken transfers: what to do about the next one. */
  method CountError(retriesrw: nat, retriescal: nat) returns (retry: Retry, rw: nat, cal: nat)
    requires retriesrw <= 4 && retriescal <= 4
    ensures var errors := 5 * retriescal + retriesrw + 1;
      && (retry == ReadAgain <==> errors % 5 != 0)
      && (retry == GiveUp <==> errors == 25)
      && (retry != GiveUp ==> rw <= 4 && cal <= 4 && 5 * cal + rw == errors)
  {
    rw, cal := retriesrw + 1, retriescal;
    if retriesrw > 3 {
      cal := retriescal + 1;
      if retriescal > 3 {
        return GiveUp, rw, cal;
      }
      return RecalibrateFirst, 0, cal;
    }
    return ReadAgain, rw, cal;
  }

  lemma ReadOutcome(g: Geometry, start: nat, blocks: nat, trace: seq<Event>, p: Place, count: nat, t: Transfer)
    requires g.Valid() && trace != [] && trace[|trace| - 1] == Read(p, count, t) && Delivered(trace) <= blocks
    ensures After(g, start, blocks, trace, t)
    ensures EndsRefused(trace) <==> t.Refused?
  {
  }

  class Reader {
    const g: Geometry
    const disk: Disk
    const controller: Controller
    var blnr: nat
    var trace: seq<Event>

    constructor (g: Geometry, disk: Disk, controller: Controller, blnr: nat)
      requires g.Valid() && disk.Valid() && controller.Valid()
      ensures this.g == g && this.disk == disk && this.controller == controller && this.blnr == blnr && trace == []
    {
      this.g, this.disk, this.controller, this.blnr, trace := g, disk, controller, blnr, [];
    }

    ghost predicate Valid() { g.Valid() && disk.Valid() && controller.Valid() }

    /** fdc_seek and the check of its status. */
    method SeekTrack(ghost start: nat, ghost blocks: nat) returns (ok: bool)
      requires Valid() && Run(g, start, blocks, trace) && Follows(g, start, blocks, trace, Seek(true))
      modifies `trace
      ensures trace == old(trace) + [Seek(ok)] && Run(g, start, blocks, trace)
      ensures Errors(trace) == old(Errors(trace)) && Delivered(trace) == old(Delivered(trace))
      ensures if ok then Delivered(trace) <= blocks ==> MayRead(g, start, blocks, trace) else EndsRefused(trace)
    {
      ok := controller.takes(|trace|);
      Extend(g, start, blocks, trace, Seek(ok));
      trace := trace + [Seek(ok)];
    }

    method RecalibrateDrive(ghost start: nat, ghost blocks: nat) returns (ok: bool)
      requires Valid() && Run(g, start, blocks, trace) && Follows(g, start, blocks, trace, Recalibrate(true))
      modifies `trace
      ensures trace == old(trace) + [Recalibrate(ok)] && Run(g, start, blocks, trace)
      ensures Errors(trace) == old(Errors(trace)) && Delivered(trace) == old(Delivered(trace))
      ensures if ok then Follows(g, start, blocks, trace, Seek(true)) else EndsRefused(trace)
    {
      ok := controller.takes(|trace|);
      Extend(g, start, blocks, trace, Recalibrate(ok));
      trace := trace + [Recalibrate(ok)];
    }

    /** Issues one READ of readblk blocks. */
    method Issue(readblk: nat, len: nat, ghost start: nat, ghost blocks: nat) returns (t: Transfer)
      requires Valid() && Run(g, start, blocks, trace) && blnr == start + Delivered(trace)
      requires MayRead(g, start, blocks, trace) && readblk == Chunk(g, blnr, blocks - Delivered(trace))
      modifies `trace
      ensures t == controller.transfer(|old(trace)|, len)
      ensures trace == old(trace) + [Read(Addressed(g, blnr), readblk, t)] && Run(g, start, blocks, trace)
      ensures Errors(trace) == old(Errors(trace)) + if t.Broken? then 1 else 0
      ensures Delivered(trace) == old(Delivered(trace)) + if t.Complete? then readblk else 0
    {
      t := controller.transfer(|trace|, len);
      Extend(g, start, blocks, trace, Read(Addressed(g, blnr), readblk, t));
      trace := trace + [Read(Addressed(g, blnr), readblk, t)];
    }

    /** Takes what the controller sends; a transfer that breaks off leaves some bytes in the buffer too. */
    method Transferred(buffer: array<Byte>, offset: nat, readblk: nat, len: nat, t: Transfer)
      requires Valid() && len == readblk * disk.size && offset + len <= buffer.Length
      requires blnr % g.sect + readblk <= g.sect
      requires t.Broken? ==> |t.got| < len
      modifies buffer
      ensures buffer[..offset] == old(buffer[..offset])
      ensures buffer[offset + len..] == old(buffer[offset + len..])
      ensures t.Complete? ==> buffer[offset..offset + len] == Blocks(g, disk, blnr, readblk)
    {
      var bytes := match t
        case Complete => Sectors(disk, Addressed(g, blnr), readblk)
        case Broken(got) => got
        case Refused => [];
      TrackIsBlocks(g, disk, blnr, readblk);
      BlocksLength(g, disk, blnr, readblk);
      CopyInto(buffer, offset, bytes);
      ghost var was := old(buffer[offset + |bytes|..]);
      assert buffer[offset + len..] == was[len - |bytes|..];
      assert old(buffer[offset + len..]) == was[len - |bytes|..];
    }

    /** One attempt at the next readblk blocks. */
    method Attempt(buffer: array<Byte>, offset: nat, readblk: nat, len: nat,
                   ghost start: nat, ghost blocks: nat, ghost was: seq<Byte>)
      returns (t: Transfer)
      requires Valid() && offset == Delivered(trace) * disk.size && len == readblk * disk.size
      requires Run(g, start, blocks, trace) && blnr == start + Delivered(trace)
      requires MayRead(g, start, blocks, trace) && readblk == Chunk(g, blnr, blocks - Delivered(trace))
      requires Holds(g, disk, start, blocks, Delivered(trace), buffer[..], was)
      modifies this, buffer
      ensures trace == old(trace) + [Read(Addressed(g, old(blnr)), readblk, t)] && Run(g, start, blocks, trace)
      ensures Errors(trace) == old(Errors(trace)) + if t.Broken? then 1 else 0
      ensures Delivered(trace) == old(Delivered(trace)) + if t.Complete? then readblk else 0
      ensures blnr == start + Delivered(trace)
      ensures Holds(g, disk, start, blocks, Delivered(trace), buffer[..], was)
      ensures After(g, start, blocks, trace, t) && (EndsRefused(trace) <==> t.Refused?)
    {
      ghost var done := Delivered(trace);
      ghost var before := buffer[..];
      Products(disk.size, done, readblk, blocks);
      t := Issue(readblk, len, start, blocks);
      Transferred(buffer, offset, readblk, len, t);
      HoldsAfter(g, disk, start, blocks, done, readblk, before, buffer[..], was, t.Complete?);
      ReadOutcome(g, start, blocks, trace, Addressed(g, blnr), readblk, t);
      if t.Complete? {
        blnr := blnr + readblk;
      }
    }

    /** One attempt, after which the buffer is to be filled from next on. */
    method ReadChunk(buffer: array<Byte>, offset: nat, readblk: nat,
                     ghost start: nat, ghost blocks: nat, ghost was: seq<Byte>)
      returns (t: Transfer, next: nat)
      requires Valid() && offset == Delivered(trace) * disk.size
      requires Run(g, start, blocks, trace) && blnr == start + Delivered(trace)
      requires MayRead(g, start, blocks, trace) && readblk == Chunk(g, blnr, blocks - Delivered(trace))
      requires Holds(g, disk, start, blocks, Delivered(trace), buffer[..], was)
      modifies this, buffer
      ensures Run(g, start, blocks, trace)
      ensures Errors(trace) == old(Errors(trace)) + if t.Broken? then 1 else 0
      ensures Delivered(trace) == old(Delivered(trace)) + if t.Complete? then readblk else 0
      ensures blnr == start + Delivered(trace) && next == Delivered(trace) * disk.size
      ensures Holds(g, disk, start, blocks, Delivered(trace), buffer[..], was)
      ensures After(g, start, blocks, trace, t) && (EndsRefused(trace) <==> t.Refused?)
    {
      Products(disk.size, Delivered(trace), readblk, blocks);
      var len := disk.size * readblk;
      t := Attempt(buffer, offset, readblk, len, start, blocks, was);
      next := if t.Complete? then offset + len else offset;
    }

    /** After a broken transfer: reads again at once, or after recalibrating and seeking, or not at all. */
    method Recover(retriesrw: nat, retriescal: nat, ghost start: nat, ghost blocks: nat)
      returns (again: bool, rw: nat, cal: nat)
      requires Valid() && Run(g, start, blocks, trace) && Delivered(trace) <= blocks
      requires retriesrw <= 4 && retriescal <= 4 && Errors(trace) == 5 * retriescal + retriesrw + 1
      requires After(g, start, blocks, trace, Broken([])) && !EndsRefused(trace)
      modifies `trace
      ensures Run(g, start, blocks, trace)
      ensures Errors(trace) == old(Errors(trace)) && Delivered(trace) == old(Delivered(trace))
      ensures again ==>
        rw <= 4 && cal <= 4 && Errors(trace) == 5 * cal + rw && Errors(trace) < 25 && MayRead(g, start, blocks, trace)
      ensures !again ==> EndsRefused(trace) || Errors(trace) == 25
    {
      var retry;
      retry, rw, cal := CountError(retriesrw, retriescal);
      if retry == ReadAgain {
        return true, rw, cal;
      }
      if retry == GiveUp {
        return false, rw, cal;
      }
      again := RecalibrateDrive(start, blocks);
      if again {
        again := SeekTrack(start, blocks);
      }
    }

    /** Between two READs: the counters agree with what has happened. */
    predicate Between(start: nat, blocks: nat, offset: nat, readblk: nat, left: nat, rw: nat, cal: nat)
      requires g.Valid()
      reads this
    {
      && rw <= 4 && cal <= 4 && Errors(trace) == 5 * cal + rw
      && blnr == start + Delivered(trace) && blocks == Delivered(trace) + left
      && offset == Delivered(trace) * disk.size
      && readblk == Chunk(g, blnr, left)
      && MayRead(g, start, blocks, trace)
    }

    /** Seeks the next track, of which the READ takes all or what is left to read. */
    method NextTrack(left: nat, ghost start: nat, ghost blocks: nat) returns (ok: bool, readblk: nat)
      requires Valid() && Run(g, start, blocks, trace) && Follows(g, start, blocks, trace, Seek(true))
      requires Delivered(trace) <= blocks
      modifies `trace
      ensures readblk == Min(g.sect, left)
      ensures Run(g, start, blocks, trace)
      ensures Errors(trace) == old(Errors(trace)) && Delivered(trace) == old(Delivered(trace))
      ensures if ok then MayRead(g, start, blocks, trace) else EndsRefused(trace)
    {
      readblk := Min(g.sect, left);
      ok := SeekTrack(start, blocks);
    }

    /** Behind a complete transfer: that was all, or the next READ is that of the next track. */
    method Advance(readblk0: nat, left0: nat, rw: nat, cal: nat, ghost offset: nat, ghost start: nat, ghost blocks: nat)
      returns (more: bool, ok: bool, readblk: nat, left: nat)
      requires Valid() && Run(g, start, blocks, trace) && readblk0 <= blnr == start + Delivered(trace)
      requires readblk0 == Chunk(g, blnr - readblk0, left0) && blocks == Delivered(trace) + left0 - readblk0
      requires rw <= 4 && cal <= 4 && Errors(trace) == 5 * cal + rw && offset == Delivered(trace) * disk.size
      requires After(g, start, blocks, trace, Complete)
      modifies `trace
      ensures Run(g, start, blocks, trace)
      ensures Errors(trace) == old(Errors(trace)) && Delivered(trace) == old(Delivered(trace))
      ensures more ==> Between(start, blocks, offset, readblk, left, rw, cal) && left < left0
      ensures !more && ok ==> Delivered(trace) == blocks && trace == old(trace)
      ensures !more && !ok ==> EndsRefused(trace)
    {
      left, readblk := left0 - readblk0, readblk0;
      if left == 0 {
        return false, true, readblk, left;
      }
      NextChunk(g, blnr - readblk0, left0);
      more, readblk := NextTrack(left, start, blocks);
      ok := more;
    }

    /** One round of the read loop: ends with the next READ to be made, or with success or failure. */
    method Round(buffer: array<Byte>, offset0: nat, readblk0: nat, left0: nat, rw0: nat, cal0: nat,
                 ghost start: nat, ghost blocks: nat, ghost was: seq<Byte>)
      returns (more: bool, ok: bool, offset: nat, readblk: nat, left: nat, rw: nat, cal: nat)
      requires Valid() && Run(g, start, blocks, trace)
      requires Between(start, blocks, offset0, readblk0, left0, rw0, cal0)
      requires Holds(g, disk, start, blocks, Delivered(trace), buffer[..], was)
      modifies this, buffer
      ensures Run(g, start, blocks, trace) && blnr == start + Delivered(trace)
      ensures Holds(g, disk, start, blocks, Delivered(trace), buffer[..], was)
      ensures more ==> Between(start, blocks, offset, readblk, left, rw, cal)
      ensures more ==> left < left0 || (left == left0 && Errors(trace) > old(Errors(trace)))
      ensures !more && ok ==> Delivered(trace) == blocks && Errors(trace) != 25 && !EndsRefused(trace)
      ensures !more && !ok ==> EndsRefused(trace) || Errors(trace) == 25
    {
      var t;
      t, offset := ReadChunk(buffer, offset0, readblk0, start, blocks, was);
      readblk, left, rw, cal := readblk0, left0, rw0, cal0;
      match t
      case Refused =>
        more, ok := false, false;
      case Complete =>
        more, ok, readblk, left := Advance(readblk, left, rw, cal, offset, start, blocks);
      case Broken(_) =>
        more, rw, cal := Recover(rw, cal, start, blocks);
        ok := more;
    }

    /**
     * fdc_read_data: reads blocks from blnr on. Success means that all of them are in the buffer, in order;
     * in any case the blocks delivered are, and nothing is written behind the space for the blocks asked for.
     * It fails exactly when a command is refused or at the 25th broken transfer.
     */
    method ReadData(buffer: array<Byte>, blocks: nat) returns (ok: bool)
      requires Valid() && trace == [] && blocks * disk.size <= buffer.Length
      modifies this, buffer
      ensures Run(g, old(blnr), blocks, trace)
      ensures blnr == old(blnr) + Delivered(trace)
      ensures Holds(g, disk, old(blnr), blocks, Delivered(trace), buffer[..], old(buffer[..]))
      ensures ok ==> Delivered(trace) == blocks
      ensures !ok <==> EndsRefused(trace) || Errors(trace) == 25
    {
      ghost var start, was := blnr, buffer[..];
      var rw, cal, offset: nat, left := 0, 0, 0, blocks;
      HoldsNothing(g, disk, start, blocks, was);
      ok := SeekTrack(start, blocks);
      if !ok {
        return;
      }
      var readblk: nat := Chunk(g, blnr, left);
      var more := true;
      while more
        invariant Run(g, start, blocks, trace) && blnr == start + Delivered(trace)
        invariant Holds(g, disk, start, blocks, Delivered(trace), buffer[..], was)
        invariant more ==> Between(start, blocks, offset, readblk, left, rw, cal)
        invariant !more && ok ==> Delivered(trace) == blocks && Errors(trace) != 25 && !EndsRefused(trace)
        invariant !more && !ok ==> EndsRefused(trace) || Errors(trace) == 25
        decreases more, left, 25 - Errors(trace)
      {
        more, ok, offset, readblk, left, rw, cal :=
          Round(buffer, offset, readblk, left, rw, cal, start, blocks, was);
      }
    }
  }
}
