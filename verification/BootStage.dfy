/**
 * Boot stage records: adding them, stashing them in a memory buffer for the next boot stage, and
 * reading them back there.
 */
module BootStage {
  import opened Bytes
  import Words

  /** One record; name is the address of a string, or 0. An empty record has time 0. */
  datatype Record = Record(time: U32, start: U32, name: U32, flags: U32, id: U32)

  datatype Header = Header(version: U32, count: U32, size: U32, magic: U32)

  const VERSION: U32 := 0
  const MAGIC: U32 := 0xb00757a3

  function Four(a: U32, b: U32, c: U32, d: U32): (s: seq<Byte>)
    ensures |s| == 16
  {
    ToBytes(a) + ToBytes(b) + ToBytes(c) + ToBytes(d)
  }

  function HeaderBytes(h: Header): (b: seq<Byte>)
    ensures |b| == 16
  {
    Four(h.version, h.count, h.size, h.magic)
  }

  function RecordBytes(r: Record): (b: seq<Byte>)
    ensures |b| == 20
  {
    Four(r.time, r.start, r.name, r.flags) + ToBytes(r.id)
  }

  function HeaderAt(b: seq<Byte>): Header
    requires |b| >= 16
  {
    Header(Number(b[0..4]), Number(b[4..8]), Number(b[8..12]), Number(b[12..16]))
  }

  function RecordAt(b: seq<Byte>, at: nat): Record
    requires at + 20 <= |b|
  {
    Record(Number(b[at..at + 4]), Number(b[at + 4..at + 8]), Number(b[at + 8..at + 12]),
           Number(b[at + 12..at + 16]), Number(b[at + 16..at + 20]))
  }

  lemma FourAt(a: U32, b: U32, c: U32, d: U32, s: seq<Byte>, at: nat)
    requires at + 16 <= |s| && s[at..at + 16] == Four(a, b, c, d)
    ensures Number(s[at..at + 4]) == a && Number(s[at + 4..at + 8]) == b
    ensures Number(s[at + 8..at + 12]) == c && Number(s[at + 12..at + 16]) == d
  {
    var f := Four(a, b, c, d);
    assert f[0..4] == ToBytes(a) && f[4..8] == ToBytes(b) && f[8..12] == ToBytes(c) && f[12..16] == ToBytes(d);
    SliceOfSlice(s, at, at + 16, 0, 4);
    SliceOfSlice(s, at, at + 16, 4, 8);
    SliceOfSlice(s, at, at + 16, 8, 12);
    SliceOfSlice(s, at, at + 16, 12, 16);
    NumberOfBytes(a);
    NumberOfBytes(b);
    NumberOfBytes(c);
    NumberOfBytes(d);
  }

  /** Reading undoes writing. */
  lemma HeaderRoundTrip(h: Header, s: seq<Byte>)
    requires |s| >= 16 && s[..16] == HeaderBytes(h)
    ensures HeaderAt(s) == h
  {
    assert s[0..16] == s[..16];
    FourAt(h.version, h.count, h.size, h.magic, s, 0);
  }

  lemma RecordRoundTrip(r: Record, s: seq<Byte>, at: nat)
    requires at + 20 <= |s| && s[at..at + 20] == RecordBytes(r)
    ensures RecordAt(s, at) == r
  {
    SliceOfSlice(s, at, at + 20, 0, 16);
    assert s[at..at + 20][0..16] == Four(r.time, r.start, r.name, r.flags);
    FourAt(r.time, r.start, r.name, r.flags, s, at);
    SliceOfSlice(s, at, at + 20, 16, 20);
    assert s[at..at + 20][16..20] == ToBytes(r.id);
    NumberOfBytes(r.id);
  }

  // Names.

  type Text = t: seq<Byte> | 0 !in t

  function Decimal(n: nat): (t: Text)
    ensures |t| >= 1
  {
    if n < 10 then [48 + n] else Decimal(n / 10) + [48 + n % 10]
  }

  /** The number printf's %d prints for a 32-bit pattern. */
  function SignedDecimal(x: U32): Text {
    if x < 0x8000_0000 then Decimal(x) else [45] + Decimal(0x1_0000_0000 - x)
  }

  /** "user_" and "id=". */
  const USER_PREFIX: Text := [117, 115, 101, 114, 95]
  const ID_PREFIX: Text := [105, 100, 61]

  /** What the rest of memory holds at an address that is a record's name. */
  datatype Strings = Strings(at: U32 -> Text, user: U32)
  {
    /** The name a record is shown by: its own, or one made from its number. */
    function Name(r: Record): Text {
      if r.name != 0 then at(r.name)
      else if r.id >= user then USER_PREFIX + SignedDecimal(r.id - user)
      else ID_PREFIX + SignedDecimal(r.id)
    }
  }

  lemma {:induction false} DecimalLength(n: nat, digits: nat, limit: nat)
    requires digits >= 1 && n < limit && limit == Power10(digits)
    ensures |Decimal(n)| <= digits
  {
    if n >= 10 {
      assert digits > 1 by {
        assert Power10(1) == 10;
      }
      DecimalLength(n / 10, digits - 1, Power10(digits - 1));
    }
  }

  function Power10(n: nat): nat { if n == 0 then 1 else 10 * Power10(n - 1) }

  /** A name made up fits the 20-byte buffer it is printed into, with its final zero. */
  lemma MadeUpNameFits(s: Strings, r: Record)
    requires r.name == 0
    ensures |s.Name(r)| < 20
  {
    var n := if r.id >= s.user then r.id - s.user else r.id;
    var shown := if n < 0x8000_0000 then n else 0x1_0000_0000 - n;
    assert Power10(10) == 10000000000 by {
      assert Power10(5) == 100000;
    }
    DecimalLength(shown, 10, Power10(10));
  }

  // The stash.

  /** The records in use. */
  function Used(rs: seq<Record>): (u: seq<Record>)
    ensures |u| <= |rs|
  {
    if rs == [] then []
    else
      var last := rs[|rs| - 1];
      Used(rs[..|rs| - 1]) + if last.time != 0 then [last] else []
  }

  function AllRecordBytes(rs: seq<Record>): (b: seq<Byte>)
    ensures |b| == 20 * |rs|
  {
    if rs == [] then [] else AllRecordBytes(rs[..|rs| - 1]) + RecordBytes(rs[|rs| - 1])
  }

  /** Zero-terminated names, one after the other. */
  function AllNames(s: Strings, rs: seq<Record>): seq<Byte> { Join(Shown(s, rs)) }

  function Shown(s: Strings, rs: seq<Record>): (ts: seq<Text>)
    ensures |ts| == |rs|
  {
    if rs == [] then [] else Shown(s, rs[..|rs| - 1]) + [s.Name(rs[|rs| - 1])]
  }

  lemma {:induction false} ShownAt(s: Strings, rs: seq<Record>, k: nat)
    requires k < |rs|
    ensures Shown(s, rs)[k] == s.Name(rs[k])
  {
    if k < |rs| - 1 {
      ShownAt(s, rs[..|rs| - 1], k);
    }
  }

  function Join(ts: seq<Text>): seq<Byte> {
    if ts == [] then [] else Join(ts[..|ts| - 1]) + ts[|ts| - 1] + [0]
  }

  /** What follows the header. */
  function Payload(s: Strings, rs: seq<Record>): seq<Byte> { AllRecordBytes(Used(rs)) + AllNames(s, Used(rs)) }

  function StashSize(s: Strings, rs: seq<Record>): nat { 16 + |Payload(s, rs)| }

  /** The buffer holds a complete stash of rs. */
  predicate Stashed(s: Strings, rs: seq<Record>, b: seq<Byte>) {
    && StashSize(s, rs) < 0x1_0000_0000
    && StashSize(s, rs) <= |b|
    && b[..16] == HeaderBytes(Header(VERSION, |Used(rs)|, StashSize(s, rs), MAGIC))
    && b[16..StashSize(s, rs)] == Payload(s, rs)
  }

  lemma {:induction false} RecordsSplit(rs: seq<Record>, k: nat)
    requires k < |rs|
    ensures AllRecordBytes(rs)[20 * k..20 * k + 20] == RecordBytes(rs[k])
  {
    var last := |rs| - 1;
    if k < last {
      RecordsSplit(rs[..last], k);
      assert AllRecordBytes(rs)[20 * k..20 * k + 20] == AllRecordBytes(rs[..last])[20 * k..20 * k + 20];
    }
  }

  /** The names before the k-th, the k-th with its final zero, and the rest. */
  lemma {:induction false} NamesSplit(ts: seq<Text>, k: nat)
    requires k < |ts|
    ensures Join(ts) == Join(ts[..k]) + ts[k] + [0] + Join(ts[k + 1..])
  {
    var last := |ts| - 1;
    if k < last {
      NamesSplit(ts[..last], k);
      FirstOfInit(ts, k);
      NamesTail(ts, k + 1);
      var x, y := Join(ts[..k]) + ts[k] + [0], Join(ts[..last][k + 1..]);
      SplitStep(Join(ts), Join(ts[..last]), x, y, ts[last], Join(ts[k + 1..]));
    } else {
      assert ts[..k] == ts[..last];
      assert ts[k + 1..] == [];
    }
  }

  lemma FirstOfInit(ts: seq<Text>, k: nat)
    requires k < |ts| - 1
    ensures ts[..|ts| - 1][..k] == ts[..k] && ts[..|ts| - 1][k] == ts[k]
  {
  }

  lemma SplitStep(all: seq<Byte>, init: seq<Byte>, x: seq<Byte>, y: seq<Byte>, name: seq<Byte>, tail: seq<Byte>)
    requires all == init + name + [0] && init == x + y && tail == y + name + [0]
    ensures all == x + tail
  {
  }

  lemma NamesTail(ts: seq<Text>, k: nat)
    requires k < |ts|
    ensures Join(ts[k..]) == Join(ts[..|ts| - 1][k..]) + ts[|ts| - 1] + [0]
  {
    var tail := ts[k..];
    assert tail[..|tail| - 1] == ts[..|ts| - 1][k..];
  }

  // Strings in memory.

  /** The first zero at or behind at; |b| if there is none. */
  function EndOfString(b: seq<Byte>, at: nat): (e: nat)
    requires at <= |b|
    ensures at <= e <= |b| && 0 !in b[at..e] && (e < |b| ==> b[e] == 0)
    decreases |b| - at
  {
    if at == |b| || b[at] == 0 then at
    else
      var e := EndOfString(b, at + 1);
      assert b[at..e] == [b[at]] + b[at + 1..e];
      e
  }

  /** Where the k-th of the zero-terminated strings from at on begins; past the end if there are too few. */
  function StringStart(b: seq<Byte>, at: nat, k: nat): nat {
    if k == 0 then at
    else
      var before := StringStart(b, at, k - 1);
      if before < |b| then EndOfString(b, before) + 1 else before + 1
  }

  lemma {:induction false} EndIsThere(b: seq<Byte>, x: seq<Byte>, t: Text, y: seq<Byte>)
    requires b == x + t + [0] + y
    ensures EndOfString(b, |x|) == |x| + |t| < |b| && b[|x|..|x| + |t|] == t
    decreases |t|
  {
    if t != [] {
      assert b == (x + [t[0]]) + t[1..] + [0] + y;
      EndIsThere(b, x + [t[0]], t[1..], y);
    }
  }

  /** The k-th string is t. */
  predicate StringIs(b: seq<Byte>, at: nat, k: nat, t: Text) { NameAt(b, StringStart(b, at, k), t) }

  /** In a buffer that holds names from at on, the k-th string is the k-th name. */
  lemma {:induction false} NameStarts(ts: seq<Text>, b: seq<Byte>, at: nat, k: nat)
    requires k <= |ts| && at + |Join(ts)| <= |b|
    requires b[at..at + |Join(ts)|] == Join(ts)
    ensures StringStart(b, at, k) == at + |Join(ts[..k])|
    ensures k < |ts| ==> StringIs(b, at, k, ts[k])
  {
    if k > 0 {
      NameStarts(ts, b, at, k - 1);
      NextStart(ts, b, at, k - 1);
    }
    if k < |ts| {
      KthName(ts, b, at, k);
    }
  }

  lemma KthName(ts: seq<Text>, b: seq<Byte>, at: nat, k: nat)
    requires k < |ts| && at + |Join(ts)| <= |b|
    requires b[at..at + |Join(ts)|] == Join(ts)
    requires StringStart(b, at, k) == at + |Join(ts[..k])|
    ensures StringIs(b, at, k, ts[k])
  {
    NamesSplit(ts, k);
    NameInPlace(b, at, Join(ts), Join(ts[..k]), ts[k], Join(ts[k + 1..]));
  }

  lemma NextStart(ts: seq<Text>, b: seq<Byte>, at: nat, k: nat)
    requires k < |ts| && StringStart(b, at, k) == at + |Join(ts[..k])|
    requires StringIs(b, at, k, ts[k])
    ensures StringStart(b, at, k + 1) == at + |Join(ts[..k + 1])|
  {
    assert ts[..k + 1][..k] == ts[..k];
    assert StringStart(b, at, k + 1) == EndOfString(b, StringStart(b, at, k)) + 1;
  }

  lemma NameInPlace(b: seq<Byte>, at: nat, names: seq<Byte>, before: seq<Byte>, name: Text, rest: seq<Byte>)
    requires at + |names| <= |b| && b[at..at + |names|] == names == before + name + [0] + rest
    ensures NameAt(b, at + |before|, name)
  {
    var head, tail := b[..at], b[at + |names|..];
    Surrounded(b, head, names, tail, before, name, rest);
    NameBehind(b, head + before, name, rest + tail);
  }

  /** The zero-terminated string at an address is t. */
  predicate NameAt(b: seq<Byte>, at: nat, t: Text) {
    at + |t| < |b| && EndOfString(b, at) == at + |t| && b[at..at + |t|] == t
  }

  lemma NameBehind(b: seq<Byte>, x: seq<Byte>, t: Text, y: seq<Byte>)
    requires b == x + t + [0] + y
    ensures NameAt(b, |x|, t)
  {
    EndIsThere(b, x, t, y);
  }

  lemma Surrounded(b: seq<Byte>, head: seq<Byte>, names: seq<Byte>, tail: seq<Byte>,
                   before: seq<Byte>, name: seq<Byte>, rest: seq<Byte>)
    requires b == head + names + tail && names == before + name + [0] + rest
    ensures b == (head + before) + name + [0] + (rest + tail)
  {
  }

  // Accepting a stash.

  /** The end of the buffer as unstash computes it in 32-bit arithmetic: -1 asks for all of memory. */
  function End(base: U32, size: int): U32 { if size == -1 then 0xffff_ffff else Words.Wrap(base + size) }

  /** The checks of bootstage_unstash behind the one for the header's own room; sums and products wrap around. */
  predicate HeaderOk(h: Header, base: U32, size: int, nextId: nat, places: nat) {
    && h.magic == MAGIC && Words.Wrap(base + h.size) <= End(base, size)
    && Words.Wrap(h.count * 20) <= h.size && h.version == VERSION && Words.Wrap(nextId + h.count) <= places
  }

  predicate Accepts(b: seq<Byte>, base: U32, size: int, nextId: nat, places: nat) {
    16 <= |b| && Words.Wrap(base + 16) <= End(base, size) && HeaderOk(HeaderAt(b), base, size, nextId, places)
  }

  /** What the checks are for: the stash ends within the buffer, the records within the stash, and all fit the table. */
  predicate InBounds(h: Header, base: U32, size: int, nextId: nat, places: nat) {
    && h.magic == MAGIC && base + h.size <= (if size == -1 then 0xffff_ffff else base + size)
    && h.count * 20 <= h.size && h.version == VERSION && nextId + h.count <= places
  }

  /** A buffer within the address space, behind room for a table of records. */
  predicate Placed(base: U32, size: int, nextId: nat, places: nat) {
    (size == -1 || 0 <= base + size < 0x1_0000_0000) && nextId <= places && 20 * places <= base
  }

  /**
   * The checks hold what they are for, exactly when the size in the header does not reach beyond the address
   * space; wherever the header count wraps, another check fails.
   */
  lemma ChecksExact(h: Header, base: U32, size: int, nextId: nat, places: nat)
    requires Placed(base, size, nextId, places)
    ensures InBounds(h, base, size, nextId, places) <==>
      HeaderOk(h, base, size, nextId, places) && base + h.size < 0x1_0000_0000
  {
    if HeaderOk(h, base, size, nextId, places) && base + h.size < 0x1_0000_0000 {
      CountChecked(h.count, h.size, base, nextId, places);
    }
  }

  lemma CountChecked(count: U32, size: U32, base: U32, nextId: nat, places: nat)
    requires nextId <= places && 20 * places <= base && base + size < 0x1_0000_0000
    requires Words.Wrap(count * 20) <= size && Words.Wrap(nextId + count) <= places
    ensures count * 20 <= size && nextId + count <= places
  {
    CountWraps(count);
    if nextId + count >= 0x1_0000_0000 {
      assert false;
    }
  }

  lemma CountWraps(count: U32)
    ensures var k := 0x1_0000_0000 - count; 20 * k < 0x1_0000_0000 ==> Words.Wrap(count * 20) == 0x1_0000_0000 - 20 * k
  {
  }

  lemma RoomInTable(h: Header, base: U32, size: int, nextId: nat, places: nat)
    requires HeaderOk(h, base, size, nextId, places) && 20 * h.count < 0x1_0000_0000 && nextId < 0x8000_0000
    ensures nextId + h.count <= places
  {
  }

  /** A size that wraps around is taken for a small one. */
  lemma WrappedSizeAccepted()
    ensures var h := Header(VERSION, 0, 0xffff_f800, MAGIC);
      HeaderOk(h, 0x1000, 64, 1, 20) && !InBounds(h, 0x1000, 64, 1, 20) && Placed(0x1000, 64, 1, 20)
  {
  }

  /** No call of unstash with this size takes the buffer, whatever its place in memory and the state of the records. */
  ghost predicate Rejected(b: seq<Byte>, size: int) {
    forall base, nextId, places | 0 < base && 0 <= base + size && base + |b| < 0x1_0000_0000 ::
      !Accepts(b, base, size, nextId, places)
  }

  /** What memory must hold behind an acceptable header. */
  predicate Uncorrupted(b: seq<Byte>) {
    |b| >= 16 &&
    var count := HeaderAt(b).count;
    16 + 20 * count <= |b| && AllTerminated(b, 16 + 20 * count, count)
  }

  predicate AllTerminated(b: seq<Byte>, at: nat, count: nat) { forall k | 0 <= k < count :: Terminated(b, at, k) }

  predicate Terminated(b: seq<Byte>, at: nat, k: nat) {
    StringStart(b, at, k) < |b| && EndOfString(b, StringStart(b, at, k)) < |b|
  }

  /** The k-th record unstash makes: the stashed one, with its name in the buffer. */
  function Restored(b: seq<Byte>, base: U32, count: nat, k: nat): Record
    requires 16 + 20 * count <= |b| && k < count && base + |b| < 0x1_0000_0000
    requires StringStart(b, 16 + 20 * count, k) < |b|
  {
    RecordAt(b, 16 + 20 * k).(name := base + StringStart(b, 16 + 20 * count, k))
  }

  lemma StashHeader(s: Strings, rs: seq<Record>, b: seq<Byte>)
    requires Stashed(s, rs, b)
    ensures HeaderAt(b) == Header(VERSION, |Used(rs)|, StashSize(s, rs), MAGIC)
    ensures 16 + 20 * |Used(rs)| + |AllNames(s, Used(rs))| == StashSize(s, rs)
  {
    HeaderRoundTrip(Header(VERSION, |Used(rs)|, StashSize(s, rs), MAGIC), b);
  }

  /** A complete stash is accepted exactly when there is room for its records. */
  lemma StashAccepted(s: Strings, rs: seq<Record>, b: seq<Byte>, base: U32, size: int, nextId: nat, places: nat)
    requires Stashed(s, rs, b) && base + |b| < 0x1_0000_0000 && nextId < 0x8000_0000
    requires size == -1 || StashSize(s, rs) <= size <= |b|
    ensures Accepts(b, base, size, nextId, places) <==> nextId + |Used(rs)| <= places
  {
    StashHeader(s, rs, b);
    CompleteOk(HeaderAt(b), base, size, nextId, places);
  }

  lemma CompleteOk(h: Header, base: U32, size: int, nextId: nat, places: nat)
    requires h.magic == MAGIC && h.version == VERSION && 16 + 20 * h.count <= h.size
    requires base + h.size < 0x1_0000_0000 && nextId < 0x8000_0000
    requires size == -1 || (h.size <= size && base + size < 0x1_0000_0000)
    ensures Words.Wrap(base + 16) <= End(base, size)
    ensures HeaderOk(h, base, size, nextId, places) <==> nextId + h.count <= places
  {
  }

  lemma NamesInPlace(s: Strings, rs: seq<Record>, b: seq<Byte>)
    requires Stashed(s, rs, b)
    ensures var at := 16 + 20 * |Used(rs)|;
      at + |AllNames(s, Used(rs))| <= |b| && b[at..at + |AllNames(s, Used(rs))|] == AllNames(s, Used(rs))
  {
    StashHeader(s, rs, b);
    var at, all := 16 + 20 * |Used(rs)|, Payload(s, rs);
    assert all[20 * |Used(rs)|..] == AllNames(s, Used(rs));
    SliceOfSlice(b, 16, StashSize(s, rs), 20 * |Used(rs)|, |all|);
    assert all[20 * |Used(rs)|..|all|] == all[20 * |Used(rs)|..];
  }

  lemma FirstPart(x: seq<Byte>, y: seq<Byte>, i: nat, j: nat)
    requires i <= j <= |x|
    ensures (x + y)[i..j] == x[i..j]
  {
  }

  lemma PayloadRecord(s: Strings, rs: seq<Record>, k: nat, i: nat)
    requires k < |Used(rs)| && i == 20 * k
    ensures i + 20 <= |Payload(s, rs)| && Payload(s, rs)[i..i + 20] == RecordBytes(Used(rs)[k])
  {
    RecordsSplit(Used(rs), k);
    FirstPart(AllRecordBytes(Used(rs)), AllNames(s, Used(rs)), i, i + 20);
  }

  lemma RecordBytesInPlace(s: Strings, rs: seq<Record>, b: seq<Byte>, k: nat, i: nat)
    requires StashSize(s, rs) <= |b| && b[16..StashSize(s, rs)] == Payload(s, rs)
    requires k < |Used(rs)| && i == 20 * k
    ensures 16 + i + 20 <= |b| && b[16 + i..16 + i + 20] == RecordBytes(Used(rs)[k])
  {
    PayloadRecord(s, rs, k, i);
    SliceOfSlice(b, 16, StashSize(s, rs), i, i + 20);
  }

  lemma StashedName(s: Strings, rs: seq<Record>, b: seq<Byte>, at: nat, k: nat)
    requires Stashed(s, rs, b) && k < |Used(rs)| && at == 16 + 20 * |Used(rs)|
    ensures NameAt(b, StringStart(b, at, k), s.Name(Used(rs)[k]))
  {
    NamesInPlace(s, rs, b);
    NameStarts(Shown(s, Used(rs)), b, at, k);
    ShownAt(s, Used(rs), k);
  }

  /** The k-th record unstash makes of a buffer is orig, under a name in the buffer that reads as given. */
  predicate ComesBack(b: seq<Byte>, base: U32, count: nat, k: nat, orig: Record, name: Text) {
    && 16 + 20 * count <= |b| && k < count && base + |b| < 0x1_0000_0000
    && NameAt(b, StringStart(b, 16 + 20 * count, k), name)
    && Restored(b, base, count, k) == orig.(name := base + StringStart(b, 16 + 20 * count, k))
  }

  lemma Back(b: seq<Byte>, base: U32, count: nat, k: nat, at: nat, i: nat, orig: Record, name: Text)
    requires at == 16 + 20 * count <= |b| && k < count && base + |b| < 0x1_0000_0000 && i == 16 + 20 * k
    requires NameAt(b, StringStart(b, at, k), name) && b[i..i + 20] == RecordBytes(orig)
    ensures ComesBack(b, base, count, k, orig, name)
  {
    RecordRoundTrip(orig, b, i);
  }

  /** Stash, then unstash: every record in use comes back in order, under the name it was shown by. */
  lemma StashUnstash(s: Strings, rs: seq<Record>, b: seq<Byte>, base: U32, k: nat)
    requires Stashed(s, rs, b) && k < |Used(rs)| && base + |b| < 0x1_0000_0000
    ensures ComesBack(b, base, |Used(rs)|, k, Used(rs)[k], s.Name(Used(rs)[k]))
  {
    var count, orig := |Used(rs)|, Used(rs)[k];
    var at, i, name := 16 + 20 * count, 16 + 20 * k, s.Name(orig);
    BothInPlace(s, rs, b, k, at, i, orig, name);
    Back(b, base, count, k, at, i, orig, name);
  }

  lemma BothInPlace(s: Strings, rs: seq<Record>, b: seq<Byte>, k: nat, at: nat, i: nat, orig: Record, name: Text)
    requires Stashed(s, rs, b) && k < |Used(rs)| && at == 16 + 20 * |Used(rs)| && i == 16 + 20 * k
    requires orig == Used(rs)[k] && name == s.Name(orig)
    ensures at <= |b| && NameAt(b, StringStart(b, at, k), name)
    ensures i + 20 <= |b| && b[i..i + 20] == RecordBytes(orig)
  {
    StashedName(s, rs, b, at, k);
    RecordBytesInPlace(s, rs, b, k, i - 16);
  }

  lemma StashUncorrupted(s: Strings, rs: seq<Record>, b: seq<Byte>)
    requires Stashed(s, rs, b)
    ensures Uncorrupted(b)
  {
    StashHeader(s, rs, b);
    StashTerminated(s, rs, b, 16 + 20 * |Used(rs)|);
  }

  lemma StashTerminated(s: Strings, rs: seq<Record>, b: seq<Byte>, at: nat)
    requires Stashed(s, rs, b) && at == 16 + 20 * |Used(rs)|
    ensures AllTerminated(b, at, |Used(rs)|)
  {
    forall k | 0 <= k < |Used(rs)|
      ensures Terminated(b, at, k)
    {
      StashedName(s, rs, b, at, k);
    }
  }

  /** What a stash that failed leaves behind is never taken. */
  lemma UnfinishedRejected(b: seq<Byte>, count: U32, size: int)
    requires |b| >= 16 && b[..16] == HeaderBytes(Header(VERSION, count, 0, MAGIC)) && 0 < 20 * count < 0x1_0000_0000
    ensures Rejected(b, size)
  {
    HeaderRoundTrip(Header(VERSION, count, 0, MAGIC), b);
    forall base, nextId, places
      ensures !Accepts(b, base, size, nextId, places)
    {
      NoRoomInNothing(HeaderAt(b), base, size, nextId, places);
    }
  }

  lemma NoRoomInNothing(h: Header, base: U32, size: int, nextId: nat, places: nat)
    requires h.size == 0 && 0 < 20 * h.count < 0x1_0000_0000
    ensures !HeaderOk(h, base, size, nextId, places)
  {
  }

  lemma TooSmallRejected(b: seq<Byte>, size: int)
    requires size < 16 && size != -1
    ensures Rejected(b, size)
  {
    forall base, nextId, places | 0 < base && 0 <= base + size && base + |b| < 0x1_0000_0000
      ensures !Accepts(b, base, size, nextId, places)
    {
      if |b| >= 16 {
        NoHeaderFits(base, size, |b|);
      }
    }
  }

  lemma NoHeaderFits(base: U32, size: int, length: nat)
    requires size < 16 && size != -1 && 0 <= base + size && base + length < 0x1_0000_0000 && length >= 16
    ensures Words.Wrap(base + 16) > End(base, size)
  {
  }

  /**
   * With size -1 the two disagree: stash takes it as a length and fails, leaving memory alone, while
   * unstash takes it as no limit at all and accepts an older stash there.
   */
  lemma MinusOneAccepted(s: Strings, rs: seq<Record>, b: seq<Byte>, base: U32, places: nat)
    requires Stashed(s, rs, b) && 0 < base && base + |b| < 0x1_0000_0000 && |Used(rs)| <= places
    ensures !Rejected(b, -1)
  {
    StashAccepted(s, rs, b, base, -1, 0, places);
  }

  // The operations.

  /** append_data: the pointer always advances, the data is written only if it ends within the buffer. */
  method AppendData(b: array<Byte>, ptr: nat, end: nat, data: seq<Byte>) returns (next: nat)
    requires end <= b.Length
    modifies b
    ensures next == ptr + |data|
    ensures b[..] == if next <= end then old(b[..])[..ptr] + data + old(b[..])[next..] else old(b[..])
  {
    next := ptr + |data|;
    if next > end {
      return;
    }
    CopyInto(b, ptr, data);
  }

  /** While stashing: the header is there, and what was written so far if it all fitted; nothing behind end. */
  predicate Stashing(now: seq<Byte>, was: seq<Byte>, header: Header, written: seq<Byte>, ptr: nat, end: nat) {
    && 16 <= end <= |now| == |was| && ptr == 16 + |written|
    && now[..16] == HeaderBytes(header) && now[end..] == was[end..]
    && (ptr <= end ==> now[16..ptr] == written)
  }

  lemma StashingMore(before: seq<Byte>, now: seq<Byte>, was: seq<Byte>, header: Header, written: seq<Byte>, ptr: nat,
                     end: nat, data: seq<Byte>)
    requires Stashing(before, was, header, written, ptr, end)
    requires now == if ptr + |data| <= end then before[..ptr] + data + before[ptr + |data|..] else before
    ensures Stashing(now, was, header, written + data, ptr + |data|, end)
  {
    var next := ptr + |data|;
    if next <= end {
      assert now[..16] == before[..16];
      assert now[end..] == before[end..];
      assert now[16..next] == before[16..ptr] + data;
    }
  }

  /** The outcome of a stash over records rs into a buffer that held was. */
  predicate StashOutcome(s: Strings, rs: seq<Record>, now: seq<Byte>, was: seq<Byte>, size: int, rc: int) {
    if size < 16 then rc == -1 && now == was
    else
      && |now| == |was| && size <= |was| && now[size..] == was[size..] && 20 * |Used(rs)| < 0x1_0000_0000
      && (rc == 0 || rc == -1)
      && (rc == 0 <==> StashSize(s, rs) <= size)
      && (if rc == 0 then Stashed(s, rs, now)
          else |Used(rs)| > 0 && now[..16] == HeaderBytes(Header(VERSION, |Used(rs)|, 0, MAGIC)))
  }

  /** A stash that failed is rejected by any unstash of the same size, unless that is -1. */
  lemma FailedRejected(s: Strings, rs: seq<Record>, now: seq<Byte>, was: seq<Byte>, size: int)
    requires StashOutcome(s, rs, now, was, size, -1) && size != -1
    ensures Rejected(now, size)
  {
    if size < 16 {
      TooSmallRejected(now, size);
    } else {
      UnfinishedRejected(now, |Used(rs)|, size);
    }
  }

  /** The last step of a stash: too long, or complete up to the size in the header. */
  lemma StashEnds(s: Strings, rs: seq<Record>, now: seq<Byte>, was: seq<Byte>, ptr: nat, end: nat)
    requires 20 * |Used(rs)| < 0x1_0000_0000 && end < 0x8000_0000
    requires Stashing(now, was, Header(VERSION, |Used(rs)|, 0, MAGIC), Payload(s, rs), ptr, end)
    ensures ptr == StashSize(s, rs)
    ensures ptr > end ==> StashOutcome(s, rs, now, was, end, -1)
    ensures ptr <= end ==>
      StashOutcome(s, rs, HeaderBytes(Header(VERSION, |Used(rs)|, ptr, MAGIC)) + now[16..], was, end, 0)
  {
    if ptr > end {
      if Used(rs) == [] {
        assert false;
      }
    } else {
      NewHead(HeaderBytes(Header(VERSION, |Used(rs)|, ptr, MAGIC)), now, ptr, end);
    }
  }

  lemma NewHead(head: seq<Byte>, now: seq<Byte>, ptr: nat, end: nat)
    requires |head| == 16 <= ptr <= end <= |now|
    ensures var done := head + now[16..];
      done[..16] == head && done[16..ptr] == now[16..ptr] && done[end..] == now[end..]
  {
    var done := head + now[16..];
    assert forall i | 16 <= i < |now| :: done[i] == now[i];
  }

  lemma Reassociate(x: seq<Byte>, y: seq<Byte>, z: seq<Byte>)
    ensures x + y + z == x + (y + z)
  {
  }

  lemma UsedNext(s: Strings, rs: seq<Record>, id: nat)
    requires id < |rs|
    ensures rs[..id + 1][..id] == rs[..id]
    ensures rs[id].time == 0 ==> Used(rs[..id + 1]) == Used(rs[..id])
    ensures rs[id].time != 0 ==>
      && AllRecordBytes(Used(rs[..id + 1])) == AllRecordBytes(Used(rs[..id])) + RecordBytes(rs[id])
      && AllNames(s, Used(rs[..id + 1])) == AllNames(s, Used(rs[..id])) + (s.Name(rs[id]) + [0])
  {
    assert rs[..id + 1][..id] == rs[..id];
    var before := Used(rs[..id]);
    assert (before + [rs[id]])[..|before|] == before;
  }

  method AppendItem(b: array<Byte>, ptr: nat, end: nat, data: seq<Byte>,
                    ghost was: seq<Byte>, ghost h: Header, ghost written: seq<Byte>) returns (next: nat)
    requires end <= b.Length && Stashing(b[..], was, h, written, ptr, end)
    modifies b
    ensures Stashing(b[..], was, h, written + data, next, end)
  {
    ghost var before := b[..];
    next := AppendData(b, ptr, end, data);
    StashingMore(before, b[..], was, h, written, ptr, end, data);
  }

  /** The first n stashed records as they lie in memory. */
  function RawRecords(b: seq<Byte>, n: nat): (r: seq<Record>)
    requires 16 + 20 * n <= |b|
    ensures |r| == n
  {
    if n == 0 then [] else RawRecords(b, n - 1) + [RecordAt(b, 16 + 20 * (n - 1))]
  }

  predicate IsRestored(r: Record, b: seq<Byte>, base: U32, count: nat, k: nat)
    requires k < count && 16 + 20 * count <= |b| && base + |b| < 0x1_0000_0000
  {
    Terminated(b, 16 + 20 * count, k) && r == Restored(b, base, count, k)
  }

  /** The first n of count records, named. */
  function RestoredRecords(b: seq<Byte>, base: U32, count: nat, n: nat): (r: seq<Record>)
    requires n <= count && 16 + 20 * count <= |b| && base + |b| < 0x1_0000_0000
    requires AllTerminated(b, 16 + 20 * count, count)
    ensures |r| == n
    ensures forall k | 0 <= k < n :: IsRestored(r[k], b, base, count, k)
  {
    seq(n, k requires 0 <= k < n => (assert Terminated(b, 16 + 20 * count, k); Restored(b, base, count, k)))
  }

  lemma {:induction false} RawRecordsAt(b: seq<Byte>, n: nat, k: nat)
    requires 16 + 20 * n <= |b| && k < n
    ensures RawRecords(b, n)[k] == RecordAt(b, 16 + 20 * k)
  {
    if k < n - 1 {
      RawRecordsAt(b, n - 1, k);
    }
  }

  /** The table when n of the count new records have their names. */
  function Halfway(b: seq<Byte>, base: U32, count: nat, n: nat, was: seq<Record>, at: nat): (rs: seq<Record>)
    requires n <= count && 16 + 20 * count <= |b| && base + |b| < 0x1_0000_0000
    requires AllTerminated(b, 16 + 20 * count, count) && at + count <= |was|
    ensures |rs| == |was|
  {
    was[..at] + RestoredRecords(b, base, count, n) + RawRecords(b, count)[n..] + was[at + count..]
  }

  lemma NextRestored(b: seq<Byte>, base: U32, count: nat, n: nat, f: Record)
    requires n < count && 16 + 20 * count <= |b| && base + |b| < 0x1_0000_0000
    requires AllTerminated(b, 16 + 20 * count, count) && IsRestored(f, b, base, count, n)
    ensures RestoredRecords(b, base, count, n + 1) == RestoredRecords(b, base, count, n) + [f]
  {
  }

  lemma NameOne(b: seq<Byte>, base: U32, count: nat, n: nat, was: seq<Record>, at: nat)
    requires n < count && 16 + 20 * count <= |b| && base + |b| < 0x1_0000_0000
    requires AllTerminated(b, 16 + 20 * count, count) && at + count <= |was|
    requires Terminated(b, 16 + 20 * count, n)
    ensures var rs := Halfway(b, base, count, n, was, at);
      var name := base + StringStart(b, 16 + 20 * count, n);
      Halfway(b, base, count, n + 1, was, at) == rs[at + n := rs[at + n].(name := name)]
  {
    RawRecordsAt(b, count, n);
    var raw, done := RawRecords(b, count), RestoredRecords(b, base, count, n);
    var f := raw[n].(name := base + StringStart(b, 16 + 20 * count, n));
    NextRestored(b, base, count, n, f);
    ReplaceNext(was, done, raw, at, f);
  }

  lemma ReplaceNext(was: seq<Record>, done: seq<Record>, raw: seq<Record>, at: nat, f: Record)
    requires |done| < |raw| && at + |raw| <= |was|
    ensures var n, w := |done|, was[at + |raw|..];
      var rs := was[..at] + done + raw[n..] + w;
      rs[at + n] == raw[n] && rs[at + n := f] == was[..at] + (done + [f]) + raw[n + 1..] + w
  {
    TailStarts(raw, |done|);
    Replace(was[..at], done, raw[|done|], raw[|done| + 1..], was[at + |raw|..], f);
  }

  lemma TailStarts(s: seq<Record>, n: nat)
    requires n < |s|
    ensures s[n..] == [s[n]] + s[n + 1..]
  {
  }

  lemma Replace(x: seq<Record>, y: seq<Record>, e: Record, z: seq<Record>, w: seq<Record>, f: Record)
    ensures var rs := x + y + ([e] + z) + w;
      rs[|x| + |y|] == e && rs[|x| + |y| := f] == x + (y + [f]) + z + w
  {
  }

  lemma CopyOne(was: seq<Record>, done: seq<Record>, r: Record, at: nat)
    requires at + |done| < |was|
    ensures (was[..at] + done + was[at + |done|..])[at + |done| := r]
      == was[..at] + (done + [r]) + was[at + |done| + 1..]
  {
  }

  lemma AllNamed(b: seq<Byte>, base: U32, count: nat, was: seq<Record>, at: nat)
    requires 16 + 20 * count <= |b| && base + |b| < 0x1_0000_0000
    requires AllTerminated(b, 16 + 20 * count, count) && at + count <= |was|
    ensures Halfway(b, base, count, count, was, at)
      == was[..at] + RestoredRecords(b, base, count, count) + was[at + count..]
    ensures Halfway(b, base, count, 0, was, at) == was[..at] + RawRecords(b, count) + was[at + count..]
  {
    assert RawRecords(b, count)[count..] == [];
  }

  class Log {
    const strings: Strings
    const record: array<Record>
    var nextId: nat

    /** The table fits the address space. */
    ghost predicate Valid() { 20 * record.Length < 0x1_0000_0000 }

    constructor (strings: Strings, places: nat, user: U32)
      requires 0 < places && 20 * places < 0x1_0000_0000
      ensures Valid() && fresh(record) && this.strings == strings && nextId == user && record.Length == places
      ensures Used(record[..]) == [Record(1, 0, 0, 0, 0)]
    {
      var records := new Record[places](_ => Record(0, 0, 0, 0, 0));
      records[0] := Record(1, 0, 0, 0, 0);
      this.strings, record, nextId := strings, records, user;
      new;
      OnlyFirst(record[..]);
    }

    /** bootstage_add_record: keeps the first event for each id; returns the id used. */
    method AddRecord(id0: U32, name: U32, flags: U32, mark: U32) returns (id: nat)
      requires Valid()
      modifies this`nextId, record
      ensures var alloc := flags / 2 % 2 == 1;
        id == (if alloc then old(nextId) else id0) && nextId == old(nextId) + if alloc then 1 else 0
      ensures if id < record.Length && old(record[..])[id].time == 0 then
          record[..] == old(record[..])[id := Record(mark, old(record[..])[id].start, name, flags, id)]
        else record[..] == old(record[..])
    {
      id := id0;
      if flags / 2 % 2 == 1 {
        id := nextId;
        nextId := nextId + 1;
      }
      if id < record.Length {
        var r := record[id];
        if r.time == 0 {
          record[id] := r.(time := mark, name := name, flags := flags, id := id);
        }
      }
    }

    method CountUsed() returns (count: nat)
      requires Valid()
      ensures count == |Used(record[..])|
    {
      count := 0;
      for id := 0 to record.Length
        invariant count == |Used(record[..id])|
      {
        assert record[..id + 1][..id] == record[..id];
        if record[id].time != 0 {
          count := count + 1;
        }
      }
      assert record[..record.Length] == record[..];
    }

    method StashRecords(b: array<Byte>, ptr0: nat, end: nat, ghost was: seq<Byte>, ghost h: Header) returns (ptr: nat)
      requires end <= b.Length && Stashing(b[..], was, h, [], ptr0, end)
      modifies b
      ensures Stashing(b[..], was, h, AllRecordBytes(Used(record[..])), ptr, end)
    {
      ptr := ptr0;
      for id := 0 to record.Length
        invariant Stashing(b[..], was, h, AllRecordBytes(Used(record[..id])), ptr, end)
      {
        UsedNext(strings, record[..], id);
        if record[id].time != 0 {
          ptr := AppendItem(b, ptr, end, RecordBytes(record[id]), was, h, AllRecordBytes(Used(record[..id])));
        }
      }
      assert record[..record.Length] == record[..];
    }

    method StashNames(b: array<Byte>, ptr0: nat, end: nat,
                      ghost was: seq<Byte>, ghost h: Header, ghost first: seq<Byte>)
      returns (ptr: nat)
      requires end <= b.Length && Stashing(b[..], was, h, first, ptr0, end)
      modifies b
      ensures Stashing(b[..], was, h, first + AllNames(strings, Used(record[..])), ptr, end)
    {
      ptr := ptr0;
      assert first + [] == first;
      for id := 0 to record.Length
        invariant Stashing(b[..], was, h, first + AllNames(strings, Used(record[..id])), ptr, end)
      {
        UsedNext(strings, record[..], id);
        if record[id].time != 0 {
          ghost var names := AllNames(strings, Used(record[..id]));
          Reassociate(first, names, strings.Name(record[id]) + [0]);
          ptr := AppendItem(b, ptr, end, strings.Name(record[id]) + [0], was, h, first + names);
        }
      }
      assert record[..record.Length] == record[..];
    }

    /** The header, with no size yet, and everything behind it as far as it fits. */
    method WriteStash(b: array<Byte>, size: nat, count: U32, ghost was: seq<Byte>) returns (ptr: nat)
      requires 16 <= size <= b.Length && b[..] == was
      modifies b
      ensures Stashing(b[..], was, Header(VERSION, count, 0, MAGIC), Payload(strings, record[..]), ptr, size)
    {
      var h := Header(VERSION, count, 0, MAGIC);
      CopyInto(b, 0, HeaderBytes(h));
      assert b[..16] == HeaderBytes(h);
      ptr := StashRecords(b, 16, size, was, h);
      ptr := StashNames(b, ptr, size, was, h, AllRecordBytes(Used(record[..])));
    }

    /** bootstage_stash: writes the records in use to the buffer, of which size bytes may be used. */
    method Stash(b: array<Byte>, size: int) returns (rc: int)
      requires Valid() && size <= b.Length && size < 0x8000_0000
      modifies b
      ensures StashOutcome(strings, record[..], b[..], old(b[..]), size, rc)
      ensures rc != 0 && size != -1 ==> Rejected(b[..], size)
    {
      ghost var was, rs := b[..], record[..];
      if 16 > size {
        if size != -1 {
          TooSmallRejected(was, size);
        }
        return -1;
      }
      var count := CountUsed();
      var ptr := WriteStash(b, size, count, was);
      StashEnds(strings, rs, b[..], was, ptr, size);
      if ptr > size {
        FailedRejected(strings, rs, b[..], was, size);
        return -1;
      }
      CopyInto(b, 0, HeaderBytes(Header(VERSION, count, ptr, MAGIC)));
      rc := 0;
    }

    /** memcpy of the stashed records into the table from at on. */
    method CopyRecords(bytes: seq<Byte>, count: nat, at: nat)
      requires 16 + 20 * count <= |bytes| && at + count <= record.Length
      modifies record
      ensures record[..] == old(record[..])[..at] + RawRecords(bytes, count) + old(record[..])[at + count..]
    {
      ghost var was := record[..];
      for k := 0 to count
        invariant record[..] == was[..at] + RawRecords(bytes, k) + was[at + k..]
      {
        CopyRecord(bytes, k, at, was);
      }
    }

    method CopyRecord(bytes: seq<Byte>, k: nat, at: nat, ghost was: seq<Record>)
      requires 16 + 20 * (k + 1) <= |bytes| && at + k < record.Length == |was|
      requires record[..] == was[..at] + RawRecords(bytes, k) + was[at + k..]
      modifies record
      ensures record[..] == was[..at] + RawRecords(bytes, k + 1) + was[at + k + 1..]
    {
      var r := RecordAt(bytes, 16 + 20 * k);
      CopyOne(was, RawRecords(bytes, k), r, at);
      record[at + k] := r;
    }

    method NameRecord(bytes: seq<Byte>, base: U32, count: nat, n: nat, ghost was: seq<Record>, at: nat, ptr: nat)
      requires n < count && 16 + 20 * count <= |bytes| && base + |bytes| < 0x1_0000_0000
      requires AllTerminated(bytes, 16 + 20 * count, count) && at + count <= record.Length == |was|
      requires Terminated(bytes, 16 + 20 * count, n) && ptr == StringStart(bytes, 16 + 20 * count, n)
      requires record[..] == Halfway(bytes, base, count, n, was, at)
      modifies record
      ensures record[..] == Halfway(bytes, base, count, n + 1, was, at)
    {
      NameOne(bytes, base, count, n, was, at);
      record[at + n] := record[at + n].(name := base + ptr);
    }

    /** strlen */
    method EndOf(b: seq<Byte>, at: nat) returns (e: nat)
      requires at <= |b| && EndOfString(b, at) < |b|
      ensures e == EndOfString(b, at)
    {
      e := at;
      while b[e] != 0
        invariant at <= e < |b| && EndOfString(b, at) == EndOfString(b, e) < |b|
        decreases |b| - e
      {
        e := e + 1;
      }
    }

    method NameRecords(b: seq<Byte>, base: U32, count: nat, at: nat, ghost was: seq<Record>)
      requires 16 + 20 * count <= |b| && base + |b| < 0x1_0000_0000
      requires at + count <= record.Length == |was|
      requires AllTerminated(b, 16 + 20 * count, count)
      requires record[..] == was[..at] + RawRecords(b, count) + was[at + count..]
      modifies record
      ensures record[..] == was[..at] + RestoredRecords(b, base, count, count) + was[at + count..]
    {
      var ptr := 16 + 20 * count;
      ghost var start := ptr;
      AllNamed(b, base, count, was, at);
      for id := 0 to count
        invariant ptr == StringStart(b, start, id)
        invariant record[..] == Halfway(b, base, count, id, was, at)
      {
        assert Terminated(b, start, id);
        NameRecord(b, base, count, id, was, at, ptr);
        ptr := EndOf(b, ptr);
        ptr := ptr + 1;
      }
    }

    /** The checks at the beginning of bootstage_unstash. */
    method Check(b: array<Byte>, base: U32, size: int) returns (ok: bool)
      requires Words.Wrap(base + 16) <= End(base, size) ==> 16 <= b.Length
      ensures ok == Accepts(b[..], base, size, nextId, record.Length)
    {
      if Words.Wrap(base + 16) > End(base, size) {
        return false;
      }
      var h := HeaderAt(b[..]);
      if h.magic != MAGIC || Words.Wrap(base + h.size) > End(base, size) || Words.Wrap(h.count * 20) > h.size
        || h.version != VERSION || Words.Wrap(nextId + h.count) > record.Length {
        return false;
      }
      ok := true;
    }

    /** bootstage_unstash: appends the stashed records to the table. */
    method Unstash(b: array<Byte>, base: U32, size: int) returns (rc: int)
      requires Valid() && 0 < base && base + b.Length < 0x1_0000_0000
      requires nextId < 0x8000_0000 && (Words.Wrap(base + 16) <= End(base, size) ==> 16 <= b.Length)
      requires Accepts(b[..], base, size, nextId, record.Length) ==> Uncorrupted(b[..])
      modifies this`nextId, record
      ensures rc == 0 <==> old(Accepts(b[..], base, size, nextId, record.Length))
      ensures rc != 0 ==> rc == -1 && nextId == old(nextId) && record[..] == old(record[..])
      ensures rc == 0 ==>
        var count := HeaderAt(b[..]).count;
        && nextId == old(nextId) + count && Uncorrupted(b[..]) && nextId <= record.Length
        && record[..] == old(record[..])[..old(nextId)] + RestoredRecords(b[..], base, count, count)
                       + old(record[..])[nextId..]
    {
      var ok := Check(b, base, size);
      if !ok {
        return -1;
      }
      var h := HeaderAt(b[..]);
      RoomInTable(h, base, size, nextId, record.Length);
      ghost var was := record[..];
      CopyRecords(b[..], h.count, nextId);
      NameRecords(b[..], base, h.count, nextId, was);
      nextId := nextId + h.count;
      rc := 0;
    }
  }

  lemma {:induction false} OnlyFirst(rs: seq<Record>)
    requires |rs| > 0 && rs[0].time != 0 && forall k | 1 <= k < |rs| :: rs[k].time == 0
    ensures Used(rs) == [rs[0]]
  {
    if |rs| > 1 {
      OnlyFirst(rs[..|rs| - 1]);
    } else {
      assert rs[..0] == [];
    }
  }
}
