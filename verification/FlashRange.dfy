/**
 * From an address range to flash sectors: which sectors of which banks an erase or protect command
 * works on.
 */
module FlashRange {
  import opened Words

  type Address = a: int | 0 <= a < 0x1_0000_0000

  /** A flash bank: the first count entries of start are the addresses of its sectors. */
  datatype Bank = Bank(known: bool, size: Address, count: nat, start: seq<Address>)
  {
    /** Its table of sectors has room for one, and their number fits the variable that holds it. */
    predicate Stored() { 1 <= |start| && count <= |start| && count <= 0x8000 }

    function End(): Address
      requires Stored()
    {
      Wrap(start[0] + size - 1)
    }

    function SectorEnd(i: nat): Address
      requires Stored() && i < count
    {
      if i == count - 1 then End() else Wrap(start[i + 1] as int - 1)
    }

    /** Sectors in ascending order, without gaps, within the 32-bit address space. */
    predicate Sane() {
      && Stored() && 1 <= count && 1 <= size && start[0] + size <= 0x1_0000_0000
      && start[count - 1] < start[0] + size
      && forall i, j | 0 <= i < j < count :: start[i] < start[j]
    }

    predicate Holds(a: int)
      requires Stored()
    {
      start[0] <= a <= End()
    }
  }

  lemma EndIsTop(b: Bank)
    requires b.Sane()
    ensures b.End() == b.start[0] + b.size - 1
  {
  }

  lemma SectorEndIs(b: Bank, i: nat)
    requires b.Sane() && i < b.count
    ensures b.SectorEnd(i) == if i == b.count - 1 then b.End() else b.start[i + 1] - 1
    ensures b.start[0] <= b.start[i] <= b.SectorEnd(i) <= b.End()
  {
    EndIsTop(b);
    if i < b.count - 1 {
      assert b.start[i] < b.start[i + 1] <= b.start[b.count - 1];
    }
  }

  /** Sectors do not overlap. */
  lemma SectorsApart(b: Bank, i: nat, j: nat)
    requires b.Sane() && i < j < b.count
    ensures b.SectorEnd(i) < b.start[j] && b.SectorEnd(i) < b.SectorEnd(j)
  {
    SectorEndIs(b, i);
    SectorEndIs(b, j);
    assert i + 1 < j ==> b.start[i + 1] < b.start[j];
  }

  // One bank.

  /** s_first after n sectors. */
  function FirstAmong(b: Bank, first: Address, last: Address, n: nat): (s: int)
    requires b.Stored() && n <= b.count
    ensures -1 <= s < n
  {
    if n == 0 then -1
    else if first <= b.SectorEnd(n - 1) && b.start[n - 1] <= last && first == b.start[n - 1] then n - 1
    else FirstAmong(b, first, last, n - 1)
  }

  /** s_last after n sectors. */
  function LastAmong(b: Bank, first: Address, last: Address, n: nat): (s: int)
    requires b.Stored() && n <= b.count
    ensures -1 <= s < n
  {
    if n == 0 then -1
    else if first <= b.SectorEnd(n - 1) && b.start[n - 1] <= last && last == b.SectorEnd(n - 1) then n - 1
    else LastAmong(b, first, last, n - 1)
  }

  /** The sectors chosen in a bank; -1 for none. */
  datatype Pick = Pick(first: int, last: int)

  datatype Step = Skip | Stop(pick: Pick) | Take(pick: Pick, next: Address)

  function NONE(): Pick { Pick(-1, -1) }

  /** What becomes of one bank when the range still to do is first..last. */
  function BankStep(b: Bank, first: Address, last: Address): Step
    requires b.Stored()
  {
    var f, l := FirstAmong(b, first, last, b.count), LastAmong(b, first, last, b.count);
    if f >= 0 then
      if l < 0 && last <= b.End() then Stop(Pick(f, l))
      else
        var l' := if l < 0 then b.count - 1 else l;
        if l' < f then Stop(Pick(f, l'))
        else Take(Pick(f, l'), if l' == b.count - 1 then Wrap(b.End() + 1) else b.start[l' + 1])
    else if b.start[0] <= first < b.End() then Stop(Pick(f, l))
    else if l >= 0 then Stop(Pick(f, l))
    else Skip
  }

  /** The loop over the sectors of one bank. */
  method ScanBank(b: Bank, first: Address, last: Address) returns (sFirst: int, sLast: int)
    requires b.Stored()
    ensures sFirst == FirstAmong(b, first, last, b.count) && sLast == LastAmong(b, first, last, b.count)
  {
    sFirst, sLast := -1, -1;
    for sect := 0 to b.count
      invariant sFirst == FirstAmong(b, first, last, sect) && sLast == LastAmong(b, first, last, sect)
    {
      var end := b.SectorEnd(sect);
      if first > end {
        continue;
      }
      if last < b.start[sect] {
        continue;
      }
      if first == b.start[sect] {
        sFirst := sect;
      }
      if last == end {
        sLast := sect;
      }
    }
  }

  /** In a sane bank s_first is the sector the range starts with, if there is one. */
  lemma {:induction false} FirstFound(b: Bank, first: Address, last: Address, n: nat)
    requires b.Sane() && first <= last && n <= b.count
    ensures var f := FirstAmong(b, first, last, n);
      && (f >= 0 ==> b.start[f] == first)
      && (f < 0 ==> forall i | 0 <= i < n :: b.start[i] != first)
  {
    if n > 0 {
      FirstFound(b, first, last, n - 1);
      SectorEndIs(b, n - 1);
    }
  }

  /** And s_last is the sector it ends with. */
  lemma {:induction false} LastFound(b: Bank, first: Address, last: Address, n: nat)
    requires b.Sane() && first <= last && n <= b.count
    ensures var l := LastAmong(b, first, last, n);
      && (l >= 0 ==> b.SectorEnd(l) == last)
      && (l < 0 ==> forall i | 0 <= i < n :: b.SectorEnd(i) != last)
  {
    if n > 0 {
      LastFound(b, first, last, n - 1);
      SectorEndIs(b, n - 1);
    }
  }

  /** The sectors a pick names. */
  predicate PickIn(b: Bank, p: Pick)
    requires b.Stored()
  {
    0 <= p.first <= p.last < b.count
  }

  /** The first address behind a pick, not wrapped around. */
  function Behind(b: Bank, p: Pick): int
    requires b.Stored() && PickIn(b, p)
  {
    b.SectorEnd(p.last) + 1
  }

  /** A pick starts where the range does and stays within it; what is left starts right behind it. */
  predicate GoodTake(b: Bank, first: Address, last: Address, p: Pick, next: Address)
    requires b.Stored()
  {
    && PickIn(b, p) && b.start[p.first] == first < Behind(b, p) <= last + 1 && next == Wrap(Behind(b, p))
    && (Behind(b, p) == last + 1 || Behind(b, p) == b.End() + 1)
  }

  lemma TakeRight(b: Bank, first: Address, last: Address)
    requires b.Sane() && first <= last
    ensures var step := BankStep(b, first, last); step.Take? ==> GoodTake(b, first, last, step.pick, step.next)
  {
    if BankStep(b, first, last).Take? {
      var f, l := TakenSpan(b, first, last);
      GoodSpan(b, first, last, f, l);
    }
  }

  lemma TakenSpan(b: Bank, first: Address, last: Address) returns (f: nat, l: nat)
    requires b.Sane() && first <= last && BankStep(b, first, last).Take?
    ensures f <= l < b.count && b.start[f] == first
    ensures b.SectorEnd(l) == last || (l == b.count - 1 && last > b.End())
    ensures BankStep(b, first, last) == Take(Pick(f, l), if l == b.count - 1 then Wrap(b.End() + 1) else b.start[l + 1])
  {
    FirstFound(b, first, last, b.count);
    LastFound(b, first, last, b.count);
    f, l := FirstAmong(b, first, last, b.count), b.count - 1;
    if LastAmong(b, first, last, b.count) >= 0 {
      l := LastAmong(b, first, last, b.count);
    }
  }

  lemma GoodSpan(b: Bank, first: Address, last: Address, f: nat, l: nat)
    requires b.Sane() && f <= l < b.count && b.start[f] == first
    requires b.SectorEnd(l) == last || (l == b.count - 1 && last > b.End())
    ensures GoodTake(b, first, last, Pick(f, l), if l == b.count - 1 then Wrap(b.End() + 1) else b.start[l + 1])
  {
    SpanRight(b, f, l);
  }

  lemma SpanRight(b: Bank, f: nat, l: nat)
    requires b.Sane() && f <= l < b.count
    ensures b.start[f] < b.SectorEnd(l) + 1
    ensures l < b.count - 1 ==> b.start[l + 1] == b.SectorEnd(l) + 1
    ensures l == b.count - 1 ==> b.SectorEnd(l) == b.End()
  {
    SectorEndIs(b, f);
    SectorEndIs(b, l);
    if f < l {
      SectorsApart(b, f, l);
    }
  }

  // All banks.

  datatype State = State(rc: int, first: Address, picks: seq<Pick>, count: int)

  predicate AllStored(banks: seq<Bank>) { forall k | 0 <= k < |banks| :: banks[k].Stored() }

  /** One more bank, of which nothing is chosen once the range is done or there was an error. */
  function NextState(s: State, b: Bank, last: Address): (e: State)
    requires b.Stored()
    ensures |e.picks| == |s.picks| + 1 && s.picks <= e.picks
  {
    if s.rc != 0 || s.first > last || !b.known then s.(picks := s.picks + [NONE()])
    else
      match BankStep(b, s.first, last)
      case Skip => s.(picks := s.picks + [NONE()])
      case Stop(p) => State(1, s.first, s.picks + [p], s.count)
      case Take(p, next) => State(0, next, s.picks + [p], s.count + p.last - p.first + 1)
  }

  /** After the first k banks: what is left starts at first. */
  function After(banks: seq<Bank>, first: Address, last: Address, k: nat): (s: State)
    requires AllStored(banks) && k <= |banks|
    ensures |s.picks| == k
  {
    if k == 0 then State(0, first, [], 0) else NextState(After(banks, first, last, k - 1), banks[k - 1], last)
  }

  /** The arrays hold the picks of the first k banks, and -1 behind them. */
  predicate Written(picks: seq<Pick>, sFirst: seq<int>, sLast: seq<int>) {
    && |sFirst| == |sLast| >= |picks|
    && (forall i | 0 <= i < |picks| :: sFirst[i] == picks[i].first && sLast[i] == picks[i].last)
    && (forall i | |picks| <= i < |sFirst| :: sFirst[i] == -1 && sLast[i] == -1)
  }

  /** From s to e only banks were added of which nothing is chosen. */
  predicate Unmoved(s: State, e: State) {
    && e.rc == s.rc && e.first == s.first && e.count == s.count && s.picks <= e.picks
    && forall i | |s.picks| <= i < |e.picks| :: e.picks[i] == NONE()
  }

  lemma {:induction false} NothingMore(banks: seq<Bank>, first: Address, last: Address, k: nat, n: nat)
    requires AllStored(banks) && k <= n <= |banks|
    requires var s := After(banks, first, last, k); s.rc != 0 || s.first > last
    ensures Unmoved(After(banks, first, last, k), After(banks, first, last, n))
  {
    if k < n {
      NothingMore(banks, first, last, k, n - 1);
      UnmovedStep(After(banks, first, last, k), After(banks, first, last, n - 1), banks[n - 1], last);
    }
  }

  lemma UnmovedStep(s: State, e: State, b: Bank, last: Address)
    requires b.Stored() && Unmoved(s, e) && (s.rc != 0 || s.first > last)
    ensures Unmoved(s, NextState(e, b, last))
  {
  }

  /** flash_fill_sect_ranges */
  method FillSectRanges(banks: seq<Bank>, first0: Address, last: Address, sFirst: array<int>, sLast: array<int>)
    returns (rc: int, count: int)
    requires AllStored(banks) && sFirst != sLast && sFirst.Length == sLast.Length == |banks|
    modifies sFirst, sLast
    ensures var s := After(banks, first0, last, |banks|);
      rc == s.rc && count == s.count && Written(s.picks, sFirst[..], sLast[..])
  {
    ClearPicks(sFirst, sLast);
    rc, count := 0, 0;
    var first, bank := first0, 0;
    while bank < |banks| && first <= last && rc == 0
      invariant 0 <= bank <= |banks|
      invariant var s := After(banks, first0, last, bank); rc == s.rc && first == s.first && count == s.count
      invariant Written(After(banks, first0, last, bank).picks, sFirst[..], sLast[..])
      decreases |banks| - bank
    {
      ghost var f0, l0 := sFirst[..], sLast[..];
      if banks[bank].known {
        rc, first, count := FillBank(banks[bank], bank, first, last, count, sFirst, sLast);
      }
      WrittenNext(banks, first0, last, bank, f0, l0, sFirst[..], sLast[..]);
      bank := bank + 1;
    }
    if bank < |banks| {
      NothingMore(banks, first0, last, bank, |banks|);
    }
  }

  lemma WrittenNext(banks: seq<Bank>, first: Address, last: Address, k: nat,
                    f0: seq<int>, l0: seq<int>, f1: seq<int>, l1: seq<int>)
    requires AllStored(banks) && k < |banks| == |f0|
    requires Written(After(banks, first, last, k).picks, f0, l0)
    requires var p := After(banks, first, last, k + 1).picks[k];
      Recorded(f0, l0, f1, l1, k, p) || (p == NONE() && f1 == f0 && l1 == l0)
    ensures Written(After(banks, first, last, k + 1).picks, f1, l1)
  {
    assert After(banks, first, last, k).picks <= After(banks, first, last, k + 1).picks;
  }

  method ClearPicks(sFirst: array<int>, sLast: array<int>)
    requires sFirst != sLast && sFirst.Length == sLast.Length
    modifies sFirst, sLast
    ensures Written([], sFirst[..], sLast[..])
  {
    for bank := 0 to sFirst.Length
      invariant forall i | 0 <= i < bank :: sFirst[i] == -1 && sLast[i] == -1
    {
      sFirst[bank] := -1;
      sLast[bank] := -1;
    }
  }

  /** One bank of the loop: sets its entries, and moves first behind what was chosen. */
  method FillBank(b: Bank, bank: nat, first: Address, last: Address, count: int, sFirst: array<int>, sLast: array<int>)
    returns (rc: int, first': Address, count': int)
    requires b.Stored() && sFirst != sLast && bank < sFirst.Length == sLast.Length
    modifies sFirst, sLast
    ensures match BankStep(b, first, last)
      case Skip => rc == 0 && first' == first && count' == count
      case Stop(_) => rc == 1 && first' == first && count' == count
      case Take(p, next) => rc == 0 && first' == next && count' == count + p.last - p.first + 1
    ensures Recorded(old(sFirst[..]), old(sLast[..]), sFirst[..], sLast[..], bank, PickOf(BankStep(b, first, last)))
  {
    rc, first', count' := 0, first, count;
    var f, l := ScanBank(b, first, last);
    var last' := l;
    if f >= 0 {
      if l < 0 && last > b.End() {
        last' := b.count - 1;
      }
      if last' < f {
        rc := 1;
      } else {
        first' := if last' == b.count - 1 then Wrap(b.End() + 1) else b.start[last' + 1];
        count' := count + last' - f + 1;
      }
    } else if first >= b.start[0] && first < b.End() {
      rc := 1;
    } else if l >= 0 {
      rc := 1;
    }
    sFirst[bank] := f;
    sLast[bank] := last';
  }

  /** The entries a step leaves for its bank. */
  function PickOf(s: Step): Pick { if s.Skip? then NONE() else s.pick }

  predicate Recorded(f0: seq<int>, l0: seq<int>, f1: seq<int>, l1: seq<int>, bank: nat, p: Pick) {
    bank < |f0| && bank < |l0| && f1 == f0[bank := p.first] && l1 == l0[bank := p.last]
  }

  // What is chosen.

  /** Banks that are known are sane. */
  predicate AllSane(banks: seq<Bank>) {
    && AllStored(banks)
    && forall k | 0 <= k < |banks| :: banks[k].known ==> banks[k].Sane()
  }

  /** Whether something is chosen in bank k. */
  predicate Chosen(banks: seq<Bank>, picks: seq<Pick>, k: nat)
    requires AllStored(banks) && k < |picks| <= |banks|
  {
    banks[k].known && PickIn(banks[k], picks[k])
  }

  /** The first address behind all that is chosen, not wrapped around. */
  function Next(banks: seq<Bank>, picks: seq<Pick>, first: int): int
    requires AllStored(banks) && |picks| <= |banks|
  {
    if picks == [] then first
    else
      var k := |picks| - 1;
      if Chosen(banks, picks, k) then Behind(banks[k], picks[k]) else Next(banks, picks[..k], first)
  }

  /** The chosen sectors form one run from first on: in each bank they start where the ones before end. */
  predicate OneRun(banks: seq<Bank>, picks: seq<Pick>, first: int)
    requires AllStored(banks) && |picks| <= |banks|
  {
    picks == [] ||
    var k := |picks| - 1;
    && OneRun(banks, picks[..k], first)
    && (picks[k] == NONE() ||
      (Chosen(banks, picks, k)
       && banks[k].start[picks[k].first] == Next(banks, picks[..k], first) < Behind(banks[k], picks[k])))
  }

  function Sectors(picks: seq<Pick>): int {
    if picks == [] then 0
    else
      var p := picks[|picks| - 1];
      Sectors(picks[..|picks| - 1]) + if p == NONE() then 0 else p.last - p.first + 1
  }

  /** No bank that ends with the address space comes before one that begins with it. */
  predicate NoneBehindTop(banks: seq<Bank>)
    requires AllStored(banks)
  {
    forall i, j | 0 <= i < j < |banks| :: TopThenBottom(banks[i], banks[j]) ==> false
  }

  predicate TopThenBottom(a: Bank, b: Bank)
    requires a.Stored() && b.Stored()
  {
    a.known && b.known && a.End() == 0xffff_ffff && b.start[0] == 0
  }

  /** Among the first k banks one ends with the address space. */
  predicate TopReached(banks: seq<Bank>, k: nat)
    requires AllStored(banks) && k <= |banks|
  {
    exists i | 0 <= i < k :: banks[i].known && banks[i].End() == 0xffff_ffff
  }

  /** The picks so far are one run within the range, and what is left starts behind them. */
  predicate Good(banks: seq<Bank>, first: Address, last: Address, k: nat, s: State)
    requires AllStored(banks) && k <= |banks|
  {
    |s.picks| == k &&
    var next := Next(banks, s.picks, first);
    && OneRun(banks, s.picks, first)
    && first <= next <= last + 1 && s.first == Wrap(next) && s.count == Sectors(s.picks)
    && (next > 0xffff_ffff ==> TopReached(banks, k))
  }

  lemma {:induction false} SelectionGood(banks: seq<Bank>, first: Address, last: Address, k: nat)
    requires AllSane(banks) && NoneBehindTop(banks) && k <= |banks| && first <= last
    ensures GoodIfAny(banks, first, last, k, After(banks, first, last, k))
  {
    if k > 0 {
      SelectionGood(banks, first, last, k - 1);
      NextGood(banks, first, last, k - 1, After(banks, first, last, k - 1));
    }
  }

  /** As long as there is no error. */
  predicate GoodIfAny(banks: seq<Bank>, first: Address, last: Address, k: nat, s: State)
    requires AllStored(banks) && k <= |banks|
  {
    s.rc == 0 ==> Good(banks, first, last, k, s)
  }

  lemma NextGood(banks: seq<Bank>, first: Address, last: Address, k: nat, s: State)
    requires AllSane(banks) && NoneBehindTop(banks) && k < |banks| && first <= last
    requires GoodIfAny(banks, first, last, k, s)
    ensures GoodIfAny(banks, first, last, k + 1, NextState(s, banks[k], last))
  {
    if NextState(s, banks[k], last).rc == 0 {
      NoErrorBefore(s, banks[k], last);
      GoodStep(banks, first, last, k, s);
    }
  }

  lemma NoErrorBefore(s: State, b: Bank, last: Address)
    requires b.Stored() && NextState(s, b, last).rc == 0
    ensures s.rc == 0
  {
  }

  lemma GoodStep(banks: seq<Bank>, first: Address, last: Address, k: nat, s: State)
    requires AllSane(banks) && NoneBehindTop(banks) && k < |banks| && first <= last
    requires Good(banks, first, last, k, s) && s.rc == 0 && NextState(s, banks[k], last).rc == 0
    ensures Good(banks, first, last, k + 1, NextState(s, banks[k], last))
  {
    var e := NextState(s, banks[k], last);
    if s.first <= last && banks[k].known && BankStep(banks[k], s.first, last).Take? {
      TakeRight(banks[k], s.first, last);
      var p := e.picks[k];
      NotWrapped(banks, k, p, s.first, Next(banks, s.picks, first));
      GoodTaken(banks, first, last, k, s, e, p);
    } else {
      GoodSkipped(banks, first, last, k, s, e);
    }
  }

  /** Behind a bank that ends with the address space no bank starts a pick at address 0. */
  lemma NotAtBottom(banks: seq<Bank>, k: nat, p: Pick)
    requires AllSane(banks) && NoneBehindTop(banks) && k < |banks| && TopReached(banks, k)
    requires banks[k].known && PickIn(banks[k], p)
    ensures banks[k].start[p.first] != 0
  {
    var i :| 0 <= i < k && banks[i].known && banks[i].End() == 0xffff_ffff;
    SectorEndIs(banks[k], p.first);
    assert TopThenBottom(banks[i], banks[k]) ==> false;
  }

  lemma NotWrapped(banks: seq<Bank>, k: nat, p: Pick, first: Address, next: nat)
    requires AllSane(banks) && NoneBehindTop(banks) && k < |banks| && banks[k].known && PickIn(banks[k], p)
    requires next <= 0x1_0000_0000 && first == Wrap(next) && banks[k].start[p.first] == first
    requires next > 0xffff_ffff ==> TopReached(banks, k)
    ensures next == first
  {
    if next > 0xffff_ffff {
      NotAtBottom(banks, k, p);
    }
  }

  lemma GoodSkipped(banks: seq<Bank>, first: Address, last: Address, k: nat, s: State, e: State)
    requires AllStored(banks) && k < |banks| && Good(banks, first, last, k, s)
    requires e == s.(picks := s.picks + [NONE()])
    ensures Good(banks, first, last, k + 1, e)
  {
    assert e.picks[..k] == s.picks;
    TopStays(banks, k);
  }

  lemma TopStays(banks: seq<Bank>, k: nat)
    requires AllStored(banks) && k < |banks|
    ensures TopReached(banks, k) ==> TopReached(banks, k + 1)
    ensures banks[k].known && banks[k].End() == 0xffff_ffff ==> TopReached(banks, k + 1)
  {
  }

  lemma GoodTaken(banks: seq<Bank>, first: Address, last: Address, k: nat, s: State, e: State, p: Pick)
    requires AllStored(banks) && k < |banks| && Good(banks, first, last, k, s)
    requires banks[k].known && banks[k].Sane() && Next(banks, s.picks, first) == s.first
    requires GoodTake(banks[k], s.first, last, p, e.first)
    requires e == State(0, e.first, s.picks + [p], s.count + p.last - p.first + 1)
    ensures Good(banks, first, last, k + 1, e)
  {
    assert e.picks[..k] == s.picks;
    SectorEndIs(banks[k], p.last);
    TopStays(banks, k);
  }

  /** Every sector chosen lies within the requested range. */
  predicate Inside(banks: seq<Bank>, picks: seq<Pick>, first: int, last: int)
    requires AllStored(banks) && |picks| <= |banks|
  {
    forall k | 0 <= k < |picks| && Chosen(banks, picks, k) :: PickInside(banks[k], picks[k], first, last)
  }

  predicate PickInside(b: Bank, p: Pick, first: int, last: int)
    requires b.Stored() && PickIn(b, p)
  {
    first <= b.start[p.first] && b.SectorEnd(p.last) <= last
  }

  lemma {:induction false} RunInside(banks: seq<Bank>, picks: seq<Pick>, first: int, k: nat)
    requires AllStored(banks) && |picks| <= |banks| && OneRun(banks, picks, first)
    ensures first <= Next(banks, picks, first)
    ensures k < |picks| && Chosen(banks, picks, k) ==>
      PickInside(banks[k], picks[k], first, Next(banks, picks, first) - 1)
  {
    if picks != [] {
      var n := |picks| - 1;
      RunInside(banks, picks[..n], first, k);
      if k < n {
        assert Chosen(banks, picks, k) == Chosen(banks, picks[..n], k);
      }
    }
  }

  /** What is chosen in a later bank lies behind what is chosen in an earlier one. */
  lemma {:induction false} RunOrdered(banks: seq<Bank>, picks: seq<Pick>, first: int, i: nat, j: nat)
    requires AllStored(banks) && |picks| <= |banks| && OneRun(banks, picks, first) && i < j < |picks|
    requires Chosen(banks, picks, i) && Chosen(banks, picks, j)
    ensures Behind(banks[i], picks[i]) <= banks[j].start[picks[j].first]
  {
    var n := |picks| - 1;
    assert Chosen(banks, picks[..n], i);
    if j < n {
      RunOrdered(banks, picks[..n], first, i, j);
    } else {
      RunInside(banks, picks[..n], first, i);
    }
  }

  /** Whenever the selection succeeds it is one run of sectors, inside the range, and counted right. */
  lemma SelectionInside(banks: seq<Bank>, first: Address, last: Address)
    requires AllSane(banks) && NoneBehindTop(banks) && first <= last
    requires After(banks, first, last, |banks|).rc == 0
    ensures var s := After(banks, first, last, |banks|);
      OneRun(banks, s.picks, first) && Inside(banks, s.picks, first, last) && s.count == Sectors(s.picks)
  {
    var s := After(banks, first, last, |banks|);
    SelectionGood(banks, first, last, |banks|);
    forall k | 0 <= k < |s.picks| && Chosen(banks, s.picks, k)
      ensures PickInside(banks[k], s.picks[k], first, last)
    {
      RunInside(banks, s.picks, first, k);
    }
  }

  // Exactly when nothing outside the range is chosen.

  predicate Apart(a: Bank, b: Bank)
    requires a.Stored() && b.Stored()
  {
    a.End() < b.start[0] || b.End() < a.start[0]
  }

  /** Known banks do not overlap. */
  predicate AllApart(banks: seq<Bank>)
    requires AllStored(banks)
  {
    forall i, j | 0 <= i < |banks| && 0 <= j < |banks| && i != j && banks[i].known && banks[j].known ::
      Apart(banks[i], banks[j])
  }

  /** Whatever the range, a selection that succeeds stays inside. */
  ghost predicate AlwaysInside(banks: seq<Bank>)
    requires AllStored(banks)
  {
    forall first: Address, last: Address | first <= last ::
      var s := After(banks, first, last, |banks|); s.rc == 0 ==> Inside(banks, s.picks, first, last)
  }

  /** Beyond a bank's end the range takes the whole bank if it starts there, and else passes it by. */
  lemma StepClear(b: Bank, first: Address, last: Address)
    requires b.Sane() && first <= last && b.End() < last && (first <= b.start[0] || b.End() < first)
    ensures BankStep(b, first, last)
      == if first == b.start[0] then Take(Pick(0, b.count - 1), Wrap(b.End() + 1)) else Skip
  {
    FirstFound(b, first, last, b.count);
    LastFound(b, first, last, b.count);
    var f, l := FirstAmong(b, first, last, b.count), LastAmong(b, first, last, b.count);
    if l >= 0 {
      SectorEndIs(b, l);
    }
    if f >= 0 {
      SectorEndIs(b, f);
    }
    SectorEndIs(b, 0);
  }

  /** The start of a bank's last sector. */
  function LastSector(b: Bank): Address
    requires b.Stored() && b.count > 0
  {
    b.start[b.count - 1]
  }

  lemma StepAtTop(b: Bank)
    requires b.Sane() && b.End() == 0xffff_ffff
    ensures BankStep(b, LastSector(b), 0xffff_ffff) == Take(Pick(b.count - 1, b.count - 1), 0)
  {
    var first := LastSector(b);
    SectorEndIs(b, b.count - 1);
    FirstFound(b, first, 0xffff_ffff, b.count);
    LastFound(b, first, 0xffff_ffff, b.count);
    var f, l := FirstAmong(b, first, 0xffff_ffff, b.count), LastAmong(b, first, 0xffff_ffff, b.count);
    if l < b.count - 1 && l >= 0 {
      SectorsApart(b, l, b.count - 1);
    }
  }

  /** Where the range stands before bank k, when it runs off the top in bank i and on to bank j at the bottom. */
  predicate Astray(banks: seq<Bank>, i: nat, j: nat, k: nat, s: State)
    requires AllSane(banks) && i < j < |banks| && k <= |banks| && banks[i].known
  {
    && s.rc == 0 && |s.picks| == k
    && (k <= i ==> s.first == LastSector(banks[i]))
    && (i < k <= j ==> s.first == 0)
    && (k > j ==> EndsBank(banks, i, s.first) && Chosen(banks, s.picks, j) && s.picks[j].first == 0)
  }

  /** The range goes on right behind some known bank other than bank i. */
  predicate EndsBank(banks: seq<Bank>, i: nat, first: Address)
    requires AllSane(banks)
  {
    exists x | 0 <= x < |banks| :: x != i && banks[x].known && first == Wrap(banks[x].End() + 1)
  }

  lemma AstrayStep(banks: seq<Bank>, i: nat, j: nat, k: nat, s: State)
    requires AllSane(banks) && AllApart(banks) && i < j < |banks| && k < |banks|
    requires TopThenBottom(banks[i], banks[j]) && Astray(banks, i, j, k, s) && k != i && banks[k].known
    ensures Astray(banks, i, j, k + 1, NextState(s, banks[k], 0xffff_ffff))
  {
    AstrayClear(banks, i, j, k, s);
    StepClear(banks[k], s.first, 0xffff_ffff);
    if i < k < j {
      assert Apart(banks[j], banks[k]);
      EndIsTop(banks[j]);
    }
  }

  lemma AstrayClear(banks: seq<Bank>, i: nat, j: nat, k: nat, s: State)
    requires AllSane(banks) && AllApart(banks) && i < j < |banks| && k < |banks|
    requires TopThenBottom(banks[i], banks[j]) && Astray(banks, i, j, k, s) && k != i && banks[k].known
    ensures banks[k].End() < 0xffff_ffff && (s.first <= banks[k].start[0] || banks[k].End() < s.first)
    ensures k < i ==> s.first != banks[k].start[0]
  {
    var b := banks[k];
    assert Apart(banks[i], b);
    EndIsTop(b);
    EndIsTop(banks[i]);
    SectorEndIs(banks[i], banks[i].count - 1);
    if k > j {
      EndedClear(banks, i, k, s.first);
    }
  }

  lemma EndedClear(banks: seq<Bank>, i: nat, k: nat, first: Address)
    requires AllSane(banks) && AllApart(banks) && i < |banks| && k < |banks| && k != i && banks[k].known
    requires banks[i].known && banks[i].End() == 0xffff_ffff && EndsBank(banks, i, first)
    ensures first <= banks[k].start[0] || banks[k].End() < first
  {
    var x :| 0 <= x < |banks| && x != i && banks[x].known && first == Wrap(banks[x].End() + 1);
    BehindIsClear(banks[x], banks[i], banks[k], first);
  }

  /** The address behind bank x, which is not the top one, does not lie within another bank. */
  lemma BehindIsClear(x: Bank, top: Bank, b: Bank, first: Address)
    requires x.Sane() && top.Stored() && b.Stored() && top.End() == 0xffff_ffff
    requires Apart(x, top) && (x == b || Apart(x, b)) && first == Wrap(x.End() + 1)
    ensures first <= b.start[0] || b.End() < first
  {
    EndIsTop(x);
  }

  lemma {:induction false} GoesAstray(banks: seq<Bank>, i: nat, j: nat, k: nat)
    requires AllSane(banks) && AllApart(banks) && i < j < |banks| && k <= |banks|
    requires TopThenBottom(banks[i], banks[j])
    ensures Astray(banks, i, j, k, After(banks, LastSector(banks[i]), 0xffff_ffff, k))
  {
    if k > 0 {
      GoesAstray(banks, i, j, k - 1);
      var s := After(banks, LastSector(banks[i]), 0xffff_ffff, k - 1);
      if k - 1 == i {
        AstrayAtTop(banks, i, j, s);
      } else if banks[k - 1].known {
        AstrayStep(banks, i, j, k - 1, s);
      } else {
        AstrayUnknown(banks, i, j, k - 1, s);
      }
    }
  }

  lemma AstrayAtTop(banks: seq<Bank>, i: nat, j: nat, s: State)
    requires AllSane(banks) && i < j < |banks|
    requires TopThenBottom(banks[i], banks[j]) && Astray(banks, i, j, i, s)
    ensures Astray(banks, i, j, i + 1, NextState(s, banks[i], 0xffff_ffff))
  {
    StepAtTop(banks[i]);
  }

  lemma AstrayUnknown(banks: seq<Bank>, i: nat, j: nat, k: nat, s: State)
    requires AllSane(banks) && i < j < |banks| && k < |banks|
    requires TopThenBottom(banks[i], banks[j]) && Astray(banks, i, j, k, s) && !banks[k].known
    ensures Astray(banks, i, j, k + 1, NextState(s, banks[k], 0xffff_ffff))
  {
  }

  /**
   * Selections stay inside the requested range exactly when no bank that ends with the address space is
   * followed by one that begins with it.
   */
  lemma InsideExact(banks: seq<Bank>)
    requires AllSane(banks) && AllApart(banks)
    ensures AlwaysInside(banks) <==> NoneBehindTop(banks)
  {
    if NoneBehindTop(banks) {
      forall first: Address, last: Address | first <= last
        ensures var s := After(banks, first, last, |banks|); s.rc == 0 ==> Inside(banks, s.picks, first, last)
      {
        if After(banks, first, last, |banks|).rc == 0 {
          SelectionInside(banks, first, last);
        }
      }
    } else {
      var i, j :| 0 <= i < j < |banks| && TopThenBottom(banks[i], banks[j]);
      NotInside(banks, i, j);
    }
  }

  lemma NotInside(banks: seq<Bank>, i: nat, j: nat)
    requires AllSane(banks) && AllApart(banks) && i < j < |banks| && TopThenBottom(banks[i], banks[j])
    ensures !AlwaysInside(banks)
  {
    var first := LastSector(banks[i]);
    GoesAstray(banks, i, j, |banks|);
    var s := After(banks, first, 0xffff_ffff, |banks|);
    assert s.rc == 0 && Chosen(banks, s.picks, j);
    assert Apart(banks[i], banks[j]);
    EndIsTop(banks[i]);
    SectorEndIs(banks[i], banks[i].count - 1);
    assert !PickInside(banks[j], s.picks[j], first, 0xffff_ffff);
  }

  // Covering a range exactly.

  /** All banks known, each starting right behind the one before. */
  predicate Contiguous(banks: seq<Bank>) {
    && AllSane(banks)
    && (forall k | 0 <= k < |banks| :: banks[k].known)
    && (forall k | 0 <= k < |banks| - 1 :: Follows(banks[k], banks[k + 1]))
  }

  predicate Follows(a: Bank, b: Bank)
    requires a.Stored() && b.Stored()
  {
    b.start[0] as int == a.End() as int + 1
  }

  lemma {:induction false} BanksAscend(banks: seq<Bank>, i: nat, j: nat)
    requires Contiguous(banks) && i < j < |banks|
    ensures banks[i].End() < banks[j].start[0]
    ensures j == i + 1 ==> banks[j].start[0] as int == banks[i].End() as int + 1
  {
    assert Follows(banks[j - 1], banks[j]);
    if i < j - 1 {
      BanksAscend(banks, i, j - 1);
      SectorEndIs(banks[j - 1], 0);
    }
  }

  /** From a sector to the end of the bank, when the range goes on behind it. */
  lemma StepToEnd(b: Bank, f: nat, last: Address)
    requires b.Sane() && f < b.count && b.End() < last
    ensures BankStep(b, b.start[f], last) == Take(Pick(f, b.count - 1), Wrap(b.End() + 1))
  {
    SectorEndIs(b, f);
    OnlyFirst(b, f, last);
    LastFound(b, b.start[f], last, b.count);
    var l := LastAmong(b, b.start[f], last, b.count);
    if l >= 0 {
      SectorEndIs(b, l);
    }
  }

  lemma OnlyFirst(b: Bank, f: nat, last: Address)
    requires b.Sane() && f < b.count && b.start[f] <= last
    ensures FirstAmong(b, b.start[f], last, b.count) == f
  {
    FirstFound(b, b.start[f], last, b.count);
    var f' := FirstAmong(b, b.start[f], last, b.count);
    if f' >= 0 {
      SameStart(b, f, f');
    }
  }

  lemma SameStart(b: Bank, i: nat, j: nat)
    requires b.Sane() && i < b.count && j < b.count && b.start[i] == b.start[j]
    ensures i == j
  {
  }

  lemma SameEnd(b: Bank, i: nat, j: nat)
    requires b.Sane() && i < b.count && j < b.count && b.SectorEnd(i) == b.SectorEnd(j)
    ensures i == j
  {
    if i < j {
      SectorsApart(b, i, j);
    } else if j < i {
      SectorsApart(b, j, i);
    }
  }

  /** From a sector to the one that ends the range. */
  lemma StepWithin(b: Bank, f: nat, l: nat)
    requires b.Sane() && f <= l < b.count
    ensures BankStep(b, b.start[f], b.SectorEnd(l)) == Take(Pick(f, l), Wrap(b.SectorEnd(l) + 1))
  {
    SpanRight(b, f, l);
    OnlyFirst(b, f, b.SectorEnd(l));
    OnlyLast(b, b.start[f], l);
  }

  lemma OnlyLast(b: Bank, first: Address, l: nat)
    requires b.Sane() && l < b.count && first <= b.SectorEnd(l)
    ensures LastAmong(b, first, b.SectorEnd(l), b.count) == l
  {
    LastFound(b, first, b.SectorEnd(l), b.count);
    var l' := LastAmong(b, first, b.SectorEnd(l), b.count);
    if l' >= 0 {
      SameEnd(b, l, l');
    }
  }

  /** A bank that ends before the range starts. */
  lemma StepBelow(b: Bank, first: Address, last: Address)
    requires b.Sane() && b.End() < first <= last
    ensures BankStep(b, first, last) == Skip
  {
    StepClear(b, first, last);
    SectorEndIs(b, 0);
  }

  /** Sector f of bank i up to sector l of bank j: how far the selection has come before bank k. */
  function Reached(banks: seq<Bank>, i: nat, f: nat, j: nat, l: nat, k: nat): int
    requires AllSane(banks) && i <= j < |banks| && k <= |banks|
    requires banks[i].known && banks[j].known && f < banks[i].count && l < banks[j].count
  {
    if k <= i then banks[i].start[f] else if k <= j then banks[k].start[0] else banks[j].SectorEnd(l) + 1
  }

  lemma CoverBelow(banks: seq<Bank>, i: nat, f: nat, last: Address, k: nat)
    requires Contiguous(banks) && k < i < |banks| && f < banks[i].count && banks[i].start[f] <= last
    ensures BankStep(banks[k], banks[i].start[f], last) == Skip
  {
    BanksAscend(banks, k, i);
    SectorEndIs(banks[i], f);
    StepBelow(banks[k], banks[i].start[f], last);
  }

  lemma CoverThrough(banks: seq<Bank>, k: nat, f: nat, j: nat, l: nat)
    requires Contiguous(banks) && k < j < |banks| && f < banks[k].count && l < banks[j].count
    ensures BankStep(banks[k], banks[k].start[f], banks[j].SectorEnd(l))
      == Take(Pick(f, banks[k].count - 1), banks[k + 1].start[0])
  {
    BanksAscend(banks, k, j);
    SectorEndIs(banks[j], l);
    BanksAscend(banks, k, k + 1);
    StepToEnd(banks[k], f, banks[j].SectorEnd(l));
  }

  /** The selection so far runs from sector f of bank i up to its goal, or to where it must go on. */
  predicate Covering(banks: seq<Bank>, i: nat, f: nat, j: nat, l: nat, k: nat, s: State)
    requires AllSane(banks) && i <= j < |banks| && k <= |banks|
    requires banks[i].known && banks[j].known && f < banks[i].count && l < banks[j].count
  {
    && s.rc == 0 && |s.picks| == k
    && (k <= j ==> s.first as int == Reached(banks, i, f, j, l, k))
    && (k > j ==> s.first == Wrap(banks[j].SectorEnd(l) + 1))
    && Next(banks, s.picks, banks[i].start[f]) == Reached(banks, i, f, j, l, k)
  }

  lemma CoverStep(banks: seq<Bank>, i: nat, f: nat, j: nat, l: nat, k: nat, s: State, f': nat)
    requires Contiguous(banks) && i <= k < j < |banks| && f < banks[i].count && l < banks[j].count
    requires Covering(banks, i, f, j, l, k, s) && s.first <= banks[j].SectorEnd(l)
    requires f' == if k == i then f else 0
    ensures Covering(banks, i, f, j, l, k + 1, NextState(s, banks[k], banks[j].SectorEnd(l)))
  {
    CoverThrough(banks, k, f', j, l);
    CoverOn(banks, i, f, j, l, k, s, NextState(s, banks[k], banks[j].SectorEnd(l)), f');
  }

  lemma CoverLastStep(banks: seq<Bank>, i: nat, f: nat, j: nat, l: nat, s: State, f': nat)
    requires Contiguous(banks) && i <= j < |banks| && f < banks[i].count && l < banks[j].count
    requires Covering(banks, i, f, j, l, j, s) && s.first <= banks[j].SectorEnd(l)
    requires f' == if j == i then f else 0
    ensures Covering(banks, i, f, j, l, j + 1, NextState(s, banks[j], banks[j].SectorEnd(l)))
  {
    FirstNotBehind(banks[j], f', l);
    StepWithin(banks[j], f', l);
    CoverLast(banks, i, f, j, l, s, NextState(s, banks[j], banks[j].SectorEnd(l)), f');
  }

  lemma CoverOn(banks: seq<Bank>, i: nat, f: nat, j: nat, l: nat, k: nat, s: State, e: State, f': nat)
    requires Contiguous(banks) && i <= k < j < |banks|
    requires f < banks[i].count && l < banks[j].count && f' < banks[k].count
    requires |s.picks| == k && e.rc == 0 && e.first == banks[k + 1].start[0]
    requires e.picks == s.picks + [Pick(f', banks[k].count - 1)]
    ensures Covering(banks, i, f, j, l, k + 1, e)
  {
    CoverBank(banks, s.picks, k, f', banks[i].start[f]);
  }

  lemma CoverLast(banks: seq<Bank>, i: nat, f: nat, j: nat, l: nat, s: State, e: State, f': nat)
    requires Contiguous(banks) && i <= j < |banks| && f < banks[i].count && f' <= l < banks[j].count
    requires |s.picks| == j && e.rc == 0 && e.first == Wrap(banks[j].SectorEnd(l) + 1)
    requires e.picks == s.picks + [Pick(f', l)]
    ensures Covering(banks, i, f, j, l, j + 1, e)
  {
    NextStep(banks, s.picks, Pick(f', l), banks[i].start[f]);
  }

  lemma CoverBank(banks: seq<Bank>, picks: seq<Pick>, k: nat, f: nat, first: int)
    requires Contiguous(banks) && |picks| == k < |banks| - 1 && f < banks[k].count
    ensures Next(banks, picks + [Pick(f, banks[k].count - 1)], first) == banks[k + 1].start[0]
  {
    NextStep(banks, picks, Pick(f, banks[k].count - 1), first);
    BanksAscend(banks, k, k + 1);
    SectorEndIs(banks[k], banks[k].count - 1);
  }

  lemma FirstNotBehind(b: Bank, f: nat, l: nat)
    requires b.Sane() && f < b.count && l < b.count && b.start[f] <= b.SectorEnd(l)
    ensures f <= l
  {
    if l < f {
      SectorsApart(b, l, f);
    }
  }

  lemma NextStep(banks: seq<Bank>, picks: seq<Pick>, p: Pick, first: int)
    requires AllStored(banks) && |picks| < |banks| && banks[|picks|].known
    ensures Next(banks, picks + [p], first)
      == if PickIn(banks[|picks|], p) then Behind(banks[|picks|], p) else Next(banks, picks, first)
  {
    assert (picks + [p])[..|picks|] == picks;
  }

  lemma CoverWithin(banks: seq<Bank>, i: nat, f: nat, j: nat, l: nat, k: nat)
    requires Contiguous(banks) && i <= j < |banks| && f < banks[i].count && l < banks[j].count && k <= j
    requires banks[i].start[f] <= banks[j].SectorEnd(l)
    ensures Reached(banks, i, f, j, l, k) <= banks[j].SectorEnd(l)
  {
    SectorEndIs(banks[j], l);
    if i < k < j {
      BanksAscend(banks, k, j);
      SectorEndIs(banks[k], 0);
    }
  }

  lemma BeyondIs(banks: seq<Bank>, j: nat, l: nat, k: nat, first: Address)
    requires Contiguous(banks) && j < k < |banks| && l < banks[j].count && first == Wrap(banks[j].SectorEnd(l) + 1)
    ensures first > banks[j].SectorEnd(l)
  {
    BanksAscend(banks, j, k);
    SectorEndIs(banks[j], l);
  }

  lemma {:induction false} Covers(banks: seq<Bank>, i: nat, f: nat, j: nat, l: nat, k: nat)
    requires Contiguous(banks) && i <= j < |banks| && f < banks[i].count && l < banks[j].count && k <= |banks|
    requires banks[i].start[f] <= banks[j].SectorEnd(l)
    ensures Covering(banks, i, f, j, l, k, After(banks, banks[i].start[f], banks[j].SectorEnd(l), k))
  {
    if k > 0 {
      Covers(banks, i, f, j, l, k - 1);
      CoverNext(banks, i, f, j, l, k - 1, After(banks, banks[i].start[f], banks[j].SectorEnd(l), k - 1));
    }
  }

  lemma CoverNext(banks: seq<Bank>, i: nat, f: nat, j: nat, l: nat, k: nat, s: State)
    requires Contiguous(banks) && i <= j < |banks| && f < banks[i].count && l < banks[j].count && k < |banks|
    requires banks[i].start[f] <= banks[j].SectorEnd(l) && Covering(banks, i, f, j, l, k, s)
    ensures Covering(banks, i, f, j, l, k + 1, NextState(s, banks[k], banks[j].SectorEnd(l)))
  {
    if k < i {
      CoverBelow(banks, i, f, banks[j].SectorEnd(l), k);
      NextStep(banks, s.picks, NONE(), banks[i].start[f]);
    } else if k <= j {
      CoverWithin(banks, i, f, j, l, k);
      var f' := if k == i then f else 0;
      if k < j {
        CoverStep(banks, i, f, j, l, k, s, f');
      } else {
        CoverLastStep(banks, i, f, j, l, s, f');
      }
    } else {
      BeyondIs(banks, j, l, k, s.first);
      NextStep(banks, s.picks, NONE(), banks[i].start[f]);
    }
  }

  /** One gap-free run from the first to the last address, counted right. */
  predicate Exactly(banks: seq<Bank>, s: State, first: Address, last: Address)
    requires AllStored(banks) && |s.picks| <= |banks|
  {
    && s.rc == 0 && OneRun(banks, s.picks, first) && Inside(banks, s.picks, first, last)
    && Next(banks, s.picks, first) == last + 1 && s.count == Sectors(s.picks)
  }

  /** A range from the start of a sector to the end of one is chosen completely and exactly. */
  lemma AlignedRangeCovered(banks: seq<Bank>, i: nat, f: nat, j: nat, l: nat)
    requires Contiguous(banks) && i <= j < |banks| && f < banks[i].count && l < banks[j].count
    requires banks[i].start[f] <= banks[j].SectorEnd(l)
    ensures var first, last := banks[i].start[f], banks[j].SectorEnd(l);
      var s := After(banks, first, last, |banks|);
      Exactly(banks, s, first, last) && ChosenAreMeeting(banks, s.picks, first, last)
  {
    var first, last := banks[i].start[f], banks[j].SectorEnd(l);
    Covers(banks, i, f, j, l, |banks|);
    NoneWrapsBehind(banks);
    SelectionInside(banks, first, last);
    RunIsMeeting(banks, After(banks, first, last, |banks|).picks, first, last);
  }

  lemma NoneWrapsBehind(banks: seq<Bank>)
    requires Contiguous(banks)
    ensures NoneBehindTop(banks) && AllApart(banks)
  {
    forall i, j | 0 <= i < j < |banks|
      ensures banks[i].End() < banks[j].start[0]
    {
      BanksAscend(banks, i, j);
    }
  }

  // Which sectors are chosen.

  predicate SectorChosen(banks: seq<Bank>, picks: seq<Pick>, k: nat, i: nat)
    requires AllStored(banks) && k < |picks| <= |banks|
  {
    Chosen(banks, picks, k) && picks[k].first <= i <= picks[k].last
  }

  predicate Meets(b: Bank, i: nat, first: int, last: int)
    requires b.Stored() && i < b.count
  {
    b.start[i] <= last && first <= b.SectorEnd(i)
  }

  /** The sectors chosen are those with an address in the range, all of them and no others. */
  predicate ChosenAreMeeting(banks: seq<Bank>, picks: seq<Pick>, first: int, last: int)
    requires AllSane(banks) && |picks| == |banks|
  {
    forall k, i | 0 <= k < |banks| && banks[k].known && 0 <= i < banks[k].count ::
      SectorChosen(banks, picks, k, i) <==> Meets(banks[k], i, first, last)
  }

  predicate InPick(banks: seq<Bank>, picks: seq<Pick>, k: nat, a: int)
    requires AllStored(banks) && |picks| <= |banks|
  {
    k < |picks| && Chosen(banks, picks, k) && banks[k].start[picks[k].first] <= a < Behind(banks[k], picks[k])
  }

  /** A run has no gap: every address up to its end is in what is chosen in some bank. */
  lemma {:induction false} RunHasNoGap(banks: seq<Bank>, picks: seq<Pick>, first: int, a: int) returns (k: nat)
    requires AllStored(banks) && |picks| <= |banks| && OneRun(banks, picks, first)
    requires first <= a < Next(banks, picks, first)
    ensures InPick(banks, picks, k, a)
  {
    var n := |picks| - 1;
    if Chosen(banks, picks, n) && banks[n].start[picks[n].first] <= a {
      k := n;
    } else {
      k := RunHasNoGap(banks, picks[..n], first, a);
      assert Chosen(banks, picks, k) == Chosen(banks, picks[..n], k);
    }
  }

  lemma PickMeets(b: Bank, p: Pick, i: nat, first: int, last: int)
    requires b.Sane() && PickIn(b, p) && p.first <= i <= p.last && PickInside(b, p, first, last)
    ensures Meets(b, i, first, last)
  {
    SectorEndIs(b, i);
    if p.first < i {
      SectorsApart(b, p.first, i);
    }
    if i < p.last {
      SectorsApart(b, i, p.last);
    }
  }

  /** An address lies in one sector of a bank only. */
  lemma AddressInPick(b: Bank, p: Pick, i: nat, a: int)
    requires b.Sane() && PickIn(b, p) && i < b.count && b.start[i] <= a <= b.SectorEnd(i)
    requires b.start[p.first] <= a < Behind(b, p)
    ensures p.first <= i <= p.last
  {
    if i < p.first {
      SectorsApart(b, i, p.first);
    }
    if p.last < i {
      SectorsApart(b, p.last, i);
    }
  }

  lemma SameBank(banks: seq<Bank>, picks: seq<Pick>, k: nat, i: nat, k': nat, a: int)
    requires AllSane(banks) && AllApart(banks) && |picks| == |banks| && k < |banks| && banks[k].known
    requires i < banks[k].count && banks[k].start[i] <= a <= banks[k].SectorEnd(i) && InPick(banks, picks, k', a)
    ensures k == k'
  {
    SectorEndIs(banks[k], i);
    SectorEndIs(banks[k'], picks[k'].first);
    SectorEndIs(banks[k'], picks[k'].last);
  }

  lemma MeetingIsChosen(banks: seq<Bank>, picks: seq<Pick>, first: int, last: int, k: nat, i: nat)
    requires AllSane(banks) && AllApart(banks) && |picks| == |banks| && OneRun(banks, picks, first)
    requires Next(banks, picks, first) == last + 1 && first <= last
    requires k < |banks| && banks[k].known && i < banks[k].count && Meets(banks[k], i, first, last)
    ensures SectorChosen(banks, picks, k, i)
  {
    var a := if first <= banks[k].start[i] then banks[k].start[i] else first;
    SectorEndIs(banks[k], i);
    var k' := RunHasNoGap(banks, picks, first, a);
    SameBank(banks, picks, k, i, k', a);
    AddressInPick(banks[k], picks[k], i, a);
  }

  /** A run inside a range and up to its end chooses exactly the sectors that meet the range. */
  lemma RunIsMeeting(banks: seq<Bank>, picks: seq<Pick>, first: int, last: int)
    requires AllSane(banks) && AllApart(banks) && |picks| == |banks| && OneRun(banks, picks, first)
    requires Inside(banks, picks, first, last) && Next(banks, picks, first) == last + 1 && first <= last
    ensures ChosenAreMeeting(banks, picks, first, last)
  {
    forall k, i | 0 <= k < |banks| && banks[k].known && 0 <= i < banks[k].count
      ensures SectorChosen(banks, picks, k, i) <==> Meets(banks[k], i, first, last)
    {
      if SectorChosen(banks, picks, k, i) {
        PickMeets(banks[k], picks[k], i, first, last);
      } else if Meets(banks[k], i, first, last) {
        MeetingIsChosen(banks, picks, first, last, k, i);
      }
    }
  }

  // Rounding an end address.

  /** flash_sect_roundb: moves the address to the end of the sector it lies in, in whatever bank. */
  method RoundUp(banks: seq<Bank>, addr: Address) returns (rc: int, end: Address)
    requires AllStored(banks)
    ensures rc == 0 ==> EndOfSector(banks, addr, end)
    ensures rc != 0 ==> rc == 1 && end == addr && Nowhere(banks, addr)
  {
    for bank := 0 to |banks|
      invariant Nowhere(banks[..bank], addr)
    {
      var b := banks[bank];
      for i := 0 to b.count
        invariant NotAmong(b, addr, i)
      {
        var sectorEnd := b.SectorEnd(i);
        if addr <= sectorEnd && addr >= b.start[i] {
          assert InSector(banks, addr, bank, i);
          return 0, sectorEnd;
        }
      }
    }
    assert banks[..|banks|] == banks;
    return 1, addr;
  }

  predicate InSector(banks: seq<Bank>, addr: Address, k: nat, i: nat)
    requires AllStored(banks)
  {
    k < |banks| && i < banks[k].count && banks[k].start[i] <= addr <= banks[k].SectorEnd(i)
  }

  /** end is the last address of a sector that addr lies in. */
  ghost predicate EndOfSector(banks: seq<Bank>, addr: Address, end: Address)
    requires AllStored(banks)
  {
    exists k: nat, i: nat :: InSector(banks, addr, k, i) && banks[k].SectorEnd(i) == end
  }

  predicate NotAmong(b: Bank, addr: Address, n: nat)
    requires b.Stored() && n <= b.count
  {
    forall i | 0 <= i < n :: !(b.start[i] <= addr <= b.SectorEnd(i))
  }

  predicate Nowhere(banks: seq<Bank>, addr: Address)
    requires AllStored(banks)
  {
    forall k | 0 <= k < |banks| :: NotAmong(banks[k], addr, banks[k].count)
  }

  /** The "+length" form: the last address of a range of length bytes, rounded up. */
  method PlusLength(banks: seq<Bank>, first: Address, length: Address) returns (rc: int, last: Address)
    requires AllStored(banks)
    ensures rc == 1 || rc == -1
    ensures rc == 1 ==> EndOfSector(banks, Wrap(first + length - 1), last)
    ensures rc == -1 ==> Nowhere(banks, Wrap(first + length - 1))
  {
    var rounded;
    rounded, last := RoundUp(banks, Wrap(first + length - 1));
    rc := if rounded > 0 then -1 else 1;
  }

  /** Every address from a on is behind every sector that ends before it. */
  lemma BanksInOrder(banks: seq<Bank>, i: nat, f: nat, j: nat, l: nat)
    requires Contiguous(banks) && i < |banks| && j < |banks| && f < banks[i].count && l < banks[j].count
    requires banks[i].start[f] <= banks[j].SectorEnd(l)
    ensures i <= j
  {
    if j < i {
      BanksAscend(banks, j, i);
      SectorEndIs(banks[i], f);
      SectorEndIs(banks[j], l);
    }
  }

  lemma RoundedMeets(banks: seq<Bank>, k: nat, l: nat, first: int, end: Address, k': nat, i: nat)
    requires AllSane(banks) && AllApart(banks) && InSector(banks, end, k, l) && banks[k].known && first <= end
    requires k' < |banks| && banks[k'].known && i < banks[k'].count
    ensures Meets(banks[k'], i, first, banks[k].SectorEnd(l)) <==> Meets(banks[k'], i, first, end)
  {
    SectorEndIs(banks[k], l);
    SectorEndIs(banks[k'], i);
    if k' != k {
      assert Apart(banks[k], banks[k']);
    } else if l < i {
      SectorsApart(banks[k], l, i);
    } else if i < l {
      SectorsApart(banks[k], i, l);
    }
  }

  /** Rounding the end up within its sector adds no sector. */
  lemma RoundedSame(banks: seq<Bank>, picks: seq<Pick>, k: nat, l: nat, first: int, end: Address)
    requires AllSane(banks) && AllApart(banks) && |picks| == |banks|
    requires InSector(banks, end, k, l) && banks[k].known && first <= end
    requires ChosenAreMeeting(banks, picks, first, banks[k].SectorEnd(l))
    ensures ChosenAreMeeting(banks, picks, first, end)
  {
    forall k', i | 0 <= k' < |banks| && banks[k'].known && 0 <= i < banks[k'].count
      ensures SectorChosen(banks, picks, k', i) <==> Meets(banks[k'], i, first, end)
    {
      RoundedMeets(banks, k, l, first, end, k', i);
    }
  }

  /**
   * "start +length" chooses the least run of whole sectors that covers the range: without a gap, from the
   * range's start to the end of the sector its last byte lies in, and every sector with a byte in the range
   * but no other.
   */
  lemma LengthCovered(banks: seq<Bank>, i: nat, f: nat, length: Address, last: Address)
    requires Contiguous(banks) && i < |banks| && f < banks[i].count && length > 0
    requires banks[i].start[f] + length <= 0x1_0000_0000
    requires EndOfSector(banks, Wrap(banks[i].start[f] + length - 1), last)
    ensures var first := banks[i].start[f];
      var s := After(banks, first, last, |banks|);
      && Exactly(banks, s, first, last) && first + length - 1 <= last
      && ChosenAreMeeting(banks, s.picks, first, first + length - 1)
  {
    var first := banks[i].start[f];
    var end := first + length - 1;
    assert Wrap(end) == end;
    var k: nat, l: nat :| InSector(banks, end, k, l) && banks[k].SectorEnd(l) == last;
    BanksInOrder(banks, i, f, k, l);
    AlignedRangeCovered(banks, i, f, k, l);
    NoneWrapsBehind(banks);
    RoundedSame(banks, After(banks, first, last, |banks|).picks, k, l, first, end);
  }
}
