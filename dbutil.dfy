/** magellan/DBUtil.py: the sort hash of names, database addresses, the
    page and slot store of a database file, the columns of a row and the
    text rows of an auxiliary table. Python 2 strings are byte strings:
    a name's characters are below 256. */
module DBUtil {
  import opened Wrappers
  import opened PyStruct
  import opened Bits
  import opened Arith
  import opened Chunks

  // ------------------------------------------------------------ sort hash

  /** `str.upper` on one character of a byte string: only a..z change. */
  function Upper(c: char): char
  {
    if 'a' <= c <= 'z' then c - 'a' + 'A' else c
  }

  /** The hash of an upper-cased first character: digits 1..10, letters
      12..37, anything else 0. */
  function CharHash(c: char): (h: nat)
    ensures h <= 37
  {
    if '0' <= c <= '9' then (c - '0') as int + 1
    else if 'A' <= c <= 'Z' then (c - 'A') as int + 12
    else 0
  }

  predicate IsAlnum(c: char)
  {
    '0' <= c <= '9' || 'A' <= c <= 'Z' || 'a' <= c <= 'z'
  }

  /** `sortHashFunc`: None for None, the hash of the upper-cased first
      character otherwise; an empty name has no first character. */
  function SortHash(name: Option<string>): Result<Option<nat>>
  {
    match name
    case None => Ok(None)
    case Some(s) => if |s| == 0 then Fail(IndexError) else Ok(Some(CharHash(Upper(s[0]))))
  }

  /** The hash sorts names as their upper-cased first characters sort:
      digits before letters, letters alphabetically and case-blind;
      every other character hashes to 0, below both. */
  lemma HashOrder(c: char, d: char)
    requires IsAlnum(c) && IsAlnum(d)
    ensures 1 <= CharHash(Upper(c)) <= 37 && CharHash(Upper(c)) != 11
    ensures CharHash(Upper(c)) < CharHash(Upper(d)) <==> Upper(c) < Upper(d)
    ensures CharHash(Upper(c)) == CharHash(Upper(d)) <==> Upper(c) == Upper(d)
  {
  }

  lemma HashOther(c: char)
    requires !IsAlnum(c)
    ensures CharHash(Upper(c)) == 0
  {
  }

  /** `sorthashtable`: for each byte value, the character whose code is
      the hash of that byte. */
  function SortHashTable(b: nat): char
    requires b < 256
  {
    CharHash(Upper(b as char)) as char
  }

  /** `sortHashFuncFast`: `ord` of the first character translated by
      the table. */
  function SortHashFast(name: Option<string>): Result<Option<nat>>
    requires name.Some? && |name.value| > 0 ==> name.value[0] as int < 256
  {
    match name
    case None => Ok(None)
    case Some(s) => if |s| == 0 then Fail(IndexError) else Ok(Some(SortHashTable(s[0] as int) as int))
  }

  /** The table agrees with `sortHashFunc` on every byte string. */
  lemma FastAgrees(name: Option<string>)
    requires name.Some? && |name.value| > 0 ==> name.value[0] as int < 256
    ensures SortHashFast(name) == SortHash(name)
  {
  }

  // ------------------------------------------------------------ addresses

  /** 1 << 24: the slot of an address takes the low 24 bits. */
  const SlotRange: nat := 0x100_0000

  /** `DBAddress`: a file number and a slot in it. */
  datatype DBAddress = DBAddress(filenum: nat, slot: nat)
  {
    /** `int(addr)`: `(filenum << 24) | slot`. */
    function ToInt(): nat
    {
      Or(filenum * SlotRange, slot)
    }

    predicate IsZero()
    {
      slot == 0 && filenum == 0
    }
  }

  /** `DBAddress.fromint`: the bits above 24 name the file, the low 24
      bits the slot. */
  function FromInt(addr: nat): DBAddress
  {
    DBAddress(addr / SlotRange, addr % SlotRange)
  }

  lemma {:induction false} OrZero(a: nat, b: nat)
    ensures Or(a, b) == 0 <==> a == 0 && b == 0
    decreases a + b
  {
    if a != 0 && b != 0 {
      OrZero(a / 2, b / 2);
    }
  }

  /** `(hi << 24) | lo` is hi * 2^24 + lo when lo fits 24 bits. */
  lemma OrSlot(hi: nat, lo: nat)
    requires lo < SlotRange
    ensures Or(hi * SlotRange, lo) == hi * SlotRange + lo
  {
    Pow2Values();
    OrShifted(hi, lo, 24);
  }

  /** An address whose slot fits 24 bits survives the trip through an
      integer, and its integer is the plain sum of the two fields. */
  lemma AddressRoundTrip(a: DBAddress)
    requires a.slot < SlotRange
    ensures a.ToInt() == a.filenum * SlotRange + a.slot
    ensures FromInt(a.ToInt()) == a
  {
    OrSlot(a.filenum, a.slot);
    DivAdd(a.filenum, a.slot, SlotRange);
  }

  /** Every integer address survives the trip through the two fields. */
  lemma IntRoundTrip(v: nat)
    ensures FromInt(v).ToInt() == v
  {
    OrSlot(v / SlotRange, v % SlotRange);
  }

  /** `iszero` holds exactly for the address whose integer is 0. */
  lemma ZeroAddress(a: DBAddress)
    ensures a.IsZero() <==> a.ToInt() == 0
  {
    OrZero(a.filenum * SlotRange, a.slot);
  }

  // ------------------------------------------------------------ pages

  /** `File.npages`: page 0 and every page holding a slot. */
  function NPages(next: int, slots: nat): int
    requires slots > 0
  {
    ((next - 1) + slots - 1) / slots + 1
  }

  /** `File.page`: the page the next slot goes to. */
  function PageNo(next: int, slots: nat): int
    requires slots > 0
  {
    (next - 1) / slots + 1
  }

  /** `File.relslotnum`: how many slots the page being filled holds. */
  function RelSlot(next: int, slots: nat): int
    requires slots > 0
  {
    (next - 1 + slots) % slots
  }

  /** With `full` pages filled and `rel` slots on the next one, the next
      page is full + 1, it holds rel slots, and it counts among the pages
      exactly when it holds one. */
  lemma PageCounts(full: nat, rel: nat, slots: nat)
    requires slots > 0 && rel < slots
    ensures var next := 1 + full * slots + rel;
      PageNo(next, slots) == full + 1 && RelSlot(next, slots) == rel
      && NPages(next, slots) == PageNo(next, slots) + (if rel > 0 then 1 else 0)
  {
    DivAdd(full, rel, slots);
    DivAdd(full + 1, rel, slots);
    if rel > 0 {
      DivAdd(full + 1, rel - 1, slots);
    } else {
      DivAdd(full, slots - 1, slots);
    }
  }

  /** Slot k (0-based, `slot - 1`) of a file with `slots` slots a page
      lies on page k / slots + 1 at byte slsize * (k % slots) + 4. */
  lemma SlotPlace(k: nat, slots: nat, g: nat, r: nat)
    requires slots > 0 && r < slots && k == g * slots + r
    ensures (k + slots) % slots == r && k / slots == g
  {
    DivAdd(g, r, slots);
    DivAdd(g + 1, r, slots);
  }

  /** Slot k (0-based) is item k % slots of page k / slots + 1, at byte
      4 + slsize * (k % slots) of it. */
  lemma SlotOffset(k: nat, slots: nat, slsize: nat)
    requires slots > 0
    ensures k == (k / slots) * slots + k % slots && k % slots < slots
    ensures ((k + slots) % slots) * slsize + 4 == 4 + (k % slots) * slsize
  {
    SlotPlace(k, slots, k / slots, k % slots);
  }

  const Zero4: seq<byte> := [0, 0, 0, 0]

  /** A page as written: the 4-byte zero `pack("i", 0)`, the slots one
      after the other, padded with zero bytes to the page size. */
  function PageImage(group: seq<seq<byte>>, pgsize: nat): seq<byte>
  {
    Fit(Zero4 + Concat(group), pgsize, 0)
  }

  /** Slot r of a page image is at 4 + r * slsize. */
  lemma PageSlot(group: seq<seq<byte>>, slsize: nat, slots: nat, pgsize: nat, r: nat)
    requires AllOfLength(group, slsize) && r < |group| <= slots && 4 + slots * slsize <= pgsize
    ensures 4 + r * slsize + slsize <= |PageImage(group, pgsize)|
    ensures PageImage(group, pgsize)[4 + r * slsize .. 4 + r * slsize + slsize] == group[r]
  {
    ConcatAt(group, slsize, r);
    MulLe(|group|, slots, slsize);
    var body := Zero4 + Concat(group);
    assert PageImage(group, pgsize)[..|body|] == body;
  }

  /** Slot r of the buffer read as a page is at 4 + r * slsize. */
  lemma BufferSlot(group: seq<seq<byte>>, slsize: nat, r: nat)
    requires AllOfLength(group, slsize) && r < |group|
    ensures 4 + r * slsize + slsize <= |Zero4 + Concat(group)|
    ensures (Zero4 + Concat(group))[4 + r * slsize .. 4 + r * slsize + slsize] == group[r]
  {
    PieceAfter(Zero4, group, slsize, r);
  }

  /** Writing a slot into a page image in place gives the image of the
      page with that slot replaced. */
  lemma PageSplice(group: seq<seq<byte>>, slsize: nat, slots: nat, pgsize: nat, r: nat, d: seq<byte>)
    requires AllOfLength(group, slsize) && r < |group| <= slots && 4 + slots * slsize <= pgsize
    requires |d| == slsize
    ensures var img := PageImage(group, pgsize); var o := 4 + r * slsize;
      o + slsize <= |img| && Fit(img[..o] + d + img[o + slsize..], pgsize, 0) == PageImage(group[r := d], pgsize)
  {
    ConcatUpdate(group, slsize, r, d);
    MulLe(|group|, slots, slsize);
    var c := Concat(group);
    var o := 4 + r * slsize;
    var img := PageImage(group, pgsize);
    var pad := Repeat(0 as byte, pgsize - 4 - |c|);
    assert img == Zero4 + c + pad;
    assert img[..o] == Zero4 + c[..r * slsize];
    assert img[o + slsize..] == c[r * slsize + slsize..] + pad;
    assert Zero4 + Concat(group[r := d]) + pad == img[..o] + d + img[o + slsize..];
  }

  /** Page p holds the slots of `group`. */
  ghost predicate PageHolds(pages: map<int, seq<byte>>, p: int, group: seq<seq<byte>>, slsize: nat, slots: nat, pgsize: nat)
  {
    |group| <= slots && AllOfLength(group, slsize) && p in pages && pages[p] == PageImage(group, pgsize)
  }

  /** Page g + 1 holds the full group g of slots, for each g. */
  ghost predicate OnDisk(pages: map<int, seq<byte>>, full: seq<seq<seq<byte>>>, slsize: nat, slots: nat, pgsize: nat)
  {
    forall g :: 0 <= g < |full| ==> PageHolds(pages, g + 1, full[g], slsize, slots, pgsize)
  }

  /** A page written past the full ones keeps them on disk and adds one. */
  lemma OnDiskAppend(pages: map<int, seq<byte>>, full: seq<seq<seq<byte>>>, group: seq<seq<byte>>, slsize: nat, slots: nat, pgsize: nat)
    requires OnDisk(pages, full, slsize, slots, pgsize)
    requires |group| == slots && AllOfLength(group, slsize)
    ensures OnDisk(pages[|full| + 1 := PageImage(group, pgsize)], full + [group], slsize, slots, pgsize)
  {
  }

  /** Rewriting full page g + 1 with a new group keeps the others. */
  lemma OnDiskUpdate(pages: map<int, seq<byte>>, full: seq<seq<seq<byte>>>, g: nat, group: seq<seq<byte>>, slsize: nat, slots: nat, pgsize: nat)
    requires OnDisk(pages, full, slsize, slots, pgsize) && g < |full|
    requires |group| == slots && AllOfLength(group, slsize)
    ensures OnDisk(pages[g + 1 := PageImage(group, pgsize)], full[g := group], slsize, slots, pgsize)
  {
  }

  /** Item r of a full group on disk. */
  lemma OnDiskAt(pages: map<int, seq<byte>>, full: seq<seq<seq<byte>>>, g: nat, slsize: nat, slots: nat, pgsize: nat)
    requires OnDisk(pages, full, slsize, slots, pgsize) && g < |full|
    ensures PageHolds(pages, g + 1, full[g], slsize, slots, pgsize)
  {
  }

  /** The slots written so far, `full` pages of `slots` slots and a
      `tail` on the next page, number next - 1. */
  ghost predicate Laid(slsize: nat, slots: nat, pgsize: nat, next: int, full: seq<seq<seq<byte>>>, tail: seq<seq<byte>>)
  {
    slsize > 0 && slots > 0 && 4 + slots * slsize <= pgsize
    && next == 1 + |full| * slots + |tail| && |tail| < slots
    && AllOfLength(tail, slsize) && AllOfLength(full, slots)
  }

  /** What `PageFile.Valid` asks of a file's state. */
  ghost predicate FileOk(slsize: nat, slots: nat, pgsize: nat, state: FileState, next: int, incomplete: seq<byte>,
                         pages: map<int, seq<byte>>, full: seq<seq<seq<byte>>>, tail: seq<seq<byte>>)
  {
    Laid(slsize, slots, pgsize, next, full, tail)
    && OnDisk(pages, full, slsize, slots, pgsize)
    && (state == Writing ==> incomplete == Concat(tail))
    && (state != Writing && |tail| > 0 ==> PageHolds(pages, |full| + 1, tail, slsize, slots, pgsize))
  }

  /** Appending a slot that fills its page: the buffer plus the slot is
      written out as the page after the full ones. */
  lemma AppendFlushes(slsize: nat, slots: nat, pgsize: nat, next: int, full: seq<seq<seq<byte>>>, tail: seq<seq<byte>>,
                      pages: map<int, seq<byte>>, d: seq<byte>, incomplete: seq<byte>)
    requires Laid(slsize, slots, pgsize, next, full, tail) && OnDisk(pages, full, slsize, slots, pgsize)
    requires |d| == slsize && RelSlot(next + 1, slots) == 0 && incomplete == Concat(tail)
    ensures FileOk(slsize, slots, pgsize, Writing, next + 1, [], pages[PageNo(next, slots) := Fit(Zero4 + (incomplete + d), pgsize, 0)],
                   full + [tail + [d]], [])
    ensures Concat(full + [tail + [d]]) + [] == Concat(full) + tail + [d]
  {
    FlushCounts(slsize, slots, pgsize, next, full, tail, d);
    ConcatAppend(full, tail + [d]);
    AppendAssoc(Concat(full), tail, [d]);
    ConcatAppend(tail, d);
    OnDiskAppend(pages, full, tail + [d], slsize, slots, pgsize);
    AppendNil(Concat(full + [tail + [d]]));
  }

  /** The slot numbers after appending a slot that fills its page. */
  lemma FlushCounts(slsize: nat, slots: nat, pgsize: nat, next: int, full: seq<seq<seq<byte>>>, tail: seq<seq<byte>>, d: seq<byte>)
    requires Laid(slsize, slots, pgsize, next, full, tail)
    requires |d| == slsize && RelSlot(next + 1, slots) == 0
    ensures PageNo(next, slots) == |full| + 1 && |tail + [d]| == slots
    ensures Laid(slsize, slots, pgsize, next + 1, full + [tail + [d]], [])
  {
    PageFills(|full|, |tail|, slots);
    var full' := full + [tail + [d]];
    assert |full'| == |full| + 1;
    assert AllOfLength(full', slots) by {
      forall i | 0 <= i < |full'| ensures |full'[i]| == slots {
        if i < |full| {
          assert full'[i] == full[i];
        }
      }
    }
  }

  /** After 1 + f * slots + t slots (t < slots), one more slot wraps the
      page count exactly when it fills the page. */
  lemma PageFills(f: nat, t: nat, slots: nat)
    requires slots > 0 && t < slots && RelSlot(1 + f * slots + t + 1, slots) == 0
    ensures t + 1 == slots && PageNo(1 + f * slots + t, slots) == f + 1
    ensures 1 + f * slots + t + 1 == 1 + (f + 1) * slots
  {
    MulSucc(f, slots);
    if t + 1 < slots {
      DivAdd(f + 1, t + 1, slots);
      assert false;
    }
    DivAdd(f, t, slots);
  }

  /** Appending a slot that leaves its page unfilled: it joins the tail. */
  lemma AppendBuffers(slsize: nat, slots: nat, pgsize: nat, next: int, full: seq<seq<seq<byte>>>, tail: seq<seq<byte>>,
                      pages: map<int, seq<byte>>, d: seq<byte>)
    requires Laid(slsize, slots, pgsize, next, full, tail) && OnDisk(pages, full, slsize, slots, pgsize)
    requires |d| == slsize && RelSlot(next + 1, slots) != 0
    ensures PageNo(next, slots) == |full| + 1
    ensures Laid(slsize, slots, pgsize, next + 1, full, tail + [d])
    ensures Concat(tail + [d]) == Concat(tail) + d
    ensures FileOk(slsize, slots, pgsize, Writing, next + 1, Concat(tail) + d, pages, full, tail + [d])
    ensures Concat(full) + (tail + [d]) == Concat(full) + tail + [d]
  {
    AppendAssoc(Concat(full), tail, [d]);
    PageCounts(|full|, |tail|, slots);
    if |tail| + 1 == slots {
      MulSucc(|full|, slots);
      PageCounts(|full| + 1, 0, slots);
    }
    ConcatAppend(tail, d);
  }

  /** Whether a file is open, and how. */
  datatype FileState = Closed | Writing | Reading

  /** `File`: a store of fixed-size slots numbered from 1, `slots` to a
      page after page 0 (which holds the page-zero record, not part of
      this model). `next` is `pz.next`; slots of the page being filled
      are kept in `incomplete` until it fills or the file is closed. The
      slots written so far are `Slots()`, grouped by page into `full`
      and `tail`. */
  class PageFile {
    const slsize: nat
    const slots: nat
    const pgsize: nat
    var state: FileState
    var next: nat
    var incomplete: seq<byte>
    /** The data pages of the file on disk, by page number. */
    var pages: map<int, seq<byte>>
    ghost var full: seq<seq<seq<byte>>>
    ghost var tail: seq<seq<byte>>

    ghost predicate Valid()
      reads this
    {
      FileOk(slsize, slots, pgsize, state, next, incomplete, pages, full, tail)
    }

    /** What slot k + 1 holds, for each k. */
    ghost function Slots(): (r: seq<seq<byte>>)
      requires Valid()
      reads this
      ensures |r| == next - 1
    {
      ConcatLength(full, slots);
      Concat(full) + tail
    }

    /** `File.open('w')` on a file of the given slot size, page size and
        slots per page: empty. */
    constructor (slsize: nat, slots: nat, pgsize: nat)
      requires slsize > 0 && slots > 0 && 4 + slots * slsize <= pgsize
      ensures this.slsize == slsize && this.slots == slots && this.pgsize == pgsize
      ensures Valid() && state == Writing && next == 1 && Slots() == []
    {
      this.slsize, this.slots, this.pgsize := slsize, slots, pgsize;
      state, next, incomplete, pages := Writing, 1, [], map[];
      full, tail := [], [];
    }

    /** Slot k + 1, the r-th of page g + 1, holds what page g + 1 or the
        page being filled holds there. */
    lemma SlotsAt(k: nat, g: nat, r: nat)
      requires Valid() && k < next - 1 && r < slots && k == g * slots + r
      ensures |Slots()| == next - 1 && g <= |full|
      ensures g < |full| ==> r < |full[g]| && Slots()[k] == full[g][r]
      ensures g == |full| ==> r < |tail| && Slots()[k] == tail[r]
    {
      ItemAt(full, tail, slots, g, r, k);
      assert Slots() == Concat(full) + tail;
    }

    /** What `readPage` gives for data page p: while writing, the page
        being filled comes from the buffer; any other page from disk. */
    ghost function PageData(p: int): seq<byte>
      reads this
    {
      if state == Writing && slots > 0 && p == PageNo(next, slots) then Zero4 + incomplete
      else if p in pages then pages[p] else []
    }

    /** Every data page below `npages` can be read. */
    lemma PagesPresent(p: int)
      requires Valid() && state != Closed && 1 <= p < NPages(next, slots)
      ensures (state == Writing && p == PageNo(next, slots)) || p in pages
    {
      PageCounts(|full|, |tail|, slots);
      if p <= |full| {
        OnDiskAt(pages, full, p - 1, slsize, slots, pgsize);
      }
    }

    /** `readPage`: a page past the last raises; any other data page
        gives `PageData`. */
    method ReadPage(pagenum: int) returns (r: Result<seq<byte>>)
      requires Valid() && state != Closed && pagenum >= 1
      ensures pagenum >= NPages(next, slots) ==> r == Fail(ValueError)
      ensures pagenum < NPages(next, slots) ==> r == Ok(PageData(pagenum))
    {
      if pagenum >= NPages(next, slots) {
        return Fail(ValueError);
      }
      if state == Writing && PageNo(next, slots) == pagenum {
        return Ok(Zero4 + incomplete);
      }
      PagesPresent(pagenum);
      r := Ok(pages[pagenum]);
    }

    /** Slot k + 1, the r-th of page g + 1, is on a page below `npages`
        and lies at byte slsize * r + 4 of that page's data. */
    lemma SlotOnPage(k: nat, g: nat, r: nat)
      requires Valid() && state != Closed && k < next - 1 && r < slots && k == g * slots + r
      ensures g + 1 < NPages(next, slots)
      ensures 4 + r * slsize + slsize <= |PageData(g + 1)|
      ensures PageData(g + 1)[4 + r * slsize .. 4 + r * slsize + slsize] == Slots()[k]
    {
      SlotsAt(k, g, r);
      PageCounts(|full|, |tail|, slots);
      if g < |full| {
        OnDiskAt(pages, full, g, slsize, slots, pgsize);
        PageSlot(full[g], slsize, slots, pgsize, r);
        assert PageData(g + 1) == PageImage(full[g], pgsize);
      } else if state == Writing {
        BufferSlot(tail, slsize, r);
        assert PageData(g + 1) == Zero4 + Concat(tail);
      } else {
        PageSlot(tail, slsize, slots, pgsize, r);
        assert PageData(g + 1) == PageImage(tail, pgsize);
      }
    }

    /** `readSlot`: slot 0 and slots not yet written raise; any other
        slot gives what was last written to it. */
    method ReadSlot(slot: nat) returns (r: Result<seq<byte>>)
      requires Valid()
      ensures state == Closed || slot == 0 || slot >= next ==> r == Fail(ValueError)
      ensures state != Closed && 0 < slot < next ==> r == Ok(Slots()[slot - 1])
    {
      if state == Closed || slot == 0 || slot >= next {
        return Fail(ValueError);
      }
      var page := (slot - 1) / slots + 1;
      var offset := ((slot - 1 + slots) % slots) * slsize + 4;
      ghost var g, rel := (slot - 1) / slots, (slot - 1) % slots;
      SlotOffset(slot - 1, slots, slsize);
      SlotOnPage(slot - 1, g, rel);
      var data := ReadPage(page);
      assert data.value == PageData(g + 1) && offset == 4 + rel * slsize;
      r := Ok(data.value[offset..offset + slsize]);
    }

    /** `writePage`: the data cut or padded to the page size at page p. */
    method WritePage(data: seq<byte>, p: int)
      modifies this
      ensures pages == old(pages)[p := Fit(data, pgsize, 0)]
      ensures state == old(state) && next == old(next) && incomplete == old(incomplete)
      ensures full == old(full) && tail == old(tail)
    {
      pages := pages[p := Fit(data, pgsize, 0)];
    }

    /** `writeSlot` with no slot number: the slot is appended, and a page
        that fills is written out and the buffer emptied. */
    method AppendSlot(d: seq<byte>)
      requires Valid() && state == Writing && |d| == slsize
      modifies this
      ensures Valid() && state == Writing && next == old(next) + 1
      ensures Slots() == old(Slots()) + [d]
      ensures RelSlot(next, slots) == 0 ==> incomplete == []
    {
      if RelSlot(next + 1, slots) == 0 {
        AppendFlushing(d);
      } else {
        AppendBuffering(d);
      }
    }

    /** The slot fills its page: the page is written out. */
    method AppendFlushing(d: seq<byte>)
      requires Valid() && state == Writing && |d| == slsize && RelSlot(next + 1, slots) == 0
      modifies this
      ensures Valid() && state == Writing && next == old(next) + 1 && incomplete == []
      ensures Slots() == old(Slots()) + [d]
    {
      var pagenum := PageNo(next, slots);
      AppendFlushes(slsize, slots, pgsize, next, full, tail, pages, d, incomplete);
      WritePage(Zero4 + (incomplete + d), pagenum);
      incomplete, next := [], next + 1;
      full, tail := full + [tail + [d]], [];
      assert FileOk(slsize, slots, pgsize, state, next, incomplete, pages, full, tail);
    }

    /** The slot leaves its page unfilled: it joins the buffer. */
    method AppendBuffering(d: seq<byte>)
      requires Valid() && state == Writing && |d| == slsize && RelSlot(next + 1, slots) != 0
      modifies this
      ensures Valid() && state == Writing && next == old(next) + 1 && RelSlot(next, slots) != 0
      ensures Slots() == old(Slots()) + [d]
    {
      AppendBuffers(slsize, slots, pgsize, next, full, tail, pages, d);
      incomplete, next, tail := incomplete + d, next + 1, tail + [d];
    }

    /** `writeSlot` on a slot of a page already written out: the page is
        read, the slot spliced in, and the page written back. */
    method UpdateOnDisk(k: nat, g: nat, r: nat, d: seq<byte>)
      requires Valid() && state == Writing && |d| == slsize
      requires k < next - 1 && r < slots && k == g * slots + r && g < |full|
      modifies this
      ensures Valid() && state == Writing && next == old(next) && incomplete == old(incomplete)
      ensures |old(Slots())| == next - 1 && Slots() == old(Slots())[k := d]
    {
      DiskPlan(k, g, r, d);
      var pagedata := ReadPage(g + 1);
      assert pagedata.value == PageImage(full[g], pgsize);
      var offset := r * slsize + 4;
      assert offset == 4 + r * slsize;
      ghost var group := full[g][r := d];
      OnDiskUpdate(pages, full, g, group, slsize, slots, pgsize);
      WritePage(pagedata.value[..offset] + d + pagedata.value[offset + |d|..], g + 1);
      assert pages == old(pages)[g + 1 := PageImage(group, pgsize)];
      full := full[g := group];
    }

    /** What `UpdateOnDisk` relies on: page g + 1 can be read and holds
        group g, and splicing slot r into it gives the page of the updated
        group, whose slots are the old ones with slot k replaced. */
    lemma DiskPlan(k: nat, g: nat, r: nat, d: seq<byte>)
      requires Valid() && state == Writing && |d| == slsize
      requires k < next - 1 && r < slots && k == g * slots + r && g < |full|
      ensures g + 1 < NPages(next, slots) && PageData(g + 1) == PageImage(full[g], pgsize)
      ensures var img := PageImage(full[g], pgsize); var o := 4 + r * slsize;
        o + slsize <= |img| && Fit(img[..o] + d + img[o + slsize..], pgsize, 0) == PageImage(full[g][r := d], pgsize)
      ensures |full[g][r := d]| == slots && AllOfLength(full[g][r := d], slsize)
      ensures AllOfLength(full[g := full[g][r := d]], slots)
      ensures Concat(full[g := full[g][r := d]]) + tail == Slots()[k := d]
    {
      SlotsAt(k, g, r);
      PageCounts(|full|, |tail|, slots);
      OnDiskAt(pages, full, g, slsize, slots, pgsize);
      PageSplice(full[g], slsize, slots, pgsize, r, d);
      UpdateInPiece(full, slots, g, r, d);
    }

    /** `writeSlot` on a slot of the page being filled: the buffer is
        spliced. */
    method UpdateBuffered(k: nat, r: nat, d: seq<byte>)
      requires Valid() && state == Writing && |d| == slsize
      requires k < next - 1 && r < slots && k == |full| * slots + r
      modifies this
      ensures Valid() && state == Writing && next == old(next) && pages == old(pages)
      ensures |old(Slots())| == next - 1 && Slots() == old(Slots())[k := d]
    {
      SlotsAt(k, |full|, r);
      ConcatLength(full, slots);
      ConcatUpdate(tail, slsize, r, d);
      var offset := r * slsize + 4;
      incomplete := incomplete[..offset - 4] + d + incomplete[offset - 4 + |d|..];
      tail := tail[r := d];
    }

    /** `writeSlot` on slot k + 1, already written: on a page written
        out it is spliced into that page, otherwise into the buffer. */
    method UpdateSlot(k: nat, d: seq<byte>)
      requires Valid() && state == Writing && |d| == slsize && k < next - 1
      modifies this
      ensures Valid() && state == Writing && next == old(next)
      ensures |old(Slots())| == next - 1 && Slots() == old(Slots())[k := d]
    {
      var page := k / slots + 1;
      SlotPlace(k, slots, k / slots, k % slots);
      PageCounts(|full|, |tail|, slots);
      SlotsAt(k, k / slots, k % slots);
      if page < PageNo(next, slots) {
        UpdateOnDisk(k, k / slots, k % slots, d);
      } else {
        UpdateBuffered(k, k % slots, d);
      }
    }

    /** `writeSlot`: slot 0 and slots not yet written raise; the data is
        cut or zero-padded to the slot size; a numbered slot is rewritten
        in place and nothing else changes, and with no number the slot is
        appended. The slot number passed in is returned. */
    method WriteSlot(data: seq<byte>, slot: Option<nat>) returns (r: Result<Option<nat>>)
      requires Valid() && state == Writing
      modifies this
      ensures Valid() && state == Writing
      ensures slot == Some(0) || (slot.Some? && slot.value >= old(next)) ==>
        r == Fail(ValueError) && next == old(next) && Slots() == old(Slots())
      ensures slot.Some? && 0 < slot.value < old(next) ==>
        r == Ok(slot) && next == old(next) && Slots() == old(Slots())[slot.value - 1 := Fit(data, slsize, 0)]
      ensures slot.None? ==>
        r == Ok(None) && next == old(next) + 1 && Slots() == old(Slots()) + [Fit(data, slsize, 0)]
    {
      if slot == Some(0) {
        return Fail(ValueError);
      }
      var d := Fit(data, slsize, 0);
      if slot.Some? {
        if slot.value >= next {
          return Fail(ValueError);
        }
        UpdateSlot(slot.value - 1, d);
        return Ok(slot);
      }
      AppendSlot(d);
      r := Ok(None);
    }

    /** `close`: a file being written writes out the page being filled,
        when it holds a slot; the slots stay as they were. */
    method Close()
      requires Valid()
      modifies this
      ensures Valid() && state == Closed && next == old(next) && Slots() == old(Slots())
    {
      if state == Writing && RelSlot(next, slots) > 0 {
        TailOut(slsize, slots, pgsize, next, full, tail, pages);
        WritePage(Zero4 + incomplete, PageNo(next, slots));
      } else if state == Writing {
        PageCounts(|full|, |tail|, slots);
      }
      state := Closed;
    }

    /** `open`: a file already open stays as it is; opened for writing it
        starts empty; opened for reading it serves what it holds. */
    method Open(mode: FileState)
      requires Valid() && mode != Closed
      modifies this
      ensures Valid()
      ensures old(state) != Closed ==> state == old(state) && next == old(next) && Slots() == old(Slots())
      ensures old(state) == Closed && mode == Writing ==> state == Writing && next == 1 && Slots() == []
      ensures old(state) == Closed && mode == Reading ==> state == Reading && next == old(next) && Slots() == old(Slots())
    {
      if state != Closed {
        return;
      }
      if mode == Writing {
        state, next, incomplete, pages := Writing, 1, [], map[];
        full, tail := [], [];
      } else {
        state := Reading;
      }
    }
  }

  /** Writing out the page being filled, when it holds a slot, keeps
      the full pages and puts the tail on the page after them. */
  lemma TailOut(slsize: nat, slots: nat, pgsize: nat, next: int, full: seq<seq<seq<byte>>>, tail: seq<seq<byte>>,
                pages: map<int, seq<byte>>)
    requires Laid(slsize, slots, pgsize, next, full, tail) && OnDisk(pages, full, slsize, slots, pgsize)
    requires RelSlot(next, slots) > 0
    ensures PageNo(next, slots) == |full| + 1 && |tail| > 0
    ensures var pages' := pages[|full| + 1 := Fit(Zero4 + Concat(tail), pgsize, 0)];
      OnDisk(pages', full, slsize, slots, pgsize) && PageHolds(pages', |full| + 1, tail, slsize, slots, pgsize)
  {
    PageCounts(|full|, |tail|, slots);
    var x := PageImage(tail, pgsize);
    OnDiskBeyond(pages, full, x, slsize, slots, pgsize);
    assert PageHolds(pages[|full| + 1 := x], |full| + 1, tail, slsize, slots, pgsize);
  }

  /** A page written past the full ones leaves them in place. */
  lemma OnDiskBeyond(pages: map<int, seq<byte>>, full: seq<seq<seq<byte>>>, x: seq<byte>, slsize: nat, slots: nat, pgsize: nat)
    requires OnDisk(pages, full, slsize, slots, pgsize)
    ensures OnDisk(pages[|full| + 1 := x], full, slsize, slots, pgsize)
  {
  }

  // ------------------------------------------------------------ tables

  /** `Table`: its access mode and its file. */
  class Table {
    var mode: string
    const file: PageFile

    constructor (file: PageFile)
      ensures this.file == file && mode == ""
    {
      this.file := file;
      mode := "";
    }

    /** `setMode`: the mode is recorded first; any mode but 'r', 'w' and
        'a' raises, and so does 'a'. Otherwise the file is closed and
        opened again: emptied for 'w', as it is for 'r'. */
    method SetMode(m: string) returns (r: Result<()>)
      requires file.Valid()
      modifies this, file
      ensures mode == m && file.Valid()
      ensures m != "r" && m != "w" ==> r == Fail(ValueError) && file.state == old(file.state) && file.Slots() == old(file.Slots())
      ensures m == "w" ==> r == Ok(()) && file.state == Writing && file.Slots() == []
      ensures m == "r" ==> r == Ok(()) && file.state == Reading && file.Slots() == old(file.Slots())
    {
      mode := m;
      if m != "r" && m != "w" && m != "a" {
        return Fail(ValueError);
      }
      if m == "a" {
        return Fail(ValueError);
      }
      file.Close();
      file.Open(if m == "w" then Writing else Reading);
      r := Ok(());
    }
  }

  /** The bytes of `data` with the stretch [ptr, ptr + len) replaced by
      `packed`: `data[0:ptr] + packed + data[ptr+len:]`. */
  function Splice(data: seq<byte>, ptr: nat, len: nat, packed: seq<byte>): (r: seq<byte>)
    requires ptr + len <= |data|
    ensures |packed| == len ==>
      |r| == |data| && r[ptr..ptr + len] == packed && r[..ptr] == data[..ptr] && r[ptr + len..] == data[ptr + len..]
  {
    data[..ptr] + packed + data[ptr + len..]
  }

  /** `Row`: the bytes of one record. */
  class Row {
    var data: seq<byte>

    /** `Row(table)`: a fresh row of `rt_len` zero bytes. */
    constructor (rtlen: nat)
      ensures data == Repeat(0 as byte, rtlen)
    {
      data := Repeat(0 as byte, rtlen);
    }

    /** `setColumn`: the field at `ptr` of length `len` takes the packed
        value; a packed value of the field's length changes those bytes
        and no other. */
    method SetColumn(ptr: nat, len: nat, packed: seq<byte>)
      requires ptr + len <= |data|
      modifies this
      ensures data == Splice(old(data), ptr, len, packed)
      ensures |packed| == len ==>
        (|data| == |old(data)| && data[ptr..ptr + len] == packed
         && forall i :: 0 <= i < |data| && !(ptr <= i < ptr + len) ==> data[i] == old(data)[i])
    {
      data := data[..ptr] + packed + data[ptr + len..];
      if |packed| == len {
        forall i | 0 <= i < |data| && !(ptr <= i < ptr + len)
          ensures data[i] == old(data)[i]
        {
          if i < ptr {
            assert data[i] == data[..ptr][i];
          } else {
            assert data[i] == data[ptr + len..][i - ptr - len];
          }
        }
      }
    }
  }

  // ------------------------------------------------------------ text rows

  /** A Python 2 byte string: every character below 256. */
  predicate IsByteString(s: string)
  {
    forall i :: 0 <= i < |s| ==> s[i] as int < 256
  }

  /** Moving the first `rowlen` characters of the buffer into a new row
      keeps the rows from `base` followed by the buffer the same text. */
  lemma RowOut(rows: seq<string>, base: nat, out: string, rowlen: nat)
    requires base <= |rows| && |out| >= rowlen && AllOfLength(rows, rowlen)
    ensures Concat((rows + [out[..rowlen]])[base..]) + out[rowlen..] == Concat(rows[base..]) + out
    ensures AllOfLength(rows + [out[..rowlen]], rowlen) && (rows + [out[..rowlen]])[..|rows|] == rows
  {
    var row := out[..rowlen];
    assert (rows + [row])[base..] == rows[base..] + [row];
    ConcatAppend(rows[base..], row);
    assert row + out[rowlen..] == out;
  }

  /** `AuxTableManager`: texts packed into the fixed-length rows of a
      table (`rows` is column 0 of each row written so far), each text
      followed by the end character. Row 0 is reserved for the search
      index when there is one. `stream` is every text appended so far
      with its end character. */
  class AuxTable {
    const rowlen: nat
    const endchar: char
    const searchindex: bool
    var outtext: string
    var slotnum: nat
    var index: seq<int>
    var lasttext: Option<string>
    var rows: seq<string>
    ghost var stream: string

    /** The first row holding text. */
    function Base(): nat
      reads this
    {
      if searchindex && slotnum > 0 then 1 else 0
    }

    ghost predicate Valid()
      reads this
    {
      |rows| == slotnum && AllOfLength(rows, rowlen) && |index| == rowlen / 4
      && (searchindex && slotnum > 0 ==> rows[0] == Repeat('\0', rowlen))
      && Concat(rows[Base()..]) + outtext == stream
    }

    constructor (rowlen: nat, endchar: char, searchindex: bool)
      ensures this.rowlen == rowlen && this.endchar == endchar && this.searchindex == searchindex
      ensures Valid() && rows == [] && outtext == [] && stream == [] && lasttext == None
    {
      this.rowlen, this.endchar, this.searchindex := rowlen, endchar, searchindex;
      outtext, slotnum, index, lasttext, rows := [], 0, Repeat(0, rowlen / 4), None, [];
      stream := [];
    }

    /** Reserve row 0 with a blank row when the search index needs it. */
    method Reserve()
      requires Valid()
      modifies this
      ensures Valid() && outtext == old(outtext) && stream == old(stream) && index == old(index) && lasttext == old(lasttext)
      ensures searchindex && old(slotnum) == 0 ==> rows == [Repeat('\0', rowlen)]
      ensures !(searchindex && old(slotnum) == 0) ==> rows == old(rows)
      ensures searchindex ==> Base() == 1
    {
      if slotnum == 0 && searchindex {
        rows := rows + [Repeat('\0', rowlen)];
        slotnum := slotnum + 1;
        assert rows[Base()..] == [];
      }
    }

    /** Add the text and its end character to the buffer, and write out
        one row when the buffer holds at least a row. */
    method Buffer(text: string)
      requires Valid() && (searchindex ==> slotnum > 0)
      modifies this
      ensures Valid() && index == old(index) && lasttext == old(lasttext) && Base() == old(Base())
      ensures stream == old(stream) + text + [endchar]
      ensures old(|rows|) <= |rows| <= old(|rows|) + 1 && rows[..old(|rows|)] == old(rows)
    {
      ghost var joined := Concat(rows[Base()..]);
      AppendAssoc(joined, outtext, text);
      AppendAssoc(joined, outtext + text, [endchar]);
      outtext := outtext + text + [endchar];
      stream := stream + text + [endchar];
      if |outtext| >= rowlen {
        WriteRow();
      }
    }

    /** Move the first `rowlen` characters of the buffer into a new row. */
    method WriteRow()
      requires Valid() && (searchindex ==> slotnum > 0) && |outtext| >= rowlen
      modifies this
      ensures Valid() && index == old(index) && lasttext == old(lasttext) && Base() == old(Base())
      ensures stream == old(stream) && rows == old(rows) + [old(outtext)[..rowlen]]
    {
      RowOut(rows, Base(), outtext, rowlen);
      ghost var first := if |rows| > 0 then rows[0] else [];
      rows, outtext := rows + [outtext[..rowlen]], outtext[rowlen..];
      slotnum := slotnum + 1;
      assert searchindex ==> rows[0] == first;
    }

    /** `appendText`: reserves row 0 first when there is a search index;
        records the reference slot under the text's hash when the text is
        new and a slot is given (an empty text, or a hash past the index,
        raises); and returns `(offset << 24) | row`, where the text starts
        `offset` characters into the buffer of row `row`. At most one row
        of exactly `rowlen` characters is written; the rest stays
        buffered. */
    method AppendText(text: string, refslot: Option<int>) returns (r: Result<nat>)
      requires Valid() && IsByteString(text)
      modifies this
      ensures Valid() && old(rows) <= rows
      ensures searchindex && old(slotnum) == 0 ==> |rows| > 0 && rows[0] == Repeat('\0', rowlen)
      ensures var slot := old(slotnum) + (if searchindex && old(slotnum) == 0 then 1 else 0);
        r.Ok? ==>
          && r.value == Or(old(|outtext|) * SlotRange, slot)
          && |old(stream)| == (slot - Base()) * rowlen + old(|outtext|)
          && stream == old(stream) + text + [endchar]
          && slot <= |rows| <= slot + 1
      ensures r.Fail? ==>
        r == Fail(IndexError) && refslot.Some? && Some(text) != old(lasttext)
        && (|text| == 0 || SortHashFast(Some(text)).value.value >= |index|)
      ensures r.Ok? && refslot.Some? && Some(text) != old(lasttext) ==>
        |text| > 0 && var h := SortHashFast(Some(text)).value.value;
        h < |index| && index == old(index)[h := refslot.value] && lasttext == Some(text)
      ensures r.Ok? && !(refslot.Some? && Some(text) != old(lasttext)) ==> index == old(index) && lasttext == old(lasttext)
    {
      Reserve();
      if Some(text) != lasttext && refslot.Some? {
        if |text| == 0 {
          return Fail(IndexError);
        }
        var h := SortHashFast(Some(text)).value.value;
        if h >= |index| {
          return Fail(IndexError);
        }
        index := index[h := refslot.value];
        lasttext := Some(text);
      }
      var offset := |outtext|;
      var slot := slotnum;
      ConcatLength(rows[Base()..], rowlen);
      Buffer(text);
      r := Ok(Or(offset * SlotRange, slot));
    }
  }

  /** `str.find` of one character: its first position, or -1. */
  function Find(s: string, c: char): (r: int)
    ensures r == -1 <==> c !in s
    ensures r >= 0 ==> r < |s| && s[r] == c && c !in s[..r]
  {
    if |s| == 0 then -1
    else if s[0] == c then 0
    else
      var f := Find(s[1..], c);
      if f < 0 then -1 else assert s[1..][..f] == s[1..f + 1]; f + 1
  }

  /** The first position of c is the k where c occurs and not before. */
  lemma {:induction false} FindAt(s: string, c: char, k: nat)
    requires k < |s| && s[k] == c && c !in s[..k]
    ensures Find(s, c) == k
  {
    if k > 0 {
      assert s[0] == s[..k][0];
      assert s[1..][..k - 1] == s[1..k];
      FindAt(s[1..], c, k - 1);
    }
  }

  /** Python's `s[a:]` for a >= 0. */
  function Drop(s: string, a: nat): string
  {
    if a >= |s| then [] else s[a..]
  }

  /** Python's `s[:n]`, where a negative n counts from the end. */
  function Take(s: string, n: int): string
  {
    if n >= |s| then s
    else if n >= 0 then s[..n]
    else if |s| + n <= 0 then []
    else s[..|s| + n]
  }

  /** What `lookupText` makes of the data read from the table: cut at
      the offset, then at the end character, or to `maxlen`, or nothing
      when there is neither. */
  function CutText(data: string, offset: nat, endchar: Option<char>, maxlen: Option<nat>): Option<string>
  {
    var d := Drop(data, offset);
    if endchar.Some? then Some(Take(d, Find(d, endchar.value)))
    else if maxlen.Some? then Some(Take(d, maxlen.value))
    else None
  }

  /** `lookupText` over the rows of an auxiliary table (column 0 of each):
      offset 0xff is the empty text; a row past the last raises; the
      second read, meant for the row after, reads the same row again. */
  function LookupText(rows: seq<string>, index: nat, offset: nat, endchar: Option<char>, maxlen: Option<nat>): Result<Option<string>>
  {
    if offset == 0xff then Ok(Some(""))
    else if index >= |rows| then Fail(ValueError)
    else Ok(CutText(rows[index] + rows[index], offset, endchar, maxlen))
  }

  /** `lookupText` reading the row and the row after it, when there is
      one, as the text rows are laid out by `appendText`. */
  function LookupTextFixed(rows: seq<string>, index: nat, offset: nat, endchar: Option<char>, maxlen: Option<nat>): Result<Option<string>>
  {
    if offset == 0xff then Ok(Some(""))
    else if index >= |rows| then Fail(ValueError)
    else Ok(CutText(rows[index] + (if index + 1 < |rows| then rows[index + 1] else []), offset, endchar, maxlen))
  }

  /** Row `index` and the row after it, when there is one, are the
      stretch of the joined rows from `base` that starts at that row. */
  lemma RowsInStream(rows: seq<string>, rowlen: nat, base: nat, index: nat)
    requires AllOfLength(rows, rowlen) && base <= index < |rows|
    ensures var data := rows[index] + (if index + 1 < |rows| then rows[index + 1] else []);
      var a := (index - base) * rowlen;
      0 <= a && a + |data| <= |Concat(rows[base..])| && Concat(rows[base..])[a..a + |data|] == data
  {
    ConcatAt(rows[base..], rowlen, index - base);
    if index + 1 < |rows| {
      TwoRowsInStream(rows[base..], rowlen, index - base);
    }
  }

  lemma TwoRowsInStream(rows: seq<string>, rowlen: nat, i: nat)
    requires AllOfLength(rows, rowlen) && i + 1 < |rows|
    ensures 0 <= i * rowlen && i * rowlen + 2 * rowlen <= |Concat(rows)|
    ensures Concat(rows)[i * rowlen..i * rowlen + 2 * rowlen] == rows[i] + rows[i + 1]
  {
    var flat := Concat(rows);
    var a := i * rowlen;
    ConcatAt(rows, rowlen, i);
    ConcatAt(rows, rowlen, i + 1);
    MulSucc(i, rowlen);
    assert flat[a..a + 2 * rowlen] == flat[a..a + rowlen] + flat[a + rowlen..a + 2 * rowlen];
  }

  /** A text followed by the end character, starting `offset` into a row
      and ending within that row or the next, is read back whole. */
  lemma LookupFindsText(rows: seq<string>, rowlen: nat, base: nat, index: nat, offset: nat, text: string, e: char)
    requires AllOfLength(rows, rowlen) && base <= index < |rows| && offset < rowlen && offset != 0xff
    requires offset + |text| + 1 <= (if index + 1 < |rows| then 2 * rowlen else rowlen)
    requires e !in text
    requires var p := (index - base) * rowlen + offset;
      0 <= p && p + |text| + 1 <= |Concat(rows[base..])| && Concat(rows[base..])[p..p + |text| + 1] == text + [e]
    ensures LookupTextFixed(rows, index, offset, Some(e), None) == Ok(Some(text))
  {
    var data := rows[index] + (if index + 1 < |rows| then rows[index + 1] else []);
    var a := (index - base) * rowlen;
    RowsInStream(rows, rowlen, base, index);
    var flat := Concat(rows[base..]);
    SliceIn(flat, a, |data|, data, offset, offset + |text| + 1);
    var d := Drop(data, offset);
    PrefixOfDrop(data, offset, |text| + 1);
    PrefixBefore(d, text, e);
    FindAt(d, e, |text|);
  }

  /** With rows of four characters, "ab" then "cd" appended with end
      character NUL fill row 0 with "ab\0c"; "cd" starts at offset 3 of
      row 0 and runs into row 1. Reading the same row twice gives "cab",
      not "cd". */
  lemma LookupReadsRowTwice()
    ensures LookupText(["ab\0c", "d\0\0\0"], 0, 3, Some('\0'), None) == Ok(Some("cab"))
  {
    var r0, r1 := "ab\0c", "d\0\0\0";
    assert r0 + r0 == "ab\0cab\0c";
    var d := Drop(r0 + r0, 3);
    assert d == "cab\0c";
    assert d[..3] == "cab";
    FindAt(d, '\0', 3);
    assert CutText(r0 + r0, 3, Some('\0'), None) == Some("cab");
    assert LookupText([r0, r1], 0, 3, Some('\0'), None) == Ok(CutText(r0 + r0, 3, Some('\0'), None));
  }

  /** Reading on into the row after gives "cd" back. */
  lemma LookupReadsNextRow()
    ensures LookupTextFixed(["ab\0c", "d\0\0\0"], 0, 3, Some('\0'), None) == Ok(Some("cd"))
  {
    var r0, r1 := "ab\0c", "d\0\0\0";
    assert r0 + r1 == "ab\0cd\0\0\0";
    var d2 := Drop(r0 + r1, 3);
    assert d2 == "cd\0\0\0";
    assert d2[..2] == "cd";
    FindAt(d2, '\0', 2);
    assert CutText(r0 + r1, 3, Some('\0'), None) == Some("cd");
    assert LookupTextFixed([r0, r1], 0, 3, Some('\0'), None) == Ok(CutText(r0 + r1, 3, Some('\0'), None));
  }
}
