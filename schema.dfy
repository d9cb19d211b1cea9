/** The `DatabaseSchema` object of magellan/DBSchema.py: seven tables
    that `addFileStruct`, `addRecordStruct` and `addSet` append to and
    `updateFieldSlotPtrs` rewrites in place, written out by `serialize`
    and refilled by `deSerialize`. Table entries are values here; the
    struct objects the caller passes in are not shared with the tables. */
module SchemaObject {
  import opened Wrappers
  import opened PyStruct
  import opened DBSchema

  /** 'V3.00' padded to six bytes with 0x1a. */
  const InitialVersion: seq<byte> := [0x56, 0x33, 0x2e, 0x30, 0x30, 0x1a]

  const NoTables := Tables([], [], [], [], [], [], [])

  // ----------------------------------------------- the appended entries

  /** The file entries `addFileStruct` appends: the file itself, and for
      a compressed file its index file. */
  function FileEntries(fs: FileStruct): (r: seq<FileStruct>)
    ensures |r| == (if Compressed(fs) then 2 else 1)
    ensures r[0] == Registered(fs) && r[0].status == 0x63 && r[0].slots == Some(0)
    ensures Compressed(fs) ==> r[1] == CompanionFile(fs)
  {
    [Registered(fs)] + (if Compressed(fs) then [CompanionFile(fs)] else [])
  }

  /** A field as the `FieldStruct` constructor leaves it: a length exactly
      when it has a type, and then the length `size()` computes. */
  predicate Made(f: FieldStruct)
  {
    if f.ftype.Some? then UnitSize(f.ftype).Ok? && f.len == Some(FieldSize(f.ftype, f.dim1, f.dim2).value as int)
    else f.len.None?
  }

  lemma NewFieldMade(name: seq<byte>, ftype: Option<int>, dim1: nat, dim2: nat, flags: Option<int>)
    requires NewField(name, ftype, dim1, dim2, flags).Ok?
    ensures Made(NewField(name, ftype, dim1, dim2, flags).value)
  {
  }

  /** The fields of record `rec`, as `addRecordStruct` appends them. */
  function OwnedBy(flist: seq<FieldStruct>, rec: nat): (r: seq<FieldStruct>)
    ensures |r| == |flist| && forall i :: 0 <= i < |r| ==> r[i] == flist[i].(rec := Some(rec))
  {
    seq(|flist|, i requires 0 <= i < |flist| => flist[i].(rec := Some(rec)))
  }

  /** `MemberStruct(recordnum, sort_fieldindex_list)`: the member entry
      with the sort field indices it carries beside its struct fields. */
  datatype NewMember = NewMember(entry: MemberStruct, sortfields: seq<int>)

  function MakeMember(record: nat, sortfields: seq<int>): NewMember
  {
    NewMember(MemberStruct(record, None, None, Some(|sortfields|)), sortfields)
  }

  /** The member can be added: it names a record when it has sort fields. */
  predicate Sortable(records: seq<RecordStruct>, m: NewMember)
  {
    |m.sortfields| > 0 ==> 0 <= m.entry.record < |records|
  }

  /** The sort table entries of a member: each sort field index taken
      relative to the member record's first field, tagged with the set. */
  function SortsOf(t: Tables, m: NewMember, setnum: int): (r: seq<SortStruct>)
    requires Sortable(t.records, m)
    ensures |r| == |m.sortfields|
  {
    seq(|m.sortfields|, j requires 0 <= j < |m.sortfields| =>
      SortStruct(t.records[m.entry.record].fields + m.sortfields[j], setnum))
  }

  /** One member added by `addSet`: its sort entries go to the end of the
      sort table and its mt_sort_fld points at the first of them, or is 0
      when it has none. */
  function MemberAdded(t: Tables, m: NewMember, setnum: int): (u: Tables)
    requires Sortable(t.records, m)
    ensures u.records == t.records && u.files == t.files && u.fields == t.fields && u.sets == t.sets && u.keys == t.keys
  {
    t.(sorts := t.sorts + SortsOf(t, m, setnum),
       members := t.members + [m.entry.(sortfld := Some(if |m.sortfields| > 0 then |t.sorts| else 0))])
  }

  function MembersAdded(t: Tables, ms: seq<NewMember>, setnum: int): (u: Tables)
    requires forall i :: 0 <= i < |ms| ==> Sortable(t.records, ms[i])
    ensures u.records == t.records && u.files == t.files && u.fields == t.fields && u.sets == t.sets && u.keys == t.keys
    ensures |u.members| == |t.members| + |ms| && u.members[..|t.members|] == t.members
    ensures |u.sorts| >= |t.sorts| && u.sorts[..|t.sorts|] == t.sorts
  {
    if |ms| == 0 then t
    else
      assert forall i :: 0 <= i < |ms| - 1 ==> ms[..|ms| - 1][i] == ms[i];
      var v := MembersAdded(t, ms[..|ms| - 1], setnum);
      assert Sortable(v.records, ms[|ms| - 1]);
      var u := MemberAdded(v, ms[|ms| - 1], setnum);
      assert u.members[..|t.members|] == v.members[..|t.members|];
      assert u.sorts[..|t.sorts|] == v.sorts[..|t.sorts|];
      u
  }

  /** The tables after `addSet` appended the set, the member entries and
      their sort entries, before the pointers are laid out. */
  function SetAdded(t: Tables, name: seq<byte>, owner: int, ms: seq<NewMember>, order: int): Tables
    requires forall i :: 0 <= i < |ms| ==> Sortable(t.records, ms[i])
  {
    MembersAdded(t.(sets := t.sets + [SetStruct(name, order, owner, None, |t.members|, |ms|, 0)]), ms, OwnedCount(t.sets, owner))
  }

  /** `updateFieldSlotPtrs` run for each record in turn. */
  function LaidAll(t: Tables, rs: seq<nat>): (u: Tables)
    requires forall i :: 0 <= i < |rs| ==> Layable(t, rs[i])
    ensures SameFrame(t, u) && u.sorts == t.sorts && u.keys == t.keys && |u.sets| == |t.sets| && |u.members| == |t.members|
  {
    if |rs| == 0 then t
    else
      var v := LaidAll(t, rs[..|rs| - 1]);
      LayableKept(t, v, rs[|rs| - 1]);
      LaidSameFrame(v, rs[|rs| - 1]);
      Laid(v, rs[|rs| - 1])
  }

  /** One more record of the list laid out. */
  lemma LaidAllStep(t: Tables, rs: seq<nat>, j: nat)
    requires j < |rs| && forall i :: 0 <= i < |rs| ==> Layable(t, rs[i])
    ensures forall i :: 0 <= i < j ==> Layable(t, rs[..j][i])
    ensures Layable(LaidAll(t, rs[..j]), rs[j])
    ensures LaidAll(t, rs[..j + 1]) == Laid(LaidAll(t, rs[..j]), rs[j])
  {
    assert rs[..j + 1][..j] == rs[..j];
    LayableKept(t, LaidAll(t, rs[..j]), rs[j]);
  }

  function Records(ms: seq<NewMember>): (rs: seq<int>)
    ensures |rs| == |ms| && forall i :: 0 <= i < |ms| ==> rs[i] == ms[i].entry.record
  {
    seq(|ms|, i requires 0 <= i < |ms| => ms[i].entry.record)
  }

  /** A member added to a set points at its own sort entries: they sit
      at its mt_sort_fld, one per sort field, each naming the sort field
      of the member's record and the set's number among its owner's sets. */
  lemma {:induction false} MemberSorts(t: Tables, ms: seq<NewMember>, setnum: int, i: nat)
    requires forall k :: 0 <= k < |ms| ==> Sortable(t.records, ms[k])
    requires i < |ms| && |ms[i].sortfields| > 0
    ensures var u := MembersAdded(t, ms, setnum); var e := u.members[|t.members| + i];
      e.record == ms[i].entry.record && e.sortfld.Some? && 0 <= e.sortfld.value &&
      e.sortfld.value + |ms[i].sortfields| <= |u.sorts| &&
      u.sorts[e.sortfld.value..e.sortfld.value + |ms[i].sortfields|] == SortsOf(t, ms[i], setnum)
    decreases |ms|
  {
    var n := |ms|;
    var v := MembersAdded(t, ms[..n - 1], setnum);
    var u := MembersAdded(t, ms, setnum);
    assert forall k :: 0 <= k < n - 1 ==> ms[..n - 1][k] == ms[k];
    if i < n - 1 {
      MemberSorts(t, ms[..n - 1], setnum, i);
      var e := v.members[|t.members| + i];
      assert u.members[|t.members| + i] == e;
      assert u.sorts[..|v.sorts|] == v.sorts;
      assert u.sorts[e.sortfld.value..e.sortfld.value + |ms[i].sortfields|]
          == v.sorts[e.sortfld.value..e.sortfld.value + |ms[i].sortfields|];
    } else {
      assert u.sorts[|v.sorts|..] == SortsOf(v, ms[i], setnum);
    }
  }

  // ------------------------------------------------------------ the object

  class DatabaseSchema {
    var version: seq<byte>
    var pagesize: int
    var files: seq<FileStruct>
    var records: seq<RecordStruct>
    var fields: seq<FieldStruct>
    var sets: seq<SetStruct>
    var members: seq<MemberStruct>
    var sorts: seq<SortStruct>
    var keys: seq<KeyStruct>

    function Current(): Tables
      reads this
    {
      Tables(files, records, fields, sets, members, sorts, keys)
    }

    method SetTables(t: Tables)
      modifies this
      ensures Current() == t && version == old(version) && pagesize == old(pagesize)
    {
      files, records, fields, sets, members, sorts, keys := t.files, t.records, t.fields, t.sets, t.members, t.sorts, t.keys;
    }

    /** A new schema: the default header and empty tables. */
    constructor ()
      ensures version == InitialVersion && pagesize == 512 && Current() == NoTables
    {
      version, pagesize := InitialVersion, 512;
      files, records, fields, sets, members, sorts, keys := [], [], [], [], [], [], [];
    }

    /** `addFileStruct`: the file is registered at the end of the file
      table (with its index file when compressed) and its number is
      returned. */
    method AddFileStruct(fs: FileStruct) returns (filenum: nat)
      modifies this
      ensures filenum == |old(files)| && files == old(files) + FileEntries(fs) && files[filenum] == Registered(fs)
      ensures Current() == old(Current()).(files := files)
      ensures version == old(version) && pagesize == old(pagesize)
    {
      filenum := |files|;
      files := files + [Registered(fs)];
      if Compressed(fs) {
        files := files + [CompanionFile(fs)];
      }
    }

    /** `updateFieldSlotPtrs(r)`: the running slot pointer walks the owned
      sets, the member entries and the fields of record r; the record and
      its file get the resulting length and slot size. */
    method UpdateFieldSlotPtrs(r: nat)
      requires Layable(Current(), r)
      modifies this
      ensures Current() == Laid(old(Current()), r)
      ensures version == old(version) && pagesize == old(pagesize)
    {
      ghost var t := Current();
      var nsets := LaySets(r);
      var nmembers := LayMembers(r, 6 + 12 * nsets);
      var rec := records[r];
      var a, b := Min(rec.fields, |fields|), Min(rec.fields + rec.fdtot, |fields|);
      assert a == FieldFrom(t, r) && b == FieldTo(t, r);
      var slotptr := 6 + 12 * nsets + 12 * nmembers;
      var slotsize := LayFields(a, b, slotptr);
      records := records[r := rec.(data := slotptr, len := slotsize)];
      files := files[rec.file := Sized(files[rec.file], slotsize)];
    }

    method LaySets(r: nat) returns (nsets: nat)
      modifies this
      ensures nsets == OwnedCount(old(sets), r)
      ensures Current() == old(Current()).(sets := SetsLaid(old(sets), r))
      ensures version == old(version) && pagesize == old(pagesize)
    {
      var ss;
      ss, nsets := SetPtrs(sets, r);
      sets := ss;
    }

    /** The loop of `updateFieldSlotPtrs` over the set table. */
    static method SetPtrs(s0: seq<SetStruct>, r: nat) returns (ss: seq<SetStruct>, nsets: nat)
      ensures nsets == OwnedCount(s0, r)
      ensures ss == SetsLaid(s0, r)
    {
      var p := (s: SetStruct) => s.ownrt == r;
      ss := s0;
      var slotptr := 6;
      var i := 0;
      while i < |ss|
        invariant 0 <= i <= |ss| == |s0|
        invariant forall j :: 0 <= j < i ==> ss[j] == SetsLaid(s0, r)[j]
        invariant forall j :: i <= j < |ss| ==> ss[j] == s0[j]
        invariant slotptr == 6 + 12 * OwnedCount(s0[..i], r)
      {
        CountStep(s0, p, i);
        if ss[i].ownrt == r {
          ss := ss[i := ss[i].(ownptr := Some(slotptr))];
          slotptr := slotptr + 12;
        }
        i := i + 1;
      }
      assert ss == SetsLaid(s0, r);
      assert s0[..i] == s0;
      nsets := (slotptr - 6) / 12;
    }

    method LayMembers(r: nat, base: int) returns (nmembers: nat)
      modifies this
      ensures nmembers == MemberCount(old(members), r)
      ensures Current() == old(Current()).(members := MembersLaid(old(members), r, base))
      ensures version == old(version) && pagesize == old(pagesize)
    {
      var ms;
      ms, nmembers := MemberPtrs(members, r, base);
      members := ms;
    }

    /** The loop of `updateFieldSlotPtrs` over the member table. */
    static method MemberPtrs(m0: seq<MemberStruct>, r: nat, base: int) returns (ms: seq<MemberStruct>, nmembers: nat)
      ensures nmembers == MemberCount(m0, r)
      ensures ms == MembersLaid(m0, r, base)
    {
      var p := (m: MemberStruct) => m.record == r;
      ms := m0;
      var slotptr := base;
      var i := 0;
      while i < |ms|
        invariant 0 <= i <= |ms| == |m0|
        invariant forall j :: 0 <= j < i ==> ms[j] == MembersLaid(m0, r, base)[j]
        invariant forall j :: i <= j < |ms| ==> ms[j] == m0[j]
        invariant slotptr == base + 12 * MemberCount(m0[..i], r)
      {
        CountStep(m0, p, i);
        if ms[i].record == r {
          ms := ms[i := ms[i].(memptr := Some(slotptr))];
          slotptr := slotptr + 12;
        }
        i := i + 1;
      }
      assert ms == MembersLaid(m0, r, base);
      assert m0[..i] == m0;
      nmembers := (slotptr - base) / 12;
    }

    method LayFields(a: nat, b: nat, data: int) returns (slotptr: int)
      requires a <= b <= |fields| && HasLengths(fields[a..b])
      modifies this
      ensures slotptr == data + SumLen(old(fields)[a..b])
      ensures Current() == old(Current()).(fields := FieldsLaid(old(fields), a, b, data))
      ensures version == old(version) && pagesize == old(pagesize)
    {
      var fs;
      fs, slotptr := FieldPtrs(fields, a, b, data);
      fields := fs;
    }

    /** The loop of `updateFieldSlotPtrs` over the record's fields. */
    static method FieldPtrs(f0: seq<FieldStruct>, a: nat, b: nat, data: int) returns (fs: seq<FieldStruct>, slotptr: int)
      requires a <= b <= |f0| && HasLengths(f0[a..b])
      ensures slotptr == data + SumLen(f0[a..b])
      ensures fs == FieldsLaid(f0, a, b, data)
    {
      fs := f0;
      slotptr := data;
      var k := a;
      while k < b
        invariant a <= k <= b && |fs| == |f0|
        invariant forall j :: 0 <= j < |fs| ==> fs[j] == (if a <= j < k then FieldsLaid(f0, a, b, data)[j] else f0[j])
        invariant slotptr == data + SumLen(f0[a..b][..k - a])
      {
        SumLenStep(f0[a..b], k - a);
        assert f0[a..b][k - a] == f0[k];
        var len := fs[k].len.value;
        fs := fs[k := fs[k].(ptr := Some(slotptr))];
        slotptr := slotptr + len;
        k := k + 1;
      }
      assert fs == FieldsLaid(f0, a, b, data);
      SumLenAll(f0[a..b]);
    }

    /** `addRecordStruct`: the record's file is added, then its fields
      (tagged with the record number), then the record, which is laid out.
      A field without a type raises KeyError and an empty field list
      TypeError, after the file and the fields went in. */
    method AddRecordStruct(name: seq<byte>, filename: seq<byte>, flist: seq<FieldStruct>, compressed: bool)
      returns (r: Result<nat>)
      requires forall i :: 0 <= i < |flist| ==> Made(flist[i])
      modifies this
      ensures var t0 := old(Current());
        var t1 := t0.(files := t0.files + FileEntries(NewFile(filename, compressed)), fields := t0.fields + OwnedBy(flist, |t0.records|));
        if |flist| == 0 then r == Fail(TypeError) && Current() == t1
        else if exists i :: 0 <= i < |flist| && flist[i].ftype.None? then r == Fail(KeyError) && Current() == t1
        else
          HasLengths(flist) && r == Ok(|t0.records|) &&
          var rec := RecordStruct(name, |t0.files|, SumLen(flist), 6, |t0.fields|, |flist|, 0);
          Layable(t1.(records := t0.records + [rec]), |t0.records|) &&
          Current() == Laid(t1.(records := t0.records + [rec]), |t0.records|)
      ensures version == old(version) && pagesize == old(pagesize)
    {
      ghost var t0 := Current();
      var filenum := AddFileStruct(NewFile(filename, compressed));
      var recordnum := |records|;
      var firstfieldnum := |fields|;
      var i := 0;
      while i < |flist|
        invariant 0 <= i <= |flist|
        invariant fields == t0.fields + OwnedBy(flist[..i], recordnum)
        invariant files == t0.files + FileEntries(NewFile(filename, compressed))
        invariant records == t0.records && sets == t0.sets && members == t0.members && sorts == t0.sorts && keys == t0.keys
        invariant version == old(version) && pagesize == old(pagesize)
      {
        assert OwnedBy(flist[..i + 1], recordnum) == OwnedBy(flist[..i], recordnum) + [flist[i].(rec := Some(recordnum))];
        fields := fields + [flist[i].(rec := Some(recordnum))];
        i := i + 1;
      }
      assert flist[..|flist|] == flist;
      if |flist| == 0 {
        return Fail(TypeError);
      }
      var len := TotalSize(flist);
      if len.Fail? {
        return Fail(len.failure);
      }
      records := records + [RecordStruct(name, filenum, len.value, 6, firstfieldnum, |flist|, 0)];
      assert fields[firstfieldnum..firstfieldnum + |flist|] == OwnedBy(flist, recordnum);
      UpdateFieldSlotPtrs(recordnum);
      r := Ok(recordnum);
    }

    /** `addSet`: the set goes to the end of the set table, its member
      entries and their sort entries follow, and the owner and then every
      member record are laid out again. */
    method AddSet(name: seq<byte>, owner: nat, memberlist: seq<NewMember>, order: int)
      requires forall i :: 0 <= i < |memberlist| ==> Sortable(records, memberlist[i])
      requires Layable(Current(), owner)
      requires forall i :: 0 <= i < |memberlist| ==> 0 <= memberlist[i].entry.record && Layable(Current(), memberlist[i].entry.record)
      modifies this
      ensures var t1 := SetAdded(old(Current()), name, owner, memberlist, order);
        (forall i :: 0 <= i < |memberlist| + 1 ==> Layable(t1, ([owner] + Records(memberlist))[i])) &&
        Current() == LaidAll(t1, [owner] + Records(memberlist))
      ensures version == old(version) && pagesize == old(pagesize)
    {
      ghost var t0 := Current();
      var setnum := OwnedCount(sets, owner);
      sets := sets + [SetStruct(name, order, owner, None, |members|, |memberlist|, 0)];
      AddMembers(memberlist, setnum);
      ghost var t1 := Current();
      assert t1 == SetAdded(t0, name, owner, memberlist, order);
      var rs: seq<nat> := [owner] + Records(memberlist);
      forall k | 0 <= k < |rs| ensures Layable(t1, rs[k]) {
        LayableKept(t0, t1, rs[k]);
      }
      LayAll(rs);
    }

    method AddMembers(ms: seq<NewMember>, setnum: int)
      requires forall i :: 0 <= i < |ms| ==> Sortable(records, ms[i])
      modifies this
      ensures Current() == MembersAdded(old(Current()), ms, setnum)
      ensures version == old(version) && pagesize == old(pagesize)
    {
      ghost var t := Current();
      var i := 0;
      while i < |ms|
        invariant 0 <= i <= |ms|
        invariant forall k :: 0 <= k < i ==> ms[..i][k] == ms[k]
        invariant Current() == MembersAdded(t, ms[..i], setnum)
        invariant version == old(version) && pagesize == old(pagesize)
      {
        assert ms[..i + 1][..i] == ms[..i];
        AddMember(ms[i], setnum);
        i := i + 1;
      }
      assert ms[..|ms|] == ms;
    }

    /** `updateFieldSlotPtrs` for each record of the list in turn. */
    method LayAll(rs: seq<nat>)
      requires forall i :: 0 <= i < |rs| ==> Layable(Current(), rs[i])
      modifies this
      ensures Current() == LaidAll(old(Current()), rs)
      ensures version == old(version) && pagesize == old(pagesize)
    {
      ghost var t := Current();
      var j := 0;
      while j < |rs|
        invariant 0 <= j <= |rs|
        invariant Current() == LaidAll(t, rs[..j])
        invariant version == old(version) && pagesize == old(pagesize)
      {
        LaidAllStep(t, rs, j);
        UpdateFieldSlotPtrs(rs[j]);
        j := j + 1;
      }
      assert rs[..|rs|] == rs;
    }

    method AddMember(m: NewMember, setnum: int)
      requires Sortable(records, m)
      modifies this
      ensures Current() == MemberAdded(old(Current()), m, setnum)
      ensures version == old(version) && pagesize == old(pagesize)
    {
      ghost var t := Current();
      var sortfld := 0;
      if |m.sortfields| > 0 {
        sortfld := |sorts|;
        var j := 0;
        while j < |m.sortfields|
          invariant 0 <= j <= |m.sortfields|
          invariant sorts == t.sorts + SortsOf(t, m, setnum)[..j]
          invariant Current() == t.(sorts := sorts) && version == old(version) && pagesize == old(pagesize)
        {
          assert SortsOf(t, m, setnum)[..j + 1] == SortsOf(t, m, setnum)[..j] + [SortsOf(t, m, setnum)[j]];
          sorts := sorts + [SortStruct(records[m.entry.record].fields + m.sortfields[j], setnum)];
          j := j + 1;
        }
        assert SortsOf(t, m, setnum)[..j] == SortsOf(t, m, setnum);
      }
      members := members + [m.entry.(sortfld := Some(sortfld))];
    }

    /** `serialize`: the header page size becomes the files' largest (when
      there are files) and the schema is written as `Encode` lays it out. */
    method Serialize(big: bool) returns (r: Result<seq<byte>>)
      modifies this
      ensures pagesize == HeaderPageSize(SchemaFile(old(version), old(pagesize), old(Current())))
      ensures Current() == old(Current()) && version == old(version)
      ensures r == Encode(SchemaFile(version, pagesize, Current()), big)
    {
      if |files| > 0 {
        pagesize := MaxPgsize(files);
      }
      r := Encode(SchemaFile(version, pagesize, Current()), big);
    }

    /** `deSerialize`: the tables are cleared, the header is read (and
      kept even when the file count fails the sanity check), and on
      success the tables are the ones `Decode` reads. */
    method DeSerialize(data: seq<byte>, big: bool) returns (r: Result<bool>)
      modifies this
      ensures r.Ok? <==> Decode(data, big).Ok?
      ensures r.Ok? ==> SchemaFile(version, pagesize, Current()) == Decode(data, big).value
      ensures r.Fail? ==> r.failure == Decode(data, big).failure && Current() == NoTables
      ensures r.Fail? && |data| >= Size(HeaderLayout) ==>
        version == ValuesAt(HeaderLayout, data, big)[0].s && pagesize == ValuesAt(HeaderLayout, data, big)[1].i
      ensures r.Fail? && |data| < Size(HeaderLayout) ==> version == old(version) && pagesize == old(pagesize)
    {
      SetTables(NoTables);
      var hdr := Unpack(HeaderLayout, data, big);
      if hdr.Ok? {
        version, pagesize := hdr.value.0[0].s, hdr.value.0[1].i;
      }
      var s := Decode(data, big);
      if s.Ok? {
        version, pagesize := s.value.version, s.value.pagesize;
        SetTables(s.value.tables);
        r := Ok(true);
      } else {
        r := Fail(s.failure);
      }
    }
  }

  /** `reduce(operator.add, [f.size() for f in fieldstructlist])` over a
      non-empty list: KeyError for a field without a type, else the sum of
      the lengths. */
  function TotalSize(flist: seq<FieldStruct>): (r: Result<int>)
    requires |flist| > 0 && forall i :: 0 <= i < |flist| ==> Made(flist[i])
    ensures r.Fail? <==> exists i :: 0 <= i < |flist| && flist[i].ftype.None?
    ensures r.Fail? ==> r.failure == KeyError
    ensures r.Ok? ==> HasLengths(flist) && r.value == SumLen(flist)
  {
    if exists i :: 0 <= i < |flist| && flist[i].ftype.None? then Fail(KeyError)
    else
      assert HasLengths(flist) by {
        forall i | 0 <= i < |flist| ensures flist[i].len.Some? && flist[i].len.value >= 0 {
          assert flist[i].ftype.Some? && Made(flist[i]);
        }
      }
      Ok(SumLen(flist))
  }
}
