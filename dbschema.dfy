/** The database schema of magellan/DBSchema.py: the fixed-layout
    structures of the schema file, the field descriptions with their
    sizes and struct format codes, the pointer layout of a record slot,
    the tables a schema is built from, and the schema file itself. */
module DBSchema {
  import opened Wrappers
  import opened PyStruct
  import opened Chunks
  import opened PyStr

  const FTFlagsCompressed: int := 0x40
  const FieldTypeFloat: int := 0x66     // 'f'
  const FieldTypeChar: int := 0x63      // 'c'
  const FieldTypeLong: int := 0x6c      // 'l'
  const FieldTypeRegInt: int := 0x69    // 'i'
  const FieldTypeShort: int := 0x73     // 's'
  const FieldFlagUnsigned: int := 4
  const SetSortOrderLast: int := 0x6c   // 'l'
  const Newline: byte := 10

  // ------------------------------------------------------ struct layouts

  /** One item of a struct format: "B", "H" or "<n>s". */
  datatype Kind = B | H | Str(n: nat)

  /** A Python value handed to or returned by struct: an integer, a byte
      string, or None. */
  datatype Value = Int(i: int) | Bytes(s: seq<byte>) | Null

  function Width(k: Kind): nat
  {
    match k
    case B => 1
    case H => 2
    case Str(n) => n
  }

  /** `struct.calcsize` of a layout (the layouts used here need no
      alignment padding). */
  function Size(layout: seq<Kind>): nat
  {
    if |layout| == 0 then 0 else Width(layout[0]) + Size(layout[1..])
  }

  /** pack of one item: a number out of range, a string where a number
      is expected or None raise struct.error; "<n>s" cuts or fills the
      string with NULs to n bytes. */
  function PackValue(k: Kind, v: Value, big: bool): (r: Result<seq<byte>>)
    ensures r.Ok? ==> |r.value| == Width(k)
  {
    match k
    case B => if v.Int? then PackU8(v.i) else Fail(StructError)
    case H => if v.Int? then PackU16(v.i, big) else Fail(StructError)
    case Str(n) => if v.Bytes? then Ok(Fit(v.s, n, 0)) else Fail(StructError)
  }

  /** `DBStruct.serialize`: `struct.pack(prefix + types, *values)`. */
  function Pack(layout: seq<Kind>, values: seq<Value>, big: bool): (r: Result<seq<byte>>)
    ensures r.Ok? ==> |r.value| == Size(layout)
  {
    if |layout| != |values| then Fail(StructError)
    else if |layout| == 0 then Ok([])
    else
      var h :- PackValue(layout[0], values[0], big);
      var t :- Pack(layout[1..], values[1..], big);
      Ok(h + t)
  }

  /** `value.split(chr(0))[0]`: a string field read back up to its first NUL. */
  function CutNul(s: seq<byte>): (r: seq<byte>)
    ensures 0 !in r
  {
    Split(s, 0)[0]
  }

  function ValueAt(k: Kind, data: seq<byte>, big: bool): Value
    requires |data| >= Width(k)
  {
    match k
    case B => Int(data[0])
    case H => Int(GetU16(data, big))
    case Str(n) => Bytes(CutNul(data[..n]))
  }

  /** Values of the Python types unpack returns for the layout: strings
      for "<n>s", non-negative integers otherwise. */
  predicate Shaped(layout: seq<Kind>, vs: seq<Value>)
  {
    |vs| == |layout| &&
    forall i :: 0 <= i < |vs| ==> if layout[i].Str? then vs[i].Bytes? else vs[i].Int? && vs[i].i >= 0
  }

  function ValuesAt(layout: seq<Kind>, data: seq<byte>, big: bool): (r: seq<Value>)
    requires |data| >= Size(layout)
    ensures |r| == |layout| && Shaped(layout, r)
  {
    if |layout| == 0 then []
    else [ValueAt(layout[0], data, big)] + ValuesAt(layout[1..], data[Width(layout[0])..], big)
  }

  /** `DBStruct.deSerialize`: unpack the first calcsize bytes (struct.error
      when fewer are left) and return the values and the rest. */
  function Unpack(layout: seq<Kind>, data: seq<byte>, big: bool): (r: Result<(seq<Value>, seq<byte>)>)
    ensures r.Ok? <==> |data| >= Size(layout)
    ensures r.Ok? ==> Shaped(layout, r.value.0) && r.value.1 == data[Size(layout)..]
  {
    if |data| < Size(layout) then Fail(StructError) else Ok((ValuesAt(layout, data, big), data[Size(layout)..]))
  }

  /** A value the item writes and reads back unchanged. */
  predicate Fits(k: Kind, v: Value)
  {
    match k
    case B => v.Int? && 0 <= v.i < 0x100
    case H => v.Int? && 0 <= v.i < 0x1_0000
    case Str(n) => v.Bytes? && |v.s| <= n && 0 !in v.s
  }

  predicate AllFit(layout: seq<Kind>, values: seq<Value>)
  {
    |layout| == |values| && forall i :: 0 <= i < |layout| ==> Fits(layout[i], values[i])
  }

  lemma CutNulFit(s: seq<byte>, n: nat)
    requires |s| <= n && 0 !in s
    ensures CutNul(Fit(s, n, 0)) == s
  {
    var z := Repeat(0 as byte, n - |s|);
    assert Fit(s, n, 0) == s + z;
    SplitPrefix(s, z, 0);
    if |z| == 0 {
      assert Split(z, 0)[0] == [];
    } else {
      assert z[0] == 0;
      assert Split(z, 0)[0] == [];
    }
    assert s + [] == s;
  }

  lemma PackValueReads(k: Kind, v: Value, big: bool, rest: seq<byte>)
    requires Fits(k, v)
    ensures PackValue(k, v, big).Ok?
    ensures ValueAt(k, PackValue(k, v, big).value + rest, big) == v
  {
    var d := PackValue(k, v, big).value + rest;
    match k
    case B =>
    case H => assert d[..2] == U16(v.i, big);
    case Str(n) =>
      assert d[..n] == Fit(v.s, n, 0);
      CutNulFit(v.s, n);
  }

  /** What `DBStruct.serialize` writes `DBStruct.deSerialize` reads back,
      value for value, leaving the bytes that follow. */
  lemma {:induction false} UnpackPack(layout: seq<Kind>, values: seq<Value>, big: bool, rest: seq<byte>)
    requires AllFit(layout, values)
    ensures Pack(layout, values, big).Ok?
    ensures Unpack(layout, Pack(layout, values, big).value + rest, big) == Ok((values, rest))
  {
    if |layout| > 0 {
      assert AllFit(layout[1..], values[1..]) by {
        forall i | 0 <= i < |layout| - 1 ensures Fits(layout[1..][i], values[1..][i]) {
          assert layout[1..][i] == layout[i + 1];
        }
      }
      UnpackPack(layout[1..], values[1..], big, rest);
      assert Fits(layout[0], values[0]);
      var h := PackValue(layout[0], values[0], big).value;
      var t := Pack(layout[1..], values[1..], big).value;
      PackValueReads(layout[0], values[0], big, t + rest);
      assert Pack(layout, values, big) == Ok(h + t);
      UnpackCons(layout, values, big, h, t, rest);
    } else {
      assert Pack(layout, values, big) == Ok([]);
      assert [] + rest == rest;
    }
  }

  lemma UnpackCons(layout: seq<Kind>, values: seq<Value>, big: bool, h: seq<byte>, t: seq<byte>, rest: seq<byte>)
    requires |layout| == |values| > 0 && |h| == Width(layout[0]) && |t| == Size(layout[1..])
    requires ValueAt(layout[0], h + (t + rest), big) == values[0]
    requires ValuesAt(layout[1..], t + rest, big) == values[1..]
    ensures Unpack(layout, h + t + rest, big) == Ok((values, rest))
  {
    var d := h + t + rest;
    assert d == h + (t + rest);
    assert d[|h|..] == t + rest;
    assert ValuesAt(layout, d, big) == [values[0]] + values[1..];
    assert [values[0]] + values[1..] == values;
    assert d[|h| + |t|..] == rest;
  }

  /** Struct formats of the schema file (magellan/DBSchema.py). */
  const HeaderLayout: seq<Kind> := [Str(6), H, H, H, H, H, H, H, H]
  const FileLayout: seq<Kind> := [Str(48), H, B, B, H, H, H, H]
  const RecordLayout: seq<Kind> := [H, H, H, H, H, H]
  const FieldLayout: seq<Kind> := [B, B, H, H, H, H, H, H, H, H, H]
  const SetLayout: seq<Kind> := [H, H, H, H, H, H]
  const MemberLayout: seq<Kind> := [H, H, H, H]
  const SortLayout: seq<Kind> := [H, H]
  const KeyLayout: seq<Kind> := [H, H, H, H]

  // ---------------------------------------------------- field structures

  /** `FieldStruct.size`: the bytes a field takes in a record slot; the
      field types outside long, short and char raise KeyError. */
  function UnitSize(ftype: Option<int>): (r: Result<nat>)
    ensures r.Ok? <==> ftype == Some(FieldTypeLong) || ftype == Some(FieldTypeShort) || ftype == Some(FieldTypeChar)
  {
    if ftype == Some(FieldTypeLong) then Ok(4)
    else if ftype == Some(FieldTypeShort) then Ok(2)
    else if ftype == Some(FieldTypeChar) then Ok(1)
    else Fail(KeyError)
  }

  function FieldSize(ftype: Option<int>, dim1: nat, dim2: nat): (r: Result<nat>)
  {
    var u :- UnitSize(ftype);
    if dim1 == 0 && dim2 == 0 then Ok(u)
    else if dim2 == 0 then Ok(dim1 * u)
    else Ok(dim1 * dim2 * u)
  }

  /** A scalar takes its unit, a vector dim1 units and a matrix
      dim1 * dim2 units. */
  lemma FieldSizes(ftype: Option<int>, dim1: nat, dim2: nat)
    ensures FieldSize(ftype, dim1, dim2).Ok? <==> UnitSize(ftype).Ok?
    ensures UnitSize(ftype).Ok? ==>
      (FieldSize(ftype, dim1, dim2).value ==
         UnitSize(ftype).value * (if dim1 == 0 && dim2 == 0 then 1 else if dim2 == 0 then dim1 else dim1 * dim2))
    ensures ftype == Some(FieldTypeLong) && dim1 == 0 && dim2 == 0 ==> FieldSize(ftype, dim1, dim2) == Ok(4)
    ensures ftype == Some(FieldTypeShort) && dim1 == 0 && dim2 == 0 ==> FieldSize(ftype, dim1, dim2) == Ok(2)
    ensures ftype == Some(FieldTypeChar) && dim1 == 0 && dim2 == 0 ==> FieldSize(ftype, dim1, dim2) == Ok(1)
  {
  }

  datatype FieldStruct = FieldStruct(
    name: seq<byte>, key: int, ftype: Option<int>, len: Option<int>,
    dim1: nat, dim2: nat, dim3: nat, keyfile: int, keyno: int,
    ptr: Option<int>, rec: Option<int>, flags: int)

  /** The `FieldStruct` constructor: the defaults of the class, the
      unsigned flag for long, short and scalar char fields when no flags
      are given, and `fd_len` from `size()` (KeyError for a type outside
      the size table, None when there is no type). */
  function NewField(name: seq<byte>, ftype: Option<int>, dim1: nat, dim2: nat, flags: Option<int>): (r: Result<FieldStruct>)
    ensures r.Ok? <==> ftype.None? || UnitSize(ftype).Ok?
    ensures r.Ok? ==> r.value.ftype == ftype && r.value.dim1 == dim1 && r.value.dim2 == dim2
    ensures r.Ok? ==> (r.value.len.Some? <==> ftype.Some?)
    ensures r.Ok? && ftype.Some? ==> r.value.len == Some(FieldSize(ftype, dim1, dim2).value as int)
    ensures r.Ok? && flags.Some? ==> r.value.flags == flags.value
    ensures r.Ok? && flags.None? ==>
      (r.value.flags == FieldFlagUnsigned <==>
         ftype == Some(FieldTypeLong) || ftype == Some(FieldTypeShort) || (ftype == Some(FieldTypeChar) && dim1 == 0))
    ensures r.Ok? && flags.None? ==> r.value.flags in {0, FieldFlagUnsigned}
  {
    var fl := if flags.Some? then flags.value
      else if ftype == Some(FieldTypeLong) || ftype == Some(FieldTypeShort) || (ftype == Some(FieldTypeChar) && dim1 == 0) then FieldFlagUnsigned
      else 0;
    if ftype.None? then Ok(FieldStruct(name, 0x6e, None, None, dim1, dim2, 0, 0, 0, None, None, fl))
    else
      var size :- FieldSize(ftype, dim1, dim2);
      Ok(FieldStruct(name, 0x6e, ftype, Some(size), dim1, dim2, 0, 0, 0, None, None, fl))
  }

  /** A struct format item as `getStructTypeString` spells it: an
      optional repeat count followed by a format letter. */
  datatype Format = Format(count: Option<nat>, code: char)

  /** The text of a format item, e.g. "248s", "H" or "3i". */
  function Render(f: Format): string
  {
    (if f.count.Some? then NatStr(f.count.value) else "") + [f.code]
  }

  /** `struct.calcsize` of a format item. */
  function FormatSize(f: Format): nat
  {
    var unit := if f.code in {'i', 'I'} then 4 else if f.code in {'h', 'H'} then 2 else 1;
    (if f.count.Some? then f.count.value else 1) * unit
  }

  function UpperCode(c: char): char
  {
    if 'a' <= c <= 'z' then (c as int - 32) as char else c
  }

  predicate Unsigned(flags: int)
  {
    (flags / FieldFlagUnsigned) % 2 == 1
  }

  /** `FieldStruct.getStructTypeString`: char arrays become "<dim1>s";
      otherwise b/i/h for char/long/short (upper case when the unsigned
      flag is set), prefixed by dim1 for arrays. Other types raise KeyError. */
  function TypeString(f: FieldStruct): (r: Result<Format>)
    ensures r.Ok? <==> UnitSize(f.ftype).Ok?
    ensures r.Ok? && f.ftype == Some(FieldTypeChar) && f.dim1 > 0 ==> r.value == Format(Some(f.dim1), 's')
    ensures r.Ok? && f.dim1 == 0 ==> r.value.count.None?
    ensures r.Ok? && f.dim1 > 0 ==> r.value.count == Some(f.dim1)
    ensures r.Ok? && !(f.ftype == Some(FieldTypeChar) && f.dim1 > 0) ==>
      (r.value.code in {'B', 'I', 'H'} <==> Unsigned(f.flags))
  {
    var tc :- if f.ftype == Some(FieldTypeChar) then Ok('b')
      else if f.ftype == Some(FieldTypeLong) then Ok('i')
      else if f.ftype == Some(FieldTypeShort) then Ok('h')
      else Fail(KeyError);
    var code := if Unsigned(f.flags) then UpperCode(tc) else tc;
    if f.ftype == Some(FieldTypeChar) && f.dim1 > 0 then Ok(Format(Some(f.dim1), 's'))
    else if f.dim1 == 0 then Ok(Format(None, code))
    else Ok(Format(Some(f.dim1), code))
  }

  /** The struct format of a field packs exactly the bytes `size()`
      reserves for it, for scalars, vectors and the one-row matrices
      (dim2 == 1) the map schemas use; the format ignores dim2. */
  lemma TypeStringSize(f: FieldStruct)
    requires TypeString(f).Ok? && f.dim2 <= 1 && (f.dim2 == 1 ==> f.dim1 > 0)
    ensures FormatSize(TypeString(f).value) == FieldSize(f.ftype, f.dim1, f.dim2).value
  {
  }

  // ------------------------------------------------------- DBStruct.__init__

  /** `DBStruct.__init__(**kvargs)` on the attribute names of a structure:
      every field gets its default (None when it has none), a named
      structure gets name '' and the keyword values override them; a
      keyword that is not a field (nor `name` of a named structure)
      raises ValueError. */
  function Construct(fields: set<string>, defaults: map<string, Value>, hasname: bool, kwargs: map<string, Value>)
    : (r: Result<map<string, Value>>)
    ensures r.Ok? <==> forall k :: k in kwargs ==> k in fields || (hasname && k == "name")
    ensures r.Ok? ==> forall k :: k in kwargs ==> k in r.value && r.value[k] == kwargs[k]
    ensures r.Ok? ==> forall k :: k in fields && k !in kwargs && !(hasname && k == "name") ==>
      k in r.value && r.value[k] == (if k in defaults then defaults[k] else Null)
    ensures r.Ok? && hasname && "name" !in kwargs ==> "name" in r.value && r.value["name"] == Bytes([])
    ensures r.Ok? ==> forall k :: k in r.value ==> k in fields || (hasname && k == "name")
  {
    if exists k :: k in kwargs && !(k in fields || (hasname && k == "name")) then Fail(ValueError)
    else
      var base := map k | k in fields :: if k in defaults then defaults[k] else Null;
      var named := if hasname then base["name" := Bytes([])] else base;
      Ok(map k | k in named.Keys + kwargs.Keys :: if k in kwargs then kwargs[k] else named[k])
  }

  // ------------------------------------------------------------ tables

  datatype FileStruct = FileStruct(
    name: seq<byte>, desc: int, status: int, ftype: int,
    slots: Option<int>, slsize: int, pgsize: int, flags: int)

  datatype RecordStruct = RecordStruct(
    name: seq<byte>, file: nat, len: int, data: int, fields: nat, fdtot: nat, flags: int)

  datatype SetStruct = SetStruct(
    name: seq<byte>, order: int, ownrt: int, ownptr: Option<int>, members: int, memtot: int, flags: int)

  datatype MemberStruct = MemberStruct(record: int, memptr: Option<int>, sortfld: Option<int>, totsf: Option<int>)

  datatype SortStruct = SortStruct(fld: int, se: int)

  datatype KeyStruct = KeyStruct(key: int, field: int, ptr: int, sort: int)

  /** The seven tables of a schema. */
  datatype Tables = Tables(
    files: seq<FileStruct>, records: seq<RecordStruct>, fields: seq<FieldStruct>,
    sets: seq<SetStruct>, members: seq<MemberStruct>, sorts: seq<SortStruct>, keys: seq<KeyStruct>)

  /** `FileStruct(ft_name=..., compressed=...)` as `addRecordStruct`
      builds it: the class defaults, no slot count while the slot size is
      0, and the compressed flag. */
  function NewFile(name: seq<byte>, compressed: bool): (r: FileStruct)
    ensures r.name == name && r.slots.None? && r.pgsize == 512 && r.ftype == 0x64
    ensures (r.flags == FTFlagsCompressed) == compressed && r.flags in {0, FTFlagsCompressed}
  {
    FileStruct(name, 0, 0, 0x64, None, 0, 512, if compressed then FTFlagsCompressed else 0)
  }

  predicate Compressed(f: FileStruct)
  {
    (f.flags / FTFlagsCompressed) % 2 == 1
  }

  /** `os.path.splitext` of a plain file name: the extension starts at the
      last '.', unless everything before that dot is dots. */
  function SplitExt(name: seq<byte>): (r: (seq<byte>, seq<byte>))
    ensures r.0 + r.1 == name
    ensures |r.1| > 0 ==> r.1[0] == '.' as byte && '.' as byte !in r.1[1..]
  {
    LastDot(name, |name|)
  }

  function LastDot(name: seq<byte>, i: nat): (r: (seq<byte>, seq<byte>))
    requires i <= |name|
    requires '.' as byte !in name[i..]
    ensures r.0 + r.1 == name
    ensures |r.1| > 0 ==> r.1[0] == '.' as byte && '.' as byte !in r.1[1..]
  {
    if i == 0 then (name, [])
    else if name[i - 1] == '.' as byte then
      if forall j :: 0 <= j < i - 1 ==> name[j] == '.' as byte then (name, [])
      else (name[..i - 1], name[i - 1..])
    else LastDot(name, i - 1)
  }

  /** The index file a compressed file gets: base + 'c' + ext, 63 slots
      of 8 bytes on 512-byte pages. */
  function CompanionFile(f: FileStruct): (r: FileStruct)
    ensures r.name == SplitExt(f.name).0 + ['c' as byte] + SplitExt(f.name).1
    ensures r.slots == Some(63) && r.slsize == 8 && r.pgsize == 512 && r.status == 0x63 && r.ftype == 0x63
  {
    var (base, ext) := SplitExt(f.name);
    FileStruct(base + ['c' as byte] + ext, 0, 0x63, 0x63, Some(63), 8, 512, 0)
  }

  /** The file entry `addFileStruct` stores: status 'c', no slots, no
      descriptor. */
  function Registered(f: FileStruct): FileStruct
  {
    f.(status := 0x63, slots := Some(0), desc := 0)
  }

  // ---------------------------------------------- record slot layout

  /** `len(filter(p, xs))`. */
  function CountIf<T>(xs: seq<T>, p: T -> bool): (n: nat)
    ensures n <= |xs|
  {
    if |xs| == 0 then 0 else CountIf(xs[..|xs| - 1], p) + (if p(xs[|xs| - 1]) then 1 else 0)
  }

  lemma CountStep<T>(xs: seq<T>, p: T -> bool, i: nat)
    requires i < |xs|
    ensures CountIf(xs[..i + 1], p) == CountIf(xs[..i], p) + (if p(xs[i]) then 1 else 0)
  {
    assert xs[..i + 1][..i] == xs[..i];
  }

  /** An item p accepts is counted before every later position. */
  lemma {:induction false} CountBefore<T>(xs: seq<T>, p: T -> bool, i: nat, j: nat)
    requires i < j <= |xs| && p(xs[i])
    ensures CountIf(xs[..i], p) + 1 <= CountIf(xs[..j], p)
    decreases j
  {
    CountStep(xs, p, j - 1);
    if j > i + 1 {
      CountBefore(xs, p, i, j - 1);
    }
  }

  /** The sets owned by record r. */
  function OwnedCount(sets: seq<SetStruct>, r: int): nat
  {
    CountIf(sets, (s: SetStruct) => s.ownrt == r)
  }

  /** The member entries of record r. */
  function MemberCount(members: seq<MemberStruct>, r: int): nat
  {
    CountIf(members, (m: MemberStruct) => m.record == r)
  }

  /** Set pointers of record r: the owned sets take 12 bytes each, in
      table order, after the 6 header bytes. */
  function SetsLaid(sets: seq<SetStruct>, r: int): (s: seq<SetStruct>)
    ensures |s| == |sets|
  {
    seq(|sets|, i requires 0 <= i < |sets| =>
      if sets[i].ownrt == r then sets[i].(ownptr := Some(6 + 12 * OwnedCount(sets[..i], r))) else sets[i])
  }

  /** Member pointers of record r: 12 bytes each from `base` on. */
  function MembersLaid(members: seq<MemberStruct>, r: int, base: int): (s: seq<MemberStruct>)
    ensures |s| == |members|
  {
    seq(|members|, i requires 0 <= i < |members| =>
      if members[i].record == r then members[i].(memptr := Some(base + 12 * MemberCount(members[..i], r))) else members[i])
  }

  predicate HasLengths(fs: seq<FieldStruct>)
  {
    forall k :: 0 <= k < |fs| ==> fs[k].len.Some? && fs[k].len.value >= 0
  }

  /** The bytes the fields take together. */
  function SumLen(fs: seq<FieldStruct>): (n: nat)
    requires HasLengths(fs)
  {
    if |fs| == 0 then 0 else SumLen(fs[..|fs| - 1]) + fs[|fs| - 1].len.value
  }

  /** Field pointers: the fields of [a, b) one after another from `data` on. */
  function FieldsLaid(fs: seq<FieldStruct>, a: nat, b: nat, data: int): (s: seq<FieldStruct>)
    requires a <= b <= |fs| && HasLengths(fs[a..b])
    ensures |s| == |fs|
  {
    seq(|fs|, k requires 0 <= k < |fs| =>
      if a <= k < b then fs[k].(ptr := Some(data + SumLen(fs[a..b][..k - a]))) else fs[k])
  }

  function Min(x: int, y: int): int
  {
    if x <= y then x else y
  }

  /** The field slice `fieldtable[rt_fields : rt_fields + rt_fdtot]` of a
      record, clamped to the table as Python slices are. */
  function FieldFrom(t: Tables, r: nat): nat
    requires r < |t.records|
  {
    Min(t.records[r].fields, |t.fields|)
  }

  function FieldTo(t: Tables, r: nat): nat
    requires r < |t.records|
  {
    Min(t.records[r].fields + t.records[r].fdtot, |t.fields|)
  }

  /** What `updateFieldSlotPtrs` needs: the record and its file exist and
      its fields have lengths. */
  predicate Layable(t: Tables, r: nat)
  {
    r < |t.records| && t.records[r].file < |t.files| && HasLengths(t.fields[FieldFrom(t, r)..FieldTo(t, r)])
  }

  /** The slot size of a record: rt_len rounded up to an even size. */
  function SlotSize(len: int): int
  {
    2 * ((len + 1) / 2)
  }

  /** Where the fields of record r start: after the 6 header bytes and a
      12-byte slot per owned set and per member entry. */
  function DataStart(t: Tables, r: nat): int
  {
    6 + 12 * OwnedCount(t.sets, r) + 12 * MemberCount(t.members, r)
  }

  /** Where the fields of record r end. */
  function RecordLen(t: Tables, r: nat): (n: int)
    requires Layable(t, r)
    ensures n >= 6
  {
    DataStart(t, r) + SumLen(t.fields[FieldFrom(t, r)..FieldTo(t, r)])
  }

  /** The file entry with the slot size and slot count for records of
      length len. */
  function Sized(f: FileStruct, len: int): FileStruct
    requires len > 0
  {
    f.(slsize := SlotSize(len), slots := Some((f.pgsize - 4) / SlotSize(len)))
  }

  /** The tables after `updateFieldSlotPtrs(r)`. */
  function Laid(t: Tables, r: nat): (u: Tables)
    requires Layable(t, r)
    ensures |u.files| == |t.files| && |u.records| == |t.records| && |u.fields| == |t.fields|
    ensures |u.sets| == |t.sets| && |u.members| == |t.members| && u.sorts == t.sorts && u.keys == t.keys
  {
    var rec := t.records[r];
    t.(sets := SetsLaid(t.sets, r),
       members := MembersLaid(t.members, r, 6 + 12 * OwnedCount(t.sets, r)),
       fields := FieldsLaid(t.fields, FieldFrom(t, r), FieldTo(t, r), DataStart(t, r)),
       records := t.records[r := rec.(data := DataStart(t, r), len := RecordLen(t, r))],
       files := t.files[rec.file := Sized(t.files[rec.file], RecordLen(t, r))])
  }

  lemma CountSame<T>(xs: seq<T>, ys: seq<T>, p: T -> bool)
    requires |xs| == |ys| && forall i :: 0 <= i < |xs| ==> p(xs[i]) == p(ys[i])
    ensures CountIf(xs, p) == CountIf(ys, p)
  {
    if |xs| > 0 {
      CountSame(xs[..|xs| - 1], ys[..|ys| - 1], p);
    }
  }

  lemma {:induction false} SumLenStep(fs: seq<FieldStruct>, m: nat)
    requires m < |fs| && HasLengths(fs)
    ensures HasLengths(fs[..m]) && HasLengths(fs[..m + 1])
    ensures SumLen(fs[..m + 1]) == SumLen(fs[..m]) + fs[m].len.value
  {
    assert fs[..m + 1][..m] == fs[..m];
  }

  lemma SumLenSame(fs: seq<FieldStruct>, gs: seq<FieldStruct>)
    requires HasLengths(gs) && |fs| == |gs| && forall k :: 0 <= k < |fs| ==> fs[k].len == gs[k].len
    ensures HasLengths(fs) && SumLen(fs) == SumLen(gs)
  {
    if |fs| > 0 {
      SumLenSame(fs[..|fs| - 1], gs[..|gs| - 1]);
    }
  }

  lemma SumLenAll(fs: seq<FieldStruct>)
    requires HasLengths(fs)
    ensures SumLen(fs[..|fs|]) == SumLen(fs)
  {
    assert fs[..|fs|] == fs;
  }

  /** After `updateFieldSlotPtrs(r)` the sets record r owns hold the
      12-byte pointer slots right after the 6 header bytes, one per set,
      in table order and without overlap. */
  lemma LaidSetSlots(t: Tables, r: nat, i: nat, j: nat)
    requires Layable(t, r) && i < |t.sets| && t.sets[i].ownrt == r
    ensures Laid(t, r).sets[i].ownptr.Some?
    ensures 6 <= Laid(t, r).sets[i].ownptr.value && Laid(t, r).sets[i].ownptr.value + 12 <= 6 + 12 * OwnedCount(t.sets, r)
    ensures i < j < |t.sets| && t.sets[j].ownrt == r ==>
      Laid(t, r).sets[i].ownptr.value + 12 <= Laid(t, r).sets[j].ownptr.value
  {
    var p := (s: SetStruct) => s.ownrt == r;
    CountBefore(t.sets, p, i, |t.sets|);
    assert t.sets[..|t.sets|] == t.sets;
    if i < j < |t.sets| && t.sets[j].ownrt == r {
      CountBefore(t.sets, p, i, j);
    }
  }

  /** The member entries of record r follow the set slots, 12 bytes
      each, in table order, and end where the record data starts. */
  lemma LaidMemberSlots(t: Tables, r: nat, i: nat, j: nat)
    requires Layable(t, r) && i < |t.members| && t.members[i].record == r
    ensures Laid(t, r).members[i].memptr.Some?
    ensures 6 + 12 * OwnedCount(t.sets, r) <= Laid(t, r).members[i].memptr.value
    ensures Laid(t, r).members[i].memptr.value + 12 <= Laid(t, r).records[r].data
    ensures i < j < |t.members| && t.members[j].record == r ==>
      Laid(t, r).members[i].memptr.value + 12 <= Laid(t, r).members[j].memptr.value
  {
    var p := (m: MemberStruct) => m.record == r;
    CountBefore(t.members, p, i, |t.members|);
    assert t.members[..|t.members|] == t.members;
    if i < j < |t.members| && t.members[j].record == r {
      CountBefore(t.members, p, i, j);
    }
  }

  /** The fields of record r follow the pointer slots one after another:
      the first starts at rt_data, which follows the 12-byte slots of the
      owned sets and member entries, ... */
  lemma LaidFieldsStart(t: Tables, r: nat)
    requires Layable(t, r)
    ensures Laid(t, r).records[r].data == 6 + 12 * (OwnedCount(t.sets, r) + MemberCount(t.members, r))
    ensures FieldFrom(t, r) < FieldTo(t, r) ==> Laid(t, r).fields[FieldFrom(t, r)].ptr == Some(Laid(t, r).records[r].data)
    ensures FieldFrom(t, r) == FieldTo(t, r) ==> Laid(t, r).records[r].len == Laid(t, r).records[r].data
  {
    var a, b := FieldFrom(t, r), FieldTo(t, r);
    if a < b {
      assert t.fields[a..b][..0] == [];
    }
  }

  /** ... each next field starts where the previous one ends, ... */
  lemma LaidFieldsNext(t: Tables, r: nat, k: nat)
    requires Layable(t, r) && FieldFrom(t, r) <= k && k + 1 < FieldTo(t, r)
    ensures Laid(t, r).fields[k + 1].ptr.Some? && Laid(t, r).fields[k].ptr.Some?
    ensures Laid(t, r).fields[k + 1].ptr.value == Laid(t, r).fields[k].ptr.value + t.fields[k].len.value
  {
    var a, b := FieldFrom(t, r), FieldTo(t, r);
    SumLenStep(t.fields[a..b], k - a);
    assert t.fields[a..b][k - a] == t.fields[k];
  }

  /** ... and rt_len is where the last field ends. */
  lemma LaidFieldsEnd(t: Tables, r: nat)
    requires Layable(t, r) && FieldFrom(t, r) < FieldTo(t, r)
    ensures Laid(t, r).fields[FieldTo(t, r) - 1].ptr.Some?
    ensures Laid(t, r).records[r].len == Laid(t, r).fields[FieldTo(t, r) - 1].ptr.value + t.fields[FieldTo(t, r) - 1].len.value
  {
    var a, b := FieldFrom(t, r), FieldTo(t, r);
    var fs := t.fields[a..b];
    SumLenStep(fs, b - 1 - a);
    SumLenAll(fs);
    assert fs[b - 1 - a] == t.fields[b - 1];
  }

  /** The file of record r gets rt_len rounded up to an even slot size
      and as many slots as fit in a page after its 4-byte header. */
  lemma LaidFile(t: Tables, r: nat)
    requires Layable(t, r)
    ensures var u := Laid(t, r); var f := u.files[t.records[r].file];
      f.slsize % 2 == 0 && u.records[r].len <= f.slsize <= u.records[r].len + 1 &&
      f.slots.Some? && f.slots.value * f.slsize <= f.pgsize - 4 < (f.slots.value + 1) * f.slsize
  {
    var len := RecordLen(t, r);
    SlotSizeBounds(len);
    SlotsFit(t.files[t.records[r].file].pgsize - 4, SlotSize(len));
  }

  lemma SlotSizeBounds(len: int)
    ensures SlotSize(len) % 2 == 0 && len <= SlotSize(len) <= len + 1
  {
  }

  /** p / s slots of s bytes fit in p bytes, and one more does not. */
  lemma SlotsFit(p: int, s: int)
    requires s > 0
    ensures (p / s) * s <= p < (p / s + 1) * s
  {
  }

  /** `updateFieldSlotPtrs(r)` changes only pointer, length and slot
      fields, and only those of record r's sets, members, fields, record
      and file. */
  lemma LaidFrame(t: Tables, r: nat)
    requires Layable(t, r)
    ensures forall i :: 0 <= i < |t.sets| ==>
      Laid(t, r).sets[i] == (if t.sets[i].ownrt == r then t.sets[i].(ownptr := Laid(t, r).sets[i].ownptr) else t.sets[i])
    ensures forall i :: 0 <= i < |t.members| ==>
      Laid(t, r).members[i] == (if t.members[i].record == r then t.members[i].(memptr := Laid(t, r).members[i].memptr) else t.members[i])
    ensures forall k :: 0 <= k < |t.fields| ==>
      Laid(t, r).fields[k] == (if FieldFrom(t, r) <= k < FieldTo(t, r) then t.fields[k].(ptr := Laid(t, r).fields[k].ptr) else t.fields[k])
    ensures forall q :: 0 <= q < |t.records| ==>
      Laid(t, r).records[q] == (if q == r then t.records[q].(data := Laid(t, r).records[q].data, len := Laid(t, r).records[q].len) else t.records[q])
    ensures forall g :: 0 <= g < |t.files| && g != t.records[r].file ==> Laid(t, r).files[g] == t.files[g]
  {
  }

  lemma SetsLaidTwice(sets: seq<SetStruct>, r: int)
    ensures OwnedCount(SetsLaid(sets, r), r) == OwnedCount(sets, r)
    ensures SetsLaid(SetsLaid(sets, r), r) == SetsLaid(sets, r)
  {
    var u := SetsLaid(sets, r);
    CountSame(u, sets, (s: SetStruct) => s.ownrt == r);
    forall i | 0 <= i < |sets| ensures SetsLaid(u, r)[i] == u[i] {
      CountSame(u[..i], sets[..i], (s: SetStruct) => s.ownrt == r);
    }
  }

  lemma MembersLaidTwice(members: seq<MemberStruct>, r: int, base: int)
    ensures MemberCount(MembersLaid(members, r, base), r) == MemberCount(members, r)
    ensures MembersLaid(MembersLaid(members, r, base), r, base) == MembersLaid(members, r, base)
  {
    var u := MembersLaid(members, r, base);
    CountSame(u, members, (m: MemberStruct) => m.record == r);
    forall i | 0 <= i < |members| ensures MembersLaid(u, r, base)[i] == u[i] {
      CountSame(u[..i], members[..i], (m: MemberStruct) => m.record == r);
    }
  }

  lemma FieldsLaidTwice(fs: seq<FieldStruct>, a: nat, b: nat, data: int)
    requires a <= b <= |fs| && HasLengths(fs[a..b])
    ensures HasLengths(FieldsLaid(fs, a, b, data)[a..b])
    ensures SumLen(FieldsLaid(fs, a, b, data)[a..b]) == SumLen(fs[a..b])
    ensures FieldsLaid(FieldsLaid(fs, a, b, data), a, b, data) == FieldsLaid(fs, a, b, data)
  {
    var u := FieldsLaid(fs, a, b, data);
    FieldsLaidLens(fs, a, b, data);
    forall k | a <= k < b ensures FieldsLaid(u, a, b, data)[k] == u[k] {
      FieldsLaidAt(fs, a, b, data, k);
    }
  }

  lemma FieldsLaidLens(fs: seq<FieldStruct>, a: nat, b: nat, data: int)
    requires a <= b <= |fs| && HasLengths(fs[a..b])
    ensures HasLengths(FieldsLaid(fs, a, b, data)[a..b])
    ensures SumLen(FieldsLaid(fs, a, b, data)[a..b]) == SumLen(fs[a..b])
  {
    var u := FieldsLaid(fs, a, b, data);
    SumLenSame(u[a..b], fs[a..b]);
  }

  lemma FieldsLaidAt(fs: seq<FieldStruct>, a: nat, b: nat, data: int, k: nat)
    requires a <= k < b <= |fs| && HasLengths(fs[a..b]) && HasLengths(FieldsLaid(fs, a, b, data)[a..b])
    ensures FieldsLaid(FieldsLaid(fs, a, b, data), a, b, data)[k] == FieldsLaid(fs, a, b, data)[k]
  {
    var u := FieldsLaid(fs, a, b, data);
    SumLenSame(u[a..b][..k - a], fs[a..b][..k - a]);
  }

  /** Running `updateFieldSlotPtrs(r)` twice gives what running it once
      gives. */
  lemma LaidTwice(t: Tables, r: nat)
    requires Layable(t, r)
    ensures Layable(Laid(t, r), r) && Laid(Laid(t, r), r) == Laid(t, r)
  {
    var u := Laid(t, r);
    LaidKeepsLayout(t, r);
    var v := Laid(u, r);
    assert v.sets == u.sets && v.members == u.members && v.fields == u.fields;
    assert v.records == u.records;
    assert v.files == u.files;
  }

  /** Laying out record r leaves its field slice, data start and length
      where they were, and lays out its sets, members and fields for good. */
  lemma LaidKeepsLayout(t: Tables, r: nat)
    requires Layable(t, r)
    ensures Layable(Laid(t, r), r)
    ensures FieldFrom(Laid(t, r), r) == FieldFrom(t, r) && FieldTo(Laid(t, r), r) == FieldTo(t, r)
    ensures DataStart(Laid(t, r), r) == DataStart(t, r) && RecordLen(Laid(t, r), r) == RecordLen(t, r)
    ensures SetsLaid(Laid(t, r).sets, r) == Laid(t, r).sets
    ensures MembersLaid(Laid(t, r).members, r, 6 + 12 * OwnedCount(Laid(t, r).sets, r)) == Laid(t, r).members
    ensures FieldsLaid(Laid(t, r).fields, FieldFrom(t, r), FieldTo(t, r), DataStart(t, r)) == Laid(t, r).fields
  {
    var u := Laid(t, r);
    var a, b := FieldFrom(t, r), FieldTo(t, r);
    assert FieldFrom(u, r) == a && FieldTo(u, r) == b;
    SetsLaidTwice(t.sets, r);
    MembersLaidTwice(t.members, r, 6 + 12 * OwnedCount(t.sets, r));
    FieldsLaidTwice(t.fields, a, b, DataStart(t, r));
  }

  /** What `updateFieldSlotPtrs` leaves alone for every record: the table
      sizes, which file and which fields a record has, and the field
      lengths. */
  predicate SameFrame(t: Tables, u: Tables)
  {
    |u.files| == |t.files| && |u.records| == |t.records| && |u.fields| == |t.fields| &&
    (forall q :: 0 <= q < |t.records| ==>
       u.records[q].file == t.records[q].file && u.records[q].fields == t.records[q].fields && u.records[q].fdtot == t.records[q].fdtot) &&
    (forall k :: 0 <= k < |t.fields| ==> u.fields[k].len == t.fields[k].len)
  }

  lemma LaidSameFrame(t: Tables, r: nat)
    requires Layable(t, r)
    ensures SameFrame(t, Laid(t, r))
  {
  }

  /** Laying out one record keeps every other record layable. */
  lemma LayableKept(t: Tables, u: Tables, q: nat)
    requires SameFrame(t, u) && Layable(t, q)
    ensures Layable(u, q)
  {
    var a, b := FieldFrom(t, q), FieldTo(t, q);
    assert FieldFrom(u, q) == a && FieldTo(u, q) == b;
    forall k | 0 <= k < b - a ensures u.fields[a..b][k].len == t.fields[a..b][k].len {
    }
  }

  // ------------------------------------------------------ the schema file

  function OptValue(o: Option<int>): Value
  {
    if o.Some? then Int(o.value) else Null
  }

  /** The struct values of each table entry, in the order of its `fields`
      list, and the entry `deSerialize` builds from them (named entries
      get their name afterwards). */
  function FileRow(f: FileStruct): seq<Value>
  {
    [Bytes(f.name), Int(f.desc), Int(f.status), Int(f.ftype), OptValue(f.slots), Int(f.slsize), Int(f.pgsize), Int(f.flags)]
  }

  function FileOf(vs: seq<Value>): FileStruct
    requires Shaped(FileLayout, vs)
  {
    FileStruct(vs[0].s, vs[1].i, vs[2].i, vs[3].i, Some(vs[4].i), vs[5].i, vs[6].i, vs[7].i)
  }

  function RecordRow(r: RecordStruct): seq<Value>
  {
    [Int(r.file), Int(r.len), Int(r.data), Int(r.fields), Int(r.fdtot), Int(r.flags)]
  }

  function RecordOf(vs: seq<Value>): RecordStruct
    requires Shaped(RecordLayout, vs)
  {
    RecordStruct([], vs[0].i, vs[1].i, vs[2].i, vs[3].i, vs[4].i, vs[5].i)
  }

  function FieldRow(f: FieldStruct): seq<Value>
  {
    [Int(f.key), OptValue(f.ftype), OptValue(f.len), Int(f.dim1), Int(f.dim2), Int(f.dim3),
     Int(f.keyfile), Int(f.keyno), OptValue(f.ptr), OptValue(f.rec), Int(f.flags)]
  }

  function FieldOf(vs: seq<Value>): FieldStruct
    requires Shaped(FieldLayout, vs)
  {
    FieldStruct([], vs[0].i, Some(vs[1].i), Some(vs[2].i), vs[3].i, vs[4].i, vs[5].i,
                vs[6].i, vs[7].i, Some(vs[8].i), Some(vs[9].i), vs[10].i)
  }

  function SetRow(t: SetStruct): seq<Value>
  {
    [Int(t.order), Int(t.ownrt), OptValue(t.ownptr), Int(t.members), Int(t.memtot), Int(t.flags)]
  }

  function SetOf(vs: seq<Value>): SetStruct
    requires Shaped(SetLayout, vs)
  {
    SetStruct([], vs[0].i, vs[1].i, Some(vs[2].i), vs[3].i, vs[4].i, vs[5].i)
  }

  function MemberRow(m: MemberStruct): seq<Value>
  {
    [Int(m.record), OptValue(m.memptr), OptValue(m.sortfld), OptValue(m.totsf)]
  }

  function MemberOf(vs: seq<Value>): MemberStruct
    requires Shaped(MemberLayout, vs)
  {
    MemberStruct(vs[0].i, Some(vs[1].i), Some(vs[2].i), Some(vs[3].i))
  }

  function SortRow(e: SortStruct): seq<Value>
  {
    [Int(e.fld), Int(e.se)]
  }

  function SortOf(vs: seq<Value>): SortStruct
    requires Shaped(SortLayout, vs)
  {
    SortStruct(vs[0].i, vs[1].i)
  }

  function KeyRow(k: KeyStruct): seq<Value>
  {
    [Int(k.key), Int(k.field), Int(k.ptr), Int(k.sort)]
  }

  function KeyOf(vs: seq<Value>): KeyStruct
    requires Shaped(KeyLayout, vs)
  {
    KeyStruct(vs[0].i, vs[1].i, vs[2].i, vs[3].i)
  }

  /** The entries of one table serialized one after another. */
  function PackRows(layout: seq<Kind>, rows: seq<seq<Value>>, big: bool): (r: Result<seq<byte>>)
  {
    if |rows| == 0 then Ok([])
    else
      var h :- Pack(layout, rows[0], big);
      var t :- PackRows(layout, rows[1..], big);
      Ok(h + t)
  }

  /** n entries read one after another. */
  function UnpackRows(layout: seq<Kind>, n: nat, data: seq<byte>, big: bool): (r: Result<(seq<seq<Value>>, seq<byte>)>)
    ensures r.Ok? ==> |r.value.0| == n && forall i :: 0 <= i < n ==> Shaped(layout, r.value.0[i])
  {
    if n == 0 then Ok(([], data))
    else
      var (v, d) :- Unpack(layout, data, big);
      var (vs, rest) :- UnpackRows(layout, n - 1, d, big);
      Ok(([v] + vs, rest))
  }

  lemma UnpackRowsCons(layout: seq<Kind>, rows: seq<seq<Value>>, big: bool, h: seq<byte>, t: seq<byte>, rest: seq<byte>)
    requires |rows| > 0
    requires Unpack(layout, h + (t + rest), big) == Ok((rows[0], t + rest))
    requires UnpackRows(layout, |rows| - 1, t + rest, big) == Ok((rows[1..], rest))
    ensures UnpackRows(layout, |rows|, h + t + rest, big) == Ok((rows, rest))
  {
    AppendAssoc(h, t, rest);
    ConsSplit(rows);
  }

  /** What one table serializes to reads back as the same entries. */
  lemma {:induction false} UnpackRowsPack(layout: seq<Kind>, rows: seq<seq<Value>>, big: bool, rest: seq<byte>)
    requires forall i :: 0 <= i < |rows| ==> AllFit(layout, rows[i])
    ensures PackRows(layout, rows, big).Ok?
    ensures UnpackRows(layout, |rows|, PackRows(layout, rows, big).value + rest, big) == Ok((rows, rest))
  {
    if |rows| > 0 {
      UnpackRowsPack(layout, rows[1..], big, rest);
      var t := PackRows(layout, rows[1..], big).value;
      UnpackPack(layout, rows[0], big, t + rest);
      var h := Pack(layout, rows[0], big).value;
      assert PackRows(layout, rows, big) == Ok(h + t);
      UnpackRowsCons(layout, rows, big, h, t, rest);
    } else {
      assert [] + rest == rest;
    }
  }

  /** A schema as stored: the header's version and page size, and the
      tables. */
  datatype SchemaFile = SchemaFile(version: seq<byte>, pagesize: int, tables: Tables)

  function MaxPgsize(files: seq<FileStruct>): (m: int)
    requires |files| > 0
    ensures forall i :: 0 <= i < |files| ==> files[i].pgsize <= m
    ensures exists i :: 0 <= i < |files| && files[i].pgsize == m
  {
    if |files| == 1 then files[0].pgsize
    else
      var m := MaxPgsize(files[..|files| - 1]);
      assert forall i :: 0 <= i < |files| - 1 ==> files[..|files| - 1][i] == files[i];
      if files[|files| - 1].pgsize > m then files[|files| - 1].pgsize else m
  }

  /** The page size `serialize` writes: the largest page size of the
      files, or the header's own when there are none. */
  function HeaderPageSize(s: SchemaFile): int
  {
    if |s.tables.files| > 0 then MaxPgsize(s.tables.files) else s.pagesize
  }

  function HeaderRow(version: seq<byte>, pagesize: int, t: Tables): seq<Value>
  {
    [Bytes(version), Int(pagesize), Int(|t.files|), Int(|t.records|), Int(|t.fields|),
     Int(|t.sets|), Int(|t.members|), Int(|t.sorts|), Int(|t.keys|)]
  }

  /** The names `serialize` writes: records, then fields, then sets. */
  function Names(t: Tables): seq<seq<byte>>
  {
    seq(|t.records|, i requires 0 <= i < |t.records| => t.records[i].name)
    + seq(|t.fields|, i requires 0 <= i < |t.fields| => t.fields[i].name)
    + seq(|t.sets|, i requires 0 <= i < |t.sets| => t.sets[i].name)
  }

  /** The struct formats of the seven tables, in file order. */
  const Layouts: seq<seq<Kind>> := [FileLayout, RecordLayout, FieldLayout, SetLayout, MemberLayout, SortLayout, KeyLayout]

  /** Tables of entries, one per layout, each entry of its table's shape. */
  predicate TablesShaped(layouts: seq<seq<Kind>>, tabs: seq<seq<seq<Value>>>)
  {
    |tabs| == |layouts| && forall k, i :: 0 <= k < |tabs| && 0 <= i < |tabs[k]| ==> Shaped(layouts[k], tabs[k][i])
  }

  predicate TablesFit(layouts: seq<seq<Kind>>, tabs: seq<seq<seq<Value>>>)
  {
    |tabs| == |layouts| && forall k, i :: 0 <= k < |tabs| && 0 <= i < |tabs[k]| ==> AllFit(layouts[k], tabs[k][i])
  }

  /** The tables written one after another. */
  function WriteTables(layouts: seq<seq<Kind>>, tabs: seq<seq<seq<Value>>>, big: bool): Result<seq<byte>>
    requires |layouts| == |tabs|
  {
    if |tabs| == 0 then Ok([])
    else
      var h :- PackRows(layouts[0], tabs[0], big);
      var t :- WriteTables(layouts[1..], tabs[1..], big);
      Ok(h + t)
  }

  /** Tables of the given sizes read one after another. */
  function ReadTables(layouts: seq<seq<Kind>>, counts: seq<nat>, data: seq<byte>, big: bool)
    : (r: Result<(seq<seq<seq<Value>>>, seq<byte>)>)
    requires |layouts| == |counts|
    ensures r.Ok? ==> TablesShaped(layouts, r.value.0)
    ensures r.Ok? ==> forall k :: 0 <= k < |counts| ==> |r.value.0[k]| == counts[k]
  {
    if |counts| == 0 then Ok(([], data))
    else
      var (h, d) :- UnpackRows(layouts[0], counts[0], data, big);
      var (t, rest) :- ReadTables(layouts[1..], counts[1..], d, big);
      Ok(([h] + t, rest))
  }

  function Sizes(tabs: seq<seq<seq<Value>>>): (c: seq<nat>)
    ensures |c| == |tabs| && forall k :: 0 <= k < |tabs| ==> c[k] == |tabs[k]|
  {
    seq(|tabs|, k requires 0 <= k < |tabs| => |tabs[k]|)
  }

  lemma ReadTablesCons(layouts: seq<seq<Kind>>, tabs: seq<seq<seq<Value>>>, big: bool, h: seq<byte>, t: seq<byte>, rest: seq<byte>)
    requires |layouts| == |tabs| > 0
    requires UnpackRows(layouts[0], |tabs[0]|, h + (t + rest), big) == Ok((tabs[0], t + rest))
    requires ReadTables(layouts[1..], Sizes(tabs)[1..], t + rest, big) == Ok((tabs[1..], rest))
    ensures ReadTables(layouts, Sizes(tabs), h + t + rest, big) == Ok((tabs, rest))
  {
    assert h + t + rest == h + (t + rest);
    assert [tabs[0]] + tabs[1..] == tabs;
  }

  /** The tables read back as written. */
  lemma {:induction false} ReadWriteTables(layouts: seq<seq<Kind>>, tabs: seq<seq<seq<Value>>>, big: bool, rest: seq<byte>)
    requires TablesFit(layouts, tabs)
    ensures WriteTables(layouts, tabs, big).Ok?
    ensures ReadTables(layouts, Sizes(tabs), WriteTables(layouts, tabs, big).value + rest, big) == Ok((tabs, rest))
  {
    if |tabs| > 0 {
      assert TablesFit(layouts[1..], tabs[1..]) by {
        forall k, i | 0 <= k < |tabs| - 1 && 0 <= i < |tabs[1..][k]| ensures AllFit(layouts[1..][k], tabs[1..][k][i]) {
          assert tabs[1..][k] == tabs[k + 1] && layouts[1..][k] == layouts[k + 1];
        }
      }
      ReadWriteTables(layouts[1..], tabs[1..], big, rest);
      var t := WriteTables(layouts[1..], tabs[1..], big).value;
      UnpackRowsPack(layouts[0], tabs[0], big, t + rest);
      var h := PackRows(layouts[0], tabs[0], big).value;
      assert WriteTables(layouts, tabs, big) == Ok(h + t);
      assert Sizes(tabs)[1..] == Sizes(tabs[1..]);
      ReadTablesCons(layouts, tabs, big, h, t, rest);
    } else {
      assert [] + rest == rest;
    }
  }

  /** The struct values of every table entry. */
  function RowsOf(t: Tables): (r: seq<seq<seq<Value>>>)
    ensures |r| == 7 && Sizes(r) == [|t.files|, |t.records|, |t.fields|, |t.sets|, |t.members|, |t.sorts|, |t.keys|]
  {
    [seq(|t.files|, i requires 0 <= i < |t.files| => FileRow(t.files[i])),
     seq(|t.records|, i requires 0 <= i < |t.records| => RecordRow(t.records[i])),
     seq(|t.fields|, i requires 0 <= i < |t.fields| => FieldRow(t.fields[i])),
     seq(|t.sets|, i requires 0 <= i < |t.sets| => SetRow(t.sets[i])),
     seq(|t.members|, i requires 0 <= i < |t.members| => MemberRow(t.members[i])),
     seq(|t.sorts|, i requires 0 <= i < |t.sorts| => SortRow(t.sorts[i])),
     seq(|t.keys|, i requires 0 <= i < |t.keys| => KeyRow(t.keys[i]))]
  }

  /** `DatabaseSchema.serialize`: the header with the table sizes, each
      table's entries, and the names joined by newlines. */
  function Encode(s: SchemaFile, big: bool): Result<seq<byte>>
  {
    var hdr :- Pack(HeaderLayout, HeaderRow(s.version, HeaderPageSize(s), s.tables), big);
    var body :- WriteTables(Layouts, RowsOf(s.tables), big);
    Ok(hdr + (body + Join(Names(s.tables), Newline)))
  }

  /** The tables built from the entries read and the names: records,
      fields and sets take names from the front of the list in turn. */
  function Named(r: seq<seq<seq<Value>>>, names: seq<seq<byte>>): (t: Tables)
    requires TablesShaped(Layouts, r) && |names| >= |r[1]| + |r[2]| + |r[3]|
  {
    var nr, nf := |r[1]|, |r[2]|;
    Tables(
      seq(|r[0]|, i requires 0 <= i < |r[0]| => FileOf(r[0][i])),
      seq(nr, i requires 0 <= i < nr => RecordOf(r[1][i]).(name := names[i])),
      seq(nf, i requires 0 <= i < nf => FieldOf(r[2][i]).(name := names[nr + i])),
      seq(|r[3]|, i requires 0 <= i < |r[3]| => SetOf(r[3][i]).(name := names[nr + nf + i])),
      seq(|r[4]|, i requires 0 <= i < |r[4]| => MemberOf(r[4][i])),
      seq(|r[5]|, i requires 0 <= i < |r[5]| => SortOf(r[5][i])),
      seq(|r[6]|, i requires 0 <= i < |r[6]| => KeyOf(r[6][i])))
  }

  /** The seven table sizes the header gives. */
  function Counts(hv: seq<Value>): (c: seq<nat>)
    requires Shaped(HeaderLayout, hv)
    ensures |c| == 7 && forall k :: 0 <= k < 7 ==> c[k] == hv[k + 2].i
  {
    [hv[2].i, hv[3].i, hv[4].i, hv[5].i, hv[6].i, hv[7].i, hv[8].i]
  }

  /** `DatabaseSchema.deSerialize`: the header, the sanity check on the
      file count (InvalidDatabase above 255), the tables, and the names,
      of which too few raise IndexError. */
  function Decode(data: seq<byte>, big: bool): (r: Result<SchemaFile>)
    ensures |data| >= Size(HeaderLayout) && ValuesAt(HeaderLayout, data, big)[2].i > 255 ==> r == Fail(InvalidDatabase)
  {
    var (hv, d0) :- Unpack(HeaderLayout, data, big);
    if hv[2].i > 255 then Fail(InvalidDatabase)
    else
      var (rows, d7) :- ReadTables(Layouts, Counts(hv), d0, big);
      var names := Split(d7, Newline);
      if |names| < |rows[1]| + |rows[2]| + |rows[3]| then Fail(IndexError)
      else Ok(SchemaFile(hv[0].s, hv[1].i, Named(rows, names)))
  }

  /** Decoding, step by step: a header, tables of the sizes it gives, and
      enough names. */
  lemma DecodeSteps(data: seq<byte>, big: bool, hv: seq<Value>, d0: seq<byte>, rows: seq<seq<seq<Value>>>, d7: seq<byte>)
    requires Unpack(HeaderLayout, data, big) == Ok((hv, d0)) && hv[2].i <= 255
    requires ReadTables(Layouts, Counts(hv), d0, big) == Ok((rows, d7))
    requires |Split(d7, Newline)| >= |rows[1]| + |rows[2]| + |rows[3]|
    ensures Decode(data, big) == Ok(SchemaFile(hv[0].s, hv[1].i, Named(rows, Split(d7, Newline))))
  {
  }

  /** Every entry is rebuilt from its values and its name. */
  lemma NamedRowsOf(t: Tables)
    requires TablesFit(Layouts, RowsOf(t))
    ensures TablesShaped(Layouts, RowsOf(t)) && Named(RowsOf(t), Names(t)) == t
  {
    var r := RowsOf(t);
    var u := Named(r, Names(t));
    var nr, nf := |t.records|, |t.fields|;
    assert u.files == t.files by {
      forall i | 0 <= i < |t.files| ensures u.files[i] == t.files[i] {
        assert AllFit(Layouts[0], r[0][i]);
      }
    }
    assert u.records == t.records by {
      forall i | 0 <= i < nr ensures u.records[i] == t.records[i] {
        assert Names(t)[i] == t.records[i].name;
      }
    }
    assert u.fields == t.fields by {
      forall i | 0 <= i < nf ensures u.fields[i] == t.fields[i] {
        assert Names(t)[nr + i] == t.fields[i].name;
        assert AllFit(Layouts[2], r[2][i]);
      }
    }
    assert u.sets == t.sets by {
      forall i | 0 <= i < |t.sets| ensures u.sets[i] == t.sets[i] {
        assert Names(t)[nr + nf + i] == t.sets[i].name;
        assert AllFit(Layouts[3], r[3][i]);
      }
    }
    assert u.members == t.members by {
      forall i | 0 <= i < |t.members| ensures u.members[i] == t.members[i] {
        assert AllFit(Layouts[4], r[4][i]);
      }
    }
    assert u.sorts == t.sorts;
    assert u.keys == t.keys;
  }

  /** A schema `serialize` can write and `deSerialize` read back: every
      value fits its struct item, at most 255 files, and no name holds a
      newline. */
  predicate Storable(s: SchemaFile)
  {
    AllFit(HeaderLayout, HeaderRow(s.version, HeaderPageSize(s), s.tables)) &&
    |s.tables.files| <= 255 && TablesFit(Layouts, RowsOf(s.tables)) && FreeOf(Names(s.tables), Newline)
  }

  /** The names read back: enough of them, and the same tables named. */
  lemma SplitNames(t: Tables, r: seq<seq<seq<Value>>>)
    requires FreeOf(Names(t), Newline) && TablesShaped(Layouts, r)
    requires |r[1]| == |t.records| && |r[2]| == |t.fields| && |r[3]| == |t.sets|
    ensures |Split(Join(Names(t), Newline), Newline)| >= |t.records| + |t.fields| + |t.sets|
    ensures Named(r, Split(Join(Names(t), Newline), Newline)) == Named(r, Names(t))
  {
    if |Names(t)| > 0 {
      SplitJoin(Names(t), Newline);
    }
  }

  /** The header written gives back the version, the page size and the
      table sizes. */
  lemma HeaderBack(s: SchemaFile, big: bool, rest: seq<byte>)
    requires AllFit(HeaderLayout, HeaderRow(s.version, HeaderPageSize(s), s.tables))
    ensures Pack(HeaderLayout, HeaderRow(s.version, HeaderPageSize(s), s.tables), big).Ok?
    ensures Unpack(HeaderLayout, Pack(HeaderLayout, HeaderRow(s.version, HeaderPageSize(s), s.tables), big).value + rest, big)
         == Ok((HeaderRow(s.version, HeaderPageSize(s), s.tables), rest))
    ensures Counts(HeaderRow(s.version, HeaderPageSize(s), s.tables)) == Sizes(RowsOf(s.tables))
  {
    UnpackPack(HeaderLayout, HeaderRow(s.version, HeaderPageSize(s), s.tables), big, rest);
  }

  /** `deSerialize` reads back what `serialize` wrote: the version, the
      page size written (the files' largest), the tables in order and
      every record, field and set name. */
  lemma DecodeEncode(s: SchemaFile, big: bool)
    requires Storable(s)
    ensures Encode(s, big).Ok?
    ensures Decode(Encode(s, big).value, big) == Ok(SchemaFile(s.version, HeaderPageSize(s), s.tables))
  {
    var t := s.tables;
    var r := RowsOf(t);
    var names := Join(Names(t), Newline);
    ReadWriteTables(Layouts, r, big, names);
    var body := WriteTables(Layouts, r, big).value;
    HeaderBack(s, big, body + names);
    var hv := HeaderRow(s.version, HeaderPageSize(s), t);
    var hdr := Pack(HeaderLayout, hv, big).value;
    assert Encode(s, big) == Ok(hdr + (body + names));
    SplitNames(t, r);
    DecodeSteps(hdr + (body + names), big, hv, body + names, r, names);
    NamedRowsOf(t);
  }
}
