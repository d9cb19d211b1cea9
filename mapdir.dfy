/** The image container of magellan/mapdir.py: a directory of files
    packed into one .img/.imi file. `write_image` writes a count (twice),
    one 24-byte directory entry per file, for little-endian images a
    checksum block with the "MAGELLAN" signature, the files padded to even
    length, the signature again and a two-byte checksum; `extract_image`
    reads the directory back. Files are given as name and contents here;
    the directory listing and file reads are parameters. */
module MapDir {
  import opened Wrappers
  import opened PyStruct
  import opened Chunks
  import opened PyStr

  /** `pad16`: an odd-length string gets one NUL byte. */
  function Pad16(s: seq<byte>): (r: seq<byte>)
    ensures |r| == Pad16Len(|s|) && |r| % 2 == 0 && r[..|s|] == s
    ensures |s| % 2 == 0 ==> r == s
    ensures |s| % 2 == 1 ==> r == s + [0]
  {
    if |s| % 2 == 0 then s else s + [0]
  }

  /** `pad16len`: the length `pad16` gives a string of length n. */
  function Pad16Len(n: nat): (m: nat)
    ensures m % 2 == 0 && n <= m <= n + 1
  {
    n + n % 2
  }

  /** A file of the source directory. */
  datatype File = File(name: seq<byte>, data: seq<byte>)

  const Dot: byte := 0x2e
  const Space: byte := 0x20
  /** "MAGELLAN". */
  const Signature: seq<byte> := [0x4d, 0x41, 0x47, 0x45, 0x4c, 0x4c, 0x41, 0x4e]
  /** ".yal" and ".lay". */
  const YalSuffix: seq<byte> := [0x2e, 0x79, 0x61, 0x6c]
  const LaySuffix: seq<byte> := [0x2e, 0x6c, 0x61, 0x79]

  /** The files whose names do not start with a dot, in listing order. */
  function Visible(files: seq<File>): (r: seq<File>)
    requires forall i :: 0 <= i < |files| ==> |files[i].name| > 0
    ensures |r| <= |files|
    ensures forall i :: 0 <= i < |r| ==> |r[i].name| > 0 && r[i].name[0] != Dot
  {
    if |files| == 0 then []
    else
      var r := Visible(files[..|files| - 1]);
      var f := files[|files| - 1];
      if f.name[0] != Dot then r + [f] else r
  }

  /** The visible files are exactly the listed ones without a leading dot. */
  lemma {:induction false} VisibleMembers(files: seq<File>)
    requires forall i :: 0 <= i < |files| ==> |files[i].name| > 0
    ensures forall f :: f in Visible(files) <==> f in files && f.name[0] != Dot
  {
    if |files| > 0 {
      var k := |files| - 1;
      VisibleMembers(files[..k]);
      assert files == files[..k] + [files[k]];
    }
  }

  function NamesOf(files: seq<File>): (r: seq<seq<byte>>)
    ensures |r| == |files| && forall i :: 0 <= i < |files| ==> r[i] == files[i].name
  {
    seq(|files|, i requires 0 <= i < |files| => files[i].name)
  }

  /** `s.find(t) >= 0`. */
  predicate Contains(s: seq<byte>, t: seq<byte>)
  {
    |s| >= |t| && (s[..|t|] == t || Contains(s[1..], t))
  }

  /** The byte order of the image: the one asked for, or big-endian when
      the listing holds .yal files and little-endian when it holds .lay
      files; both or neither raise. */
  function Endianness(names: seq<seq<byte>>, bigendian: Option<bool>): (r: Result<bool>)
    ensures bigendian.Some? ==> r == Ok(bigendian.value)
    ensures bigendian.None? ==>
      var yal := Contains(Join(names, Space), YalSuffix); var lay := Contains(Join(names, Space), LaySuffix);
      (r.Ok? <==> yal != lay) && (r.Ok? ==> r.value == yal) && (r.Fail? ==> r.failure == RuntimeError)
  {
    var yal := if bigendian.Some? then bigendian.value else Contains(Join(names, Space), YalSuffix);
    var lay := if bigendian.Some? then !bigendian.value else Contains(Join(names, Space), LaySuffix);
    if !yal && !lay then Fail(RuntimeError)
    else if yal && lay then Fail(RuntimeError)
    else Ok(yal)
  }

  /** The default byte order of an image file name: "img" is big-endian,
      "imi" and "mgi" little-endian, anything else `dflt`. */
  function SuffixBig(filename: string, dflt: bool): (big: bool)
    ensures |filename| >= 3 && filename[|filename| - 3..] == "img" ==> big
    ensures |filename| >= 3 && filename[|filename| - 3..] in {"imi", "mgi"} ==> !big
  {
    var tail := if |filename| >= 3 then filename[|filename| - 3..] else filename;
    if tail == "img" then true else if tail == "imi" || tail == "mgi" then false else dflt
  }

  // ------------------------------------------------------ directory entries

  function Min(x: int, y: int): int
  {
    if x <= y then x else y
  }

  /** `string.rfind(name, ".")`. */
  function RFind(s: seq<byte>, c: byte): (i: int)
    ensures -1 <= i < |s|
    ensures i >= 0 ==> s[i] == c && c !in s[i + 1..]
    ensures i == -1 ==> c !in s
  {
    if |s| == 0 then -1
    else if s[|s| - 1] == c then |s| - 1
    else
      var j := RFind(s[..|s| - 1], c);
      assert s[..|s| - 1] + [s[|s| - 1]] == s;
      j
  }

  /** The 8.3 name of a directory entry: the part before the last dot cut
      to 8 bytes and the extension after it cut to 3; without a dot, the
      first 8 bytes and no extension. */
  function EntryName(name: seq<byte>): (r: (seq<byte>, seq<byte>))
    ensures |r.0| <= 8 && |r.1| <= 3
  {
    var dot := RFind(name, Dot);
    if dot == -1 then (name[..Min(8, |name|)], [])
    else
      var tail := name[dot + 1..];
      (name[..Min(dot, 8)], tail[..Min(3, |tail|)])
  }

  /** The base is the name up to its last dot, or all of it, cut to 8
      bytes. */
  lemma EntryNameBase(name: seq<byte>)
    ensures var d := RFind(name, Dot); var b := EntryName(name).0;
      |b| == Min(if d == -1 then |name| else d, 8) && b == name[..|b|]
  {
  }

  /** The extension follows the last dot, cut to 3 bytes, and holds no
      dot; a name without a dot has none. */
  lemma EntryNameExt(name: seq<byte>)
    ensures RFind(name, Dot) == -1 ==> EntryName(name).1 == []
    ensures var d := RFind(name, Dot); var x := EntryName(name).1;
      d >= 0 ==> |x| == Min(3, |name| - d - 1) && d + 1 + |x| <= |name| && x == name[d + 1..d + 1 + |x|] && Dot !in x
  {
    var d := RFind(name, Dot);
    if d >= 0 {
      var tail := name[d + 1..];
      var m := Min(3, |tail|);
      assert EntryName(name).1 == tail[..m];
      PrefixOfDrop(name, d + 1, m);
      NotInPrefix(tail, m, Dot);
    }
  }

  /** Format "9s7sii": the name and extension NUL-filled, the offset and
      the padded size as signed 32-bit integers. */
  function DirEntry(name: seq<byte>, start: int, size: int, big: bool): (r: Result<seq<byte>>)
    ensures r.Ok? <==> -0x8000_0000 <= start < 0x8000_0000 && -0x8000_0000 <= size < 0x8000_0000
    ensures r.Ok? ==> |r.value| == 24
  {
    var (f, e) := EntryName(name);
    var a :- PackS32(start, big);
    var b :- PackS32(size, big);
    Ok(Fit(f, 9, 0) + Fit(e, 7, 0) + a + b)
  }

  /** The bytes the files take once padded. */
  function SumPadded(files: seq<File>): nat
  {
    if |files| == 0 then 0 else SumPadded(files[..|files| - 1]) + Pad16Len(|files[|files| - 1].data|)
  }

  /** Half the padded sizes: each padded size is even. */
  function HalfPadded(files: seq<File>): nat
  {
    if |files| == 0 then 0 else HalfPadded(files[..|files| - 1]) + Pad16Len(|files[|files| - 1].data|) / 2
  }

  lemma {:induction false} SumPaddedHalf(files: seq<File>)
    ensures SumPadded(files) == 2 * HalfPadded(files)
  {
    if |files| > 0 {
      SumPaddedHalf(files[..|files| - 1]);
    }
  }

  /** Where the first file starts: after the count pair, the directory and
      the 32-byte checksum block of a signed image. */
  function FirstStart(n: nat, signed: bool): nat
  {
    8 + n * 24 + (if signed then 32 else 0)
  }

  /** The entry of the i-th file, at the offset the files before it reach. */
  function EntryOf(vis: seq<File>, first: int, big: bool, i: nat): Result<seq<byte>>
    requires i < |vis|
  {
    DirEntry(vis[i].name, first + SumPadded(vis[..i]), Pad16Len(|vis[i].data|), big)
  }

  /** The directory: an entry per file, each starting where the previous
      one ended; the first entry that cannot be packed fails it. */
  function Directory(vis: seq<File>, first: int, big: bool): Result<seq<byte>>
  {
    Collect(Entries(vis, first, big))
  }

  function Entries(vis: seq<File>, first: int, big: bool): (rs: seq<Result<seq<byte>>>)
    ensures |rs| == |vis| && forall i :: 0 <= i < |vis| ==> rs[i] == EntryOf(vis, first, big, i)
  {
    seq(|vis|, i requires 0 <= i < |vis| => EntryOf(vis, first, big, i))
  }

  /** The pieces joined, or the first failure among them. */
  function Collect<T>(rs: seq<Result<seq<T>>>): Result<seq<T>>
  {
    if |rs| == 0 then Ok([])
    else
      var d :- Collect(rs[..|rs| - 1]);
      var e :- rs[|rs| - 1];
      Ok(d + e)
  }

  lemma CollectSnoc<T>(rs: seq<Result<seq<T>>>, i: nat)
    requires i < |rs|
    ensures Collect(rs[..i + 1]) ==
      (if Collect(rs[..i]).Fail? then Collect(rs[..i])
       else if rs[i].Fail? then rs[i]
       else Ok(Collect(rs[..i]).value + rs[i].value))
  {
    assert rs[..i + 1][..i] == rs[..i];
  }

  lemma {:induction false} CollectFails<T>(rs: seq<Result<seq<T>>>, i: nat, j: nat)
    requires i < j <= |rs| && Collect(rs[..i + 1]).Fail?
    ensures Collect(rs[..j]) == Collect(rs[..i + 1])
    decreases j
  {
    if j > i + 1 {
      CollectFails(rs, i, j - 1);
      CollectSnoc(rs, j - 1);
    }
  }

  /** The values of pieces that are all Ok. */
  function Values<T>(rs: seq<Result<seq<T>>>): (vs: seq<seq<T>>)
    requires forall j :: 0 <= j < |rs| ==> rs[j].Ok?
    ensures |vs| == |rs| && forall j :: 0 <= j < |rs| ==> vs[j] == rs[j].value
  {
    seq(|rs|, j requires 0 <= j < |rs| => rs[j].value)
  }

  /** A successful join has every piece Ok and is their concatenation. */
  lemma {:induction false} CollectConcat<T>(rs: seq<Result<seq<T>>>)
    requires Collect(rs).Ok?
    ensures forall j :: 0 <= j < |rs| ==> rs[j].Ok?
    ensures Collect(rs).value == Concat(Values(rs))
  {
    if |rs| > 0 {
      var k := |rs| - 1;
      var init := rs[..k];
      CollectConcat(init);
      assert forall j :: 0 <= j < k ==> init[j] == rs[j];
      assert Values(rs) == Values(init) + [rs[k].value];
      ConcatAppend(Values(init), rs[k].value);
    }
  }

  /** The file contents, each padded to even length. */
  function Data(files: seq<File>): (r: seq<byte>)
    ensures |r| == SumPadded(files)
  {
    if |files| == 0 then [] else Data(files[..|files| - 1]) + Pad16(files[|files| - 1].data)
  }

  // -------------------------------------------------------------- checksum

  function Pow2(k: nat): (p: nat)
    ensures p >= 1
  {
    if k == 0 then 1 else 2 * Pow2(k - 1)
  }

  /** Whether bit k-1 is set in a number below 2^k. */
  predicate High(a: nat, k: nat)
    requires k > 0
  {
    a >= Pow2(k - 1)
  }

  /** The number without bit k-1. */
  function Low(a: nat, k: nat): nat
    requires k > 0
  {
    if High(a, k) then a - Pow2(k - 1) else a
  }

  /** Bitwise exclusive or of two numbers below 2^k, highest bit first. */
  function XorBits(a: nat, b: nat, k: nat): (r: nat)
    requires a < Pow2(k) && b < Pow2(k)
    ensures r < Pow2(k)
  {
    if k == 0 then 0
    else (if High(a, k) != High(b, k) then Pow2(k - 1) else 0) + XorBits(Low(a, k), Low(b, k), k - 1)
  }

  /** `^` on two bytes. */
  function Xor(a: byte, b: byte): byte
  {
    assert Pow2(8) == 256;
    XorBits(a, b, 8)
  }

  /** The top bit of a xor is the xor of the top bits; the rest is the
      xor of the rest. */
  lemma XorParts(a: nat, b: nat, k: nat)
    requires k > 0 && a < Pow2(k) && b < Pow2(k)
    ensures High(XorBits(a, b, k), k) == (High(a, k) != High(b, k))
    ensures Low(XorBits(a, b, k), k) == XorBits(Low(a, k), Low(b, k), k - 1)
  {
  }

  lemma {:induction false} XorSelf(a: nat, k: nat)
    requires a < Pow2(k)
    ensures XorBits(a, a, k) == 0
  {
    if k > 0 {
      XorSelf(Low(a, k), k - 1);
    }
  }

  lemma {:induction false} XorComm(a: nat, b: nat, k: nat)
    requires a < Pow2(k) && b < Pow2(k)
    ensures XorBits(a, b, k) == XorBits(b, a, k)
  {
    if k > 0 {
      XorComm(Low(a, k), Low(b, k), k - 1);
    }
  }

  lemma {:induction false} XorAssoc(a: nat, b: nat, c: nat, k: nat)
    requires a < Pow2(k) && b < Pow2(k) && c < Pow2(k)
    ensures XorBits(XorBits(a, b, k), c, k) == XorBits(a, XorBits(b, c, k), k)
  {
    if k > 0 {
      XorParts(a, b, k);
      XorParts(b, c, k);
      XorAssoc(Low(a, k), Low(b, k), Low(c, k), k - 1);
    }
  }

  lemma {:induction false} XorZero(a: nat, k: nat)
    requires a < Pow2(k)
    ensures XorBits(0, a, k) == a
  {
    if k > 0 {
      XorZero(Low(a, k), k - 1);
    }
  }

  /** The state of `update_checksum`: the two accumulators and the
      position flag saying which one the next byte goes into. */
  datatype Checksum = Checksum(acc0: byte, acc1: byte, pos: nat)

  /** One byte through `update_checksum`. */
  function Update(c: Checksum, b: byte): Checksum
  {
    if c.pos == 0 then Checksum(Xor(c.acc0, b), c.acc1, 1) else Checksum(c.acc0, Xor(c.acc1, b), 0)
  }

  /** The state after the bytes of `s`, from the zero state. */
  function Ck(s: seq<byte>): (c: Checksum)
    ensures c.pos <= 1
  {
    if |s| == 0 then Checksum(0, 0, 0) else Update(Ck(s[..|s| - 1]), s[|s| - 1])
  }

  /** The flag alternates: bytes at even stream positions go into the
      first accumulator, bytes at odd positions into the second. */
  lemma {:induction false} CkPos(s: seq<byte>)
    ensures Ck(s).pos == |s| % 2
  {
    if |s| > 0 {
      CkPos(s[..|s| - 1]);
    }
  }

  /** The count pair written twice leaves both accumulators at zero:
      each byte meets its copy four positions later, in the same
      accumulator. */
  lemma CountPairZero(c: seq<byte>)
    requires |c| == 4
    ensures Ck(c + c) == Checksum(0, 0, 0)
  {
    var s := c + c;
    var z, y := Xor(Xor(0, c[0]), c[2]), Xor(Xor(0, c[1]), c[3]);
    CountHalf(s);
    assert s[4] == c[0] && s[5] == c[1] && s[6] == c[2] && s[7] == c[3];
    CkSnoc(s, 4);
    assert Ck(s[..5]) == Checksum(Xor(z, c[0]), y, 1);
    CkSnoc(s, 5);
    assert Ck(s[..6]) == Checksum(Xor(z, c[0]), Xor(y, c[1]), 0);
    CkSnoc(s, 6);
    XorCancel(c[0], c[2]);
    assert Ck(s[..7]) == Checksum(0, Xor(y, c[1]), 1);
    CkSnoc(s, 7);
    XorCancel(c[1], c[3]);
    assert s[..8] == s;
  }

  /** The state after the first four bytes of a stream. */
  lemma CountHalf(s: seq<byte>)
    requires |s| >= 4
    ensures Ck(s[..4]) == Checksum(Xor(Xor(0, s[0]), s[2]), Xor(Xor(0, s[1]), s[3]), 0)
  {
    CkSnoc(s, 0);
    assert Ck(s[..0]) == Checksum(0, 0, 0);
    CkSnoc(s, 1);
    CkSnoc(s, 2);
    CkSnoc(s, 3);
  }

  lemma CkStep(stream: seq<byte>, s: seq<byte>, k: nat)
    requires k < |s|
    ensures Ck(stream + s[..k + 1]) == Update(Ck(stream + s[..k]), s[k])
  {
    var t := stream + s[..k + 1];
    assert t[..|t| - 1] == stream + s[..k];
  }

  lemma CkSnoc(s: seq<byte>, n: nat)
    requires n < |s|
    ensures Ck(s[..n + 1]) == Update(Ck(s[..n]), s[n])
  {
    assert s[..n + 1][..n] == s[..n];
  }

  /** `((a ^ b) ^ a) ^ b == 0`, starting from zero. */
  lemma XorCancel(a: byte, b: byte)
    ensures Xor(Xor(Xor(Xor(0, a), b), a), b) == 0
  {
    assert Pow2(8) == 256;
    XorZero(a, 8);
    XorAssoc(Xor(a, b), a, b, 8);
    XorComm(a, b, 8);
    XorAssoc(b, a, a, 8);
    XorSelf(a, 8);
    XorComm(b, 0, 8);
    XorZero(b, 8);
    XorSelf(b, 8);
  }

  // ------------------------------------------------------------- the image

  /** The pieces of the image file in order: everything but the final
      padding and checksum bytes. */
  datatype Layout = Layout(big: bool, count: seq<byte>, dir: seq<byte>, block: seq<byte>, data: seq<byte>, sig: seq<byte>, end: int)

  function Body(l: Layout): seq<byte>
  {
    l.count + l.dir + l.block + l.data + l.sig
  }

  function SigOf(big: bool): seq<byte>
  {
    if big then [] else Signature
  }

  /** The image pieces `write_image` emits for a directory listing. */
  function ImageLayout(files: seq<File>, bigendian: Option<bool>): (r: Result<Layout>)
    requires forall i :: 0 <= i < |files| ==> |files[i].name| > 0
  {
    var vis := Visible(files);
    var big :- Endianness(NamesOf(vis), bigendian);
    var c :- PackS32(|vis|, big);
    var dir :- Directory(vis, FirstStart(|vis|, SigOf(big) != []), big);
    Ok(Assemble(vis, big, c, dir))
  }

  /** The pieces around a packed count and directory: the checksum block
      of a signed image holds the accumulators after the count pair and
      the directory. */
  function Assemble(vis: seq<File>, big: bool, c: seq<byte>, dir: seq<byte>): Layout
  {
    var sig := SigOf(big);
    var ck := Ck(c + c + dir);
    var block := if sig == [] then [] else [ck.acc0, ck.acc1] + Fit(sig, 30, 0);
    Layout(big, c + c, dir, block, Data(vis), sig, FirstStart(|vis|, sig != []) + SumPadded(vis))
  }

  /** `write_image`: the pieces, one NUL when the data ends at an odd
      offset, and the two checksum accumulators. */
  function Image(files: seq<File>, bigendian: Option<bool>): (r: Result<seq<byte>>)
    requires forall i :: 0 <= i < |files| ==> |files[i].name| > 0
  {
    var l :- ImageLayout(files, bigendian);
    Ok(Sealed(Body(l), l.end))
  }

  /** The body, one NUL when the data ended at the odd offset `end`, and
      the two checksum accumulators of the body. */
  function Sealed(body: seq<byte>, end: int): seq<byte>
  {
    body + Repeat(0, end % 2) + [Ck(body).acc0, Ck(body).acc1]
  }

  /** The output file together with the two checksum accumulators and
      the position flag `update_checksum` keeps in globals. */
  class ImageWriter {
    var out: seq<byte>
    var checksum0: byte
    var checksum1: byte
    var pos: nat

    /** The accumulators hold the checksum of everything written so far. */
    predicate Valid()
      reads this
    {
      Checksum(checksum0, checksum1, pos) == Ck(out)
    }

    constructor ()
      ensures Valid() && out == []
    {
      out, checksum0, checksum1, pos := [], 0, 0, 0;
    }

    /** `update_checksum(s)` followed by `output.write(s)`. */
    method Emit(s: seq<byte>)
      requires Valid()
      modifies this
      ensures Valid() && out == old(out) + s
    {
      var k := 0;
      ghost var stream := out;
      assert stream + s[..0] == stream;
      while k < |s|
        invariant 0 <= k <= |s|
        invariant Checksum(checksum0, checksum1, pos) == Ck(stream + s[..k]) && out == stream
      {
        CkStep(stream, s, k);
        if pos == 0 {
          checksum0 := Xor(checksum0, s[k]);
        } else {
          checksum1 := Xor(checksum1, s[k]);
        }
        pos := 1 - pos;
        k := k + 1;
      }
      assert s[..k] == s;
      out := out + s;
    }
  }

  /** The directory loop of `write_image`: an entry per file, the running
      offset advanced by each padded size. */
  method EmitDirectory(w: ImageWriter, vis: seq<File>, first: int, big: bool) returns (r: Result<int>)
    requires w.Valid()
    modifies w
    ensures w.Valid()
    ensures r.Ok? <==> Directory(vis, first, big).Ok?
    ensures r.Ok? ==> w.out == old(w.out) + Directory(vis, first, big).value && r.value == first + SumPadded(vis)
    ensures r.Fail? ==> r.failure == Directory(vis, first, big).failure
  {
    var start := first;
    ghost var before := w.out;
    var i := 0;
    assert vis[..0] == [];
    PrefixZero(vis, first, big);
    while i < |vis|
      invariant 0 <= i <= |vis| && w.Valid()
      invariant start == first + SumPadded(vis[..i])
      invariant DirPrefix(vis, first, big, i).Ok?
      invariant w.out == before + DirPrefix(vis, first, big, i).value
    {
      var e := EmitEntry(w, vis[i], start, big);
      assert e == EntryOf(vis, first, big, i);
      if e.Fail? {
        DirectoryFails(vis, first, big, i);
        return Fail(e.failure);
      }
      PrefixStep(vis, first, big, i);
      AppendAssoc(before, DirPrefix(vis, first, big, i).value, e.value);
      SumPaddedSnoc(vis, i);
      start := start + Pad16Len(|vis[i].data|);
      i := i + 1;
    }
    PrefixAll(vis, first, big);
    assert vis[..i] == vis;
    r := Ok(start);
  }

  /** One pass of the directory loop: the entry packed, then checksummed
      and written; nothing is written when packing fails. */
  method EmitEntry(w: ImageWriter, f: File, start: int, big: bool) returns (e: Result<seq<byte>>)
    requires w.Valid()
    modifies w
    ensures w.Valid() && e == DirEntry(f.name, start, Pad16Len(|f.data|), big)
    ensures e.Fail? ==> w.out == old(w.out)
    ensures e.Ok? ==> w.out == old(w.out) + e.value
  {
    e := DirEntry(f.name, start, Pad16Len(|f.data|), big);
    if e.Ok? {
      w.Emit(e.value);
    }
  }

  /** The directory of the first i files. */
  function DirPrefix(vis: seq<File>, first: int, big: bool, i: nat): Result<seq<byte>>
    requires i <= |vis|
  {
    Collect(Entries(vis, first, big)[..i])
  }

  lemma PrefixZero(vis: seq<File>, first: int, big: bool)
    ensures DirPrefix(vis, first, big, 0) == Ok([])
  {
    assert Entries(vis, first, big)[..0] == [];
  }

  lemma PrefixAll(vis: seq<File>, first: int, big: bool)
    ensures DirPrefix(vis, first, big, |vis|) == Directory(vis, first, big)
  {
    assert Entries(vis, first, big)[..|vis|] == Entries(vis, first, big);
  }

  lemma PrefixStep(vis: seq<File>, first: int, big: bool, i: nat)
    requires i < |vis| && DirPrefix(vis, first, big, i).Ok? && EntryOf(vis, first, big, i).Ok?
    ensures DirPrefix(vis, first, big, i + 1) == Ok(DirPrefix(vis, first, big, i).value + EntryOf(vis, first, big, i).value)
  {
    CollectSnoc(Entries(vis, first, big), i);
  }

  lemma DirectoryFails(vis: seq<File>, first: int, big: bool, i: nat)
    requires i < |vis| && DirPrefix(vis, first, big, i).Ok? && EntryOf(vis, first, big, i).Fail?
    ensures Directory(vis, first, big) == EntryOf(vis, first, big, i)
  {
    var rs := Entries(vis, first, big);
    CollectSnoc(rs, i);
    CollectFails(rs, i, |vis|);
    assert rs[..|vis|] == rs;
  }

  lemma SumPaddedSnoc(vis: seq<File>, i: nat)
    requires i < |vis|
    ensures SumPadded(vis[..i + 1]) == SumPadded(vis[..i]) + Pad16Len(|vis[i].data|)
  {
    assert vis[..i + 1][..i] == vis[..i];
  }

  lemma DataSnoc(vis: seq<File>, i: nat)
    requires i < |vis|
    ensures Data(vis[..i + 1]) == Data(vis[..i]) + Pad16(vis[i].data)
  {
    assert vis[..i + 1][..i] == vis[..i];
  }

  /** The file contents loop of `write_image`. */
  method EmitData(w: ImageWriter, vis: seq<File>)
    requires w.Valid()
    modifies w
    ensures w.Valid() && w.out == old(w.out) + Data(vis)
  {
    ghost var before := w.out;
    var i := 0;
    assert vis[..0] == [];
    while i < |vis|
      invariant 0 <= i <= |vis| && w.Valid()
      invariant w.out == before + Data(vis[..i])
    {
      DataSnoc(vis, i);
      w.Emit(Pad16(vis[i].data));
      AppendAssoc(before, Data(vis[..i]), Pad16(vis[i].data));
      i := i + 1;
    }
    assert vis[..i] == vis;
  }

  /** `write_image`: the count pair, the directory, the checksum block of
      a signed image, the padded files and the signature all go through
      the checksum; then one NUL when the data ended at an odd offset and
      the two accumulators. */
  method WriteImage(files: seq<File>, bigendian: Option<bool>) returns (r: Result<seq<byte>>)
    requires forall i :: 0 <= i < |files| ==> |files[i].name| > 0
    ensures r == Image(files, bigendian)
  {
    var vis := Visible(files);
    var big := Endianness(NamesOf(vis), bigendian);
    ImageSteps(files, bigendian);
    if big.Fail? {
      return Fail(big.failure);
    }
    var sig := SigOf(big.value);
    var n := |vis|;
    var c := PackS32(n, big.value);
    if c.Fail? {
      return Fail(c.failure);
    }
    var w := new ImageWriter();
    w.Emit(c.value + c.value);
    assert w.out == c.value + c.value;
    var start := EmitDirectory(w, vis, FirstStart(n, sig != []), big.value);
    if start.Fail? {
      return Fail(start.failure);
    }
    ghost var l := Assemble(vis, big.value, c.value, Directory(vis, FirstStart(n, sig != []), big.value).value);
    assert w.out == l.count + l.dir && start.value == l.end;
    var img := EmitTail(w, l, vis, sig, start.value);
    r := Ok(img);
  }

  /** The rest of `write_image` once the directory is out: the checksum
      block of a signed image, the files, the signature, the padding NUL
      and the accumulators. */
  method EmitTail(w: ImageWriter, ghost l: Layout, vis: seq<File>, sig: seq<byte>, end: int) returns (img: seq<byte>)
    requires w.Valid() && w.out == l.count + l.dir && l.data == Data(vis) && sig == l.sig && end == l.end
    requires l.block == if sig == [] then [] else [Ck(l.count + l.dir).acc0, Ck(l.count + l.dir).acc1] + Fit(sig, 30, 0)
    modifies w
    ensures img == Sealed(Body(l), l.end)
  {
    if sig != [] {
      w.Emit([w.checksum0, w.checksum1] + Fit(sig, 30, 0));
    } else {
      assert w.out + [] == w.out;
    }
    assert w.out == l.count + l.dir + l.block;
    EmitData(w, vis);
    w.Emit(sig);
    img := Sealed(w.out, end);
  }

  /** `write_image`'s failures in order, and the image it writes. */
  lemma ImageSteps(files: seq<File>, bigendian: Option<bool>)
    requires forall i :: 0 <= i < |files| ==> |files[i].name| > 0
    ensures var vis := Visible(files); var big := Endianness(NamesOf(vis), bigendian);
      Image(files, bigendian) ==
        if big.Fail? then Fail(big.failure)
        else
          var c := PackS32(|vis|, big.value);
          if c.Fail? then Fail(c.failure)
          else
            var dir := Directory(vis, FirstStart(|vis|, SigOf(big.value) != []), big.value);
            if dir.Fail? then Fail(dir.failure)
            else
              var l := Assemble(vis, big.value, c.value, dir.value);
              Ok(Sealed(Body(l), l.end))
  {
  }

  /** The data always ends at an even offset, so the image ends with the
      body and exactly the two checksum bytes: the XOR of the body's
      bytes at even positions and the XOR of those at odd positions. */
  lemma ImageEnds(files: seq<File>, bigendian: Option<bool>)
    requires forall i :: 0 <= i < |files| ==> |files[i].name| > 0
    requires Image(files, bigendian).Ok?
    ensures var img := Image(files, bigendian).value; var body := Body(ImageLayout(files, bigendian).value);
      img == body + [Ck(body).acc0, Ck(body).acc1]
  {
    ImageIs(files, bigendian);
    var l := ImageLayout(files, bigendian).value;
    LayoutEnd(files, bigendian);
    SealedEven(Body(l), l.end, HalfEnd(Visible(files), l.sig != []));
  }

  lemma ImageIs(files: seq<File>, bigendian: Option<bool>)
    requires forall i :: 0 <= i < |files| ==> |files[i].name| > 0
    requires Image(files, bigendian).Ok?
    ensures ImageLayout(files, bigendian).Ok?
    ensures Image(files, bigendian) == Ok(Sealed(Body(ImageLayout(files, bigendian).value), ImageLayout(files, bigendian).value.end))
  {
  }

  /** The image data ends at an even offset. */
  lemma LayoutEnd(files: seq<File>, bigendian: Option<bool>)
    requires forall i :: 0 <= i < |files| ==> |files[i].name| > 0
    requires ImageLayout(files, bigendian).Ok?
    ensures var l := ImageLayout(files, bigendian).value;
      l.end == 2 * HalfEnd(Visible(files), l.sig != [])
  {
    var vis := Visible(files);
    var big := Endianness(NamesOf(vis), bigendian).value;
    var c := PackS32(|vis|, big).value;
    var dir := Directory(vis, FirstStart(|vis|, SigOf(big) != []), big).value;
    assert ImageLayout(files, bigendian) == Ok(Assemble(vis, big, c, dir));
    AssembleEnd(vis, big, c, dir);
  }

  lemma AssembleEnd(vis: seq<File>, big: bool, c: seq<byte>, dir: seq<byte>)
    ensures Assemble(vis, big, c, dir).end == 2 * HalfEnd(vis, Assemble(vis, big, c, dir).sig != [])
  {
    EndEven(vis, SigOf(big) != []);
  }

  function HalfEnd(vis: seq<File>, signed: bool): nat
  {
    4 + 12 * |vis| + (if signed then 16 else 0) + HalfPadded(vis)
  }

  /** The data ends at an even offset. */
  lemma EndEven(vis: seq<File>, signed: bool)
    ensures FirstStart(|vis|, signed) + SumPadded(vis) == 2 * HalfEnd(vis, signed)
  {
    SumPaddedHalf(vis);
  }

  lemma SealedEven(body: seq<byte>, end: int, h: nat)
    requires end == 2 * h
    ensures Sealed(body, end) == body + [Ck(body).acc0, Ck(body).acc1]
  {
  }

  // --------------------------------------------------------- reading back

  /** `s[0:s.find(chr(0))]`: up to the first NUL, or all but the last byte
      when there is none (find gives -1). */
  function CutNul(s: seq<byte>): (r: seq<byte>)
    ensures 0 !in s ==> r == s[..if |s| > 0 then |s| - 1 else 0]
    ensures 0 in s ==> 0 !in r && r + [0] <= s
  {
    var i := FindNul(s);
    if i == -1 then s[..if |s| > 0 then |s| - 1 else 0] else s[..i]
  }

  /** `s.find(chr(0))`. */
  function FindNul(s: seq<byte>): (i: int)
    ensures -1 <= i < |s|
    ensures i >= 0 ==> s[i] == 0 && 0 !in s[..i]
    ensures i == -1 ==> 0 !in s
  {
    if |s| == 0 then -1
    else if s[0] == 0 then 0
    else
      var j := FindNul(s[1..]);
      assert j >= 0 ==> s[..j + 1] == [s[0]] + s[1..][..j];
      if j == -1 then -1 else j + 1
  }

  /** A directory entry as `extract_image` reads it: name, start and size. */
  datatype Entry = Entry(name: seq<byte>, start: int, size: int)

  function ParseEntry(e: seq<byte>, big: bool): Entry
    requires |e| == 24
  {
    Entry(CutNul(e[..9]) + [Dot] + CutNul(e[9..16]), GetS32(e[16..20], big), GetS32(e[20..], big))
  }

  /** `extract_image` up to the file contents: the count pair (InvalidImage
      when its halves differ) and the entries; a file too short for them
      raises struct.error. */
  function ReadDirectory(img: seq<byte>, big: bool): (r: Result<seq<Entry>>)
    ensures |img| >= 8 && GetS32(img[..4], big) != GetS32(img[4..8], big) ==> r == Fail(InvalidImage)
    ensures r.Ok? ==> |img| >= 8 && |r.value| == (if GetS32(img[..4], big) < 0 then 0 else GetS32(img[..4], big))
    ensures r.Ok? ==> 8 + 24 * |r.value| <= |img|
    ensures r.Ok? ==> forall i :: 0 <= i < |r.value| ==> r.value[i] == ParseEntry(img[8 + 24 * i..8 + 24 * i + 24], big)
  {
    if |img| < 8 then Fail(StructError)
    else
      var n1, n2 := GetS32(img[..4], big), GetS32(img[4..8], big);
      if n1 != n2 then Fail(InvalidImage)
      else if n1 <= 0 then Ok([])
      else if |img| < 8 + 24 * n1 then Fail(StructError)
      else Ok(ParseEntries(img, n1, big))
  }

  /** The n 24-byte entries after the count pair. */
  function ParseEntries(img: seq<byte>, n: nat, big: bool): (r: seq<Entry>)
    requires 8 + 24 * n <= |img|
    ensures |r| == n && forall i :: 0 <= i < n ==> r[i] == ParseEntry(img[8 + 24 * i..8 + 24 * i + 24], big)
  {
    seq(n, i requires 0 <= i < n => ParseEntry(img[8 + 24 * i..8 + 24 * i + 24], big))
  }

  /** The name `extract_image` makes of a stored entry: the 8.3 parts
      joined by a dot. */
  function StoredName(name: seq<byte>): seq<byte>
  {
    EntryName(name).0 + [Dot] + EntryName(name).1
  }

  /** A name already in 8.3 form is stored and read back unchanged. */
  lemma StoredNameOf(base: seq<byte>, ext: seq<byte>)
    requires |base| <= 8 && |ext| <= 3 && Dot !in ext
    ensures StoredName(base + [Dot] + ext) == base + [Dot] + ext
  {
    var name := base + [Dot] + ext;
    var d := RFind(name, Dot);
    assert name[|base|] == Dot;
    assert d == |base|;
    assert name[..|base|] == base;
    assert name[|base| + 1..|name|] == ext;
  }

  lemma CutNulFit(s: seq<byte>, n: nat)
    requires |s| < n && 0 !in s
    ensures CutNul(Fit(s, n, 0)) == s
  {
    var t := Fit(s, n, 0);
    assert t[|s|] == 0;
  }

  /** `extract_image` reads back what `write_image` packed into an entry,
      when the name holds no NUL byte. */
  lemma ParseDirEntry(name: seq<byte>, start: int, size: int, big: bool)
    requires DirEntry(name, start, size, big).Ok? && 0 !in name
    ensures ParseEntry(DirEntry(name, start, size, big).value, big) == Entry(StoredName(name), start, size)
  {
    var (f, x) := EntryName(name);
    var e := DirEntry(name, start, size, big).value;
    var a, b := S32(start, big), S32(size, big);
    assert e == Fit(f, 9, 0) + Fit(x, 7, 0) + a + b;
    assert e[..9] == Fit(f, 9, 0) && e[9..16] == Fit(x, 7, 0);
    assert e[16..20] == a && e[20..] == b;
    CutNulFit(f, 9);
    CutNulFit(x, 7);
  }

  lemma SliceLeft<T>(a: seq<T>, b: seq<T>, x: nat, y: nat)
    requires x <= y <= |a|
    ensures (a + b)[x..y] == a[x..y]
  {
  }

  lemma SliceRight<T>(a: seq<T>, b: seq<T>)
    ensures (a + b)[|a|..|a| + |b|] == b
  {
  }

  /** Piece i of a join of n-byte pieces sits at [i * n, i * n + n). */
  lemma CollectAt<T>(rs: seq<Result<seq<T>>>, n: nat, i: nat)
    requires Collect(rs).Ok? && i < |rs|
    requires forall j :: 0 <= j < |rs| ==> rs[j].Ok? ==> |rs[j].value| == n
    ensures rs[i].Ok? && |Collect(rs).value| == |rs| * n
    ensures i * n + n <= |rs| * n && Collect(rs).value[i * n..i * n + n] == rs[i].value
  {
    CollectConcat(rs);
    ConcatAt(Values(rs), n, i);
  }

  /** File i's padded contents sit where the files before it end. */
  lemma {:induction false} DataAt(vis: seq<File>, i: nat)
    requires i < |vis|
    ensures SumPadded(vis[..i]) + Pad16Len(|vis[i].data|) <= |Data(vis)|
    ensures Data(vis)[SumPadded(vis[..i])..SumPadded(vis[..i]) + Pad16Len(|vis[i].data|)] == Pad16(vis[i].data)
  {
    if i < |vis| - 1 {
      DataAt(vis[..|vis| - 1], i);
      DataAtInit(vis, i);
    } else {
      DataAtLast(vis);
    }
  }

  /** A file before the last sits where it sat without the last. */
  lemma DataAtInit(vis: seq<File>, i: nat)
    requires i < |vis| - 1
    requires var init := vis[..|vis| - 1];
      SumPadded(init[..i]) + Pad16Len(|init[i].data|) <= |Data(init)| &&
      Data(init)[SumPadded(init[..i])..SumPadded(init[..i]) + Pad16Len(|init[i].data|)] == Pad16(init[i].data)
    ensures SumPadded(vis[..i]) + Pad16Len(|vis[i].data|) <= |Data(vis)|
    ensures Data(vis)[SumPadded(vis[..i])..SumPadded(vis[..i]) + Pad16Len(|vis[i].data|)] == Pad16(vis[i].data)
  {
    var init := vis[..|vis| - 1];
    assert init[..i] == vis[..i] && init[i] == vis[i];
    SliceLeft(Data(init), Pad16(vis[|vis| - 1].data), SumPadded(vis[..i]), SumPadded(vis[..i]) + Pad16Len(|vis[i].data|));
  }

  /** The last file sits after all the others. */
  lemma DataAtLast(vis: seq<File>)
    requires |vis| > 0
    ensures var k := |vis| - 1;
      SumPadded(vis[..k]) + Pad16Len(|vis[k].data|) <= |Data(vis)| &&
      Data(vis)[SumPadded(vis[..k])..SumPadded(vis[..k]) + Pad16Len(|vis[k].data|)] == Pad16(vis[k].data)
  {
    var k := |vis| - 1;
    SliceRight(Data(vis[..k]), Pad16(vis[k].data));
  }


  lemma AssembleFields(vis: seq<File>, big: bool, c: seq<byte>, dir: seq<byte>)
    requires |dir| == 24 * |vis|
    ensures var l := Assemble(vis, big, c, dir);
      l.big == big && l.sig == SigOf(big) && l.count == c + c && l.dir == dir && l.data == Data(vis) &&
      FirstStart(|vis|, SigOf(big) != []) == 8 + |l.dir| + |l.block|
  {
  }

  /** Every directory entry is 24 bytes long. */
  lemma DirectoryLength(vis: seq<File>, first: int, big: bool)
    requires Directory(vis, first, big).Ok?
    ensures |Directory(vis, first, big).value| == 24 * |vis|
  {
    var rs := Entries(vis, first, big);
    CollectConcat(rs);
    ConcatLength(Values(rs), 24);
  }

  /** What `write_image` put where, for the reader. */
  lemma LayoutFacts(files: seq<File>, bigendian: Option<bool>)
    requires forall i :: 0 <= i < |files| ==> |files[i].name| > 0
    requires ImageLayout(files, bigendian).Ok?
    ensures var l := ImageLayout(files, bigendian).value; var vis := Visible(files);
      l.big == Endianness(NamesOf(vis), bigendian).value && l.sig == SigOf(l.big) &&
      |vis| < 0x8000_0000 && l.count == S32(|vis|, l.big) + S32(|vis|, l.big) &&
      Directory(vis, FirstStart(|vis|, l.sig != []), l.big) == Ok(l.dir)
  {
    var vis := Visible(files);
    var big := Endianness(NamesOf(vis), bigendian).value;
    var c := PackS32(|vis|, big).value;
    var first := FirstStart(|vis|, SigOf(big) != []);
    var dir := Directory(vis, first, big).value;
    assert ImageLayout(files, bigendian) == Ok(Assemble(vis, big, c, dir));
    DirectoryLength(vis, first, big);
    AssembleFields(vis, big, c, dir);
  }

  /** The lengths of the pieces and where the data starts. */
  lemma LayoutShape(files: seq<File>, bigendian: Option<bool>)
    requires forall i :: 0 <= i < |files| ==> |files[i].name| > 0
    requires ImageLayout(files, bigendian).Ok?
    ensures var l := ImageLayout(files, bigendian).value; var vis := Visible(files);
      |l.count| == 8 && |l.dir| == 24 * |vis| && l.data == Data(vis) &&
      FirstStart(|vis|, l.sig != []) == 8 + |l.dir| + |l.block|
  {
    var vis := Visible(files);
    var big := Endianness(NamesOf(vis), bigendian).value;
    var c := PackS32(|vis|, big).value;
    var first := FirstStart(|vis|, SigOf(big) != []);
    var dir := Directory(vis, first, big).value;
    assert ImageLayout(files, bigendian) == Ok(Assemble(vis, big, c, dir));
    DirectoryLength(vis, first, big);
    AssembleFields(vis, big, c, dir);
  }

  /** The layout behind a written image, with what the reader relies on:
      the count pair, the directory of the visible files after it and their
      padded contents from the first start on. */
  lemma ImageParts(files: seq<File>, bigendian: Option<bool>) returns (l: Layout)
    requires forall i :: 0 <= i < |files| ==> |files[i].name| > 0
    requires Image(files, bigendian).Ok?
    ensures Image(files, bigendian) == Ok(Sealed(Body(l), l.end))
    ensures Frames(Image(files, bigendian).value, l)
    ensures var vis := Visible(files); var first := FirstStart(|vis|, SigOf(l.big) != []);
      l.big == Endianness(NamesOf(vis), bigendian).value &&
      |vis| < 0x8000_0000 && l.count == S32(|vis|, l.big) + S32(|vis|, l.big) &&
      |l.dir| == 24 * |vis| && Directory(vis, first, l.big) == Ok(l.dir) &&
      l.data == Data(vis) && Packs(l.data, vis) && first == 8 + |l.dir| + |l.block|
  {
    ImageIs(files, bigendian);
    l := ImageLayout(files, bigendian).value;
    LayoutFacts(files, bigendian);
    LayoutShape(files, bigendian);
    SealedAt(l, l.end);
    DataPacks(Visible(files));
  }

  /** The entries `extract_image` should find: each visible file under its
      stored 8.3 name, at the offset where the files before it end, with
      its padded size. */
  function Listing(vis: seq<File>, first: int): (r: seq<Entry>)
    ensures |r| == |vis|
    ensures forall i :: 0 <= i < |vis| ==>
      r[i] == Entry(StoredName(vis[i].name), first + SumPadded(vis[..i]), Pad16Len(|vis[i].data|))
  {
    seq(|vis|, i requires 0 <= i < |vis| =>
      Entry(StoredName(vis[i].name), first + SumPadded(vis[..i]), Pad16Len(|vis[i].data|)))
  }

  lemma SliceOfSlice<T>(s: seq<T>, x: nat, y: nat, i: nat, j: nat)
    requires x <= y <= |s| && i <= j <= y - x
    ensures s[x..y][i..j] == s[x + i..x + j]
  {
    var a, b := s[x..y][i..j], s[x + i..x + j];
    assert |a| == |b|;
    forall k | 0 <= k < |a|
      ensures a[k] == b[k]
    {
      assert a[k] == s[x..y][i + k];
    }
  }

  /** Entry i of a directory stored after the count pair. */
  lemma EntryAt(img: seq<byte>, n: nat, dir: seq<byte>, i: nat)
    requires i < n && |dir| == 24 * n && 8 + 24 * n <= |img| && img[8..8 + 24 * n] == dir
    ensures 8 + 24 * i + 24 <= |img| && img[8 + 24 * i..8 + 24 * i + 24] == dir[24 * i..24 * i + 24]
  {
    SliceOfSlice(img, 8, 8 + 24 * n, 24 * i, 24 * i + 24);
  }

  lemma DirectoryAt(vis: seq<File>, first: int, big: bool, dir: seq<byte>, i: nat)
    requires i < |vis| && Directory(vis, first, big) == Ok(dir)
    ensures 24 * i + 24 <= |dir| == 24 * |vis| && EntryOf(vis, first, big, i).Ok?
    ensures dir[24 * i..24 * i + 24] == EntryOf(vis, first, big, i).value
  {
    var rs := Entries(vis, first, big);
    assert Collect(rs) == Ok(dir);
    CollectAt(rs, 24, i);
    assert i * 24 == 24 * i && |rs| * 24 == 24 * |vis|;
    assert dir[24 * i..24 * i + 24] == rs[i].value;
  }

  /** File i's packed entry parses back to its listing. */
  lemma ListedAt(vis: seq<File>, first: int, big: bool, i: nat)
    requires i < |vis| && EntryOf(vis, first, big, i).Ok? && 0 !in vis[i].name
    ensures ParseEntry(EntryOf(vis, first, big, i).value, big) == Listing(vis, first)[i]
  {
    ParseDirEntry(vis[i].name, first + SumPadded(vis[..i]), Pad16Len(|vis[i].data|), big);
  }

  /** `dir` is the 24-byte entries of `es`, in order. */
  predicate Lists(dir: seq<byte>, big: bool, es: seq<Entry>)
  {
    |dir| == 24 * |es| &&
    forall i :: 0 <= i < |es| ==> ParseEntry(dir[24 * i..24 * i + 24], big) == es[i]
  }

  /** The directory `write_image` packs parses back to the listing. */
  lemma DirectoryLists(vis: seq<File>, first: int, big: bool, dir: seq<byte>)
    requires Directory(vis, first, big) == Ok(dir)
    requires forall i :: 0 <= i < |vis| ==> 0 !in vis[i].name
    ensures Lists(dir, big, Listing(vis, first))
  {
    DirectoryLength(vis, first, big);
    forall i | 0 <= i < |vis|
      ensures ParseEntry(dir[24 * i..24 * i + 24], big) == Listing(vis, first)[i]
    {
      DirectoryAt(vis, first, big, dir, i);
      ListedAt(vis, first, big, i);
    }
  }

  /** Reading the directory of an image framed by a layout gives what its
      directory lists. */
  lemma ReadLayout(img: seq<byte>, l: Layout, es: seq<Entry>)
    requires Frames(img, l)
    requires |es| < 0x8000_0000 && l.count == S32(|es|, l.big) + S32(|es|, l.big)
    requires Lists(l.dir, l.big, es)
    ensures ReadDirectory(img, l.big) == Ok(es)
  {
    PairAt(img, S32(|es|, l.big));
    var r := ReadDirectory(img, l.big);
    assert r.Ok? && |r.value| == |es|;
    forall i | 0 <= i < |es|
      ensures r.value[i] == es[i]
    {
      EntryAt(img, |es|, l.dir, i);
    }
    assert r.value == es;
  }


  /** A window of a piece stored at `at` is the same window of the whole. */
  lemma Window(s: seq<byte>, at: int, d: seq<byte>, x: int, size: int)
    requires 0 <= at && at + |d| <= |s| && s[at..at + |d|] == d
    requires 0 <= x && 0 <= size && x + size <= |d|
    ensures 0 <= at + x && (at + x) + size <= |s| && s[at + x..(at + x) + size] == d[x..x + size]
  {
    SliceOfSlice(s, at, at + |d|, x, x + size);
  }

  /** `extract_image` on what `write_image` wrote finds every visible file
      under its 8.3 name, where the writer put it. */
  lemma ReadBack(files: seq<File>, bigendian: Option<bool>)
    requires forall i :: 0 <= i < |files| ==> |files[i].name| > 0 && 0 !in files[i].name
    requires Image(files, bigendian).Ok?
    ensures var vis := Visible(files); var big := Endianness(NamesOf(vis), bigendian).value;
      ReadDirectory(Image(files, bigendian).value, big) == Ok(Listing(vis, FirstStart(|vis|, SigOf(big) != [])))
  {
    var l := ImageParts(files, bigendian);
    var vis := Visible(files);
    VisibleMembers(files);
    forall i | 0 <= i < |vis|
      ensures 0 !in vis[i].name
    {
      assert vis[i] in files;
      var j :| 0 <= j < |files| && files[j] == vis[i];
    }
    var first := FirstStart(|vis|, SigOf(l.big) != []);
    DirectoryLists(vis, first, l.big, l.dir);
    ReadLayout(Image(files, bigendian).value, l, Listing(vis, first));
  }

  /** Each entry of `es` points at file i's padded contents in `img`. */
  predicate Stores(img: seq<byte>, es: seq<Entry>, vis: seq<File>)
    requires |es| == |vis|
  {
    forall i :: 0 <= i < |es| ==>
      0 <= es[i].start && 0 <= es[i].size && es[i].start + es[i].size <= |img| &&
      img[es[i].start..es[i].start + es[i].size] == Pad16(vis[i].data)
  }

  /** File i's padded contents sit in `d` where the files before it end. */
  predicate Packs(d: seq<byte>, vis: seq<File>)
  {
    forall i :: 0 <= i < |vis| ==>
      SumPadded(vis[..i]) + Pad16Len(|vis[i].data|) <= |d| &&
      d[SumPadded(vis[..i])..SumPadded(vis[..i]) + Pad16Len(|vis[i].data|)] == Pad16(vis[i].data)
  }

  lemma DataPacks(vis: seq<File>)
    ensures Packs(Data(vis), vis)
  {
    forall i | 0 <= i < |vis|
      ensures SumPadded(vis[..i]) + Pad16Len(|vis[i].data|) <= |Data(vis)|
      ensures Data(vis)[SumPadded(vis[..i])..SumPadded(vis[..i]) + Pad16Len(|vis[i].data|)] == Pad16(vis[i].data)
    {
      DataAt(vis, i);
    }
  }

  /** Entry i starts where the files before it end, counted from `at`,
      and spans file i's padded size. */
  predicate Placed(es: seq<Entry>, vis: seq<File>, at: int)
  {
    |es| == |vis| &&
    forall i :: 0 <= i < |es| ==> es[i].start == at + SumPadded(vis[..i]) && es[i].size == Pad16Len(|vis[i].data|)
  }

  lemma ListingPlaced(vis: seq<File>, first: int)
    ensures Placed(Listing(vis, first), vis, first)
  {
  }

  /** Packed files stored from `at` on are where placed entries say. */
  lemma DataStores(img: seq<byte>, at: int, d: seq<byte>, es: seq<Entry>, vis: seq<File>)
    requires 0 <= at && at + |d| <= |img| && img[at..at + |d|] == d
    requires Packs(d, vis) && Placed(es, vis, at)
    ensures Stores(img, es, vis)
  {
    forall i | 0 <= i < |es|
      ensures 0 <= es[i].start && 0 <= es[i].size && es[i].start + es[i].size <= |img|
      ensures img[es[i].start..es[i].start + es[i].size] == Pad16(vis[i].data)
    {
      StoredAt(img, at, d, es[i], SumPadded(vis[..i]), Pad16Len(|vis[i].data|), Pad16(vis[i].data));
    }
  }

  lemma StoredAt(img: seq<byte>, at: int, d: seq<byte>, e: Entry, x: int, size: int, p: seq<byte>)
    requires 0 <= at && at + |d| <= |img| && img[at..at + |d|] == d
    requires 0 <= x && 0 <= size && x + size <= |d| && d[x..x + size] == p
    requires e.start == at + x && e.size == size
    ensures 0 <= e.start && 0 <= e.size && e.start + e.size <= |img| && img[e.start..e.start + e.size] == p
  {
    Window(img, at, d, x, size);
  }

  /** An image framed by a layout stores every file where placed entries
      say. */
  lemma LayoutStores(img: seq<byte>, l: Layout, es: seq<Entry>, vis: seq<File>, first: int)
    requires Frames(img, l) && Packs(l.data, vis) && Placed(es, vis, first)
    requires first == 8 + |l.dir| + |l.block|
    ensures Stores(img, es, vis)
  {
    DataStores(img, first, l.data, es, vis);
  }

  /** The bytes of each listed entry are that file's contents, padded to
      an even length: `extract_image` writes back what was packed. */
  lemma ExtractFiles(files: seq<File>, bigendian: Option<bool>)
    requires forall i :: 0 <= i < |files| ==> |files[i].name| > 0
    requires Image(files, bigendian).Ok?
    ensures var vis := Visible(files); var big := Endianness(NamesOf(vis), bigendian).value;
      Stores(Image(files, bigendian).value, Listing(vis, FirstStart(|vis|, SigOf(big) != [])), vis)
  {
    var l := ImageParts(files, bigendian);
    var vis := Visible(files);
    var first := FirstStart(|vis|, SigOf(l.big) != []);
    ListingPlaced(vis, first);
    LayoutStores(Image(files, bigendian).value, l, Listing(vis, first), vis, first);
  }


  lemma PairAt(img: seq<byte>, c: seq<byte>)
    requires |c| == 4 && |img| >= 8 && img[..8] == c + c
    ensures img[..4] == c && img[4..8] == c
  {
    assert img[..4] == img[..8][..4] && img[4..8] == img[..8][4..];
  }

  /** `img` holds the count pair, the directory and the data of `l` where
      `write_image` puts them. */
  predicate Frames(img: seq<byte>, l: Layout)
  {
    var x := 8 + |l.dir| + |l.block|;
    |l.count| == 8 && x + |l.data| <= |img| &&
    img[..8] == l.count && img[8..8 + |l.dir|] == l.dir && img[x..x + |l.data|] == l.data
  }

  lemma SealedAt(l: Layout, e: int)
    requires |l.count| == 8
    ensures Frames(Sealed(Body(l), e), l)
  {
    var t := [Ck(Body(l)).acc0, Ck(Body(l)).acc1];
    AppendAssoc(Body(l), Repeat(0, e % 2), t);
    BodyFrames(l, Repeat(0, e % 2) + t);
  }

  /** Whatever follows the body, the pieces stay where they are. */
  lemma BodyFrames(l: Layout, t: seq<byte>)
    requires |l.count| == 8
    ensures Frames(Body(l) + t, l)
  {
    Pieces(l.count, l.dir, l.block, l.data, l.sig, t);
  }


  lemma Pieces<T>(a: seq<T>, b: seq<T>, c: seq<T>, d: seq<T>, f: seq<T>, g: seq<T>)
    ensures var s := a + b + c + d + f + g; var x := |a| + |b| + |c|;
      s[..|a|] == a && s[|a|..|a| + |b|] == b && s[x..x + |d|] == d
  {
    var s := a + b + c + d + f + g;
    var x := |a| + |b| + |c|;
    assert s == (a + b + c + d) + (f + g);
    assert s[..x + |d|] == a + b + c + d;
  }

}
