/** The parts of Python's `struct` module the map code relies on: fixed-width
    unsigned and two's-complement fields, written in the byte order chosen by
    `big` ('>' when true, '<' when false). Packing a value that does not fit,
    or unpacking from too short a buffer, raises struct.error. */
module PyStruct {
  import opened Wrappers
  import opened Arith

  type byte = b: int | 0 <= b < 0x100

  /** Format "H". */
  function U16(v: nat, big: bool): (r: seq<byte>)
    requires v < 0x1_0000
    ensures |r| == 2 && GetU16(r, big) == v
  {
    if big then [v / 0x100, v % 0x100] else [v % 0x100, v / 0x100]
  }

  function GetU16(s: seq<byte>, big: bool): (v: nat)
    requires |s| >= 2
    ensures v < 0x1_0000
  {
    if big then (s[0] as int) * 0x100 + s[1] else (s[1] as int) * 0x100 + s[0]
  }

  /** Format "I". */
  function U32(v: nat, big: bool): (r: seq<byte>)
    requires v < 0x1_0000_0000
    ensures |r| == 4 && GetU32(r, big) == v
  {
    Digits32(v);
    var b0, b1, b2, b3 := v / 0x100 / 0x100 / 0x100, v / 0x100 / 0x100 % 0x100, v / 0x100 % 0x100, v % 0x100;
    if big then [b0, b1, b2, b3] else [b3, b2, b1, b0]
  }

  lemma Digits32(v: nat)
    requires v < 0x1_0000_0000
    ensures v / 0x100 / 0x100 / 0x100 < 0x100
    ensures ((v / 0x100 / 0x100 / 0x100 * 0x100 + v / 0x100 / 0x100 % 0x100) * 0x100
             + v / 0x100 % 0x100) * 0x100 + v % 0x100 == v
  {
    var q1 := v / 0x100;
    var q2 := q1 / 0x100;
    var q3 := q2 / 0x100;
    assert v == q1 * 0x100 + v % 0x100;
    assert q1 == q2 * 0x100 + q1 % 0x100;
    assert q2 == q3 * 0x100 + q2 % 0x100;
  }

  function GetU32(s: seq<byte>, big: bool): (v: nat)
    requires |s| >= 4
    ensures v < 0x1_0000_0000
  {
    if big then (((s[0] as int) * 0x100 + s[1]) * 0x100 + s[2]) * 0x100 + s[3]
    else (((s[3] as int) * 0x100 + s[2]) * 0x100 + s[1]) * 0x100 + s[0]
  }

  /** Format "b": a signed byte in two's complement. */
  function S8(v: int): (r: byte)
    requires -0x80 <= v < 0x80
    ensures GetS8(r) == v
  {
    v % 0x100
  }

  function GetS8(b: byte): (v: int)
    ensures -0x80 <= v < 0x80
  {
    if b < 0x80 then b else b - 0x100
  }

  /** Format "i": a signed 32-bit integer in two's complement. */
  function S32(v: int, big: bool): (r: seq<byte>)
    requires -0x8000_0000 <= v < 0x8000_0000
    ensures |r| == 4 && GetS32(r, big) == v
  {
    U32(v % 0x1_0000_0000, big)
  }

  function GetS32(s: seq<byte>, big: bool): (v: int)
    requires |s| >= 4
    ensures -0x8000_0000 <= v < 0x8000_0000
  {
    var u := GetU32(s, big);
    if u < 0x8000_0000 then u else u - 0x1_0000_0000
  }

  /** pack("B"/"H"/"I") of a Python integer: struct.error when it does not fit. */
  function PackU8(v: int): Result<seq<byte>>
  {
    if 0 <= v < 0x100 then Ok([v]) else Fail(StructError)
  }

  function PackU16(v: int, big: bool): Result<seq<byte>>
  {
    if 0 <= v < 0x1_0000 then Ok(U16(v, big)) else Fail(StructError)
  }

  function PackU32(v: int, big: bool): Result<seq<byte>>
  {
    if 0 <= v < 0x1_0000_0000 then Ok(U32(v, big)) else Fail(StructError)
  }

  /** pack("i"). */
  function PackS32(v: int, big: bool): Result<seq<byte>>
  {
    if -0x8000_0000 <= v < 0x8000_0000 then Ok(S32(v, big)) else Fail(StructError)
  }

  /** unpack of one field followed by dropping the bytes it used. */
  function ReadU8(s: seq<byte>): (r: Result<(byte, seq<byte>)>)
    ensures r.Ok? <==> |s| >= 1
    ensures r.Ok? ==> r.value == (s[0], s[1..])
  {
    if |s| < 1 then Fail(StructError) else Ok((s[0], s[1..]))
  }

  function ReadU16(s: seq<byte>, big: bool): (r: Result<(nat, seq<byte>)>)
    ensures r.Ok? <==> |s| >= 2
    ensures r.Ok? ==> r.value == (GetU16(s, big), s[2..])
  {
    if |s| < 2 then Fail(StructError) else Ok((GetU16(s, big), s[2..]))
  }

  function ReadU32(s: seq<byte>, big: bool): (r: Result<(nat, seq<byte>)>)
    ensures r.Ok? <==> |s| >= 4
    ensures r.Ok? ==> r.value == (GetU32(s, big), s[4..])
  {
    if |s| < 4 then Fail(StructError) else Ok((GetU32(s, big), s[4..]))
  }

  function ReadS32(s: seq<byte>, big: bool): (r: Result<(int, seq<byte>)>)
    ensures r.Ok? <==> |s| >= 4
    ensures r.Ok? ==> r.value == (GetS32(s, big), s[4..])
  {
    if |s| < 4 then Fail(StructError) else Ok((GetS32(s, big), s[4..]))
  }

  /** Reading an "H" field and packing the value again gives back its two bytes. */
  lemma U16Get(s: seq<byte>, big: bool)
    requires |s| >= 2
    ensures U16(GetU16(s, big), big) == s[..2]
  {
    var hi, lo := if big then s[0] else s[1], if big then s[1] else s[0];
    DivAdd(hi, lo, 0x100);
  }

  /** Reading an "I" field and packing the value again gives back its four bytes. */
  lemma U32Get(s: seq<byte>, big: bool)
    requires |s| >= 4
    ensures U32(GetU32(s, big), big) == s[..4]
  {
    var b0, b1, b2, b3 := if big then s[0] else s[3], if big then s[1] else s[2],
                          if big then s[2] else s[1], if big then s[3] else s[0];
    var q2 := (b0 as int) * 0x100 + b1;
    var q1 := q2 * 0x100 + b2;
    var v := q1 * 0x100 + b3;
    assert GetU32(s, big) == v;
    DivAdd(q1, b3, 0x100);
    DivAdd(q2, b2, 0x100);
    DivAdd(b0, b1, 0x100);
  }

  lemma ReadU16Prefix(v: nat, big: bool, rest: seq<byte>)
    requires v < 0x1_0000
    ensures ReadU16(U16(v, big) + rest, big) == Ok((v, rest))
  {
    var s := U16(v, big) + rest;
    assert s[..2] == U16(v, big);
    assert s[2..] == rest;
  }

  lemma ReadU32Prefix(v: nat, big: bool, rest: seq<byte>)
    requires v < 0x1_0000_0000
    ensures ReadU32(U32(v, big) + rest, big) == Ok((v, rest))
  {
    var s := U32(v, big) + rest;
    assert s[..4] == U32(v, big);
    assert s[4..] == rest;
  }

  lemma ReadS32Prefix(v: int, big: bool, rest: seq<byte>)
    requires -0x8000_0000 <= v < 0x8000_0000
    ensures ReadS32(S32(v, big) + rest, big) == Ok((v, rest))
  {
    var s := S32(v, big) + rest;
    assert s[..4] == S32(v, big);
    assert s[4..] == rest;
  }
}
