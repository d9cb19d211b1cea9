/** magellan/misc.py: the hex dump used in debug output, and the byte-order
    prefix `pack` puts in front of a struct format. */
module Misc {
  import opened PyStruct

  const HexDigits: string := "0123456789abcdef"

  /** `"%02x" % b`. */
  function Hex2(b: byte): string
  {
    [HexDigits[b / 16], HexDigits[b % 16]]
  }

  /** `dump(x)`: every byte as two lowercase hex digits, the bytes
      separated by single spaces. */
  function Dump(x: seq<byte>): (r: string)
    ensures |x| == 0 ==> r == ""
    ensures |x| > 0 ==> |r| == 3 * |x| - 1
  {
    if |x| == 0 then ""
    else if |x| == 1 then Hex2(x[0])
    else Hex2(x[0]) + " " + Dump(x[1..])
  }

  /** Byte i of the input is written at positions 3i and 3i + 1, and a
      space follows it unless it is the last. */
  lemma {:induction false} DumpAt(x: seq<byte>, i: nat)
    requires i < |x|
    ensures Dump(x)[3 * i] == HexDigits[x[i] / 16] && Dump(x)[3 * i + 1] == HexDigits[x[i] % 16]
    ensures i < |x| - 1 ==> Dump(x)[3 * i + 2] == ' '
  {
    if i > 0 {
      DumpAt(x[1..], i - 1);
      assert Dump(x)[3..] == Dump(x[1..]);
    }
  }

  /** The value of a lowercase hex digit. */
  function HexValue(c: char): (v: nat)
    ensures v < 16
    ensures forall d :: 0 <= d < 16 && HexDigits[d] == c ==> v == d
  {
    if '0' <= c <= '9' then (c - '0') as nat
    else if 'a' <= c <= 'f' then (c - 'a') as nat + 10
    else 0
  }

  /** Reading a dump back: two digits, then a separator to skip. */
  function Undump(s: string): (x: seq<byte>)
    decreases |s|
  {
    if |s| < 2 then []
    else
      var b := HexValue(s[0]) * 16 + HexValue(s[1]);
      if |s| < 3 then [b] else [b] + Undump(s[3..])
  }

  /** A dump names every byte: reading it back gives the bytes dumped. */
  lemma {:induction false} DumpReadsBack(x: seq<byte>)
    ensures Undump(Dump(x)) == x
  {
    if |x| > 1 {
      DumpReadsBack(x[1..]);
      assert Dump(x)[3..] == Dump(x[1..]);
    }
  }

  /** The prefix `pack` chooses: '>' for big-endian, '<' otherwise. */
  function Prefix(big: bool): (c: char)
    ensures c == '>' || c == '<'
  {
    if big then '>' else '<'
  }

  /** The prefix names the byte order the struct fields of this model are
      written in: with '>' the high byte comes first. */
  lemma PrefixOrder(v: nat, big: bool)
    requires v < 0x1_0000
    ensures Prefix(big) == '>' <==> big
    ensures Prefix(big) == '>' ==> U16(v, big) == [v / 0x100, v % 0x100]
    ensures Prefix(big) == '<' ==> U16(v, big) == [v % 0x100, v / 0x100]
  {
  }
}
