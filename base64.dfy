/**
 * Base64 as defined in section 4 of RFC 4648: the standard alphabet
 * `A-Z a-z 0-9 + /`, every 3 octets become 4 characters, and a final group of
 * one or two octets is completed with `=` padding (what Node's
 * `buf.toString('base64')` produces).
 */
module Base64 {
  import opened Wrappers
  import opened Bytes

  /** The value of one Base64 character. */
  type Sextet = x: nat | x < 64

  /** The character that stands for `i` (table 1 of RFC 4648). */
  function CharOf(i: Sextet): (c: char)
    ensures c as int < 0x80 && c != '='
  {
    if i < 26 then ('A' as int + i) as char
    else if i < 52 then ('a' as int + i - 26) as char
    else if i < 62 then ('0' as int + i - 52) as char
    else if i == 62 then '+'
    else '/'
  }

  /** The value a character stands for, if it is in the alphabet. */
  function IndexOf(c: char): (r: Option<Sextet>)
    ensures r.Some? ==> CharOf(r.value) == c
  {
    if 'A' <= c <= 'Z' then Some(c as int - 'A' as int)
    else if 'a' <= c <= 'z' then Some(c as int - 'a' as int + 26)
    else if '0' <= c <= '9' then Some(c as int - '0' as int + 52)
    else if c == '+' then Some(62)
    else if c == '/' then Some(63)
    else None
  }

  /** Every value has exactly one character, and reading it back gives the value. */
  lemma IndexOfCharOf(i: Sextet)
    ensures IndexOf(CharOf(i)) == Some(i)
  {
  }

  predicate IsEncodingChar(c: char) {
    IndexOf(c).Some? || c == '='
  }

  /** Three octets, 24 bits, as four 6-bit characters, most significant first. */
  function EncodeGroup(b0: byte, b1: byte, b2: byte): string {
    [CharOf(b0 / 4), CharOf(b0 % 4 * 16 + b1 / 16), CharOf(b1 % 16 * 4 + b2 / 64), CharOf(b2 % 64)]
  }

  function Encode(bs: seq<byte>): (s: string)
    ensures |s| == (|bs| + 2) / 3 * 4
    ensures forall i :: 0 <= i < |s| ==> IsEncodingChar(s[i]) && s[i] as int < 0x80
    decreases |bs|
  {
    if |bs| == 0 then
      []
    else if |bs| == 1 then
      [CharOf(bs[0] / 4), CharOf(bs[0] % 4 * 16), '=', '=']
    else if |bs| == 2 then
      [CharOf(bs[0] / 4), CharOf(bs[0] % 4 * 16 + bs[1] / 16), CharOf(bs[1] % 16 * 4), '=']
    else
      assert (|bs| - 3 + 2) / 3 + 1 == (|bs| + 2) / 3;
      EncodeGroup(bs[0], bs[1], bs[2]) + Encode(bs[3..])
  }

  /** The octets that a run of 6-bit values spells, by their position in the 24-bit group. */
  function Octet0(i0: Sextet, i1: Sextet): byte { i0 as int * 4 + i1 as int / 16 }
  function Octet1(i1: Sextet, i2: Sextet): byte { i1 as int % 16 * 16 + i2 as int / 4 }
  function Octet2(i2: Sextet, i3: Sextet): byte { i2 as int % 4 * 64 + i3 as int }

  lemma Octet0Of(b0: byte, low: nat)
    requires low < 16
    ensures Octet0(b0 / 4, b0 % 4 * 16 + low) == b0
  {
    var x := b0 % 4 * 16 + low;
    assert x / 16 == b0 % 4;
  }

  lemma Octet1Of(b1: byte, high: nat, low: nat)
    requires high < 4 && low < 4
    ensures Octet1(high * 16 + b1 / 16, b1 % 16 * 4 + low) == b1
  {
    var x, y := high * 16 + b1 / 16, b1 % 16 * 4 + low;
    assert x % 16 == b1 / 16;
    assert y / 4 == b1 % 16;
  }

  lemma Octet2Of(b2: byte, high: nat)
    requires high < 16
    ensures Octet2(high * 4 + b2 / 64, b2 % 64) == b2
  {
    var x := high * 4 + b2 / 64;
    assert x % 4 == b2 / 64;
  }

  /** Four characters without padding back to three octets. */
  function DecodeGroup(q: string): Option<seq<byte>>
    requires |q| == 4
  {
    match (IndexOf(q[0]), IndexOf(q[1]), IndexOf(q[2]), IndexOf(q[3]))
    case (Some(i0), Some(i1), Some(i2), Some(i3)) =>
      Some([Octet0(i0, i1), Octet1(i1, i2), Octet2(i2, i3)])
    case _ => None
  }

  /** The last group, which may carry one or two `=` of padding. */
  function DecodeLastGroup(q: string): Option<seq<byte>>
    requires |q| == 4
  {
    if q[2] == '=' && q[3] == '=' then
      match (IndexOf(q[0]), IndexOf(q[1]))
      case (Some(i0), Some(i1)) => Some([Octet0(i0, i1)])
      case _ => None
    else if q[3] == '=' then
      match (IndexOf(q[0]), IndexOf(q[1]), IndexOf(q[2]))
      case (Some(i0), Some(i1), Some(i2)) => Some([Octet0(i0, i1), Octet1(i1, i2)])
      case _ => None
    else
      DecodeGroup(q)
  }

  /** Refuses text whose length is not a multiple of 4, characters outside the alphabet, and misplaced padding. */
  function Decode(s: string): Option<seq<byte>>
    decreases |s|
  {
    if |s| == 0 then Some([])
    else if |s| < 4 then None
    else if |s| == 4 then DecodeLastGroup(s)
    else
      match DecodeGroup(s[..4])
      case None => None
      case Some(group) =>
        match Decode(s[4..])
        case None => None
        case Some(rest) => Some(group + rest)
  }

  lemma DecodeEncodeGroup(b0: byte, b1: byte, b2: byte)
    ensures DecodeGroup(EncodeGroup(b0, b1, b2)) == Some([b0, b1, b2])
  {
    IndexOfCharOf(b0 / 4);
    IndexOfCharOf(b0 % 4 * 16 + b1 / 16);
    IndexOfCharOf(b1 % 16 * 4 + b2 / 64);
    IndexOfCharOf(b2 % 64);
    Octet0Of(b0, b1 / 16);
    Octet1Of(b1, b0 % 4, b2 / 64);
    Octet2Of(b2, b1 % 16);
  }

  lemma DecodeEncodeOne(b0: byte)
    ensures Decode(Encode([b0])) == Some([b0])
  {
    IndexOfCharOf(b0 / 4);
    IndexOfCharOf(b0 % 4 * 16);
    Octet0Of(b0, 0);
  }

  lemma DecodeEncodeTwo(b0: byte, b1: byte)
    ensures Decode(Encode([b0, b1])) == Some([b0, b1])
  {
    var i0, i1, i2 := b0 / 4, b0 % 4 * 16 + b1 / 16, b1 % 16 * 4;
    var q := [CharOf(i0), CharOf(i1), CharOf(i2), '='];
    assert Encode([b0, b1]) == q;
    IndexOfCharOf(i0);
    IndexOfCharOf(i1);
    IndexOfCharOf(i2);
    Octet0Of(b0, b1 / 16);
    Octet1Of(b1, b0 % 4, 0);
    assert DecodeLastGroup(q) == Some([Octet0(i0, i1), Octet1(i1, i2)]);
  }

  /** A full group in front of more encoded text decodes group by group. */
  lemma DecodeGroupThenRest(head: string, tail: string, group: seq<byte>, rest: seq<byte>)
    requires |head| == 4 && |tail| >= 4
    requires DecodeGroup(head) == Some(group) && Decode(tail) == Some(rest)
    ensures Decode(head + tail) == Some(group + rest)
  {
    assert (head + tail)[..4] == head && (head + tail)[4..] == tail;
  }

  /** Decoding an encoding gives back the octets. */
  lemma {:induction false} DecodeEncode(bs: seq<byte>)
    ensures Decode(Encode(bs)) == Some(bs)
    decreases |bs|
  {
    if |bs| == 1 {
      assert bs == [bs[0]];
      DecodeEncodeOne(bs[0]);
    } else if |bs| == 2 {
      assert bs == [bs[0], bs[1]];
      DecodeEncodeTwo(bs[0], bs[1]);
    } else if |bs| >= 3 {
      var head, tail := EncodeGroup(bs[0], bs[1], bs[2]), Encode(bs[3..]);
      assert Encode(bs) == head + tail;
      DecodeEncodeGroup(bs[0], bs[1], bs[2]);
      assert [bs[0], bs[1], bs[2]] + bs[3..] == bs;
      if |bs| == 3 {
        assert bs[3..] == [] && tail == [];
        assert head + tail == head;
        assert head[2] != '=' && head[3] != '=';
        assert Decode(head) == DecodeLastGroup(head) == DecodeGroup(head);
        assert bs == [bs[0], bs[1], bs[2]];
      } else {
        assert |tail| >= 4;
        DecodeEncode(bs[3..]);
        DecodeGroupThenRest(head, tail, [bs[0], bs[1], bs[2]], bs[3..]);
      }
    }
  }
}
