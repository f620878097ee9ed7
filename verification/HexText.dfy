/**
 What a binary dump must look like (src/dump.cpp): two hexadecimal digits per byte, joined by single spaces.
 Characters are ASCII codes.
 */
module HexText {
  type Byte = b: int | 0 <= b < 256
  type Code = nat

  const SPACE: Code := 0x20

  /** The digit characters of `g_hex_char_table`. */
  function Digit(upper: bool, n: nat): (c: Code)
    requires n < 16
    ensures 0x30 <= c < 0x80
  {
    if n < 10 then 0x30 + n else if upper then 0x41 + (n - 10) else 0x61 + (n - 10)
  }

  /** The digits are those of the two character tables. */
  lemma DigitIsInTable(upper: bool, n: nat)
    requires n < 16
    ensures Digit(upper, n) == (if upper then "0123456789ABCDEF" else "0123456789abcdef")[n] as int
  {
  }

  /** The two digits of a byte. */
  function Hex(upper: bool, b: Byte): (s: seq<Code>)
  {
    [Digit(upper, b / 16), Digit(upper, b % 16)]
  }

  /** The dump: the digits of each byte, joined by single spaces. */
  function Joined(upper: bool, data: seq<Byte>): (s: seq<Code>)
  {
    if data == [] then []
    else if |data| == 1 then Hex(upper, data[0])
    else Hex(upper, data[0]) + [SPACE] + Joined(upper, data[1..])
  }

  /** The form the buffers hold: a space in front of every byte. */
  function Spaced(upper: bool, data: seq<Byte>): (s: seq<Code>)
    ensures |s| == 3 * |data|
  {
    if data == [] then [] else [SPACE] + Hex(upper, data[0]) + Spaced(upper, data[1..])
  }

  lemma {:induction false} SpacedAt(upper: bool, data: seq<Byte>, i: nat)
    requires i < |data|
    ensures Spaced(upper, data)[3 * i] == SPACE
    ensures Spaced(upper, data)[3 * i + 1] == Digit(upper, data[i] / 16)
    ensures Spaced(upper, data)[3 * i + 2] == Digit(upper, data[i] % 16)
    decreases i
  {
    if i != 0 {
      SpacedAt(upper, data[1..], i - 1);
      assert Spaced(upper, data) == ([SPACE] + Hex(upper, data[0])) + Spaced(upper, data[1..]);
    }
  }

  lemma {:induction false} SpacedAppends(upper: bool, a: seq<Byte>, b: seq<Byte>)
    ensures Spaced(upper, a + b) == Spaced(upper, a) + Spaced(upper, b)
    decreases |a|
  {
    if a == [] {
      assert a + b == b;
    } else {
      SpacedAppends(upper, a[1..], b);
      assert (a + b)[1..] == a[1..] + b;
    }
  }

  /** Leaving out the first space of the buffer form gives the dump. */
  lemma {:induction false} SpacedIsJoined(upper: bool, data: seq<Byte>)
    requires data != []
    ensures Spaced(upper, data)[1..] == Joined(upper, data)
    decreases |data|
  {
    var rest := data[1..];
    assert Spaced(upper, data)[1..] == Hex(upper, data[0]) + Spaced(upper, rest);
    if |data| == 1 {
      assert Spaced(upper, rest) == [];
    } else {
      SpacedIsJoined(upper, rest);
      assert Spaced(upper, rest)[0] == SPACE;
      hide Spaced, Hex;
      assert Spaced(upper, rest) == [SPACE] + Spaced(upper, rest)[1..];
    }
  }

  /** The dump, character by character: two digits from the table for each byte and a space between bytes. */
  lemma JoinedAt(upper: bool, data: seq<Byte>, i: nat)
    requires i < |data|
    ensures |Joined(upper, data)| == 3 * |data| - 1
    ensures var s, table := Joined(upper, data), if upper then "0123456789ABCDEF" else "0123456789abcdef";
      && s[3 * i] == table[data[i] / 16] as int && s[3 * i + 1] == table[data[i] % 16] as int
      && (i + 1 < |data| ==> s[3 * i + 2] == ' ' as int)
  {
    hide Joined, Spaced, Digit;
    JoinedLength(upper, data);
    SpacedIsJoined(upper, data);
    SpacedAt(upper, data, i);
    DigitIsInTable(upper, data[i] / 16);
    DigitIsInTable(upper, data[i] % 16);
    var s := Spaced(upper, data);
    assert s[1..][3 * i] == s[3 * i + 1] && s[1..][3 * i + 1] == s[3 * i + 2];
    if i + 1 < |data| {
      SpacedAt(upper, data, i + 1);
      assert s[1..][3 * i + 2] == s[3 * (i + 1)];
    }
  }

  /** The dump loses nothing: different data give different texts. */
  lemma DumpDeterminesData(upper: bool, a: seq<Byte>, b: seq<Byte>)
    requires Joined(upper, a) == Joined(upper, b)
    ensures a == b
  {
    hide Joined, Spaced;
    JoinedLength(upper, a);
    JoinedLength(upper, b);
    if a != [] {
      SpacedIsJoined(upper, a);
      SpacedIsJoined(upper, b);
      forall i | 0 <= i < |a|
        ensures a[i] == b[i]
      {
        SpacedAt(upper, a, i);
        SpacedAt(upper, b, i);
        assert forall k :: 1 <= k < 3 * |a| ==> Spaced(upper, a)[k] == Spaced(upper, a)[1..][k - 1];
        assert a[i] / 16 == b[i] / 16 && a[i] % 16 == b[i] % 16;
      }
    }
  }

  lemma JoinedLength(upper: bool, data: seq<Byte>)
    ensures |Joined(upper, data)| == if data == [] then 0 else 3 * |data| - 1
  {
    if data != [] {
      SpacedIsJoined(upper, data);
    }
  }

  /** The text written once the first `p` bytes are dumped. */
  function Text(upper: bool, data: seq<Byte>, p: nat): (s: seq<Code>)
    requires p <= |data|
  {
    if p == 0 then [] else Spaced(upper, data[..p])[1..]
  }

  /** Where the next write starts in the buffer: the very first one skips the leading space. */
  function Skip(p: nat): (n: nat)
  {
    if p == 0 then 1 else 0
  }

  /** Writing the buffer form of bytes `p .. q-1` carries the text on. */
  lemma TextGrows(upper: bool, data: seq<Byte>, p: nat, q: nat)
    requires p < q <= |data|
    ensures Text(upper, data, q) == Text(upper, data, p) + Spaced(upper, data[p..q])[Skip(p)..]
  {
    assert data[..q] == data[..p] + data[p..q];
    SpacedAppends(upper, data[..p], data[p..q]);
  }

  lemma TextIsDump(upper: bool, data: seq<Byte>)
    ensures Text(upper, data, |data|) == Joined(upper, data)
  {
    assert data[..|data|] == data;
    if data != [] {
      SpacedIsJoined(upper, data);
    }
  }
}
