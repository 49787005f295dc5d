/** How long a text is in bytes, encoded in UTF-8. */
module Utf8 {

  function Width(c: char): (n: nat)
    ensures 1 <= n <= 4
  {
    if c < '\U{80}' then 1
    else if c < '\U{800}' then 2
    else if c < '\U{10000}' then 3
    else 4
  }

  function ByteLength(s: string): (n: nat)
    ensures |s| <= n <= 4 * |s|
  {
    if s == "" then 0 else Width(s[0]) + ByteLength(s[1..])
  }

  /** The bits of a code point that an encoding of so many bytes holds. */
  function Bits(bytes: nat): nat
  {
    if bytes == 1 then 7 else if bytes == 2 then 11 else if bytes == 3 then 16 else 21
  }

  function TwoTo(n: nat): nat
  {
    if n == 0 then 1 else 2 * TwoTo(n - 1)
  }

  /** A character takes as few bytes as hold its code point. */
  lemma WidthHolds(c: char)
    ensures (c as int) < TwoTo(Bits(Width(c)))
    ensures forall n | 1 <= n < Width(c) :: (c as int) >= TwoTo(Bits(n))
  {
    assert TwoTo(7) == 0x80 && TwoTo(11) == 0x800 && TwoTo(16) == 0x1_0000 && TwoTo(21) == 0x20_0000;
  }

  /** A text takes the bytes of its characters. */
  lemma {:induction false} LengthAdds(a: string, b: string)
    ensures ByteLength(a + b) == ByteLength(a) + ByteLength(b)
    ensures ByteLength("") == 0 && (|a| == 1 ==> ByteLength(a) == Width(a[0]))
  {
    if a == "" {
      assert a + b == b;
    } else {
      LengthAdds(a[1..], b);
      assert (a + b)[1..] == a[1..] + b;
    }
  }
}
