/**
  Packing of samples into the byte formats of ALSA, and unpacking, over interleaved buffers.
  Samples are exact reals here; bytes have values from 0 to 255.
 */
module Pcm {
  import opened Common
  import opened Division

  datatype Format = Le16 | Be16 | Le24 | Be24 | Le32 | Be32

  function Width(f: Format): nat {
    match f
    case Le16 => 2
    case Be16 => 2
    case Le24 => 3
    case Be24 => 3
    case _ => 4
  }

  const M16: int := 0x7fff
  const M24: int := 0x7fffff

  /** The largest sample, to which 1.0 is mapped. */
  function Peak(f: Format): (m: int)
    ensures m > 0
  {
    if f == Le16 || f == Be16 then M16 else M24
  }

  /** Conversion to an integer cuts off the fraction. */
  function Trunc(x: real): int {
    if x >= 0.0 then x.Floor else -((-x).Floor)
  }

  function Clamp(s: real): (r: real)
    ensures -1.0 <= r <= 1.0
  {
    if s > 1.0 then 1.0 else if s < -1.0 then -1.0 else s
  }

  // ------------------------------------------------------------------ one sample

  /** The variable d of the source, a short or an int. */
  function Word(f: Format, s: real): int {
    if f == Le16 || f == Be16 then
      if s > 1.0 then 0x7fff else if s < -1.0 then 0x8001 else Trunc(M16 as real * s)
    else
      if s > 1.0 then 0x007fffff else if s < -1.0 then 0x00800001 else Trunc(M24 as real * s)
  }

  /** The byte of an integer after a shift to the right, which keeps the sign. */
  function ByteAt(d: int, shift: int): Byte
    requires shift > 0
  {
    d / shift % 256
  }

  /** The bytes that play_16le to play_32be write for one sample. */
  function Encode(f: Format, s: real): (r: seq<Byte>)
    ensures |r| == Width(f)
  {
    var d := Word(f, s);
    match f
    case Le16 => [ByteAt(d, 1), ByteAt(d, 0x100)]
    case Be16 => [ByteAt(d, 0x100), ByteAt(d, 1)]
    case Le24 => [ByteAt(d, 1), ByteAt(d, 0x100), ByteAt(d, 0x10000)]
    case Be24 => [ByteAt(d, 0x10000), ByteAt(d, 0x100), ByteAt(d, 1)]
    case Le32 => [0, ByteAt(d, 1), ByteAt(d, 0x100), ByteAt(d, 0x10000)]
    case Be32 => [ByteAt(d, 0x10000), ByteAt(d, 0x100), ByteAt(d, 1), 0]
  }

  /** A number of so many bits as a signed one. */
  function Signed(n: int, range: int): int {
    if n >= range / 2 then n - range else n
  }

  /** The variable s of capt_16le to capt_32be. */
  function WordOf(f: Format, b: seq<Byte>): int
    requires |b| == Width(f)
  {
    match f
    case Le16 => Signed(b[0] as int + 0x100 * b[1] as int, 0x1_0000)
    case Be16 => Signed(0x100 * b[0] as int + b[1] as int, 0x1_0000)
    case Le24 => Signed(b[0] as int + 0x100 * b[1] as int + 0x10000 * b[2] as int, 0x100_0000)
    case Be24 => Signed(0x10000 * b[0] as int + 0x100 * b[1] as int + b[2] as int, 0x100_0000)
    case Le32 => Signed(0x100 * b[1] as int + 0x10000 * b[2] as int + 0x1000000 * b[3] as int, 0x1_0000_0000)
    case Be32 => Signed(0x1000000 * b[0] as int + 0x10000 * b[1] as int + 0x100 * b[2] as int, 0x1_0000_0000)
  }

  function Divisor(f: Format): (m: int)
    ensures m > 0
  {
    match f
    case Le16 => 0x7fff
    case Be16 => 0x7fff
    case Le24 => 0x7fffff
    case Be24 => 0x7fffff
    case _ => 0x7fffff00
  }

  function Decode(f: Format, b: seq<Byte>): real
    requires |b| == Width(f)
  {
    WordOf(f, b) as real / Divisor(f) as real
  }

  // ------------------------------------------------------------------ the round trip

  /** The number a sample is rounded to. */
  function Level(f: Format, s: real): int {
    Trunc(Peak(f) as real * Clamp(s))
  }

  lemma TruncBounds(x: real)
    ensures -1.0 < Trunc(x) as real - x < 1.0
    ensures x >= 0.0 ==> 0.0 <= Trunc(x) as real <= x
    ensures x <= 0.0 ==> x <= Trunc(x) as real <= 0.0
  {
  }

  lemma TruncOfInt(n: int)
    ensures Trunc(n as real) == n
  {
  }

  lemma LevelBounds(f: Format, s: real)
    ensures -Peak(f) <= Level(f, s) <= Peak(f)
  {
    TruncBounds(Peak(f) as real * Clamp(s));
  }

  /** How many values the bytes of a format can tell apart. */
  function Range(f: Format): int {
    if f == Le16 || f == Be16 then 0x1_0000 else 0x100_0000
  }

  /** Modulo that range the word is the level, for the constants of the clipped samples too. */
  lemma WordIsLevel(f: Format, s: real)
    ensures (Word(f, s) - Level(f, s)) % Range(f) == 0
  {
    TruncOfInt(Peak(f));
    TruncOfInt(-Peak(f));
  }

  lemma SignedAgain(d: int, v: int, range: int)
    requires (range == 0x1_0000 || range == 0x100_0000)
    requires (d - v) % range == 0 && -(range / 2) < v < range / 2
    ensures Signed(d % range, range) == v
  {
  }

  lemma TwoBytes(d: int)
    ensures ByteAt(d, 1) as int + 0x100 * ByteAt(d, 0x100) as int == d % 0x1_0000
  {
  }

  lemma ThreeBytes(d: int)
    ensures ByteAt(d, 1) as int + 0x100 * ByteAt(d, 0x100) as int + 0x10000 * ByteAt(d, 0x10000) as int
         == d % 0x100_0000
  {
    var a, x := d / 0x100, d % 0x100;
    var b, y := a / 0x100, a % 0x100;
    var c, z := b / 0x100, b % 0x100;
    assert d == 0x100 * a + x && a == 0x100 * b + y && b == 0x100 * c + z;
    QuotientUnique(d, b, 0x100 * y + x, 0x10000);
    QuotientUnique(d, c, 0x10000 * z + 0x100 * y + x, 0x100_0000);
  }

  /** The 32-bit formats carry the word in their upper three bytes. */
  lemma WordReads(f: Format, s: real)
    ensures WordOf(f, Encode(f, s)) == Level(f, s) * (if f == Le32 || f == Be32 then 0x100 else 1)
  {
    var d, v := Word(f, s), Level(f, s);
    hide ByteAt, Word, Level;
    WordIsLevel(f, s);
    LevelBounds(f, s);
    SignedAgain(d, v, Range(f));
    if f == Le16 || f == Be16 {
      TwoBytes(d);
    } else {
      ThreeBytes(d);
    }
  }

  /** Capturing what was played gives the level, scaled back. */
  lemma RoundTrip(f: Format, s: real)
    ensures Decode(f, Encode(f, s)) == Level(f, s) as real / Peak(f) as real
  {
    hide Encode, WordOf, Level;
    WordReads(f, s);
  }

  lemma Scaled(v: int, x: real, m: int)
    requires m == M16 || m == M24
    requires -1.0 < v as real - m as real * x < 1.0 && -m <= v <= m
    ensures -1.0 / m as real < v as real / m as real - x < 1.0 / m as real
    ensures -1.0 <= v as real / m as real <= 1.0
  {
    if m == M16 {
    } else {
    }
  }

  /** The error of a sample that is not clipped is less than one level, and nothing leaves the
      range from -1 to 1. */
  lemma RoundTripError(f: Format, s: real)
    ensures -1.0 <= Decode(f, Encode(f, s)) <= 1.0
    ensures -1.0 <= s <= 1.0 ==>
      -1.0 / Peak(f) as real < Decode(f, Encode(f, s)) - s < 1.0 / Peak(f) as real
  {
    hide Decode, Encode, Trunc;
    RoundTrip(f, s);
    LevelBounds(f, s);
    TruncBounds(Peak(f) as real * Clamp(s));
    Scaled(Level(f, s), Clamp(s), Peak(f));
  }

  /** A level that is scaled back and scaled again is the same. */
  lemma LevelAgain(f: Format, v: int)
    requires -Peak(f) <= v <= Peak(f)
    ensures Level(f, v as real / Peak(f) as real) == v
  {
    var m, r := Peak(f), v as real / Peak(f) as real;
    assert m == M16 || m == M24;
    assert -1.0 <= r <= 1.0 && m as real * r == v as real by {
      if m == M16 {
      } else {
      }
    }
    TruncOfInt(v);
  }

  /** Playing a captured signal again gives the same bytes. */
  lemma Idempotent(f: Format, s: real)
    ensures Encode(f, Decode(f, Encode(f, s))) == Encode(f, s)
  {
    hide Decode, Encode, Level, Word;
    var r := Decode(f, Encode(f, s));
    RoundTrip(f, s);
    LevelBounds(f, s);
    LevelAgain(f, Level(f, s));
    WordIsLevel(f, s);
    WordIsLevel(f, r);
    BytesDepend(f, s, r);
  }

  /** The bytes are those of the word modulo the range. */
  lemma BytesDepend(f: Format, s: real, r: real)
    requires (Word(f, s) - Word(f, r)) % Range(f) == 0
    ensures Encode(f, s) == Encode(f, r)
  {
    hide Word, ByteAt;
    SameBytes(Word(f, s), Word(f, r), Range(f));
  }

  lemma SameBytes(a: int, b: int, range: int)
    requires (range == 0x1_0000 || range == 0x100_0000) && (a - b) % range == 0
    ensures ByteAt(a, 1) == ByteAt(b, 1) && ByteAt(a, 0x100) == ByteAt(b, 0x100)
    ensures range == 0x100_0000 ==> ByteAt(a, 0x10000) == ByteAt(b, 0x10000)
  {
    hide ByteAt;
    var k := (a - b) / range;
    if range == 0x1_0000 {
      SameByte(a, b, k * 0x100, 1);
      SameByte(a, b, k, 0x100);
    } else {
      SameByte(a, b, k * 0x1_0000, 1);
      SameByte(a, b, k * 0x100, 0x100);
      SameByte(a, b, k, 0x1_0000);
    }
  }

  lemma SameByte(a: int, b: int, k: int, shift: int)
    requires shift == 1 || shift == 0x100 || shift == 0x1_0000
    requires a == b + k * 0x100 * shift
    ensures ByteAt(a, shift) == ByteAt(b, shift)
  {
    assert a / shift == b / shift + k * 0x100 by {
      if shift == 1 {
      } else if shift == 0x100 {
      } else {
      }
    }
  }

  function Reversed(s: seq<Byte>): seq<Byte> {
    if s == [] then [] else Reversed(s[1..]) + [s[0]]
  }

  lemma ReversedCons(a: Byte, s: seq<Byte>)
    ensures Reversed([a] + s) == Reversed(s) + [a]
  {
    assert ([a] + s)[1..] == s;
  }

  lemma ReversedBytes(a: Byte, b: Byte, c: Byte, d: Byte)
    ensures Reversed([a, b]) == [b, a] && Reversed([a, b, c]) == [c, b, a] && Reversed([a, b, c, d]) == [d, c, b, a]
  {
    ReversedCons(a, [b]);
    ReversedCons(a, [b, c]);
    ReversedCons(a, [b, c, d]);
    ReversedCons(b, [c]);
    ReversedCons(b, [c, d]);
    ReversedCons(c, [d]);
    ReversedCons(b, []);
    ReversedCons(c, []);
    ReversedCons(d, []);
  }

  /** The two byte orders of a format mirror each other, and 32 bits hold the same 24. */
  lemma Orders(s: real)
    ensures Encode(Be16, s) == Reversed(Encode(Le16, s))
    ensures Encode(Be24, s) == Reversed(Encode(Le24, s))
    ensures Encode(Be32, s) == Reversed(Encode(Le32, s))
    ensures Encode(Le32, s) == [0] + Encode(Le24, s) && Encode(Be32, s) == Encode(Be24, s) + [0]
  {
    var d, e := Word(Le16, s), Word(Le24, s);
    assert Word(Be16, s) == d && Word(Be24, s) == Word(Le32, s) == Word(Be32, s) == e;
    hide Word, ByteAt, Reversed;
    ReversedBytes(ByteAt(d, 1), ByteAt(d, 0x100), 0, 0);
    ReversedBytes(ByteAt(e, 1), ByteAt(e, 0x100), ByteAt(e, 0x10000), 0);
    ReversedBytes(0, ByteAt(e, 1), ByteAt(e, 0x100), ByteAt(e, 0x10000));
  }

  /** In little endian order the bytes are the level as a signed number, lowest byte first. */
  lemma BytesHoldLevel(s: real)
    ensures var b := Encode(Le16, s);
            (b[0] as int + 0x100 * b[1] as int - Level(Le16, s)) % 0x1_0000 == 0
    ensures var b := Encode(Le24, s);
            (b[0] as int + 0x100 * b[1] as int + 0x10000 * b[2] as int - Level(Le24, s)) % 0x100_0000 == 0
  {
    var d, e := Word(Le16, s), Word(Le24, s);
    WordIsLevel(Le16, s);
    WordIsLevel(Le24, s);
    TwoBytes(d);
    ThreeBytes(e);
    hide Word, Level, ByteAt;
  }

  /** The level is the sample times the largest level, cut off towards zero; samples beyond 1 and
      -1 get the largest level and its opposite. */
  lemma LevelIs(f: Format, s: real)
    ensures var m, v := if f == Le16 || f == Be16 then 0x7fff else 0x7f_ffff, Level(f, s);
            && (0.0 <= s <= 1.0 ==> v as real <= m as real * s < v as real + 1.0)
            && (-1.0 <= s <= 0.0 ==> v as real - 1.0 < m as real * s <= v as real)
            && (s >= 1.0 ==> v == m) && (s <= -1.0 ==> v == -m)
  {
    TruncBounds(Peak(f) as real * Clamp(s));
    TruncOfInt(Peak(f));
    TruncOfInt(-Peak(f));
    assert s >= 1.0 ==> Clamp(s) == 1.0;
    assert s <= -1.0 ==> Clamp(s) == -1.0;
  }
}
