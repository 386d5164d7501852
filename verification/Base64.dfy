/** The base64 codec (src/Utils.h:18-58), following section 4 of RFC 4648.  The decoder's
    accumulator is never masked: it wraps around at 32 bits. */
module Base64 {
  import opened Arithmetic

  type Byte = x: int | 0 <= x < 256

  const WORD := 0x1_0000_0000

  /** The alphabet of table 1 of RFC 4648. */
  function Letter(v: nat): char
    requires v < 64
  {
    if v < 26 then ('A' as int + v) as char
    else if v < 52 then ('a' as int + (v - 26)) as char
    else if v < 62 then ('0' as int + (v - 52)) as char
    else if v == 62 then '+'
    else '/'
  }

  /** The decoding table; a character outside the alphabet counts as 0. */
  function ValueOf(c: char): (v: nat)
    ensures v < 64
  {
    if 'A' <= c <= 'Z' then c as int - 'A' as int
    else if 'a' <= c <= 'z' then c as int - 'a' as int + 26
    else if '0' <= c <= '9' then c as int - '0' as int + 52
    else if c == '+' then 62
    else if c == '/' then 63
    else 0
  }

  predicate Skipped(c: char) { c == '=' || c == '\n' || c == '\r' }

  lemma LetterValue(v: nat)
    requires v < 64
    ensures ValueOf(Letter(v)) == v && !Skipped(Letter(v))
  {
  }

  // ---------------------------------------------------------------- encode

  function At(data: seq<Byte>, i: nat): Byte { if i < |data| then data[i] else 0 }

  /** Three bytes in one number. */
  function Packed(x: int, y: int, z: int): int { x * 0x1_0000 + y * 0x100 + z }

  /** The four characters for the three bytes from `i` on; missing bytes are padded. */
  function Group(data: seq<Byte>, i: nat): (r: string)
    requires i < |data|
    ensures |r| == 4
  {
    var n := Packed(At(data, i), At(data, i + 1), At(data, i + 2));
    [Letter(n / 0x4_0000 % 64), Letter(n / 0x1000 % 64),
     if i + 1 < |data| then Letter(n / 64 % 64) else '=',
     if i + 2 < |data| then Letter(n % 64) else '=']
  }

  function Groups(data: seq<Byte>, g: nat): (r: string)
    requires g <= (|data| + 2) / 3
    ensures |r| == 4 * g
  {
    if g == 0 then [] else Groups(data, g - 1) + Group(data, 3 * (g - 1))
  }

  function Encoded(data: seq<Byte>): string { Groups(data, (|data| + 2) / 3) }

  lemma GroupsLast(data: seq<Byte>, g: nat)
    requires 0 < g <= (|data| + 2) / 3
    ensures 3 * (g - 1) < |data| && Groups(data, g) == Groups(data, g - 1) + Group(data, 3 * (g - 1))
  {
    hide Group;
  }

  method Encode(data: seq<Byte>) returns (out: string)
    ensures out == Encoded(data)
  {
    hide Groups, Group;
    out := [];
    var i := 0;
    ghost var g := 0;
    NoGroups(data);
    while i < |data|
      invariant i == 3 * g && g <= (|data| + 2) / 3 && out == Groups(data, g)
      decreases |data| - i
    {
      var four := EncodeGroup(data, i);
      out := out + four;
      i := i + 3;
      g := g + 1;
      GroupsLast(data, g);
    }
  }

  method EncodeGroup(data: seq<Byte>, i: nat) returns (four: string)
    requires i < |data|
    ensures four == Group(data, i)
  {
    hide Letter;
    var n: int := data[i] as int * 0x1_0000;
    if i + 1 < |data| { n := n + data[i + 1] as int * 0x100; }
    if i + 2 < |data| { n := n + data[i + 2] as int; }
    assert n == Packed(At(data, i), At(data, i + 1), At(data, i + 2));
    var third := if i + 1 < |data| then Letter(n / 64 % 64) else '=';
    var fourth := if i + 2 < |data| then Letter(n % 64) else '=';
    four := [Letter(n / 0x4_0000 % 64), Letter(n / 0x1000 % 64), third, fourth];
  }

  // ---------------------------------------------------------------- decode

  datatype Progress = Progress(accum: nat, bits: nat, out: seq<Byte>)

  /** Shift six bits in, at 32 bits, and take a byte out when there is one. */
  function Step(p: Progress, c: char): Progress {
    if Skipped(c) then p
    else
      var accum := p.accum * 64 % WORD + ValueOf(c);
      var bits := p.bits + 6;
      if bits < 8 then Progress(accum, bits, p.out)
      else Progress(accum, bits - 8, p.out + [TakeByte(accum, bits - 8)])
  }

  function TakeByte(accum: nat, bits: nat): Byte { accum / Power(bits) % 256 }

  function Power(n: nat): (r: nat)
    ensures r > 0
  {
    if n == 0 then 1 else 2 * Power(n - 1)
  }

  function Fold(s: string): Progress {
    if s == [] then Progress(0, 0, []) else Step(Fold(s[..|s| - 1]), s[|s| - 1])
  }

  function Decoded(s: string): seq<Byte> { Fold(s).out }

  method Decode(input: string) returns (out: seq<Byte>)
    ensures out == Decoded(input)
  {
    out := [];
    var accum: nat, bits: nat := 0, 0;
    for k := 0 to |input|
      invariant Progress(accum, bits, out) == Fold(input[..k])
    {
      assert input[..k + 1][..k] == input[..k];
      var c := input[k];
      if c == '=' || c == '\n' || c == '\r' { continue; }
      accum := accum * 64 % WORD + ValueOf(c);
      bits := bits + 6;
      if bits >= 8 {
        bits := bits - 8;
        out := out + [accum / Power(bits) % 256];
      }
    }
    assert input[..|input|] == input;
  }

  // ---------------------------------------------------------------- round trip

  /** The low twelve bits forget whatever the accumulator held above six. */
  lemma LowBits(accum: nat, v: nat)
    requires v < 64
    ensures (accum * 64 % WORD + v) % 4096 == accum % 64 * 64 + v
    ensures (accum * 64 % WORD + v) % 64 == v
  {
    var next, q, low := accum * 64 % WORD + v, accum * 64 / WORD, accum % 64 * 64 + v;
    assert accum * 64 == q * WORD + accum * 64 % WORD;
    assert accum == accum / 64 * 64 + accum % 64;
    QuotientUnique(next, accum / 64 - q * 0x10_0000, low, 4096);
    QuotientUnique(next, accum - q * 0x400_0000, v, 64);
  }

  lemma ByteAt(accum: nat)
    ensures TakeByte(accum, 4) == accum % 4096 / 16
    ensures TakeByte(accum, 2) == accum % 4096 % 1024 / 4
    ensures TakeByte(accum, 0) == accum % 4096 % 256
  {
    assert Power(1) == 2 && Power(2) == 4 && Power(3) == 8 && Power(4) == 16;
    var k, r := accum / 4096, accum % 4096;
    assert accum == 4096 * k + r;
    QuotientUnique(accum, 256 * k + r / 16, r % 16, 16);
    QuotientUnique(256 * k + r / 16, k, r / 16, 256);
    var j, s := r / 1024, r % 1024;
    QuotientUnique(accum, 256 * (4 * k + j) + s / 4, s % 4, 4);
    QuotientUnique(256 * (4 * k + j) + s / 4, 4 * k + j, s / 4, 256);
    QuotientUnique(accum, 16 * k + r / 256, r % 256, 256);
  }

  /** From a byte boundary two characters give a byte and leave four bits. */
  lemma TwoLetters(p: Progress, a: nat, b: nat)
    requires p.bits == 0 && a < 64 && b < 64
    ensures var q := Step(Step(p, Letter(a)), Letter(b));
      q.bits == 4 && q.out == p.out + [(a * 64 + b) / 16] && q.accum % 4096 == a * 64 + b
  {
    LetterValue(a);
    LetterValue(b);
    var one := p.accum * 64 % WORD + a;
    LowBits(p.accum, a);
    LowBits(one, b);
    ByteAt(one * 64 % WORD + b);
  }

  lemma ThirdLetter(p: Progress, b: nat, c: nat)
    requires p.bits == 4 && p.accum % 64 == b && c < 64
    ensures var q := Step(p, Letter(c));
      q.bits == 2 && q.out == p.out + [b % 16 * 16 + c / 4] && q.accum % 64 == c
  {
    hide Letter, TakeByte, ValueOf;
    LetterValue(c);
    LowBits(p.accum, c);
    ByteAt(p.accum * 64 % WORD + c);
    MiddleByte(b, c);
  }

  lemma MiddleByte(b: nat, c: nat)
    requires b < 64 && c < 64
    ensures (b * 64 + c) % 1024 / 4 == b % 16 * 16 + c / 4
  {
    QuotientUnique(b * 64 + c, b / 16, b % 16 * 64 + c, 1024);
    QuotientUnique(b % 16 * 64 + c, b % 16 * 16 + c / 4, c % 4, 4);
  }

  lemma FourthLetter(p: Progress, c: nat, d: nat)
    requires p.bits == 2 && p.accum % 64 == c && d < 64
    ensures var q := Step(p, Letter(d));
      q.bits == 0 && q.out == p.out + [c % 4 * 64 + d]
  {
    hide Letter, TakeByte, ValueOf;
    LetterValue(d);
    LowBits(p.accum, d);
    ByteAt(p.accum * 64 % WORD + d);
    QuotientUnique(c * 64 + d, c / 4, c % 4 * 64 + d, 256);
  }

  lemma FoldFour(s: string, t: string)
    requires |t| == 4
    ensures Fold(s + t) == Step(Step(Step(Step(Fold(s), t[0]), t[1]), t[2]), t[3])
  {
    hide Step, Fold;
    FoldOne(s + [t[0], t[1], t[2]], t[3]);
    FoldOne(s + [t[0], t[1]], t[2]);
    FoldOne(s + [t[0]], t[1]);
    FoldOne(s, t[0]);
    assert s + t == (s + [t[0], t[1], t[2]]) + [t[3]];
    assert s + [t[0], t[1], t[2]] == (s + [t[0], t[1]]) + [t[2]];
    assert s + [t[0], t[1]] == (s + [t[0]]) + [t[1]];
  }

  lemma FoldOne(s: string, c: char)
    ensures Fold(s + [c]) == Step(Fold(s), c)
  {
    assert (s + [c])[..|s|] == s;
  }

  lemma Sextets(x: Byte, y: Byte, z: Byte)
    ensures var n := Packed(x, y, z);
      && n / 0x4_0000 % 64 == x / 4 && n / 0x1000 % 64 == x % 4 * 16 + y / 16
      && n / 64 % 64 == y % 16 * 4 + z / 64 && n % 64 == z % 64
  {
    var n := Packed(x, y, z);
    QuotientUnique(n, x / 4, x % 4 * 0x1_0000 + y * 0x100 + z, 0x4_0000);
    QuotientUnique(n, 16 * x + y / 16, y % 16 * 0x100 + z, 0x1000);
    QuotientUnique(16 * x + y / 16, x / 4, x % 4 * 16 + y / 16, 64);
    QuotientUnique(n, 1024 * x + 4 * y + z / 64, z % 64, 64);
    QuotientUnique(1024 * x + 4 * y + z / 64, 16 * x + y / 16, y % 16 * 4 + z / 64, 64);
  }

  /** The sextets of a group carry its bytes. */
  lemma SextetsCarry(x: Byte, y: Byte, z: Byte)
    ensures var n := Packed(x, y, z);
      var a, b, c, d := n / 0x4_0000 % 64, n / 0x1000 % 64, n / 64 % 64, n % 64;
      (a * 64 + b) / 16 == x && b % 16 * 16 + c / 4 == y && c % 4 * 64 + d == z
  {
    hide Packed;
    Sextets(x, y, z);
    QuotientUnique(x / 4 * 64 + (x % 4 * 16 + y / 16), x, y / 16, 16);
    QuotientUnique(x % 4 * 16 + y / 16, x % 4, y / 16, 16);
    QuotientUnique(y % 16 * 4 + z / 64, y % 16, z / 64, 4);
  }

  lemma GroupLetters(data: seq<Byte>, i: nat) returns (a: nat, b: nat, c: nat, d: nat)
    requires i < |data|
    ensures a < 64 && b < 64 && c < 64 && d < 64
    ensures Group(data, i) == [Letter(a), Letter(b), if i + 1 < |data| then Letter(c) else '=', if i + 2 < |data| then Letter(d) else '=']
    ensures (a * 64 + b) / 16 == data[i]
    ensures i + 1 < |data| ==> b % 16 * 16 + c / 4 == data[i + 1]
    ensures i + 2 < |data| ==> c % 4 * 64 + d == data[i + 2]
  {
    hide Letter, Packed;
    var n := Packed(At(data, i), At(data, i + 1), At(data, i + 2));
    a, b, c, d := n / 0x4_0000 % 64, n / 0x1000 % 64, n / 64 % 64, n % 64;
    SextetsCarry(At(data, i), At(data, i + 1), At(data, i + 2));
  }

  lemma GroupDecodes(p: Progress, data: seq<Byte>, i: nat)
    requires p.bits == 0 && i < |data| && p.out == data[..i]
    ensures var t := Group(data, i);
      var q := Step(Step(Step(Step(p, t[0]), t[1]), t[2]), t[3]);
      var end := if i + 3 <= |data| then i + 3 else |data|;
      q.out == data[..end] && (i + 3 <= |data| ==> q.bits == 0)
  {
    hide Step, Letter, Group;
    var a, b, c, d := GroupLetters(data, i);
    TwoLetters(p, a, b);
    var two := Step(Step(p, Letter(a)), Letter(b));
    QuotientUnique(two.accum, two.accum / 4096 * 64 + a, b, 64);
    assert data[..i + 1] == data[..i] + [data[i]];
    PadSkipped(two);
    if i + 1 < |data| {
      ThirdLetter(two, b, c);
      assert data[..i + 2] == data[..i + 1] + [data[i + 1]];
      PadSkipped(Step(two, Letter(c)));
      if i + 2 < |data| {
        FourthLetter(Step(two, Letter(c)), c, d);
        assert data[..i + 3] == data[..i + 2] + [data[i + 2]];
      }
    }
  }

  lemma PadSkipped(p: Progress)
    ensures Step(p, '=') == p
  {
  }

  lemma NoGroups(data: seq<Byte>)
    ensures Groups(data, 0) == [] && Fold([]) == Progress(0, 0, []) && data[..0] == []
  {
  }

  lemma {:induction false} GroupsDecode(data: seq<Byte>, g: nat)
    requires g <= (|data| + 2) / 3
    ensures var p := Fold(Groups(data, g));
      if 3 * g <= |data| then p.bits == 0 && p.out == data[..3 * g] else p.out == data
  {
    hide Step, Group, Groups;
    if g == 0 {
      NoGroups(data);
    } else {
      hide Fold;
      GroupsDecode(data, g - 1);
      GroupsLast(data, g);
      FoldFour(Groups(data, g - 1), Group(data, 3 * (g - 1)));
      GroupDecodes(Fold(Groups(data, g - 1)), data, 3 * (g - 1));
      assert data[..|data|] == data;
    }
  }

  /** Decoding what was encoded gives the bytes back, for every length. */
  lemma RoundTrip(data: seq<Byte>)
    ensures Decoded(Encoded(data)) == data
  {
    GroupsDecode(data, (|data| + 2) / 3);
    assert data[..|data|] == data;
  }

  /** The text without padding and line breaks. */
  function Stripped(s: string): string {
    if s == [] then []
    else Stripped(s[..|s| - 1]) + if s[|s| - 1] in {'=', '\n', '\r'} then [] else [s[|s| - 1]]
  }

  lemma SkippedStep(p: Progress, c: char)
    requires Skipped(c)
    ensures Step(p, c) == p
  {
  }

  /** Padding and line breaks, wherever they stand, do not matter to the decoder. */
  lemma {:induction false} DecodeIgnoresBreaks(s: string)
    ensures Fold(s) == Fold(Stripped(s))
  {
    hide Step;
    if s != [] {
      var t, c := s[..|s| - 1], s[|s| - 1];
      DecodeIgnoresBreaks(t);
      if Skipped(c) {
        SkippedStep(Fold(t), c);
        assert Stripped(s) == Stripped(t);
      } else {
        FoldOne(Stripped(t), c);
      }
    }
  }

  /** Text that is an encoding but for padding and line breaks decodes to the bytes. */
  lemma WrappedRoundTrip(data: seq<Byte>, text: string)
    requires Stripped(text) == Stripped(Encoded(data))
    ensures Decoded(text) == data
  {
    RoundTrip(data);
    DecodeIgnoresBreaks(text);
    DecodeIgnoresBreaks(Encoded(data));
  }

  // ---------------------------------------------------------------- the standard

  /** Table 1 of RFC 4648: the capital letters, the small letters and the digits in order,
      then two signs. */
  lemma AlphabetIs(v: nat)
    requires v < 64
    ensures Letter(0) == 'A' && Letter(25) == 'Z' && Letter(26) == 'a' && Letter(51) == 'z'
    ensures Letter(52) == '0' && Letter(61) == '9' && Letter(62) == '+' && Letter(63) == '/'
    ensures v < 61 && v != 25 && v != 51 ==> Letter(v + 1) as int == Letter(v) as int + 1
    ensures ValueOf(Letter(v)) == v && !Skipped(Letter(v))
  {
  }

  /** A full group spells its three bytes as one number of four digits, highest first; a
      shorter one leaves off the digits its bytes do not reach. */
  lemma GroupSpells(data: seq<Byte>, i: nat)
    requires i < |data|
    ensures var g := Group(data, i); var n := (data[i] as int * 256 + At(data, i + 1)) * 256 + At(data, i + 2);
      && ValueOf(g[0]) == n / (64 * 64 * 64) && ValueOf(g[1]) == n / (64 * 64) % 64
      && (if i + 1 < |data| then ValueOf(g[2]) == n / 64 % 64 && g[2] != '=' else g[2] == '=')
      && (if i + 2 < |data| then ValueOf(g[3]) == n % 64 && g[3] != '=' else g[3] == '=')
  {
    hide Letter, ValueOf;
    var n := Packed(At(data, i), At(data, i + 1), At(data, i + 2));
    LetterValue(n / 0x4_0000 % 64);
    LetterValue(n / 0x1000 % 64);
    LetterValue(n / 64 % 64);
    LetterValue(n % 64);
    assert n < 0x100_0000;
    assert n / 0x4_0000 < 64;
    SkippedPad();
  }

  lemma SkippedPad()
    ensures Skipped('=')
  {
  }

  predicate InAlphabet(c: char) { 'A' <= c <= 'Z' || 'a' <= c <= 'z' || '0' <= c <= '9' || c == '+' || c == '/' }

  /** Any other character but padding and line breaks decodes as the letter A does. */
  lemma {:induction false} OthersCountAsZero(s: string, c: char, t: string)
    requires !InAlphabet(c) && c !in {'=', '\n', '\r'}
    ensures Fold(s + [c] + t) == Fold(s + "A" + t)
  {
    hide Step, Fold;
    if t == [] {
      FoldOne(s, c);
      FoldOne(s, 'A');
      AsLetterA(Fold(s), c);
      assert s + [c] + t == s + [c] && s + "A" + t == s + ['A'];
    } else {
      var u, last := t[..|t| - 1], t[|t| - 1];
      OthersCountAsZero(s, c, u);
      FoldOne(s + [c] + u, last);
      FoldOne(s + "A" + u, last);
      assert s + [c] + t == s + [c] + u + [last] && s + "A" + t == s + "A" + u + [last];
    }
  }

  lemma AsLetterA(p: Progress, c: char)
    requires !InAlphabet(c) && c !in {'=', '\n', '\r'}
    ensures Step(p, c) == Step(p, 'A')
  {
    hide TakeByte;
  }
}
