/** The URL-safe base64 codec of src/base64.c. */
module Base64 {
  type Text = seq<bv8>

  const PAD: bv8 := 61

  /** The URL-safe alphabet and the padding of section 5 of RFC 4648. */
  const ALPHABET: string := "ABCDEFGHIJKLMNOPQRSTUVWXYZ" + "abcdefghijklmnopqrstuvwxyz" + "0123456789" + "-_"
  const PADDING: char := '='

  /** The character for six bits. */
  function Code(x: bv32): (c: bv8)
    requires x < 64
  {
    var y := x as bv8;
    if y < 26 then y + 65 else if y < 52 then y + 71 else if y < 62 then y - 4 else if y == 62 then 45 else 95
  }

  /** The decoder table; characters outside the alphabet give 0xff. */
  function Value(c: bv8): (x: bv32)
  {
    if 65 <= c <= 90 then (c - 65) as bv32
    else if 97 <= c <= 122 then (c - 71) as bv32
    else if 48 <= c <= 57 then (c + 4) as bv32
    else if c == 45 then 62
    else if c == 95 then 63
    else 255
  }

  lemma CodeRoundTrip(x: bv32)
    requires x < 64
    ensures Value(Code(x)) == x && Code(x) != PAD
  {
  }

  lemma CodeIs(x: bv32)
    requires x < 64
    ensures |ALPHABET| == 64 && Code(x) as char == ALPHABET[x]
  {
  }

  lemma PadIs(c: bv8)
    ensures c == PAD <==> c as char == PADDING
  {
  }

  /** The decoder knows exactly the characters of the alphabet, each by its position. */
  lemma ValueIs(c: bv8)
    ensures Value(c) < 64 <==> c as char in ALPHABET
    ensures Value(c) < 64 ==> |ALPHABET| == 64 && ALPHABET[Value(c)] == c as char
    ensures Value(c) < 64 || Value(c) == 255
  {
    if Value(c) < 64 {
      assert Code(Value(c)) == c;
      CodeIs(Value(c));
    } else {
      NotALetter(c);
    }
  }

  lemma NotALetter(c: bv8)
    requires 64 <= Value(c)
    ensures c as char !in ALPHABET
  {
    forall k | 0 <= k < |ALPHABET|
      ensures ALPHABET[k] != c as char
    {
      LetterAt(k);
      hide ALPHABET;
    }
  }

  lemma LetterAt(k: nat)
    requires k < |ALPHABET|
    ensures var c := ALPHABET[k] as int;
            65 <= c <= 90 || 97 <= c <= 122 || 48 <= c <= 57 || c == 45 || c == 95
  {
  }

  function Low(x: bv32): bv8
  {
    (x & 0xFF) as bv8
  }

  // Three bytes as 24 bits, and the 24 bits as four sextets.

  function Pack3(a: bv8, b: bv8, c: bv8): (data: bv32)
    ensures data < 0x100_0000
  {
    ((a as bv32) << 16) | ((b as bv32) << 8) | (c as bv32)
  }

  function Unpack3(data: bv32): (t: Text)
    ensures |t| == 3
  {
    [Low(data >> 16), Low(data >> 8), Low(data)]
  }

  function Sextets4(data: bv32): (x: seq<bv32>)
    requires data < 0x100_0000
    ensures |x| == 4 && x[0] < 64 && x[1] < 64 && x[2] < 64 && x[3] < 64
  {
    [data >> 18, (data >> 12) & 0x3F, (data >> 6) & 0x3F, data & 0x3F]
  }

  function Join4(x: bv32, y: bv32, z: bv32, w: bv32): bv32
  {
    (x << 18) | (y << 12) | (z << 6) | w
  }

  lemma Pack3RoundTrip(a: bv8, b: bv8, c: bv8)
    ensures Unpack3(Pack3(a, b, c)) == [a, b, c]
  {
  }

  lemma Join4RoundTrip(data: bv32)
    requires data < 0x100_0000
    ensures var x := Sextets4(data); Join4(x[0], x[1], x[2], x[3]) == data
  {
  }

  // Two bytes as 16 bits, and as three sextets of which the last ends with two zero bits.

  function Pack2(a: bv8, b: bv8): (data: bv32)
    ensures data < 0x1_0000
  {
    ((a as bv32) << 8) | (b as bv32)
  }

  function Unpack2(data: bv32): (t: Text)
    ensures |t| == 2
  {
    [Low(data >> 10), Low(data >> 2)]
  }

  function Sextets3(data: bv32): (x: seq<bv32>)
    requires data < 0x1_0000
    ensures |x| == 3 && x[0] < 64 && x[1] < 64 && x[2] < 64
  {
    [data >> 10, (data >> 4) & 0x3F, (data & 0xF) << 2]
  }

  function Join3(x: bv32, y: bv32, z: bv32): bv32
  {
    (x << 12) | (y << 6) | z
  }

  function WithTwoZeros(data: bv32): bv32
  {
    data << 2
  }

  lemma Pack2RoundTrip(a: bv8, b: bv8)
    ensures Unpack2(WithTwoZeros(Pack2(a, b))) == [a, b]
  {
  }

  lemma Join3RoundTrip(data: bv32)
    requires data < 0x1_0000
    ensures var x := Sextets3(data); Join3(x[0], x[1], x[2]) == WithTwoZeros(data)
  {
  }

  // One group of characters.

  function Enc3(a: bv8, b: bv8, c: bv8): (t: Text)
    ensures |t| == 4
  {
    var x := Sextets4(Pack3(a, b, c));
    [Code(x[0]), Code(x[1]), Code(x[2]), Code(x[3])]
  }

  function Enc2(a: bv8, b: bv8): (t: Text)
    ensures |t| == 3
  {
    var x := Sextets3(Pack2(a, b));
    [Code(x[0]), Code(x[1]), Code(x[2])]
  }

  function Enc1(a: bv8): (t: Text)
    ensures |t| == 2
  {
    [Code((a as bv32) >> 2), Code(((a as bv32) & 0x3) << 4)]
  }

  function Dec4(a: bv8, b: bv8, c: bv8, d: bv8): (t: Text)
    ensures |t| == 3
  {
    Unpack3(Join4(Value(a), Value(b), Value(c), Value(d)))
  }

  function Dec3(a: bv8, b: bv8, c: bv8): (t: Text)
    ensures |t| == 2
  {
    Unpack2(Join3(Value(a), Value(b), Value(c)))
  }

  function Dec2(a: bv8, b: bv8): (t: Text)
    ensures |t| == 1
  {
    [Low(((Value(a) << 6) | Value(b)) >> 4)]
  }

  lemma Group3(a: bv8, b: bv8, c: bv8)
    ensures var t := Enc3(a, b, c); Dec4(t[0], t[1], t[2], t[3]) == [a, b, c] && PAD !in t
  {
    hide Code, Value, Pack3, Unpack3, Sextets4, Join4;
    var x := Sextets4(Pack3(a, b, c));
    Pack3RoundTrip(a, b, c);
    Join4RoundTrip(Pack3(a, b, c));
    CodeRoundTrip(x[0]);
    CodeRoundTrip(x[1]);
    CodeRoundTrip(x[2]);
    CodeRoundTrip(x[3]);
  }

  lemma Group2(a: bv8, b: bv8)
    ensures var t := Enc2(a, b); Dec3(t[0], t[1], t[2]) == [a, b] && PAD !in t
  {
    hide Code, Value, Pack2, Unpack2, Sextets3, Join3, WithTwoZeros;
    var x := Sextets3(Pack2(a, b));
    Pack2RoundTrip(a, b);
    Join3RoundTrip(Pack2(a, b));
    CodeRoundTrip(x[0]);
    CodeRoundTrip(x[1]);
    CodeRoundTrip(x[2]);
  }

  lemma Group1(a: bv8)
    ensures var t := Enc1(a); Dec2(t[0], t[1]) == [a] && PAD !in t
  {
    CodeRoundTrip((a as bv32) >> 2);
    CodeRoundTrip(((a as bv32) & 0x3) << 4);
  }

  // ---------- whole texts ----------

  ghost function Encoded(s: Text, padding: bool): (t: Text)
  {
    var pad := if padding then [PAD] else [];
    if |s| == 0 then []
    else if |s| == 1 then Enc1(s[0]) + pad + pad
    else if |s| == 2 then Enc2(s[0], s[1]) + pad
    else Enc3(s[0], s[1], s[2]) + Encoded(s[3..], padding)
  }

  /** What the decoder makes of the text once the padding is cut off; a single character left over is dropped. */
  ghost function Groups(t: Text): (s: Text)
    ensures |s| <= (|t| + 3) / 4 * 3
  {
    if |t| <= 1 then []
    else if |t| == 2 then Dec2(t[0], t[1])
    else if |t| == 3 then Dec3(t[0], t[1], t[2])
    else Dec4(t[0], t[1], t[2], t[3]) + Groups(t[4..])
  }

  function Unpadded(t: Text): (size: nat)
    ensures size <= |t|
  {
    if |t| > 2 && t[|t| - 2] == PAD then |t| - 2
    else if |t| > 1 && t[|t| - 1] == PAD then |t| - 1
    else |t|
  }

  ghost function Decoded(t: Text): (s: Text)
  {
    Groups(t[..Unpadded(t)])
  }

  lemma {:induction false} EncodedSize(s: Text)
    ensures |Encoded(s, true)| == (|s| + 2) / 3 * 4
    ensures |Encoded(s, false)| == |s| + (|s| + 2) / 3
  {
    if 3 <= |s| {
      EncodedSize(s[3..]);
    }
  }

  lemma {:induction false} EncodedHasNoPadding(s: Text)
    ensures PAD !in Encoded(s, false)
  {
    hide Enc1, Enc2, Enc3;
    if |s| == 1 {
      Group1(s[0]);
    } else if |s| == 2 {
      Group2(s[0], s[1]);
    } else if 3 <= |s| {
      EncodedHasNoPadding(s[3..]);
      Group3(s[0], s[1], s[2]);
    }
  }

  lemma {:induction false} PaddingIsTheEnd(s: Text)
    ensures Encoded(s, true)
         == Encoded(s, false) + if |s| % 3 == 1 then [PAD, PAD] else if |s| % 3 == 2 then [PAD] else []
  {
    hide Enc1, Enc2, Enc3;
    if 3 <= |s| {
      PaddingIsTheEnd(s[3..]);
      assert |s[3..]| % 3 == |s| % 3;
    }
  }

  lemma {:induction false} GroupsRoundTrip(s: Text)
    ensures Groups(Encoded(s, false)) == s
  {
    hide Enc1, Enc2, Enc3, Dec2, Dec3, Dec4;
    if |s| == 1 {
      Group1(s[0]);
    } else if |s| == 2 {
      Group2(s[0], s[1]);
    } else if 3 <= |s| {
      Group3(s[0], s[1], s[2]);
      GroupsRoundTrip(s[3..]);
      var first := Enc3(s[0], s[1], s[2]);
      assert (first + Encoded(s[3..], false))[4..] == Encoded(s[3..], false);
    }
  }

  /** Decoding gives back what was encoded, with or without padding. */
  lemma RoundTrip(s: Text, padding: bool)
    ensures Decoded(Encoded(s, padding)) == s
  {
    hide Enc1, Enc2, Enc3, Encoded, Groups;
    var plain, t := Encoded(s, false), Encoded(s, padding);
    EncodedSize(s);
    EncodedHasNoPadding(s);
    PaddingIsTheEnd(s);
    GroupsRoundTrip(s);
    assert t[..Unpadded(t)] == plain;
  }

  // ---------- bit by bit ----------

  /** Bit `i` of a byte, the most significant one first. */
  function Bit(a: bv8, i: nat): bool
    requires i < 8
  {
    a & [0x80, 0x40, 0x20, 0x10, 8, 4, 2, 1][i] != 0
  }

  /** Bit `i` of six bits. */
  function BitOfSix(x: bv32, i: nat): bool
    requires i < 6
  {
    x & [0x20, 0x10, 8, 4, 2, 1][i] != 0
  }

  /** Bit `j` of a byte string, with zeros behind its end. */
  function BitAt(s: Text, j: nat): bool
  {
    j / 8 < |s| && Bit(s[j / 8], j % 8)
  }

  /** Bit `j` of what the characters of a text stand for. */
  function BitOfText(t: Text, j: nat): bool
    requires j < 6 * |t|
  {
    BitOfSix(Value(t[j / 6]), j % 6)
  }

  function Six(b0: bool, b1: bool, b2: bool, b3: bool, b4: bool, b5: bool): (x: bv32)
    ensures x < 64
  {
    (if b0 then 0x20 else 0) | (if b1 then 0x10 else 0) | (if b2 then 8 else 0)
    | (if b3 then 4 else 0) | (if b4 then 2 else 0) | (if b5 then 1 else 0)
  }

  /** Bits 6k to 6k + 5 of a byte string. */
  function SextetAt(s: Text, k: nat): (x: bv32)
    ensures x < 64
  {
    var j := 6 * k;
    Six(BitAt(s, j), BitAt(s, j + 1), BitAt(s, j + 2), BitAt(s, j + 3), BitAt(s, j + 4), BitAt(s, j + 5))
  }

  lemma SextetsOfThree(a: bv8, b: bv8, c: bv8)
    ensures var x := Sextets4(Pack3(a, b, c));
            && x[0] == Six(Bit(a, 0), Bit(a, 1), Bit(a, 2), Bit(a, 3), Bit(a, 4), Bit(a, 5))
            && x[1] == Six(Bit(a, 6), Bit(a, 7), Bit(b, 0), Bit(b, 1), Bit(b, 2), Bit(b, 3))
            && x[2] == Six(Bit(b, 4), Bit(b, 5), Bit(b, 6), Bit(b, 7), Bit(c, 0), Bit(c, 1))
            && x[3] == Six(Bit(c, 2), Bit(c, 3), Bit(c, 4), Bit(c, 5), Bit(c, 6), Bit(c, 7))
  {
  }

  lemma SextetsOfTwo(a: bv8, b: bv8)
    ensures var x := Sextets3(Pack2(a, b));
            && x[0] == Six(Bit(a, 0), Bit(a, 1), Bit(a, 2), Bit(a, 3), Bit(a, 4), Bit(a, 5))
            && x[1] == Six(Bit(a, 6), Bit(a, 7), Bit(b, 0), Bit(b, 1), Bit(b, 2), Bit(b, 3))
            && x[2] == Six(Bit(b, 4), Bit(b, 5), Bit(b, 6), Bit(b, 7), false, false)
  {
  }

  lemma SextetsOfOne(a: bv8)
    ensures (a as bv32) >> 2 == Six(Bit(a, 0), Bit(a, 1), Bit(a, 2), Bit(a, 3), Bit(a, 4), Bit(a, 5))
    ensures ((a as bv32) & 0x3) << 4 == Six(Bit(a, 6), Bit(a, 7), false, false, false, false)
  {
  }

  lemma BitFurther(s: Text, j: nat)
    requires 3 <= |s|
    ensures BitAt(s[3..], j) == BitAt(s, j + 24)
  {
    hide Bit;
    assert (j + 24) / 8 == j / 8 + 3 && (j + 24) % 8 == j % 8;
  }

  lemma SextetFurther(s: Text, k: nat)
    requires 3 <= |s|
    ensures SextetAt(s[3..], k) == SextetAt(s, k + 4)
  {
    hide Six, BitAt;
    var j := 6 * k;
    assert 6 * (k + 4) == j + 24;
    BitFurther(s, j);
    BitFurther(s, j + 1);
    BitFurther(s, j + 2);
    BitFurther(s, j + 3);
    BitFurther(s, j + 4);
    BitFurther(s, j + 5);
  }

  lemma FirstSextets(s: Text)
    requires 1 <= |s|
    ensures var a := s[0];
            var b, c := if 2 <= |s| then s[1] else 0, if 3 <= |s| then s[2] else 0;
            && SextetAt(s, 0) == Six(Bit(a, 0), Bit(a, 1), Bit(a, 2), Bit(a, 3), Bit(a, 4), Bit(a, 5))
            && SextetAt(s, 1) == Six(Bit(a, 6), Bit(a, 7), Bit(b, 0), Bit(b, 1), Bit(b, 2), Bit(b, 3))
            && SextetAt(s, 2) == Six(Bit(b, 4), Bit(b, 5), Bit(b, 6), Bit(b, 7), Bit(c, 0), Bit(c, 1))
            && SextetAt(s, 3) == Six(Bit(c, 2), Bit(c, 3), Bit(c, 4), Bit(c, 5), Bit(c, 6), Bit(c, 7))
  {
    NoBits();
    hide Bit, Six;
  }

  lemma NoBits()
    ensures forall i: nat | i < 8 :: !Bit(0, i)
  {
  }

  /** The characters before the padding, one for six bits. */
  lemma {:induction false} EncodedAt(s: Text, k: nat)
    requires k < |Encoded(s, false)|
    ensures Encoded(s, false)[k] == Code(SextetAt(s, k))
  {
    hide Bit, Six, Code, SextetAt, Sextets3, Sextets4, Pack2, Pack3;
    FirstSextets(s);
    if |s| == 1 {
      NoBits();
      SextetsOfOne(s[0]);
    } else if |s| == 2 {
      NoBits();
      SextetsOfTwo(s[0], s[1]);
    } else if k < 4 {
      SextetsOfThree(s[0], s[1], s[2]);
    } else {
      SextetFurther(s, k - 4);
      EncodedAt(s[3..], k - 4);
    }
  }

  /** Character `k` of an encoded text is the character of the alphabet for bits 6k to 6k + 5 of the
  source; behind these characters there is nothing but padding. */
  lemma EncodedIs(s: Text, padding: bool, k: nat)
    requires k < |Encoded(s, padding)|
    ensures |ALPHABET| == 64
    ensures Encoded(s, padding)[k] as char
         == if 6 * k < 8 * |s| then ALPHABET[SextetAt(s, k)] else PADDING
  {
    hide *;
    EncodedSize(s);
    PaddingIsTheEnd(s);
    CodeIs(SextetAt(s, k));
    if 6 * k < 8 * |s| {
      EncodedAt(s, k);
    } else {
      PadIs(PAD);
    }
  }

  function Eight(b0: bool, b1: bool, b2: bool, b3: bool, b4: bool, b5: bool, b6: bool, b7: bool): bv8
  {
    (if b0 then 0x80 else 0) | (if b1 then 0x40 else 0) | (if b2 then 0x20 else 0) | (if b3 then 0x10 else 0)
    | (if b4 then 8 else 0) | (if b5 then 4 else 0) | (if b6 then 2 else 0) | (if b7 then 1 else 0)
  }

  /** Bits 8k to 8k + 7 of a text. */
  function ByteAt(t: Text, k: nat): bv8
    requires 8 * k + 8 <= 6 * |t|
  {
    var j := 8 * k;
    Eight(BitOfText(t, j), BitOfText(t, j + 1), BitOfText(t, j + 2), BitOfText(t, j + 3),
          BitOfText(t, j + 4), BitOfText(t, j + 5), BitOfText(t, j + 6), BitOfText(t, j + 7))
  }

  lemma AllEncoded(s: Text, padding: bool)
    ensures |ALPHABET| == 64
    ensures forall k | 0 <= k < |Encoded(s, padding)| ::
              Encoded(s, padding)[k] as char == if 6 * k < 8 * |s| then ALPHABET[SextetAt(s, k)] else PADDING
  {
    CodeIs(0);
    hide *;
    forall k | 0 <= k < |Encoded(s, padding)|
      ensures Encoded(s, padding)[k] as char == if 6 * k < 8 * |s| then ALPHABET[SextetAt(s, k)] else PADDING
    {
      EncodedIs(s, padding, k);
    }
  }

  lemma BytesOfFour(x: bv32, y: bv32, z: bv32, w: bv32)
    requires x < 64 && y < 64 && z < 64 && w < 64
    ensures Unpack3(Join4(x, y, z, w))
         == [Eight(BitOfSix(x, 0), BitOfSix(x, 1), BitOfSix(x, 2), BitOfSix(x, 3),
                   BitOfSix(x, 4), BitOfSix(x, 5), BitOfSix(y, 0), BitOfSix(y, 1)),
             Eight(BitOfSix(y, 2), BitOfSix(y, 3), BitOfSix(y, 4), BitOfSix(y, 5),
                   BitOfSix(z, 0), BitOfSix(z, 1), BitOfSix(z, 2), BitOfSix(z, 3)),
             Eight(BitOfSix(z, 4), BitOfSix(z, 5), BitOfSix(w, 0), BitOfSix(w, 1),
                   BitOfSix(w, 2), BitOfSix(w, 3), BitOfSix(w, 4), BitOfSix(w, 5))]
  {
  }

  lemma BytesOfThree(x: bv32, y: bv32, z: bv32)
    requires x < 64 && y < 64 && z < 64
    ensures Unpack2(Join3(x, y, z)) == Unpack3(Join4(x, y, z, 0))[..2]
  {
  }

  lemma ByteOfTwo(x: bv32, y: bv32)
    requires x < 64 && y < 64
    ensures Low(((x << 6) | y) >> 4) == Unpack3(Join4(x, y, 0, 0))[0]
  {
  }

  predicate Lettered(t: Text)
  {
    forall c | c in t :: Value(c) < 64
  }

  lemma TextBitFurther(t: Text, j: nat)
    requires 4 <= |t| && j < 6 * |t[4..]|
    ensures BitOfText(t[4..], j) == BitOfText(t, j + 24)
  {
    hide BitOfSix, Value;
    assert (j + 24) / 6 == j / 6 + 4 && (j + 24) % 6 == j % 6;
  }

  lemma ByteFurther(t: Text, k: nat)
    requires 4 <= |t| && 8 * k + 8 <= 6 * |t[4..]|
    ensures ByteAt(t[4..], k) == ByteAt(t, k + 3)
  {
    hide Eight, BitOfText;
    var j := 8 * k;
    assert 8 * (k + 3) == j + 24;
    TextBitFurther(t, j);
    TextBitFurther(t, j + 1);
    TextBitFurther(t, j + 2);
    TextBitFurther(t, j + 3);
    TextBitFurther(t, j + 4);
    TextBitFurther(t, j + 5);
    TextBitFurther(t, j + 6);
    TextBitFurther(t, j + 7);
  }

  lemma FirstByte(t: Text)
    requires 2 <= |t|
    ensures ByteAt(t, 0)
         == Eight(BitOfSix(Value(t[0]), 0), BitOfSix(Value(t[0]), 1), BitOfSix(Value(t[0]), 2),
           BitOfSix(Value(t[0]), 3),
                  BitOfSix(Value(t[0]), 4), BitOfSix(Value(t[0]), 5), BitOfSix(Value(t[1]), 0),
                    BitOfSix(Value(t[1]), 1))
  {
    hide Eight, BitOfSix, Value;
  }

  lemma SecondByte(t: Text)
    requires 3 <= |t|
    ensures ByteAt(t, 1)
         == Eight(BitOfSix(Value(t[1]), 2), BitOfSix(Value(t[1]), 3), BitOfSix(Value(t[1]), 4),
           BitOfSix(Value(t[1]), 5),
                  BitOfSix(Value(t[2]), 0), BitOfSix(Value(t[2]), 1), BitOfSix(Value(t[2]), 2),
                    BitOfSix(Value(t[2]), 3))
  {
    hide Eight, BitOfSix, Value;
  }

  lemma ThirdByte(t: Text)
    requires 4 <= |t|
    ensures ByteAt(t, 2)
         == Eight(BitOfSix(Value(t[2]), 4), BitOfSix(Value(t[2]), 5), BitOfSix(Value(t[3]), 0),
           BitOfSix(Value(t[3]), 1),
                  BitOfSix(Value(t[3]), 2), BitOfSix(Value(t[3]), 3), BitOfSix(Value(t[3]), 4),
                    BitOfSix(Value(t[3]), 5))
  {
    hide Eight, BitOfSix, Value;
  }

  lemma FirstBytes(t: Text, k: nat)
    requires Lettered(t) && 8 * k + 8 <= 6 * |t| && k < 3
    ensures var z, w := if 3 <= |t| then Value(t[2]) else 0, if 4 <= |t| then Value(t[3]) else 0;
            ByteAt(t, k) == Unpack3(Join4(Value(t[0]), Value(t[1]), z, w))[k]
  {
    hide ByteAt, Eight, BitOfSix, Value, Unpack3, Join4;
    var z, w := if 3 <= |t| then Value(t[2]) else 0, if 4 <= |t| then Value(t[3]) else 0;
    BytesOfFour(Value(t[0]), Value(t[1]), z, w);
    if k == 0 {
      FirstByte(t);
    } else if k == 1 {
      SecondByte(t);
    } else {
      ThirdByte(t);
    }
  }

  /** Eight bits for every byte, and what is left over is dropped. */
  lemma {:induction false} GroupsAt(t: Text, k: nat)
    requires Lettered(t)
    ensures |Groups(t)| == 6 * |t| / 8
    ensures k < |Groups(t)| ==> Groups(t)[k] == ByteAt(t, k)
  {
    hide Eight, ByteAt, Value, Unpack2, Unpack3, Join3, Join4, Low;
    if 2 <= |t| && k < 3 && 8 * k + 8 <= 6 * |t| {
      FirstBytes(t, k);
    }
    if |t| == 2 {
      ByteOfTwo(Value(t[0]), Value(t[1]));
    } else if |t| == 3 {
      BytesOfThree(Value(t[0]), Value(t[1]), Value(t[2]));
    } else if 4 <= |t| {
      GroupsAt(t[4..], if 3 <= k then k - 3 else 0);
      if 3 <= k < |Groups(t)| {
        ByteFurther(t, k - 3);
      }
    }
  }

  /** Byte `k` of a decoded text of the alphabet, with or without padding, is made of bits 8k to 8k + 7 of
  what its characters stand for. */
  lemma DecodedIs(t: Text, k: nat)
    requires Lettered(t[..Unpadded(t)])
    ensures |Decoded(t)| == 6 * Unpadded(t) / 8
    ensures k < |Decoded(t)| ==> Decoded(t)[k] == ByteAt(t[..Unpadded(t)], k)
  {
    hide Groups, Lettered, ByteAt, Unpadded;
    GroupsAt(t[..Unpadded(t)], k);
  }

  lemma EncodedStep(s: Text, k: nat, padding: bool)
    requires k + 3 <= |s|
    ensures Encoded(s[k..], padding) == Enc3(s[k], s[k + 1], s[k + 2]) + Encoded(s[k + 3..], padding)
  {
    assert s[k..][3..] == s[k + 3..];
  }

  lemma GroupsStep(t: Text, k: nat)
    requires k + 4 <= |t|
    ensures Groups(t[k..]) == Dec4(t[k], t[k + 1], t[k + 2], t[k + 3]) + Groups(t[k + 4..])
  {
    assert t[k..][4..] == t[k + 4..];
  }

  lemma EncodedTail(s: Text, k: nat, padding: bool)
    requires |s| < k + 3 && k <= |s|
    ensures Encoded(s[k..], padding) ==
            if k == |s| then []
            else if k + 1 == |s| then Enc1(s[k]) + if padding then [PAD, PAD] else []
            else Enc2(s[k], s[k + 1]) + if padding then [PAD] else []
  {
  }

  lemma GroupsTail(t: Text, k: nat)
    requires |t| < k + 4 && k <= |t|
    ensures Groups(t[k..]) ==
            if k + 2 == |t| then Dec2(t[k], t[k + 1])
            else if k + 3 == |t| then Dec3(t[k], t[k + 1], t[k + 2])
            else []
  {
  }

  /** ribs_base64_encode */
  method Encode(src: Text, padding: bool) returns (dst: Text)
    ensures dst == Encoded(src, padding) && |ALPHABET| == 64
    ensures forall k | 0 <= k < |dst| ::
              dst[k] as char == if 6 * k < 8 * |src| then ALPHABET[SextetAt(src, k)] else PADDING
  {
    hide Encoded, Enc1, Enc2, Enc3, Code, PAD, ALPHABET, PADDING, SextetAt;
    AllEncoded(src, padding);
    var totalChars := |src| / 3;
    var leftChars := |src| - totalChars * 3;
    dst := [];
    var i := 0;
    while i < totalChars
      invariant 0 <= i <= totalChars
      invariant dst + Encoded(src[3 * i..], padding) == Encoded(src, padding)
    {
      EncodedStep(src, 3 * i, padding);
      dst := dst + Enc3(src[3 * i], src[3 * i + 1], src[3 * i + 2]);
      i := i + 1;
    }
    EncodedTail(src, 3 * i, padding);
    match leftChars {
      case 1 =>
        dst := dst + Enc1(src[3 * i]);
        if padding {
          dst := dst + [PAD, PAD];
        }
      case 2 =>
        dst := dst + Enc2(src[3 * i], src[3 * i + 1]);
        if padding {
          dst := dst + [PAD];
        }
      case _ =>
    }
  }

  /** ribs_base64_decode */
  method Decode(src: Text) returns (dst: Text)
    ensures dst == Decoded(src)
  {
    hide Groups, Dec2, Dec3, Dec4, Value;
    var size := Unpadded(src);
    var totalChars := size / 4;
    var leftChars := size - totalChars * 4;
    ghost var text := src[..size];
    dst := [];
    var i := 0;
    while i < totalChars
      invariant 0 <= i <= totalChars
      invariant dst + Groups(text[4 * i..]) == Groups(text)
    {
      GroupsStep(text, 4 * i);
      dst := dst + Dec4(src[4 * i], src[4 * i + 1], src[4 * i + 2], src[4 * i + 3]);
      i := i + 1;
    }
    GroupsTail(text, 4 * i);
    match leftChars {
      case 2 => dst := dst + Dec2(src[4 * i], src[4 * i + 1]);
      case 3 => dst := dst + Dec3(src[4 * i], src[4 * i + 1], src[4 * i + 2]);
      case _ =>
    }
  }
}
