/** Well-formed UTF-8 (sections 3 and 4 of RFC 3629) and the monitor's padding of it. */
module Utf8 {

  type Bytes = seq<bv8>

  /** The streams carry bytes, one to a `char`. */
  predicate ByteText(s: string) {
    forall i | 0 <= i < |s| :: s[i] as int < 256
  }

  function Encoded(s: string): (b: Bytes)
    requires ByteText(s)
    ensures |b| == |s|
  {
    seq(|s|, i requires 0 <= i < |s| => (s[i] as int) as bv8)
  }

  predicate Tail(b: bv8) {
    0x80 <= b <= 0xBF
  }

  /** The length of the well-formed character that `s` starts with, by the grammar of section 4
      of RFC 3629; 0 when there is none. */
  function CharLength(s: Bytes): (n: nat)
    ensures n <= |s|
  {
    if |s| >= 1 && s[0] <= 0x7F then 1
    else if |s| >= 2 && 0xC2 <= s[0] <= 0xDF && Tail(s[1]) then 2
    else if |s| >= 3 && Tail(s[2]) && ThreeByteStart(s[0], s[1]) then 3
    else if |s| >= 4 && Tail(s[2]) && Tail(s[3]) && FourByteStart(s[0], s[1]) then 4
    else 0
  }

  predicate ThreeByteStart(a: bv8, b: bv8) {
    || (a == 0xE0 && 0xA0 <= b <= 0xBF)
    || ((0xE1 <= a <= 0xEC || 0xEE <= a <= 0xEF) && Tail(b))
    || (a == 0xED && 0x80 <= b <= 0x9F)
  }

  predicate FourByteStart(a: bv8, b: bv8) {
    || (a == 0xF0 && 0x90 <= b <= 0xBF)
    || (0xF1 <= a <= 0xF3 && Tail(b))
    || (a == 0xF4 && 0x80 <= b <= 0x8F)
  }

  // ---- The encoding of section 3 ----

  /** A code point other than the surrogates. */
  predicate Scalar(c: bv32) {
    c <= 0x10FFFF && !(0xD800 <= c <= 0xDFFF)
  }

  /** Six bits in a tail. */
  function TailByte(c: bv32): bv8 {
    0x80 | ((c & 0x3F) as bv8)
  }

  /** The table of section 3 of RFC 3629. */
  function Encode(c: bv32): Bytes
    requires Scalar(c)
  {
    if c <= 0x7F then [c as bv8]
    else if c <= 0x7FF then [0xC0 | ((c >> 6) as bv8), TailByte(c)]
    else if c <= 0xFFFF then [0xE0 | ((c >> 12) as bv8), TailByte(c >> 6), TailByte(c)]
    else [0xF0 | ((c >> 18) as bv8), TailByte(c >> 12), TailByte(c >> 6), TailByte(c)]
  }

  /** Every encoded code point is a character of the grammar. */
  lemma EncodedIsCharacter(c: bv32)
    requires Scalar(c)
    ensures CharLength(Encode(c)) == |Encode(c)|
  {
  }

  /** The bits of a byte that its mask leaves. */
  function Payload(b: bv8, mask: bv8): bv32 {
    (b & mask) as bv32
  }

  function Decode2(a: bv8, b: bv8): bv32 {
    (Payload(a, 0x1F) << 6) | Payload(b, 0x3F)
  }

  function Decode3(a: bv8, b: bv8, c: bv8): bv32 {
    (Payload(a, 0x0F) << 12) | (Payload(b, 0x3F) << 6) | Payload(c, 0x3F)
  }

  function Decode4(a: bv8, b: bv8, c: bv8, d: bv8): bv32 {
    (Payload(a, 0x07) << 18) | (Payload(b, 0x3F) << 12) | (Payload(c, 0x3F) << 6) | Payload(d, 0x3F)
  }

  lemma TwoBytes(a: bv8, b: bv8)
    requires 0xC2 <= a <= 0xDF && Tail(b)
    ensures var v := Decode2(a, b); 0x7F < v <= 0x7FF && 0xC0 | ((v >> 6) as bv8) == a && TailByte(v) == b
  {
  }

  lemma ThreeBytes(a: bv8, b: bv8, c: bv8)
    requires ThreeByteStart(a, b) && Tail(c)
    ensures var v := Decode3(a, b, c);
            && 0x7FF < v <= 0xFFFF && !(0xD800 <= v <= 0xDFFF)
            && 0xE0 | ((v >> 12) as bv8) == a && TailByte(v >> 6) == b && TailByte(v) == c
  {
  }

  lemma FourBytes(a: bv8, b: bv8, c: bv8, d: bv8)
    requires FourByteStart(a, b) && Tail(c) && Tail(d)
    ensures var v := Decode4(a, b, c, d);
            && 0xFFFF < v <= 0x10FFFF && 0xF0 | ((v >> 18) as bv8) == a
            && TailByte(v >> 12) == b && TailByte(v >> 6) == c && TailByte(v) == d
  {
  }

  lemma OneByte(a: bv8)
    requires a <= 0x7F
    ensures Scalar(a as bv32) && Encode(a as bv32) == [a]
  {
  }

  lemma Encode2(v: bv32, a: bv8, b: bv8)
    requires 0x7F < v <= 0x7FF && 0xC0 | ((v >> 6) as bv8) == a && TailByte(v) == b
    ensures Scalar(v) && Encode(v) == [a, b]
  {
    hide TailByte;
  }

  lemma Encode3(v: bv32, a: bv8, b: bv8, c: bv8)
    requires 0x7FF < v <= 0xFFFF && !(0xD800 <= v <= 0xDFFF)
    requires 0xE0 | ((v >> 12) as bv8) == a && TailByte(v >> 6) == b && TailByte(v) == c
    ensures Scalar(v) && Encode(v) == [a, b, c]
  {
    hide TailByte;
  }

  lemma Encode4(v: bv32, a: bv8, b: bv8, c: bv8, d: bv8)
    requires 0xFFFF < v <= 0x10FFFF && 0xF0 | ((v >> 18) as bv8) == a
    requires TailByte(v >> 12) == b && TailByte(v >> 6) == c && TailByte(v) == d
    ensures Scalar(v) && Encode(v) == [a, b, c, d]
  {
    hide TailByte;
  }

  lemma Encoded2(a: bv8, b: bv8) returns (v: bv32)
    requires 0xC2 <= a <= 0xDF && Tail(b)
    ensures Scalar(v) && Encode(v) == [a, b]
  {
    hide Encode, Scalar, TailByte, Decode2, Tail;
    v := Decode2(a, b);
    TwoBytes(a, b);
    Encode2(v, a, b);
  }

  lemma Encoded3(a: bv8, b: bv8, c: bv8) returns (v: bv32)
    requires ThreeByteStart(a, b) && Tail(c)
    ensures Scalar(v) && Encode(v) == [a, b, c]
  {
    hide Encode, Scalar, TailByte, Decode3, Tail, ThreeByteStart;
    v := Decode3(a, b, c);
    ThreeBytes(a, b, c);
    Encode3(v, a, b, c);
  }

  lemma Encoded4(a: bv8, b: bv8, c: bv8, d: bv8) returns (v: bv32)
    requires FourByteStart(a, b) && Tail(c) && Tail(d)
    ensures Scalar(v) && Encode(v) == [a, b, c, d]
  {
    hide Encode, Scalar, TailByte, Decode4, Tail, FourByteStart;
    v := Decode4(a, b, c, d);
    FourBytes(a, b, c, d);
    Encode4(v, a, b, c, d);
  }

  /** And every character of the grammar encodes a code point. */
  lemma CharacterIsEncoded(s: Bytes) returns (c: bv32)
    requires CharLength(s) > 0
    ensures Scalar(c) && Encode(c) == s[..CharLength(s)]
  {
    hide Encode, Scalar, Tail, ThreeByteStart, FourByteStart;
    var n := CharLength(s);
    if n == 1 {
      OneByte(s[0]);
      c := s[0] as bv32;
      assert s[..1] == [s[0]];
    } else if n == 2 {
      c := Encoded2(s[0], s[1]);
      assert s[..2] == [s[0], s[1]];
    } else if n == 3 {
      c := Encoded3(s[0], s[1], s[2]);
      assert s[..3] == [s[0], s[1], s[2]];
    } else {
      c := Encoded4(s[0], s[1], s[2], s[3]);
      assert s[..4] == [s[0], s[1], s[2], s[3]];
    }
  }

  predicate WellFormed(s: Bytes)
    decreases |s|
  {
    s == [] || (CharLength(s) > 0 && WellFormed(s[CharLength(s)..]))
  }

  /** The number of characters. */
  function Count(s: Bytes): nat
    requires WellFormed(s)
    decreases |s|
  {
    if s == [] then 0 else 1 + Count(s[CharLength(s)..])
  }

  lemma CharLengthAppend(a: Bytes, b: Bytes)
    requires CharLength(a) > 0
    ensures CharLength(a + b) == CharLength(a)
  {
  }

  lemma CountUnfold(s: Bytes)
    requires s != []
    ensures WellFormed(s) <==> CharLength(s) > 0 && WellFormed(s[CharLength(s)..])
    ensures WellFormed(s) ==> Count(s) == 1 + Count(s[CharLength(s)..])
  {
  }

  lemma CountNothing(s: Bytes)
    requires s == []
    ensures WellFormed(s) && Count(s) == 0
  {
  }

  lemma {:induction false} CountAppend(a: Bytes, b: Bytes)
    requires WellFormed(a) && WellFormed(b)
    ensures WellFormed(a + b) && Count(a + b) == Count(a) + Count(b)
    decreases |a|
  {
    hide CharLength, WellFormed, Count;
    if a == [] {
      CountNothing(a);
      assert a + b == b;
    } else {
      CountUnfold(a);
      CharLengthAppend(a, b);
      var n := CharLength(a);
      CountAppend(a[n..], b);
      assert (a + b)[n..] == a[n..] + b;
      CountUnfold(a + b);
    }
  }

  // ---- The monitor's scanning ----

  /** How far the scan moves on a byte, by its masks. */
  function Skip(c: bv8): (n: nat)
    ensures 1 <= n <= 4
  {
    if c & 0xE0 == 0xC0 then 2
    else if c & 0xF0 == 0xE0 then 3
    else if c & 0xF8 == 0xF0 then 4
    else 1
  }

  /** On well-formed text the masks find exactly the grammar's characters. */
  lemma SkipIsCharLength(s: Bytes)
    requires CharLength(s) > 0
    ensures Skip(s[0]) == CharLength(s)
  {
  }

  function Min(a: nat, b: nat): nat {
    if a < b then a else b
  }

  /** The steps that the scan makes from the start of any bytes. */
  function Visual(s: Bytes): nat
    decreases |s|
  {
    if s == [] then 0 else 1 + Visual(s[Min(Skip(s[0]), |s|)..])
  }

  /** `visual_len`; on malformed text the index may run past the end. */
  method VisualLen(s: Bytes) returns (len: nat)
    ensures len == Visual(s)
  {
    hide Visual;
    len := 0;
    assert s[0..] == s;
    NothingVisual();
    var i := 0;
    while i < |s|
      invariant i >= 0 && len + Visual(s[Min(i, |s|)..]) == Visual(s)
    {
      var c := s[i];
      VisualStep(s, i);
      var next := i + 1;
      if c & 0xE0 == 0xC0 { next := i + 2; }
      else if c & 0xF0 == 0xE0 { next := i + 3; }
      else if c & 0xF8 == 0xF0 { next := i + 4; }
      assert next == i + Skip(c);
      i, len := next, len + 1;
    }
    assert s[|s|..] == [];
  }

  lemma NothingVisual()
    ensures Visual([]) == 0
  {
  }

  lemma VisualStep(s: Bytes, i: nat)
    requires i < |s|
    ensures Visual(s[i..]) == 1 + Visual(s[Min(i + Skip(s[i]), |s|)..])
  {
    hide Skip;
    var t := s[i..];
    assert t[Min(Skip(t[0]), |t|)..] == s[Min(i + Skip(s[i]), |s|)..];
  }

  /** The bytes that `n` steps of the scan cover. */
  function Take(s: Bytes, n: nat): Bytes
    decreases n
  {
    if n == 0 || s == [] then []
    else
      var k := Min(Skip(s[0]), |s|);
      s[..k] + Take(s[k..], n - 1)
  }

  function Repeat(fill: Bytes, n: nat): Bytes {
    if n == 0 then [] else Repeat(fill, n - 1) + fill
  }

  const SPACE: Bytes := [0x20]

  /** What `pad_line` returns. */
  function Padded(text: Bytes, width: nat): Bytes {
    if Visual(text) >= width then Take(text, width) else text + Repeat(SPACE, width - Visual(text))
  }

  method PadLine(text: Bytes, width: nat) returns (res: Bytes)
    ensures res == Padded(text, width)
  {
    var len := VisualLen(text);
    if len >= width {
      res := Truncate(text, width);
    } else {
      var spaces := MakeHline(SPACE, width - len);
      res := text + spaces;
    }
  }

  /** The truncating loop of `pad_line`. */
  method Truncate(text: Bytes, width: nat) returns (res: Bytes)
    ensures res == Take(text, width)
  {
    hide Take;
    var idx, cur := 0, 0;
    assert text[..0] + Take(text[0..], width) == Take(text, width) by { assert text[0..] == text; }
    while idx < |text| && cur < width
      invariant idx >= 0 && 0 <= cur <= width
      invariant text[..Min(idx, |text|)] + Take(text[Min(idx, |text|)..], width - cur) == Take(text, width)
      decreases width - cur
    {
      var c := text[idx];
      TakeStep(text, idx, width - cur);
      var next := idx + 1;
      if c & 0xE0 == 0xC0 { next := idx + 2; }
      else if c & 0xF0 == 0xE0 { next := idx + 3; }
      else if c & 0xF8 == 0xF0 { next := idx + 4; }
      assert next == idx + Skip(c);
      idx, cur := next, cur + 1;
    }
    TakeNothing(text[Min(idx, |text|)..], width - cur);
    res := text[..Min(idx, |text|)];
  }

  lemma TakeNothing(s: Bytes, n: nat)
    requires s == [] || n == 0
    ensures Take(s, n) == []
  {
  }

  lemma TakeUnfold(s: Bytes, n: nat)
    requires s != [] && n > 0
    ensures var k := Min(Skip(s[0]), |s|); Take(s, n) == s[..k] + Take(s[k..], n - 1)
  {
  }

  lemma TakeStep(s: Bytes, i: nat, n: nat)
    requires i < |s| && n > 0
    ensures var j := Min(i + Skip(s[i]), |s|);
            s[..i] + Take(s[i..], n) == s[..j] + Take(s[j..], n - 1)
  {
    hide Take, Skip;
    var t := s[i..];
    var k := Min(Skip(t[0]), |t|);
    TakeUnfold(t, n);
    assert t[..k] == s[i..i + k] && t[k..] == s[i + k..];
    assert s[..i] + t[..k] == s[..i + k];
  }

  /** `make_hline`. */
  method MakeHline(fill: Bytes, count: nat) returns (res: Bytes)
    ensures res == Repeat(fill, count)
  {
    res := [];
    for i := 0 to count
      invariant res == Repeat(fill, i)
    {
      res := res + fill;
    }
  }

  lemma {:induction false} RepeatCount(fill: Bytes, n: nat)
    requires WellFormed(fill) && Count(fill) == 1
    ensures WellFormed(Repeat(fill, n)) && Count(Repeat(fill, n)) == n
  {
    if n > 0 {
      RepeatCount(fill, n - 1);
      CountAppend(Repeat(fill, n - 1), fill);
    }
  }

  /** On well-formed text the scan counts characters. */
  lemma {:induction false} VisualIsCount(s: Bytes)
    requires WellFormed(s)
    ensures Visual(s) == Count(s)
    decreases |s|
  {
    if s != [] {
      SkipIsCharLength(s);
      VisualIsCount(s[CharLength(s)..]);
    }
  }

  /** A non-empty well-formed text is a character and a well-formed text. */
  lemma FirstCharacter(s: Bytes)
    requires WellFormed(s) && s != []
    ensures var k := CharLength(s);
            && k == Skip(s[0]) && 0 < k <= |s| && s == s[..k] + s[k..]
            && WellFormed(s[..k]) && Count(s[..k]) == 1 && WellFormed(s[k..]) && Count(s) == 1 + Count(s[k..])
  {
    hide CharLength, Skip, WellFormed, Count;
    CountUnfold(s);
    SkipIsCharLength(s);
    CharLengthPrefix(s);
    var k := CharLength(s);
    var c := s[..k];
    CountUnfold(c);
    CountNothing(c[k..]);
  }

  lemma CharLengthPrefix(s: Bytes)
    ensures CharLength(s[..CharLength(s)]) == CharLength(s)
  {
  }

  lemma {:induction false} TakeCount(s: Bytes, n: nat)
    requires WellFormed(s) && n <= Count(s)
    ensures WellFormed(Take(s, n)) && Count(Take(s, n)) == n && Take(s, n) <= s
    decreases n
  {
    if n > 0 {
      hide CharLength, Skip, Take, WellFormed;
      FirstCharacter(s);
      var k := CharLength(s);
      TakeCount(s[k..], n - 1);
      TakeUnfold(s, n);
      CountAppend(s[..k], Take(s[k..], n - 1));
    }
  }

  /** Padding well-formed text gives well-formed text of exactly the target width: the leading
      characters of a text that is too long, the whole text and spaces otherwise. */
  lemma PaddingIsExact(text: Bytes, width: nat)
    requires WellFormed(text)
    ensures WellFormed(Padded(text, width)) && Count(Padded(text, width)) == width
    ensures Count(text) >= width ==> Padded(text, width) <= text
    ensures Count(text) < width ==> Padded(text, width) == text + Repeat([0x20], width - Count(text))
  {
    hide WellFormed, Count, Take, Visual, Repeat;
    VisualIsCount(text);
    if Count(text) >= width {
      TakeCount(text, width);
    } else {
      SpaceIsOne();
      RepeatCount(SPACE, width - Count(text));
      CountAppend(text, Repeat(SPACE, width - Count(text)));
    }
  }

  lemma SpaceIsOne()
    ensures WellFormed(SPACE) && Count(SPACE) == 1
  {
    assert SPACE[CharLength(SPACE)..] == [];
  }

  // ---- Cutting at a byte position ----

  /** Within a character every byte but the first is a tail. */
  lemma CharShape(s: Bytes)
    requires CharLength(s) > 0
    ensures !Tail(s[0]) && forall i | 0 < i < CharLength(s) :: Tail(s[i])
  {
  }

  /** A cut keeps the first character whole, or leaves none. */
  lemma CharLengthCut(s: Bytes, n: nat)
    requires CharLength(s) > 0 && 0 < n <= |s|
    ensures CharLength(s[..n]) == if n < CharLength(s) then 0 else CharLength(s)
  {
    assert s[..n][0] == s[0];
    assert forall i | 0 <= i < n :: s[..n][i] == s[i];
  }

  lemma TailStartsNothing(s: Bytes)
    requires s != [] && Tail(s[0])
    ensures !WellFormed(s)
  {
    if CharLength(s) > 0 {
      CharShape(s);
    }
  }

  /** Cutting well-formed text at a byte position gives well-formed parts exactly when the byte
      after the cut is not a tail. */
  lemma {:induction false} CutKeepsIff(s: Bytes, n: nat)
    requires WellFormed(s) && n < |s|
    ensures WellFormed(s[..n]) <==> !Tail(s[n])
    ensures WellFormed(s[n..]) <==> !Tail(s[n])
    decreases |s|
  {
    hide CharLength, WellFormed, Count, Tail;
    CountUnfold(s);
    var k := CharLength(s);
    CharShape(s);
    if n == 0 {
      assert s[0..] == s;
      CountNothing(s[..0]);
    } else {
      CharLengthCut(s, n);
      CountUnfold(s[..n]);
      if n < k {
        TailStartsNothing(s[n..]);
      } else {
        CutKeepsIff(s[k..], n - k);
        assert s[k..][..n - k] == s[..n][k..] && s[k..][n - k..] == s[n..];
      }
    }
  }

  /** Well-formed text in front changes nothing. */
  lemma AppendKeepsIff(a: Bytes, b: Bytes)
    requires WellFormed(a)
    ensures WellFormed(a + b) <==> WellFormed(b)
  {
    hide WellFormed, Count, Tail;
    if b == [] {
      CountNothing(b);
      assert a + b == a;
    } else {
      assert (a + b)[..|a|] == a && (a + b)[|a|..] == b;
      if WellFormed(a + b) {
        CutKeepsIff(a + b, |a|);
      }
      if WellFormed(b) {
        CountAppend(a, b);
      }
    }
  }
}
