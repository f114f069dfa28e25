/** Lines, trimming and hexadecimal numbers, as the C++ standard library and printf treat them. */
module Text {

  /** `find(c)`: the first position of a character, or -1. */
  function Find(s: string, c: char): (i: int)
    ensures i < 0 <==> c !in s
    ensures i >= 0 ==> i < |s| && s[i] == c && c !in s[..i]
  {
    if s == [] then -1
    else if s[0] == c then 0
    else
      var i := Find(s[1..], c);
      assert i >= 0 ==> s[..i + 1] == [s[0]] + s[1..][..i];
      assert s == [s[0]] + s[1..];
      if i < 0 then -1 else i + 1
  }

  /** The position found is determined by what precedes it. */
  lemma FindAfter(a: string, c: char, b: string)
    requires c !in a
    ensures Find(a + [c] + b, c) == |a|
  {
    var s := a + [c] + b;
    assert s[|a|] == c;
  }

  lemma NotBefore(s: string, c: char, n: nat)
    requires n <= |s| && c !in s[..n]
    ensures forall j | 0 <= j < n :: s[j] != c
  {
    assert forall j | 0 <= j < n :: s[..n][j] == s[j];
  }

  lemma FindAt(s: string, c: char, n: nat)
    requires n < |s| && s[n] == c && c !in s[..n]
    ensures Find(s, c) == n
  {
    hide Find;
    var i := Find(s, c);
    assert s[n] in s;
    NotBefore(s, c, n);
    NotBefore(s, c, i);
  }

  /** What a `std::getline` loop yields: a last line without newline counts unless it is empty. */
  function GetLines(s: string): seq<string>
    decreases |s|
  {
    if s == [] then []
    else
      var n := Find(s, '\n');
      if n < 0 then [s] else [s[..n]] + GetLines(s[n + 1..])
  }

  function Unlines(lines: seq<string>): string {
    if lines == [] then "" else lines[0] + "\n" + Unlines(lines[1..])
  }

  ghost predicate Lines(lines: seq<string>) {
    forall l | l in lines :: '\n' !in l
  }

  lemma {:induction false} GetLinesHaveNoNewline(s: string)
    ensures Lines(GetLines(s))
    decreases |s|
  {
    if s != [] && Find(s, '\n') >= 0 {
      GetLinesHaveNoNewline(s[Find(s, '\n') + 1..]);
    }
  }

  lemma GetLinesUnfold(s: string)
    requires s != [] && Find(s, '\n') >= 0
    ensures var n := Find(s, '\n'); GetLines(s) == [s[..n]] + GetLines(s[n + 1..])
  {
    hide Find;
  }

  lemma GetLinesNothing()
    ensures GetLines("") == []
  {
  }

  /** The lines make up the text; the last one may lack its newline. */
  lemma {:induction false} GetLinesIsExact(s: string)
    ensures Unlines(GetLines(s)) == if s == "" || s[|s| - 1] == '\n' then s else s + "\n"
    decreases |s|
  {
    hide Unlines, GetLines, Find;
    var n := Find(s, '\n');
    if s == "" {
      GetLinesNothing();
      UnlinesNothing();
    } else if n < 0 {
      GetLinesOne(s);
      LineText(s);
      assert s[|s| - 1] in s;
    } else {
      var rest := s[n + 1..];
      GetLinesUnfold(s);
      GetLinesIsExact(rest);
      UnlinesCons(s[..n], GetLines(rest));
      assert s == s[..n] + "\n" + rest;
      assert rest != "" ==> rest[|rest| - 1] == s[|s| - 1];
      Associative(s[..n] + "\n", rest, "\n");
    }
  }

  lemma GetLinesOne(s: string)
    requires s != "" && Find(s, '\n') < 0
    ensures GetLines(s) == [s]
  {
    hide Find;
  }

  lemma LineText(line: string)
    ensures Unlines([line]) == line + "\n"
  {
    UnlinesCons(line, []);
    assert [line] == [line] + [];
  }

  /** Reading back lines that were written one by one. */
  lemma {:induction false} LinesRoundTrip(lines: seq<string>)
    requires Lines(lines)
    ensures GetLines(Unlines(lines)) == lines
  {
    if lines != [] {
      var rest := Unlines(lines[1..]);
      LinesRoundTrip(lines[1..]);
      FindAfter(lines[0], '\n', rest);
      assert Unlines(lines) == lines[0] + ['\n'] + rest;
      assert Unlines(lines)[|lines[0]| + 1..] == rest && Unlines(lines)[..|lines[0]|] == lines[0];
    }
  }

  lemma UnlinesNothing()
    ensures Unlines([]) == ""
  {
  }

  lemma UnlinesCons(l: string, ls: seq<string>)
    ensures Unlines([l] + ls) == l + "\n" + Unlines(ls)
  {
    assert ([l] + ls)[1..] == ls;
  }

  lemma Associative(a: string, b: string, c: string)
    ensures (a + b) + c == a + (b + c)
    ensures a + "" == a
  {
  }

  lemma {:induction false} UnlinesAppend(a: seq<string>, b: seq<string>)
    ensures Unlines(a + b) == Unlines(a) + Unlines(b)
  {
    if a == [] {
      assert a + b == b;
    } else {
      UnlinesAppend(a[1..], b);
      assert (a + b)[1..] == a[1..] + b;
    }
  }

  // ---- Searching ----

  /** `text.find(needle) != npos`. */
  ghost predicate Contains(text: string, needle: string) {
    exists i | 0 <= i <= |text| - |needle| :: Occurs(text, needle, i)
  }

  predicate Occurs(text: string, needle: string, i: nat)
    requires i + |needle| <= |text|
  {
    text[i..i + |needle|] == needle
  }

  /** `find(needle)`: the first occurrence, or -1. */
  function FindText(text: string, needle: string): (i: int)
    ensures i < 0 <==> !Contains(text, needle)
    ensures i >= 0 ==> i + |needle| <= |text| && Occurs(text, needle, i)
    ensures i >= 0 ==> forall j: nat | j < i :: !Occurs(text, needle, j)
  {
    FindTextFrom(text, needle, 0)
  }

  function FindTextFrom(text: string, needle: string, from: nat): (i: int)
    requires from <= |text| + 1 && forall j: nat | j < from && j + |needle| <= |text| :: !Occurs(text, needle, j)
    ensures i < 0 <==> !Contains(text, needle)
    ensures i >= 0 ==> i + |needle| <= |text| && Occurs(text, needle, i)
    ensures i >= 0 ==> forall j: nat | j < i :: !Occurs(text, needle, j)
    decreases |text| + 1 - from
  {
    if from + |needle| > |text| then -1
    else if Occurs(text, needle, from) then from
    else FindTextFrom(text, needle, from + 1)
  }

  // ---- Trimming ----

  predicate Blank(c: char) {
    c == ' ' || c == '\t' || c == '\r' || c == '\n'
  }

  function TrimLeft(s: string): string {
    if s == [] || !Blank(s[0]) then s else TrimLeft(s[1..])
  }

  function TrimRight(s: string): string {
    if s == [] || !Blank(s[|s| - 1]) then s else TrimRight(s[..|s| - 1])
  }

  function Trim(s: string): string {
    TrimRight(TrimLeft(s))
  }

  /** Text without blanks at its ends. */
  predicate Trimmed(s: string) {
    s == [] || (!Blank(s[0]) && !Blank(s[|s| - 1]))
  }

  /** Spaces, tabs, carriage returns and newlines only. */
  ghost predicate AllBlank(s: string) {
    forall i | 0 <= i < |s| :: s[i] in " \t\r\n"
  }

  lemma BlankIsListed(c: char)
    ensures Blank(c) <==> c in " \t\r\n"
  {
    assert " \t\r\n"[0] == ' ' && " \t\r\n"[1] == '\t' && " \t\r\n"[2] == '\r' && " \t\r\n"[3] == '\n';
  }

  lemma NoneBlank()
    ensures AllBlank("")
  {
  }

  lemma OneBlank(c: char)
    requires Blank(c)
    ensures AllBlank([c])
  {
    BlankIsListed(c);
  }

  lemma AllBlankAppend(a: string, b: string)
    requires AllBlank(a) && AllBlank(b)
    ensures AllBlank(a + b)
  {
  }

  lemma TrimLeftUnfold(s: string)
    requires s != ""
    ensures TrimLeft(s) == if Blank(s[0]) then TrimLeft(s[1..]) else s
  {
  }

  lemma TrimRightUnfold(s: string)
    requires s != ""
    ensures TrimRight(s) == if Blank(s[|s| - 1]) then TrimRight(s[..|s| - 1]) else s
  {
  }

  lemma {:induction false} TrimLeftIsExact(s: string) returns (front: string)
    ensures s == front + TrimLeft(s) && AllBlank(front)
    ensures TrimLeft(s) != "" ==> TrimLeft(s)[0] !in " \t\r\n"
  {
    if s == "" {
      return "";
    }
    hide Blank, AllBlank, TrimLeft;
    BlankIsListed(s[0]);
    TrimLeftUnfold(s);
    if !Blank(s[0]) {
      front := "";
      NoneBlank();
    } else {
      var f := TrimLeftIsExact(s[1..]);
      front := [s[0]] + f;
      OneBlank(s[0]);
      AllBlankAppend([s[0]], f);
      assert s == [s[0]] + s[1..];
      Associative([s[0]], f, TrimLeft(s));
    }
  }

  lemma {:induction false} TrimRightIsExact(s: string) returns (back: string)
    ensures s == TrimRight(s) + back && AllBlank(back)
    ensures TrimRight(s) != "" ==> TrimRight(s)[|TrimRight(s)| - 1] !in " \t\r\n"
  {
    if s == "" {
      return "";
    }
    hide Blank, AllBlank, TrimRight;
    BlankIsListed(s[|s| - 1]);
    TrimRightUnfold(s);
    if !Blank(s[|s| - 1]) {
      back := "";
      NoneBlank();
    } else {
      var b := TrimRightIsExact(s[..|s| - 1]);
      back := b + [s[|s| - 1]];
      OneBlank(s[|s| - 1]);
      AllBlankAppend(b, [s[|s| - 1]]);
      assert s == s[..|s| - 1] + [s[|s| - 1]];
      Associative(TrimRight(s), b, [s[|s| - 1]]);
    }
  }

  /** Trimming takes exactly the blanks off both ends. */
  lemma TrimIsExact(s: string) returns (front: string, back: string)
    ensures s == front + Trim(s) + back && AllBlank(front) && AllBlank(back)
    ensures var t := Trim(s); t != "" ==> t[0] !in " \t\r\n" && t[|t| - 1] !in " \t\r\n"
  {
    hide TrimLeft, TrimRight;
    front := TrimLeftIsExact(s);
    back := TrimRightIsExact(TrimLeft(s));
    var t := Trim(s);
    Associative(front, t, back);
    assert t != "" ==> t[0] == TrimLeft(s)[0];
  }

  lemma TrimKeeps(s: string)
    requires Trimmed(s)
    ensures Trim(s) == s && Trim(" " + s) == s
  {
    assert (" " + s)[1..] == s;
  }

  // ---- Hexadecimal ----

  function Digit(d: nat, upper: bool): char
    requires d < 16
  {
    if upper then "0123456789ABCDEF"[d] else "0123456789abcdef"[d]
  }

  /** The value of a hexadecimal digit of either case, or -1. */
  function DigitValue(c: char): (d: int)
    ensures -1 <= d < 16
  {
    if '0' <= c <= '9' then c as int - '0' as int
    else if 'A' <= c <= 'F' then c as int - 'A' as int + 10
    else if 'a' <= c <= 'f' then c as int - 'a' as int + 10
    else -1
  }

  lemma DigitRoundTrip(d: nat, upper: bool)
    requires d < 16
    ensures DigitValue(Digit(d, upper)) == d && !Blank(Digit(d, upper))
    ensures Digit(d, upper) != '\n' && Digit(d, upper) != ':' && Digit(d, upper) != 'x' && Digit(d, upper) != 'X'
  {
  }

  function Pow16(w: nat): (p: nat)
    ensures p > 0
  {
    if w == 0 then 1 else 16 * Pow16(w - 1)
  }

  /** `%0*X` / `%0*x`: `n` in exactly `w` digits. */
  function Hex(n: nat, w: nat, upper: bool): (s: string)
    ensures |s| == w
  {
    if w == 0 then "" else Hex(n / 16, w - 1, upper) + [Digit(n % 16, upper)]
  }

  /** The number of leading hexadecimal digits. */
  function HexSpan(s: string): (n: nat)
    ensures n <= |s|
  {
    if s == [] || DigitValue(s[0]) < 0 then 0 else 1 + HexSpan(s[1..])
  }

  function HexValue(s: string): nat {
    if s == [] then 0
    else 16 * HexValue(s[..|s| - 1]) + if DigitValue(s[|s| - 1]) < 0 then 0 else DigitValue(s[|s| - 1])
  }

  /** `std::from_chars` in base 16 on an unsigned type below `limit`; 0 on any error. */
  function FromChars(s: string, limit: nat): nat {
    var value := HexValue(s[..HexSpan(s)]);
    if value < limit then value else 0
  }

  /** `parse_hex32` and `parse_hex64`. */
  function ParseHex(s: string, limit: nat): nat {
    FromChars(if "0x" <= s || "0X" <= s then s[2..] else s, limit)
  }

  lemma {:induction false} HexSpanAll(s: string)
    requires forall c | c in s :: DigitValue(c) >= 0
    ensures HexSpan(s) == |s|
  {
    if s != [] {
      HexSpanAll(s[1..]);
    }
  }

  lemma {:induction false} HexDigits(n: nat, w: nat, upper: bool)
    ensures forall c | c in Hex(n, w, upper) ::
              DigitValue(c) >= 0 && !Blank(c) && c != '\n' && c != ':' && c != 'x' && c != 'X'
  {
    if w > 0 {
      HexDigits(n / 16, w - 1, upper);
      DigitRoundTrip(n % 16, upper);
    }
  }

  lemma HexValueSnoc(s: string, c: char)
    requires DigitValue(c) >= 0
    ensures HexValue(s + [c]) == 16 * HexValue(s) + DigitValue(c)
  {
    assert (s + [c])[..|s|] == s;
  }

  lemma DivideBy16(n: nat, p: nat)
    requires n < 16 * p
    ensures n / 16 < p && n == 16 * (n / 16) + n % 16
  {
  }

  lemma {:induction false} HexValueOfHex(n: nat, w: nat, upper: bool)
    requires n < Pow16(w)
    ensures HexValue(Hex(n, w, upper)) == n
  {
    if w > 0 {
      hide HexValue, Digit, DigitValue;
      DivideBy16(n, Pow16(w - 1));
      HexValueOfHex(n / 16, w - 1, upper);
      DigitRoundTrip(n % 16, upper);
      HexValueSnoc(Hex(n / 16, w - 1, upper), Digit(n % 16, upper));
    }
  }

  lemma DigitIsListed(c: char)
    requires DigitValue(c) >= 0
    ensures c in "0123456789ABCDEFabcdef"
  {
    var digits := "0123456789ABCDEFabcdef";
    if '0' <= c <= '9' {
      assert c == digits[c as int - '0' as int];
    } else if 'A' <= c <= 'F' {
      assert c == digits[c as int - 'A' as int + 10];
    } else {
      assert c == digits[c as int - 'a' as int + 16];
    }
  }

  /** A character outside the digits of either case. */
  lemma NoDigit(c: char)
    requires c !in "0123456789ABCDEFabcdef"
    ensures DigitValue(c) < 0
  {
    hide DigitValue;
    if DigitValue(c) >= 0 {
      DigitIsListed(c);
    }
  }

  lemma {:induction false} HexSpanStops(s: string, rest: string)
    requires forall i | 0 <= i < |s| :: DigitValue(s[i]) >= 0
    requires rest == "" || DigitValue(rest[0]) < 0
    ensures HexSpan(s + rest) == |s|
  {
    hide DigitValue;
    if s == "" {
      assert s + rest == rest;
    } else {
      HexSpanStops(s[1..], rest);
      assert (s + rest)[1..] == s[1..] + rest;
    }
  }

  /** Any text that starts with a number, whatever follows its digits: with either prefix or none
      the number is read, or 0 when it is too large. */
  lemma ParsesLeadingNumber(prefix: string, n: nat, w: nat, upper: bool, rest: string, limit: nat)
    requires prefix == "0x" || prefix == "0X" || (prefix == "" && w != 1)
    requires n < Pow16(w) && (rest == "" || rest[0] !in "0123456789ABCDEFabcdef")
    requires w == 0 ==> prefix != ""
    ensures ParseHex(prefix + Hex(n, w, upper) + rest, limit) == if n < limit then n else 0
  {
    hide Hex, HexSpan, HexValue;
    var digits := Hex(n, w, upper);
    HexDigits(n, w, upper);
    HexValueOfHex(n, w, upper);
    if rest != "" {
      NoDigit(rest[0]);
    }
    HexSpanStops(digits, rest);
    assert (digits + rest)[..w] == digits;
    var text := prefix + digits + rest;
    if prefix == "" {
      assert text == digits + rest && text[1] == digits[1];
    } else {
      assert text[..2] == prefix && text[2..] == digits + rest;
    }
  }

  /** Text that starts with no number is 0, with either prefix or none. */
  lemma ParsesNothingAsZero(prefix: string, rest: string, limit: nat)
    requires limit > 0 && (prefix == "0x" || prefix == "0X" || prefix == "")
    requires rest == "" || rest[0] !in "0123456789ABCDEFabcdef"
    ensures ParseHex(prefix + rest, limit) == 0
  {
    hide DigitValue;
    if rest != "" {
      NoDigit(rest[0]);
    }
    if prefix == "" {
      assert prefix + rest == rest;
      assert !("0x" <= rest) && !("0X" <= rest) by {
        if rest != "" {
          DigitRoundTrip(0, true);
          assert rest[0] != '0';
        }
      }
    } else {
      assert (prefix + rest)[..2] == prefix && (prefix + rest)[2..] == rest;
    }
  }

  /** The digits of one case only. */
  lemma {:induction false} HexCase(n: nat, w: nat, upper: bool)
    ensures forall i | 0 <= i < w :: Hex(n, w, upper)[i] in if upper then "0123456789ABCDEF" else "0123456789abcdef"
  {
    if w > 0 {
      HexCase(n / 16, w - 1, upper);
    }
  }

  /** Printing any number and parsing it back, with the prefix and in either case. */
  lemma HexRoundTrip(n: nat, w: nat, upper: bool, limit: nat)
    requires n < Pow16(w) && n < limit
    ensures ParseHex("0x" + Hex(n, w, upper), limit) == n
  {
    hide Hex, HexSpan, HexValue;
    var digits := Hex(n, w, upper);
    HexDigits(n, w, upper);
    HexSpanAll(digits);
    HexValueOfHex(n, w, upper);
    Prefixed(digits, limit);
    assert digits[..|digits|] == digits;
  }

  lemma Prefixed(s: string, limit: nat)
    ensures ParseHex("0x" + s, limit) == FromChars(s, limit)
  {
    hide FromChars;
    assert ("0x" + s)[2..] == s;
  }

  lemma WidthOf32()
    ensures Pow16(8) == 0x1_0000_0000 && Pow16(16) == 0x1_0000_0000_0000_0000
  {
    assert Pow16(4) == 0x1_0000;
    assert Pow16(8) == 0x1_0000 * Pow16(4);
    assert Pow16(12) == 0x1_0000 * Pow16(8);
    assert Pow16(16) == 0x1_0000 * Pow16(12);
  }
}
