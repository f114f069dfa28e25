/** The geometry of the monitor's frame. */
module Frame {
  import opened Utf8

  const MIN_COLS: nat := 40
  const MIN_ROWS: nat := 12
  const MIN_SIDE: nat := 18

  const HORIZONTAL: Bytes := [0xE2, 0x94, 0x80]
  const VERTICAL: Bytes := [0xE2, 0x94, 0x82]
  const TOP_LEFT: Bytes := [0xE2, 0x94, 0x8C]
  const TOP_MIDDLE: Bytes := [0xE2, 0x94, 0xAC]
  const TOP_RIGHT: Bytes := [0xE2, 0x94, 0x90]
  const MIDDLE_LEFT: Bytes := [0xE2, 0x94, 0x9C]
  const MIDDLE: Bytes := [0xE2, 0x94, 0xB4]
  const MIDDLE_RIGHT: Bytes := [0xE2, 0x94, 0xA4]
  const BOTTOM_LEFT: Bytes := [0xE2, 0x94, 0x94]
  const BOTTOM_RIGHT: Bytes := [0xE2, 0x94, 0x98]

  const LEFT_TITLE: Bytes := Encoded(" SAFETY MEMORY STATE ")
  const RIGHT_TITLE: Bytes := Encoded(" KERNEL EVENT STREAM ")

  const NEWLINE: bv8 := 0x0A

  /** What a frame shows: the eight snapshot rows, the event texts (newest last) and the bar. */
  datatype Content = Content(snapshot: seq<Bytes>, events: seq<Bytes>, bar: Bytes)

  // ---- Layout ----

  function Max(a: nat, b: nat): nat {
    if a < b then b else a
  }

  function Columns(cols: nat): nat {
    Max(cols, MIN_COLS)
  }

  function Rows(rows: nat): nat {
    Max(rows, MIN_ROWS)
  }

  /** Two fifths of the space between the borders, at least 18 columns to either side. */
  function LeftWidth(cols: nat): (w: nat)
    ensures MIN_SIDE <= w <= Columns(cols) - 3 - MIN_SIDE
  {
    var panel := Columns(cols) - 3;
    Clamp(panel * 2 / 5, MIN_SIDE, panel - MIN_SIDE)
  }

  /** `std::clamp`. */
  function Clamp(x: int, lo: int, hi: int): (r: int)
    requires lo <= hi
    ensures lo <= r <= hi
  {
    if x < lo then lo else if x > hi then hi else x
  }

  function RightWidth(cols: nat): nat {
    Columns(cols) - 3 - LeftWidth(cols)
  }

  /** The fill around a title; none when the title does not fit. */
  function Fill(width: nat): nat {
    if width > 21 then width - 21 else 0
  }

  // ---- The lines ----

  function TitlePart(title: Bytes, width: nat): Bytes {
    Repeat(HORIZONTAL, Fill(width) / 2) + title + Repeat(HORIZONTAL, Fill(width) - Fill(width) / 2)
  }

  function Header(cols: nat): Bytes {
    TOP_LEFT + TitlePart(LEFT_TITLE, LeftWidth(cols)) + TOP_MIDDLE
    + TitlePart(RIGHT_TITLE, RightWidth(cols)) + TOP_RIGHT
  }

  function LeftText(c: Content, row: nat): Bytes {
    if row < |c.snapshot| then c.snapshot[row] else []
  }

  /** The newest event comes first. */
  function RightText(c: Content, row: nat): Bytes {
    if row < |c.events| then c.events[|c.events| - 1 - row] else []
  }

  function BodyLine(cols: nat, c: Content, row: nat): Bytes {
    VERTICAL + Padded(LeftText(c, row), LeftWidth(cols)) + VERTICAL
    + Padded(RightText(c, row), RightWidth(cols)) + VERTICAL
  }

  function Divider(cols: nat): Bytes {
    MIDDLE_LEFT + Repeat(HORIZONTAL, LeftWidth(cols)) + MIDDLE + Repeat(HORIZONTAL, RightWidth(cols)) + MIDDLE_RIGHT
  }

  function Bar(cols: nat, c: Content): Bytes {
    VERTICAL + Padded(c.bar, LeftWidth(cols) + RightWidth(cols) + 1) + VERTICAL
  }

  function Bottom(cols: nat): Bytes {
    BOTTOM_LEFT + Repeat(HORIZONTAL, LeftWidth(cols) + RightWidth(cols) + 1) + BOTTOM_RIGHT
  }

  function Body(cols: nat, c: Content, rows: nat): seq<Bytes> {
    if rows == 0 then [] else Body(cols, c, rows - 1) + [BodyLine(cols, c, rows - 1)]
  }

  function FrameLines(cols: nat, rows: nat, c: Content): seq<Bytes> {
    [Header(cols)] + Body(cols, c, Rows(rows) - 4) + [Divider(cols), Bar(cols, c), Bottom(cols)]
  }

  function Joined(lines: seq<Bytes>): Bytes {
    if lines == [] then [] else Joined(lines[..|lines| - 1]) + lines[|lines| - 1] + [NEWLINE]
  }

  /** `render_normal`: the lines appended to the output one by one. */
  method RenderNormal(cols: nat, rows: nat, c: Content) returns (out: Bytes)
    ensures out == Joined(FrameLines(cols, rows, c))
  {
    hide Header, BodyLine, Divider, Bar, Bottom;
    var top := RenderHeader(cols);
    out := top + [NEWLINE];
    assert Joined([Header(cols)]) == out by { assert [Header(cols)][..0] == []; }
    ghost var lines := [Header(cols)];
    for row := 0 to Rows(rows) - 4
      invariant lines == [Header(cols)] + Body(cols, c, row) && out == Joined(lines)
    {
      var line := RenderBodyLine(cols, c, row);
      JoinedAppend(lines, line);
      out := out + line + [NEWLINE];
      lines := lines + [line];
    }
    var divider, bar, bottom := RenderFooter(cols, c);
    JoinedAppend(lines, divider);
    JoinedAppend(lines + [divider], bar);
    JoinedAppend(lines + [divider] + [bar], bottom);
    assert FrameLines(cols, rows, c) == lines + [divider] + [bar] + [bottom];
    out := out + divider + [NEWLINE];
    out := out + bar + [NEWLINE];
    out := out + bottom + [NEWLINE];
  }

  lemma JoinedAppend(lines: seq<Bytes>, line: Bytes)
    ensures Joined(lines + [line]) == Joined(lines) + line + [NEWLINE]
  {
    assert (lines + [line])[..|lines|] == lines;
  }

  method RenderHeader(cols: nat) returns (line: Bytes)
    ensures line == Header(cols)
  {
    hide Visual, Repeat;
    TitleWidths();
    var l := RenderTitle(LEFT_TITLE, LeftWidth(cols));
    var r := RenderTitle(RIGHT_TITLE, RightWidth(cols));
    line := TOP_LEFT + l + TOP_MIDDLE + r + TOP_RIGHT;
  }

  method RenderTitle(title: Bytes, width: nat) returns (part: Bytes)
    requires Visual(title) == 21
    ensures part == TitlePart(title, width)
  {
    var len := VisualLen(title);
    var fill := if width > len then width - len else 0;
    var before := MakeHline(HORIZONTAL, fill / 2);
    var after := MakeHline(HORIZONTAL, fill - fill / 2);
    part := before + title + after;
  }

  method RenderBodyLine(cols: nat, c: Content, row: nat) returns (line: Bytes)
    ensures line == BodyLine(cols, c, row)
  {
    var l := PadLine(LeftText(c, row), LeftWidth(cols));
    var r := PadLine(RightText(c, row), RightWidth(cols));
    line := VERTICAL + l + VERTICAL + r + VERTICAL;
  }

  method RenderFooter(cols: nat, c: Content) returns (divider: Bytes, bar: Bytes, bottom: Bytes)
    ensures divider == Divider(cols) && bar == Bar(cols, c) && bottom == Bottom(cols)
  {
    var l := MakeHline(HORIZONTAL, LeftWidth(cols));
    var r := MakeHline(HORIZONTAL, RightWidth(cols));
    divider := MIDDLE_LEFT + l + MIDDLE + r + MIDDLE_RIGHT;
    var text := PadLine(c.bar, LeftWidth(cols) + RightWidth(cols) + 1);
    bar := VERTICAL + text + VERTICAL;
    var line := MakeHline(HORIZONTAL, LeftWidth(cols) + RightWidth(cols) + 1);
    bottom := BOTTOM_LEFT + line + BOTTOM_RIGHT;
  }

  // ---- Widths ----

  /** Well-formed, `n` characters wide, and without a newline. */
  ghost predicate Wide(s: Bytes, n: nat) {
    WellFormed(s) && Count(s) == n && NEWLINE !in s
  }

  lemma WideAppend(a: Bytes, m: nat, b: Bytes, n: nat)
    requires Wide(a, m) && Wide(b, n)
    ensures Wide(a + b, m + n)
  {
    CountAppend(a, b);
  }

  lemma BoxCharacter(b: bv8)
    requires Tail(b)
    ensures Wide([0xE2, 0x94, b], 1)
  {
    assert CharLength([0xE2, 0x94, b]) == 3;
    assert [0xE2, 0x94, b][3..] == [];
  }

  lemma {:induction false} Ascii(s: Bytes)
    requires forall i | 0 <= i < |s| :: s[i] <= 0x7F
    ensures WellFormed(s) && Count(s) == |s|
    decreases |s|
  {
    if s != [] {
      assert CharLength(s) == 1;
      assert forall i | 0 <= i < |s[1..]| :: s[1..][i] == s[i + 1];
      Ascii(s[1..]);
    }
  }

  /** ASCII text without a newline is as wide as it is long. */
  lemma AsciiIsWide(text: string)
    requires forall i | 0 <= i < |text| :: text[i] as int < 128 && text[i] != '\n'
    ensures ByteText(text) && Wide(Encoded(text), |text|) && Visual(Encoded(text)) == |text|
  {
    hide WellFormed, Count, Visual;
    forall i | 0 <= i < |text|
      ensures Encoded(text)[i] <= 0x7F && Encoded(text)[i] != NEWLINE
    {
      AsciiByte(text[i]);
    }
    Ascii(Encoded(text));
    VisualIsCount(Encoded(text));
  }

  lemma AsciiByte(c: char)
    requires c as int < 128
    ensures var b := (c as int) as bv8; b <= 0x7F && (b == NEWLINE <==> c == '\n')
  {
  }

  lemma TitleWidths()
    ensures Wide(LEFT_TITLE, 21) && Wide(RIGHT_TITLE, 21)
    ensures Visual(LEFT_TITLE) == 21 && Visual(RIGHT_TITLE) == 21
  {
    hide Wide, Visual, Encoded;
    AsciiIsWide(" SAFETY MEMORY STATE ");
    AsciiIsWide(" KERNEL EVENT STREAM ");
  }

  lemma {:induction false} WideRepeat(fill: Bytes, n: nat)
    requires Wide(fill, 1)
    ensures Wide(Repeat(fill, n), n)
  {
    hide Wide;
    if n == 0 {
      NoWidth();
    } else {
      WideRepeat(fill, n - 1);
      WideAppend(Repeat(fill, n - 1), n - 1, fill, 1);
    }
  }

  lemma NoWidth()
    ensures Wide([], 0)
  {
  }

  lemma WidePadded(text: Bytes, width: nat)
    requires WellFormed(text) && NEWLINE !in text
    ensures Wide(Padded(text, width), width)
  {
    hide Padded, Repeat, WellFormed, Count;
    PaddingIsExact(text, width);
    if Count(text) < width {
      SpaceIsOne();
      WideRepeat(SPACE, width - Count(text));
      WideAppend(text, Count(text), Repeat(SPACE, width - Count(text)), width - Count(text));
    } else {
      assert forall b | b in Padded(text, width) :: b in text;
    }
  }

  lemma WideHorizontal(n: nat)
    ensures Wide(Repeat(HORIZONTAL, n), n)
  {
    hide Wide;
    BoxCharacter(0x80);
    WideRepeat(HORIZONTAL, n);
  }

  /** A title in its panel: as wide as the panel, or as the title when that is wider. */
  lemma TitleWidth(title: Bytes, width: nat)
    requires Wide(title, 21)
    ensures Wide(TitlePart(title, width), Max(width, 21))
  {
    hide Wide;
    var fill := Fill(width);
    WideHorizontal(fill / 2);
    WideHorizontal(fill - fill / 2);
    WideAppend(Repeat(HORIZONTAL, fill / 2), fill / 2, title, 21);
    WideAppend(Repeat(HORIZONTAL, fill / 2) + title, fill / 2 + 21,
               Repeat(HORIZONTAL, fill - fill / 2), fill - fill / 2);
  }

  /** A border, a part, a separator, a part, a border. */
  lemma FiveParts(a: bv8, l: Bytes, m: nat, b: bv8, r: Bytes, n: nat, c: bv8)
    requires Tail(a) && Tail(b) && Tail(c) && Wide(l, m) && Wide(r, n)
    ensures Wide([0xE2, 0x94, a] + l + [0xE2, 0x94, b] + r + [0xE2, 0x94, c], m + n + 3)
  {
    hide Wide;
    var x, y, z := [0xE2, 0x94, a], [0xE2, 0x94, b], [0xE2, 0x94, c];
    BoxCharacter(a);
    BoxCharacter(b);
    BoxCharacter(c);
    WideAppend(x, 1, l, m);
    WideAppend(x + l, m + 1, y, 1);
    WideAppend(x + l + y, m + 2, r, n);
    WideAppend(x + l + y + r, m + n + 2, z, 1);
  }

  lemma ThreeParts(a: bv8, l: Bytes, m: nat, c: bv8)
    requires Tail(a) && Tail(c) && Wide(l, m)
    ensures Wide([0xE2, 0x94, a] + l + [0xE2, 0x94, c], m + 2)
  {
    hide Wide;
    BoxCharacter(a);
    BoxCharacter(c);
    WideAppend([0xE2, 0x94, a], 1, l, m);
    WideAppend([0xE2, 0x94, a] + l, m + 1, [0xE2, 0x94, c], 1);
  }

  /** All texts well-formed and without newlines. */
  ghost predicate Displayable(c: Content) {
    && WellFormed(c.bar) && NEWLINE !in c.bar
    && (forall i | 0 <= i < |c.snapshot| :: WellFormed(c.snapshot[i]) && NEWLINE !in c.snapshot[i])
    && (forall i | 0 <= i < |c.events| :: WellFormed(c.events[i]) && NEWLINE !in c.events[i])
  }

  lemma BodyWidth(cols: nat, c: Content, row: nat)
    requires Displayable(c)
    ensures Wide(BodyLine(cols, c, row), Columns(cols))
  {
    hide Wide, Padded;
    var l, r := LeftText(c, row), RightText(c, row);
    assert WellFormed(l) && NEWLINE !in l;
    assert WellFormed(r) && NEWLINE !in r;
    WidePadded(l, LeftWidth(cols));
    WidePadded(r, RightWidth(cols));
    FiveParts(0x82, Padded(l, LeftWidth(cols)), LeftWidth(cols),
              0x82, Padded(r, RightWidth(cols)), RightWidth(cols), 0x82);
  }

  lemma FooterWidths(cols: nat, c: Content)
    requires Displayable(c)
    ensures Wide(Divider(cols), Columns(cols)) && Wide(Bar(cols, c), Columns(cols)) && Wide(Bottom(cols), Columns(cols))
  {
    hide Wide, Padded, Repeat;
    var l, r := LeftWidth(cols), RightWidth(cols);
    WideHorizontal(l);
    WideHorizontal(r);
    FiveParts(0x9C, Repeat(HORIZONTAL, l), l, 0xB4, Repeat(HORIZONTAL, r), r, 0xA4);
    WidePadded(c.bar, l + r + 1);
    ThreeParts(0x82, Padded(c.bar, l + r + 1), l + r + 1, 0x82);
    WideHorizontal(l + r + 1);
    ThreeParts(0x94, Repeat(HORIZONTAL, l + r + 1), l + r + 1, 0x98);
  }

  function HeaderColumns(cols: nat): nat {
    3 + Max(LeftWidth(cols), 21) + Max(RightWidth(cols), 21)
  }

  /** Both titles fit their panels from 56 columns on. */
  lemma TitlesFit(cols: nat)
    ensures HeaderColumns(cols) == Columns(cols) <==> cols >= 56
  {
  }

  lemma WidthIsUnique(s: Bytes, m: nat, n: nat)
    requires Wide(s, m)
    ensures Wide(s, n) <==> m == n
  {
  }

  /** The header grows with its titles: it fits the frame exactly from 56 columns on. */
  lemma HeaderWidth(cols: nat)
    ensures Wide(Header(cols), HeaderColumns(cols))
    ensures Wide(Header(cols), Columns(cols)) <==> cols >= 56
  {
    hide TitlePart, Wide, LeftWidth, RightWidth, Visual;
    TitleWidths();
    var l, r := TitlePart(LEFT_TITLE, LeftWidth(cols)), TitlePart(RIGHT_TITLE, RightWidth(cols));
    TitleWidth(LEFT_TITLE, LeftWidth(cols));
    TitleWidth(RIGHT_TITLE, RightWidth(cols));
    FiveParts(0x8C, l, Max(LeftWidth(cols), 21), 0xAC, r, Max(RightWidth(cols), 21), 0x90);
    WidthIsUnique(Header(cols), HeaderColumns(cols), Columns(cols));
    TitlesFit(cols);
  }

  lemma {:induction false} BodyLines(cols: nat, c: Content, rows: nat)
    ensures |Body(cols, c, rows)| == rows && forall i | 0 <= i < rows :: Body(cols, c, rows)[i] == BodyLine(cols, c, i)
  {
    hide BodyLine;
    if rows > 0 {
      BodyLines(cols, c, rows - 1);
    }
  }

  // ---- What the frame shows ----

  /** The panel holds the leading characters of a text that is too long, or the text and spaces. */
  ghost predicate Shows(panel: Bytes, text: Bytes, width: nat)
    requires WellFormed(text)
  {
    && Wide(panel, width) && (Count(text) >= width ==> panel <= text)
    && (Count(text) < width ==> panel == text + Repeat([0x20], width - Count(text)))
  }

  lemma PaddedShows(text: Bytes, width: nat)
    requires WellFormed(text) && NEWLINE !in text
    ensures Shows(Padded(text, width), text, width)
  {
    hide Wide, WellFormed, Count, Padded, Repeat;
    WidePadded(text, width);
    PaddingIsExact(text, width);
  }

  /** Two fifths of the inner width, but at least 18 columns; the rest is for the right panel. */
  lemma PanelWidths(cols: nat)
    ensures var inner := if cols < 40 then 37 else cols - 3;
            && LeftWidth(cols) == (if inner * 2 / 5 < 18 then 18 else inner * 2 / 5)
            && RightWidth(cols) == inner - LeftWidth(cols) >= 18
  {
  }

  /** Row `row` of every frame, between vertical bars: on the left the snapshot's row, on the right
      the event that is `row` places from the newest; blank past the data. */
  lemma RowShows(cols: nat, rows: nat, c: Content, row: nat) returns (left: Bytes, right: Bytes)
    requires Displayable(c) && row < (if rows < 12 then 8 else rows - 4)
    ensures |FrameLines(cols, rows, c)| > row + 1
    ensures FrameLines(cols, rows, c)[row + 1]
         == [0xE2, 0x94, 0x82] + left + [0xE2, 0x94, 0x82] + right + [0xE2, 0x94, 0x82]
    ensures if row < |c.snapshot| then Shows(left, c.snapshot[row], LeftWidth(cols))
            else left == Repeat([0x20], LeftWidth(cols))
    ensures if row < |c.events| then Shows(right, c.events[|c.events| - 1 - row], RightWidth(cols))
            else right == Repeat([0x20], RightWidth(cols))
  {
    hide Wide, Header, Divider, Bar, Bottom, Padded, Shows, LeftWidth, RightWidth, Repeat, FrameLines;
    LinesAt(cols, rows, c);
    var l, r := LeftText(c, row), RightText(c, row);
    left, right := Padded(l, LeftWidth(cols)), Padded(r, RightWidth(cols));
    TextShows(l, LeftWidth(cols));
    TextShows(r, RightWidth(cols));
    assert FrameLines(cols, rows, c)[row + 1] == BodyLine(cols, c, row);
  }

  lemma NoRepeat(fill: Bytes)
    ensures Repeat(fill, 0) == []
  {
  }

  lemma TextShows(text: Bytes, width: nat)
    requires WellFormed(text) && NEWLINE !in text
    ensures Shows(Padded(text, width), text, width)
    ensures text == [] ==> Padded(text, width) == Repeat([0x20], width)
  {
    hide Wide, WellFormed, Count, Padded, Repeat, Shows;
    PaddedShows(text, width);
    if text == [] {
      CountNothing(text);
      PaddingIsExact(text, width);
      NoRepeat([0x20]);
      assert text + Repeat([0x20], width) == Repeat([0x20], width);
    }
  }

  /** A title between two runs of the horizontal line, the second as long as the first or one
      longer, together as wide as the panel or the title. */
  ghost predicate Titled(part: Bytes, title: string, width: nat)
    requires ByteText(title)
  {
    exists n: nat, m: nat ::
      && part == Repeat([0xE2, 0x94, 0x80], n) + Encoded(title) + Repeat([0xE2, 0x94, 0x80], m)
      && n <= m <= n + 1 && n + |title| + m == if width < |title| then |title| else width
  }

  lemma TitlePartIsTitled(title: string, width: nat)
    requires ByteText(title) && |title| == 21
    ensures Titled(TitlePart(Encoded(title), width), title, width)
  {
    hide Repeat, Encoded;
    var n := Fill(width) / 2;
    var m := Fill(width) - n;
    assert TitlePart(Encoded(title), width)
        == Repeat([0xE2, 0x94, 0x80], n) + Encoded(title) + Repeat([0xE2, 0x94, 0x80], m);
  }

  lemma LinesAt(cols: nat, rows: nat, c: Content)
    ensures var lines, n := FrameLines(cols, rows, c), Max(rows, 12);
            && |lines| == n && lines[0] == Header(cols)
            && lines[n - 3] == Divider(cols) && lines[n - 2] == Bar(cols, c) && lines[n - 1] == Bottom(cols)
            && forall row | 0 <= row < n - 4 :: lines[row + 1] == BodyLine(cols, c, row)
  {
    hide Header, Divider, Bar, Bottom, BodyLine, Body;
    BodyLines(cols, c, Rows(rows) - 4);
  }

  /** The first line and the last three: the titles over their panels, the line under the panels,
      the scenario bar over the whole inner width, and the bottom line. */
  lemma BordersShow(cols: nat, rows: nat, c: Content) returns (l: Bytes, r: Bytes, bar: Bytes)
    requires Displayable(c)
    ensures Titled(l, " SAFETY MEMORY STATE ", LeftWidth(cols)) && Titled(r, " KERNEL EVENT STREAM ", RightWidth(cols))
    ensures Shows(bar, c.bar, if cols < 40 then 38 else cols - 2)
    ensures var lines := FrameLines(cols, rows, c);
            var line, n := [0xE2, 0x94, 0x80], |lines|;
            && n >= 4 && lines[0] == [0xE2, 0x94, 0x8C] + l + [0xE2, 0x94, 0xAC] + r + [0xE2, 0x94, 0x90]
            && lines[n - 3] == [0xE2, 0x94, 0x9C] + Repeat(line, LeftWidth(cols)) + [0xE2, 0x94, 0xB4]
                               + Repeat(line, RightWidth(cols)) + [0xE2, 0x94, 0xA4]
            && lines[n - 2] == [0xE2, 0x94, 0x82] + bar + [0xE2, 0x94, 0x82]
            && lines[n - 1] == [0xE2, 0x94, 0x94] + Repeat(line, if cols < 40 then 38 else cols - 2)
                               + [0xE2, 0x94, 0x98]
  {
    hide Wide, Titled, TitlePart, Padded, Shows, LeftWidth, RightWidth, BodyLine, Repeat, Encoded, FrameLines;
    l, r := TitlePart(LEFT_TITLE, LeftWidth(cols)), TitlePart(RIGHT_TITLE, RightWidth(cols));
    TitlePartIsTitled(" SAFETY MEMORY STATE ", LeftWidth(cols));
    TitlePartIsTitled(" KERNEL EVENT STREAM ", RightWidth(cols));
    InnerWidth(cols);
    bar := Padded(c.bar, LeftWidth(cols) + RightWidth(cols) + 1);
    PaddedShows(c.bar, LeftWidth(cols) + RightWidth(cols) + 1);
    LinesAt(cols, rows, c);
  }

  lemma InnerWidth(cols: nat)
    ensures LeftWidth(cols) + RightWidth(cols) + 1 == if cols < 40 then 38 else cols - 2
  {
  }

  /** For every terminal size and displayable content the frame has max(rows, 12) lines, and every
      line below the header is exactly max(cols, 40) characters wide; so is the header if and
      only if the terminal has at least 56 columns. */
  lemma FrameGeometry(cols: nat, rows: nat, c: Content)
    requires Displayable(c)
    ensures var lines := FrameLines(cols, rows, c);
            && |lines| == Max(rows, 12)
            && (forall i | 1 <= i < |lines| :: Wide(lines[i], Max(cols, 40)))
            && (Wide(lines[0], Max(cols, 40)) <==> cols >= 56)
  {
    hide Wide, Header, BodyLine, Divider, Bar, Bottom, Body, Displayable;
    var n := Rows(rows) - 4;
    BodyLines(cols, c, n);
    HeaderWidth(cols);
    FooterWidths(cols, c);
    var lines := FrameLines(cols, rows, c);
    forall i | 1 <= i < |lines|
      ensures Wide(lines[i], Max(cols, MIN_COLS))
    {
      if i <= n {
        BodyWidth(cols, c, i - 1);
        assert lines[i] == BodyLine(cols, c, i - 1);
      }
    }
  }
}
