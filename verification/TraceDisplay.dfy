/**
 Which trace lines the frame can show: the 60-byte limit on messages counts bytes, the frame
 needs whole characters.
 */
module TraceDisplay {
  import opened Text
  import opened TraceStream
  import opened Utf8

  /** Bytes that are well-formed UTF-8. */
  ghost predicate Proper(s: string) {
    ByteText(s) && WellFormed(Encoded(s))
  }

  /** A byte that only continues a character. */
  predicate Continues(c: char) {
    0x80 <= c as int <= 0xBF
  }

  lemma ContinuesIsTail(c: char)
    requires c as int < 256
    ensures Continues(c) <==> Tail((c as int) as bv8)
  {
  }

  lemma ProperCut(s: string, n: nat)
    requires Proper(s) && n < |s|
    ensures Proper(s[..n]) <==> !Continues(s[n])
    ensures Proper(s[n..]) <==> !Continues(s[n])
  {
    hide WellFormed, Tail, Continues;
    ContinuesIsTail(s[n]);
    CutKeepsIff(Encoded(s), n);
    assert Encoded(s[..n]) == Encoded(s)[..n];
    assert Encoded(s[n..]) == Encoded(s)[n..];
  }

  lemma ProperAppend(a: string, b: string)
    requires Proper(a)
    ensures Proper(a + b) <==> Proper(b)
  {
    hide WellFormed;
    if ByteText(b) {
      AppendKeepsIff(Encoded(a), Encoded(b));
      assert Encoded(a + b) == Encoded(a) + Encoded(b);
    } else {
      var i :| 0 <= i < |b| && b[i] as int >= 256;
      assert (a + b)[|a| + i] == b[i];
    }
  }

  lemma {:induction false} AsciiIsProper(s: string)
    requires forall i | 0 <= i < |s| :: s[i] as int < 128
    ensures Proper(s)
  {
    hide WellFormed, Count, CharLength;
    if s == [] {
      CountNothing(Encoded(s));
    } else {
      AsciiIsProper(s[1..]);
      AsciiCharacter(Encoded(s));
      CountUnfold(Encoded(s));
      assert Encoded(s)[1..] == Encoded(s[1..]);
    }
  }

  lemma AsciiCharacter(b: Bytes)
    requires b != [] && b[0] <= 0x7F
    ensures CharLength(b) == 1
  {
  }

  // ---- Trimming and compacting cut between characters ----

  lemma {:induction false} TrimLeftProper(s: string)
    requires Proper(s)
    ensures Proper(TrimLeft(s)) && forall c | c in TrimLeft(s) :: c in s
  {
    hide Proper;
    if s != [] && Blank(s[0]) {
      AfterBlank(s);
      TrimLeftProper(s[1..]);
    }
  }

  lemma AfterBlank(s: string)
    requires Proper(s) && s != [] && Blank(s[0])
    ensures Proper(s[1..])
  {
    hide WellFormed, Count, CharLength;
    AsciiCharacter(Encoded(s));
    CountUnfold(Encoded(s));
    assert Encoded(s)[1..] == Encoded(s[1..]);
  }

  lemma {:induction false} TrimRightProper(s: string)
    requires Proper(s)
    ensures Proper(TrimRight(s)) && forall c | c in TrimRight(s) :: c in s
  {
    hide Proper;
    if s != [] && Blank(s[|s| - 1]) {
      ProperCut(s, |s| - 1);
      TrimRightProper(s[..|s| - 1]);
    }
  }

  lemma OccurrenceProper(s: string, needle: string, i: nat)
    requires Proper(s) && needle != [] && !Continues(needle[0]) && i + |needle| <= |s| && Occurs(s, needle, i)
    ensures Proper(s[i..])
  {
    hide Proper;
    assert s[i] == s[i..i + |needle|][0];
    ProperCut(s, i);
  }

  lemma CompactProper(s: string)
    requires Proper(s)
    ensures Proper(CompactTraceMessage(s)) && forall c | c in CompactTraceMessage(s) :: c in s
  {
    hide Proper, Contains;
    var a, b, c := FindText(s, "mutex_threads:"), FindText(s, "rogue_thread:"), FindText(s, "VIOLATION:");
    if a >= 0 {
      OccurrenceProper(s, "mutex_threads:", a);
    } else if b >= 0 {
      OccurrenceProper(s, "rogue_thread:", b);
    } else if c >= 0 {
      OccurrenceProper(s, "VIOLATION:", c);
    }
  }

  // ---- The row of an event ----

  /** What the renderer shows for an event. */
  function EventRow(e: EventEntry): string {
    " [" + e.timestamp + "] " + e.source + ": " + e.message
  }

  /** The limit falls between characters. */
  predicate LimitFits(message: string) {
    |message| <= TRACE_MESSAGE_LIMIT || !Continues(message[TRACE_MESSAGE_LIMIT])
  }

  lemma RowFront(message: string)
    ensures var front := " [" + "live" + "] " + "trace" + ": "; Proper(front + message) <==> Proper(message)
  {
    hide Proper;
    var front := " [" + "live" + "] " + "trace" + ": ";
    AsciiIsProper(front);
    ProperAppend(front, message);
  }

  lemma CutMessageProper(message: string)
    requires Proper(message)
    ensures Proper(Cut(message, TRACE_MESSAGE_LIMIT)) <==> LimitFits(message)
  {
    hide Proper, Continues;
    if |message| > TRACE_MESSAGE_LIMIT {
      ProperCut(message, TRACE_MESSAGE_LIMIT);
    }
  }

  lemma RowOfTrace(line: string)
    ensures EventRow(TraceEvent(line)) ==
            " [" + "live" + "] " + "trace" + ": " + Cut(CompactTraceMessage(line), TRACE_MESSAGE_LIMIT)
  {
  }

  /** The row of a well-formed trace line is well-formed, and so displayable in the sense of
      `FrameGeometry`, exactly when byte 60 of the compacted message, if there is one, does not
      continue a character. */
  lemma TraceRowDisplayableIff(line: string)
    requires Proper(line) && '\n' !in line
    ensures var message, row := CompactTraceMessage(Trim(line)), EventRow(TraceEvent(Trim(line)));
            Proper(message) && '\n' !in row && (Proper(row) <==> LimitFits(message))
  {
    hide Proper, LimitFits, CompactTraceMessage, TrimLeft, TrimRight, EventRow, TraceEvent;
    TrimLeftProper(line);
    TrimRightProper(TrimLeft(line));
    CompactProper(Trim(line));
    var message := CompactTraceMessage(Trim(line));
    CutMessageProper(message);
    RowFront(Cut(message, TRACE_MESSAGE_LIMIT));
    RowOfTrace(Trim(line));
    assert forall c | c in message :: c in line;
  }

  /** The start of a message: 14 bytes of prefix and `n` more. */
  function Filler(n: nat): string {
    "mutex_threads:" + seq(n, _ => 'x')
  }

  /** A message of 59 ASCII bytes and the two of U+00E9 is cut in the middle of that character. */
  lemma LimitCanCutCharacter() returns (line: string)
    ensures Proper(line) && '\n' !in line && |line| == 61 && !Proper(EventRow(TraceEvent(Trim(line))))
  {
    hide Proper, Contains, EventRow, TraceEvent;
    var accent := [0xC3 as char, 0xA9 as char];
    line := Filler(45) + accent;
    AsciiIsProper(Filler(45));
    AccentIsProper(accent);
    ProperAppend(Filler(45), accent);
    assert line[..14] == "mutex_threads:" && line[0] == 'm' && line[60] == accent[1];
    TrimKeeps(line);
    assert Occurs(line, "mutex_threads:", 0);
    assert Contains(line, "mutex_threads:") by { FoundAt(line, "mutex_threads:"); }
    assert FindText(line, "mutex_threads:") == 0;
    assert CompactTraceMessage(line) == line;
    TraceRowDisplayableIff(line);
  }

  lemma FoundAt(text: string, needle: string)
    requires |needle| <= |text| && Occurs(text, needle, 0)
    ensures Contains(text, needle)
  {
  }

  lemma AccentIsProper(s: string)
    requires s == [0xC3 as char, 0xA9 as char]
    ensures Proper(s)
  {
    var b := Encoded(s);
    assert b[0] == 0xC3 && b[1] == 0xA9;
    assert CharLength(b) == 2 && b[2..] == [];
  }
}
