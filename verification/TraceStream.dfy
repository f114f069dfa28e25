/**
 The monitor's event streamer: trace bytes arrive in reads of any size, events are whole lines.
 */
module TraceStream {
  import opened Text
  import opened Bounded

  const MAX_EVENTS: nat := 100
  const TRACE_MESSAGE_LIMIT: nat := 60

  datatype EventEntry = EventEntry(timestamp: string, source: string, message: string, isWarning: bool, isError: bool)

  // ---- One line ----

  /** `compact_trace_message`: the line from the first demo prefix that occurs in it. */
  function CompactTraceMessage(line: string): string {
    var a, b, c := FindText(line, "mutex_threads:"), FindText(line, "rogue_thread:"), FindText(line, "VIOLATION:");
    if a >= 0 then line[a..] else if b >= 0 then line[b..] else if c >= 0 then line[c..] else line
  }

  /** `substr(0, n)`. */
  function Cut(s: string, n: nat): string {
    if |s| <= n then s else s[..n]
  }

  function TraceEvent(line: string): EventEntry {
    EventEntry("live", "trace", Cut(CompactTraceMessage(line), TRACE_MESSAGE_LIMIT), FindText(line, "WARN") >= 0,
               FindText(line, "FAIL") >= 0 || FindText(line, "VIOLATION") >= 0)
  }

  /** The events of complete lines: blank lines give none. */
  function EventsOf(lines: seq<string>): seq<EventEntry> {
    if lines == [] then []
    else EventOf(lines[0]) + EventsOf(lines[1..])
  }

  function EventOf(line: string): seq<EventEntry> {
    if Trim(line) == "" then [] else [TraceEvent(Trim(line))]
  }

  /** The prefix occurs at `k` and nowhere before. */
  ghost predicate FirstAt(line: string, prefix: string, k: nat) {
    k + |prefix| <= |line| && Occurs(line, prefix, k) && forall j: nat | j < k :: !Occurs(line, prefix, j)
  }

  /** The shown message is the line from its first occurrence of a thread's prefix: of the two
      cooperative threads', else of the rogue thread's, else of a violation; or the whole line. */
  lemma CompactedFrom(line: string) returns (k: nat)
    ensures k <= |line| && CompactTraceMessage(line) == line[k..]
    ensures Contains(line, "mutex_threads:") ==> FirstAt(line, "mutex_threads:", k)
    ensures !Contains(line, "mutex_threads:") && Contains(line, "rogue_thread:") ==> FirstAt(line, "rogue_thread:", k)
    ensures !Contains(line, "mutex_threads:") && !Contains(line, "rogue_thread:") && Contains(line, "VIOLATION:") ==>
              FirstAt(line, "VIOLATION:", k)
    ensures !Contains(line, "mutex_threads:") && !Contains(line, "rogue_thread:") && !Contains(line, "VIOLATION:") ==>
              k == 0
  {
    hide Contains, Occurs, FindText;
    var a, b, c := FindText(line, "mutex_threads:"), FindText(line, "rogue_thread:"), FindText(line, "VIOLATION:");
    k := if a >= 0 then a else if b >= 0 then b else if c >= 0 then c else 0;
    assert line[0..] == line;
  }

  /** The event of a complete line: none for a blank one. Otherwise, for the line without the
      blanks at its ends, the first 60 bytes of the compacted text, a warning exactly if `WARN`
      occurs, an error exactly if `FAIL` or `VIOLATION` does. */
  lemma EventOfLine(line: string) returns (front: string, text: string, back: string, k: nat)
    ensures line == front + text + back && AllBlank(front) && AllBlank(back)
    ensures text != "" ==> text[0] !in " \t\r\n" && text[|text| - 1] !in " \t\r\n"
    ensures text == "" ==> EventOf(line) == []
    ensures text != "" ==>
              && |EventOf(line)| == 1 && k <= |text|
              && var e := EventOf(line)[0];
                 && e.timestamp == "live" && e.source == "trace"
                 && CompactTraceMessage(text) == text[k..]
                 && e.message <= text[k..] && |e.message| == (if |text| - k < 60 then |text| - k else 60)
                 && (e.isWarning <==> Contains(text, "WARN"))
                 && (e.isError <==> Contains(text, "FAIL") || Contains(text, "VIOLATION"))
  {
    hide Trim, CompactTraceMessage, Contains, FindText;
    front, back := TrimIsExact(line);
    text := Trim(line);
    k := CompactedFrom(text);
  }

  // ---- The batch view of a byte sequence ----

  /** The lines that a newline has completed. */
  function CompleteLines(s: string): seq<string>
    decreases |s|
  {
    var n := Find(s, '\n');
    if n < 0 then [] else [s[..n]] + CompleteLines(s[n + 1..])
  }

  /** What follows the last newline. */
  function Rest(s: string): string
    decreases |s|
  {
    var n := Find(s, '\n');
    if n < 0 then s else Rest(s[n + 1..])
  }

  /** Nothing is lost: the complete lines and the rest make up the input, and they are the only
      way to do so. */
  lemma {:induction false} SplitIsExact(s: string)
    ensures s == Unlines(CompleteLines(s)) + Rest(s)
    ensures Lines(CompleteLines(s)) && '\n' !in Rest(s)
    decreases |s|
  {
    hide Unlines;
    var n := Find(s, '\n');
    if n < 0 {
      UnlinesNothing();
    } else {
      hide CompleteLines, Rest, Find;
      var line, later := s[..n], s[n + 1..];
      assert s == line + "\n" + later;
      SplitFirst(line, later);
      SplitIsExact(later);
      UnlinesCons(line, CompleteLines(later));
      Associative(line + "\n", Unlines(CompleteLines(later)), Rest(later));
    }
  }

  lemma {:induction false} SplitIsUnique(lines: seq<string>, rest: string)
    requires Lines(lines) && '\n' !in rest
    ensures CompleteLines(Unlines(lines) + rest) == lines && Rest(Unlines(lines) + rest) == rest
  {
    if lines == [] {
      assert Unlines(lines) + rest == rest;
    } else {
      hide CompleteLines, Rest, Unlines;
      assert lines == [lines[0]] + lines[1..];
      var later := Unlines(lines[1..]) + rest;
      SplitIsUnique(lines[1..], rest);
      UnlinesCons(lines[0], lines[1..]);
      Associative(lines[0] + "\n", Unlines(lines[1..]), rest);
      SplitFirst(lines[0], later);
    }
  }

  lemma SplitFirst(line: string, later: string)
    requires '\n' !in line
    ensures CompleteLines(line + "\n" + later) == [line] + CompleteLines(later)
    ensures Rest(line + "\n" + later) == Rest(later)
  {
    var s := line + "\n" + later;
    assert s == line + ['\n'] + later;
    FindAfter(line, '\n', later);
    assert s[..|line|] == line && s[|line| + 1..] == later;
  }

  /** Splitting in two goes: the rest of the first part is carried over. */
  lemma SplitAppend(a: string, b: string)
    ensures CompleteLines(a + b) == CompleteLines(a) + CompleteLines(Rest(a) + b)
    ensures Rest(a + b) == Rest(Rest(a) + b)
  {
    hide CompleteLines, Rest, Unlines;
    SplitIsExact(a);
    var c := Rest(a) + b;
    SplitIsExact(c);
    var la, lc := CompleteLines(a), CompleteLines(c);
    UnlinesAppend(la, lc);
    Associative(Unlines(la), Rest(a), b);
    Associative(Unlines(la), Unlines(lc), Rest(c));
    assert forall l | l in la + lc :: l in la || l in lc;
    SplitIsUnique(la + lc, Rest(c));
  }

  lemma {:induction false} EventsAppend(a: seq<string>, b: seq<string>)
    ensures EventsOf(a + b) == EventsOf(a) + EventsOf(b)
  {
    hide EventOf;
    if a == [] {
      assert a + b == b;
    } else {
      EventsAppend(a[1..], b);
      assert (a + b)[1..] == a[1..] + b;
    }
  }

  /** Taking the first line off. */
  lemma FirstLineOff(s: string)
    requires Find(s, '\n') >= 0
    ensures var n := Find(s, '\n');
            && EventsOf(CompleteLines(s)) == EventOf(s[..n]) + EventsOf(CompleteLines(s[n + 1..]))
            && Rest(s) == Rest(s[n + 1..])
  {
    hide EventOf, Find, CompleteLines, Rest;
    var n := Find(s, '\n');
    var line, later := s[..n], s[n + 1..];
    SplitFirst(line, later);
    assert s == line + "\n" + later;
    var lines := CompleteLines(later);
    assert ([line] + lines)[0] == line && ([line] + lines)[1..] == lines;
  }

  lemma NoLineLeft(s: string)
    requires Find(s, '\n') < 0
    ensures EventsOf(CompleteLines(s)) == [] && Rest(s) == s
  {
  }

  // ---- The streamer ----

  class EventStreamer {
    var pending: string
    var events: seq<EventEntry>
    /** Every event ever appended. */
    ghost var history: seq<EventEntry>

    ghost predicate Valid()
      reads `events, `history
    {
      events == Last(history, MAX_EVENTS)
    }

    constructor ()
      ensures Valid() && pending == "" && history == []
    {
      pending, events, history := "", [], [];
    }

    /** `append_event`. */
    method AppendEvent(e: EventEntry)
      requires Valid()
      modifies this`events, this`history
      ensures Valid() && history == old(history) + [e]
    {
      events := events + [e];
      history := history + [e];
      if |events| > MAX_EVENTS {
        events := events[1..];
      }
    }

    /** One read of the trace pipe: the buffered bytes are cut at their newlines. */
    method OnRead(chunk: string)
      requires Valid()
      modifies this
      ensures Valid()
      ensures pending == Rest(old(pending) + chunk)
      ensures history == old(history) + EventsOf(CompleteLines(old(pending) + chunk))
    {
      hide EventsOf, CompleteLines, Rest, Find, EventOf, Valid;
      pending := pending + chunk;
      ghost var all := EventsOf(CompleteLines(pending));
      var newline := Find(pending, '\n');
      while newline >= 0
        invariant Valid() && newline == Find(pending, '\n')
        invariant Rest(pending) == Rest(old(pending) + chunk)
        invariant history + EventsOf(CompleteLines(pending)) == old(history) + all
        decreases |pending|
      {
        FirstLineOff(pending);
        AppendThrough(history, EventOf(pending[..newline]), EventsOf(CompleteLines(pending[newline + 1..])));
        TakeLine(newline);
        newline := Find(pending, '\n');
      }
      NoLineLeft(pending);
    }

    /** One iteration: the line up to the newline leaves the buffer and may become an event. */
    method TakeLine(newline: nat)
      requires Valid() && newline < |pending|
      modifies this
      ensures Valid()
      ensures pending == old(pending)[newline + 1..] && history == old(history) + EventOf(old(pending)[..newline])
    {
      hide TraceEvent, Trim, Valid;
      var line := Trim(pending[..newline]);
      pending := pending[newline + 1..];
      if line != "" {
        AppendEvent(TraceEvent(line));
      }
    }
  }

  lemma AppendThrough<T>(a: seq<T>, b: seq<T>, c: seq<T>)
    ensures (a + b) + c == a + (b + c)
  {
  }

  function Concat(chunks: seq<string>): string {
    if chunks == [] then "" else Concat(chunks[..|chunks| - 1]) + chunks[|chunks| - 1]
  }

  function Connected(path: string): EventEntry {
    EventEntry("live", "monitor", "connected to " + path, false, false)
  }

  /** However the byte stream is cut into reads, the displayed events are the last 100 of those
      of the whole stream, and the pending buffer is what follows its last newline. */
  method Stream(path: string, chunks: seq<string>) returns (shown: seq<EventEntry>, pending: string)
    ensures shown == Last([EventEntry("live", "monitor", "connected to " + path, false, false)]
                          + EventsOf(CompleteLines(Concat(chunks))), 100)
    ensures pending == Rest(Concat(chunks))
  {
    hide EventsOf, CompleteLines, Rest, Connected, Concat, Last;
    var streamer := new EventStreamer();
    streamer.AppendEvent(Connected(path));
    assert chunks[..0] == [];
    NothingYet();
    for i := 0 to |chunks|
      invariant streamer.Valid() && fresh(streamer)
      invariant streamer.pending == Rest(Concat(chunks[..i]))
      invariant streamer.history == [Connected(path)] + EventsOf(CompleteLines(Concat(chunks[..i])))
    {
      ReadStep(chunks, i);
      streamer.OnRead(chunks[i]);
    }
    assert chunks[..|chunks|] == chunks;
    ConnectedText(path);
    shown, pending := streamer.events, streamer.pending;
  }

  lemma ReadStep(chunks: seq<string>, i: nat)
    requires i < |chunks|
    ensures var before, after := Concat(chunks[..i]), Concat(chunks[..i + 1]);
            && Rest(after) == Rest(Rest(before) + chunks[i])
            && EventsOf(CompleteLines(after)) ==
               EventsOf(CompleteLines(before)) + EventsOf(CompleteLines(Rest(before) + chunks[i]))
  {
    hide EventsOf, CompleteLines, Rest;
    var before := Concat(chunks[..i]);
    assert chunks[..i + 1][..i] == chunks[..i];
    SplitAppend(before, chunks[i]);
    EventsAppend(CompleteLines(before), CompleteLines(Rest(before) + chunks[i]));
  }

  lemma ConnectedText(path: string)
    ensures Connected(path) == EventEntry("live", "monitor", "connected to " + path, false, false)
  {
  }

  lemma NothingYet()
    ensures Concat([]) == "" && EventsOf(CompleteLines("")) == [] && Rest("") == ""
  {
  }
}
