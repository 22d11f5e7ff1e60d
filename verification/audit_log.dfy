/** `SecurityAuditService`: an append-only log with one encrypted event per
    line, and a reader that returns the most recent events first.

    Serialising and encrypting an event (`encode`) and decrypting and
    deserialising a line (`decode`, None where that yields nothing usable) are
    parameters: they wrap AES and JSON, which are not part of this model. The
    log file is the sequence of its lines as `File.ReadAllLines` returns them,
    or None when it is missing or cannot be read. */
module AuditLog {
  import opened Wrappers

  /** The entity written to the log. */
  datatype SecurityEvent = SecurityEvent(
    id: nat, timestamp: int, eventType: string, username: string,
    message: string, ipAddress: string, success: bool)

  /** What a call site hands to `LogEventAsync`. */
  datatype AuditNote = AuditNote(eventType: string, username: string, message: string, success: bool)

  type LogFile = Option<seq<string>>

  /** The default `count` of `GetRecentEventsAsync`. */
  const DefaultRecentCount: int := 100

  function Lines(file: LogFile): seq<string> {
    match file
    case None => []
    case Some(lines) => lines
  }

  /** `LogEventAsync` builds the event from the note, a fresh id, the clock and
      the machine name. */
  function MakeEvent(note: AuditNote, id: nat, now: int, machine: string): (e: SecurityEvent)
    ensures e.eventType == note.eventType && e.username == note.username
    ensures e.message == note.message && e.success == note.success
    ensures e.timestamp == now && e.ipAddress == machine && e.id == id
  {
    SecurityEvent(id, now, note.eventType, note.username, note.message, machine, note.success)
  }

  /** `AppendToLogAsync`: one line per event. `writeOk` is whether the file
      system accepted the write; a failed write is swallowed and leaves the file
      as it was, and nothing reaches the caller either way. */
  function AppendToLog(file: LogFile, e: SecurityEvent, encode: SecurityEvent -> string, writeOk: bool): (file': LogFile)
    ensures !writeOk ==> file' == file
    ensures writeOk ==> file'.Some? && Lines(file') == Lines(file) + [encode(e)]
  {
    if writeOk then Some(Lines(file) + [encode(e)]) else file
  }

  /** `LogEventAsync(note)`. */
  function LogEvent(file: LogFile, note: AuditNote, id: nat, now: int, machine: string,
                    encode: SecurityEvent -> string, writeOk: bool): (file': LogFile)
    ensures writeOk ==> Lines(file') == Lines(file) + [encode(MakeEvent(note, id, now, machine))]
    ensures writeOk ==> |Lines(file')| == |Lines(file)| + 1
    ensures !writeOk ==> file' == file
  {
    AppendToLog(file, MakeEvent(note, id, now, machine), encode, writeOk)
  }

  /** Appends every event in order; all writes succeed. */
  function AppendAll(file: LogFile, es: seq<SecurityEvent>, encode: SecurityEvent -> string): (file': LogFile)
    ensures |Lines(file')| == |Lines(file)| + |es|
    decreases |es|
  {
    if |es| == 0 then file
    else AppendToLog(AppendAll(file, es[..|es| - 1], encode), es[|es| - 1], encode, true)
  }

  /** Reference reading: the events of the lines in file order, skipping empty
      lines and lines that decode to nothing. */
  function DecodedEvents(lines: seq<string>, decode: string -> Option<SecurityEvent>): seq<SecurityEvent>
    decreases |lines|
  {
    if |lines| == 0 then []
    else
      var front := DecodedEvents(lines[..|lines| - 1], decode);
      var last := lines[|lines| - 1];
      if |last| == 0 then front
      else match decode(last)
        case None => front
        case Some(e) => front + [e]
  }

  function Reverse<T>(s: seq<T>): (r: seq<T>)
    ensures |r| == |s|
    ensures forall i :: 0 <= i < |s| ==> r[i] == s[|s| - 1 - i]
  {
    if |s| == 0 then [] else [s[|s| - 1]] + Reverse(s[..|s| - 1])
  }

  /** The first `n` elements, or all of them; nothing for `n <= 0`. */
  function Take<T>(s: seq<T>, n: int): (r: seq<T>)
    ensures |r| == if n <= 0 then 0 else if n < |s| then n else |s|
    ensures forall i :: 0 <= i < |r| ==> r[i] == s[i]
  {
    if n <= 0 then [] else if n < |s| then s[..n] else s
  }

  /** What `GetRecentEventsAsync(count)` returns: the newest `count` events,
      newest first. */
  function RecentEvents(file: LogFile, count: int, decode: string -> Option<SecurityEvent>): seq<SecurityEvent> {
    Take(Reverse(DecodedEvents(Lines(file), decode)), count)
  }

  /** Decoding the lines `lines[..i]` and reversing equals reading them backwards. */
  lemma {:induction false} ReverseDecodedStep(lines: seq<string>, i: nat, decode: string -> Option<SecurityEvent>)
    requires 0 < i <= |lines|
    ensures Reverse(DecodedEvents(lines[..i], decode)) ==
      (if |lines[i - 1]| == 0 || decode(lines[i - 1]).None? then []
       else [decode(lines[i - 1]).value]) + Reverse(DecodedEvents(lines[..i - 1], decode))
  {
    assert lines[..i][..i - 1] == lines[..i - 1];
    var front := DecodedEvents(lines[..i - 1], decode);
    if |lines[i - 1]| != 0 && decode(lines[i - 1]).Some? {
      var e := decode(lines[i - 1]).value;
      assert (front + [e])[..|front|] == front;
    }
  }

  /** Taking from a longer sequence agrees with taking from its prefix. */
  lemma TakePrefix<T>(s: seq<T>, t: seq<T>, n: int)
    requires 0 <= n <= |s|
    ensures Take(s + t, n) == Take(s, n)
  {
    if n > 0 && n < |s| {
      assert (s + t)[..n] == s[..n];
    } else if n > 0 {
      assert (s + t)[..n] == s;
    }
  }

  /** One step of the backwards scan: reading line `i` either adds its event
      to the collected ones or skips it, and the collected events followed by
      the reading of the lines before `i` still make up the whole reading. */
  lemma ScanStep(lines: seq<string>, i: nat, events: seq<SecurityEvent>, decode: string -> Option<SecurityEvent>)
    requires i < |lines|
    requires events + Reverse(DecodedEvents(lines[..i + 1], decode)) == Reverse(DecodedEvents(lines, decode))
    ensures |lines[i]| == 0 || decode(lines[i]).None? ==>
      events + Reverse(DecodedEvents(lines[..i], decode)) == Reverse(DecodedEvents(lines, decode))
    ensures |lines[i]| != 0 && decode(lines[i]).Some? ==>
      (events + [decode(lines[i]).value]) + Reverse(DecodedEvents(lines[..i], decode)) == Reverse(DecodedEvents(lines, decode))
  {
    ReverseDecodedStep(lines, i + 1, decode);
    if |lines[i]| != 0 && decode(lines[i]).Some? {
      var rest := Reverse(DecodedEvents(lines[..i], decode));
      assert (events + [decode(lines[i]).value]) + rest == events + ([decode(lines[i]).value] + rest);
    }
  }

  /** Where the scan stops, the collected events are the newest `count` of the
      whole reading. */
  lemma ScanResult(lines: seq<string>, i: nat, events: seq<SecurityEvent>, count: int, decode: string -> Option<SecurityEvent>)
    requires i <= |lines|
    requires |events| <= if count < 0 then 0 else count
    requires i == 0 || |events| >= count
    requires events + Reverse(DecodedEvents(lines[..i], decode)) == Reverse(DecodedEvents(lines, decode))
    ensures events == Take(Reverse(DecodedEvents(lines, decode)), count)
  {
    var rest := Reverse(DecodedEvents(lines[..i], decode));
    if i == 0 {
      assert lines[..0] == [];
      assert events + [] == events;
    } else if count <= 0 {
      assert events == [];
    } else {
      assert |events| == count;
      TakePrefix(events, rest, count);
    }
  }

  /** `GetRecentEventsAsync(count)`: scans the lines from last to first while
      fewer than `count` events are collected, skipping empty and undecodable
      lines without stopping. */
  method GetRecentEvents(file: LogFile, count: int, decode: string -> Option<SecurityEvent>)
    returns (events: seq<SecurityEvent>)
    ensures file.None? ==> events == []
    ensures |events| <= if count < 0 then 0 else count
    ensures events == RecentEvents(file, count, decode)
  {
    events := [];
    if file.None? {
      return;
    }
    var lines := file.value;
    var i := |lines|;
    assert lines[..i] == lines;
    while i > 0 && |events| < count
      invariant 0 <= i <= |lines|
      invariant |events| <= if count < 0 then 0 else count
      invariant events + Reverse(DecodedEvents(lines[..i], decode)) == Reverse(DecodedEvents(lines, decode))
      decreases i
    {
      i := i - 1;
      ScanStep(lines, i, events, decode);
      var line := lines[i];
      if |line| != 0 {
        match decode(line) {
          case None =>
          case Some(e) =>
            events := events + [e];
        }
      }
    }
    ScanResult(lines, i, events, count, decode);
  }

  /** `GetRecentEventsAsync()` with the default count. */
  method GetRecentEventsDefault(file: LogFile, decode: string -> Option<SecurityEvent>)
    returns (events: seq<SecurityEvent>)
    ensures |events| <= DefaultRecentCount
    ensures events == RecentEvents(file, DefaultRecentCount, decode)
  {
    events := GetRecentEvents(file, DefaultRecentCount, decode);
  }

  /** Encoding is lossless and never produces an empty line. */
  ghost predicate RoundTrips(encode: SecurityEvent -> string, decode: string -> Option<SecurityEvent>) {
    forall e :: |encode(e)| > 0 && decode(encode(e)) == Some(e)
  }

  /** Reading one more line adds its event, when it has one. */
  lemma DecodedEventsSnoc(lines: seq<string>, line: string, decode: string -> Option<SecurityEvent>)
    ensures DecodedEvents(lines + [line], decode) ==
      DecodedEvents(lines, decode) + (if |line| == 0 || decode(line).None? then [] else [decode(line).value])
  {
    assert (lines + [line])[..|lines|] == lines;
    if |line| == 0 || decode(line).None? {
      assert DecodedEvents(lines, decode) + [] == DecodedEvents(lines, decode);
    }
  }

  /** One successful append of a losslessly encoded event adds it to the end
      of the reference reading. */
  lemma AppendOneDecodes(file: LogFile, e: SecurityEvent,
                         encode: SecurityEvent -> string, decode: string -> Option<SecurityEvent>)
    requires |encode(e)| > 0 && decode(encode(e)) == Some(e)
    ensures DecodedEvents(Lines(AppendToLog(file, e, encode, true)), decode) == DecodedEvents(Lines(file), decode) + [e]
  {
    DecodedEventsSnoc(Lines(file), encode(e), decode);
  }

  /** Appending events adds them, decoded, to the end of the reference reading. */
  lemma {:induction false} AppendAllDecodes(file: LogFile, es: seq<SecurityEvent>,
                                            encode: SecurityEvent -> string, decode: string -> Option<SecurityEvent>)
    requires RoundTrips(encode, decode)
    ensures DecodedEvents(Lines(AppendAll(file, es, encode)), decode) == DecodedEvents(Lines(file), decode) + es
    decreases |es|
  {
    var earlier := DecodedEvents(Lines(file), decode);
    if |es| == 0 {
      assert earlier + es == earlier;
    } else {
      var before := es[..|es| - 1];
      var e := es[|es| - 1];
      var mid := AppendAll(file, before, encode);
      AppendAllDecodes(file, before, encode, decode);
      AppendOneDecodes(mid, e, encode, decode);
      assert AppendAll(file, es, encode) == AppendToLog(mid, e, encode, true);
      assert es == before + [e];
      assert (earlier + before) + [e] == earlier + es;
    }
  }

  /** Reversing a concatenation swaps and reverses its parts. */
  lemma ReverseConcat<T>(a: seq<T>, b: seq<T>)
    ensures Reverse(a + b) == Reverse(b) + Reverse(a)
  {
  }

  /** After `n` successful appends to a fresh log, a read of `count` returns the
      last min(count, n) events appended, newest first. */
  lemma ReadAfterAppends(es: seq<SecurityEvent>, count: int,
                         encode: SecurityEvent -> string, decode: string -> Option<SecurityEvent>)
    requires RoundTrips(encode, decode)
    ensures RecentEvents(AppendAll(None, es, encode), count, decode) == Take(Reverse(es), count)
    ensures |RecentEvents(AppendAll(None, es, encode), count, decode)|
            == if count <= 0 then 0 else if count < |es| then count else |es|
  {
    AppendAllDecodes(None, es, encode, decode);
    assert DecodedEvents(Lines(None), decode) == [];
    assert [] + es == es;
  }

  /** On a log that already holds lines, the newly appended events come first,
      newest first, ahead of everything older. */
  lemma ReadAfterAppendsOnExistingLog(file: LogFile, es: seq<SecurityEvent>, count: int,
                                      encode: SecurityEvent -> string, decode: string -> Option<SecurityEvent>)
    requires RoundTrips(encode, decode)
    ensures RecentEvents(AppendAll(file, es, encode), count, decode)
            == Take(Reverse(es) + Reverse(DecodedEvents(Lines(file), decode)), count)
  {
    AppendAllDecodes(file, es, encode, decode);
    ReverseConcat(DecodedEvents(Lines(file), decode), es);
  }
}
