/** The log file: its lines, how it is read back, and the `Log` object that appends to it. */
module AuditLog {
  import opened Basics
  import opened Json
  import opened JsonValue
  import opened AuditEvent
  import opened AuditChain

  // ----- text and lines -----------------------------------------------------

  /** `str::lines`: a line ends at a line feed, which takes a carriage return before it along. */
  function Lines(text: string): seq<string>
    decreases |text|
  {
    if text == "" then []
    else
      var (line, rest) := Cut(text, '\n');
      match rest
      case None => [line]
      case Some(more) => [StripReturn(line)] + Lines(more)
  }

  function StripReturn(line: string): string {
    if line != "" && line[|line| - 1] == '\r' then line[..|line| - 1] else line
  }

  predicate IsBlank(line: string) {
    Trim(line) == ""
  }

  datatype AuditError = Io | Crypto | Serde

  /** The events on the non-blank lines, or an error if one of them does not decode. */
  function ReadLines(lines: seq<string>): Result<seq<Event>, AuditError> {
    if lines == [] then Ok([])
    else
      var init := ReadLines(lines[..|lines| - 1]);
      var line := lines[|lines| - 1];
      if init.Err? || IsBlank(line) then init
      else match Decode(line)
           case None => Err(Serde)
           case Some(e) => Ok(init.value + [e])
  }

  function TextOf(content: Option<string>): string {
    if content.None? then "" else content.value
  }

  function ReadText(text: string): Result<seq<Event>, AuditError> {
    ReadLines(Lines(text))
  }

  /** A line runs to its line feed or the end of the text; a carriage return right before the feed is no part of it. */
  lemma LinesExact(a: string, rest: string)
    requires '\n' !in a
    ensures Lines("") == []
    ensures a != "" ==> Lines(a) == [a]
    ensures Lines(a + "\n" + rest)
         == [if a != "" && a[|a| - 1] == '\r' then a[..|a| - 1] else a] + Lines(rest)
  {
    CutNone(a, '\n');
    CutAt(a, '\n', rest);
    assert a + "\n" + rest == a + ['\n'] + rest;
  }

  /** A line of nothing but spaces is passed over, by the reader and on resuming. */
  lemma BlankPassed(lines: seq<string>, line: string)
    requires forall k | 0 <= k < |line| :: IsSpace(line[k])
    ensures ReadLines(lines + [line]) == ReadLines(lines)
    ensures LastLineHash(lines + [line]) == LastLineHash(lines)
  {
    BlankExact(line);
    assert (lines + [line])[..|lines|] == lines;
    hide Decode, Trim;
  }

  /** Only the last non-blank line is decoded. */
  function LastLineHash(lines: seq<string>): Result<string, AuditError> {
    if lines == [] then Ok(GENESIS)
    else if IsBlank(lines[|lines| - 1]) then LastLineHash(lines[..|lines| - 1])
    else match Decode(lines[|lines| - 1])
         case None => Err(Serde)
         case Some(e) => Ok(e.hash)
  }

  /** On any text that reads back at all, resuming finds the hash of the last event read. */
  lemma {:induction false} ResumeAgrees(lines: seq<string>)
    requires ReadLines(lines).Ok?
    ensures LastLineHash(lines) == Ok(LastHash(ReadLines(lines).value, GENESIS))
  {
    if lines != [] {
      if IsBlank(lines[|lines| - 1]) {
        ResumeAgrees(lines[..|lines| - 1]);
      }
    }
  }

  // ----- JSONL round trip -----------------------------------------------------

  /** What appending these events one after the other leaves in the file. */
  function FileText(es: seq<Event>): string {
    if es == [] then "" else FileText(es[..|es| - 1]) + Encode(es[|es| - 1]) + "\n"
  }

  predicate EndsLine(text: string) {
    text == "" || text[|text| - 1] == '\n'
  }

  lemma {:induction false} LinesSnoc(text: string, line: string)
    requires EndsLine(text)
    requires OneLine(line) && line != "" && '\n' !in line
    ensures Lines(text + line + "\n") == Lines(text) + [line]
    decreases |text|
  {
    var all := text + line + "\n";
    if text == "" {
      assert all == line + ['\n'] + "";
      CutAt(line, '\n', "");
    } else {
      var (head, rest) := Cut(text, '\n');
      CutJoins(text, '\n');
      if rest.Some? {
        assert rest.value == "" || rest.value[|rest.value| - 1] == text[|text| - 1];
        assert all == head + ['\n'] + (rest.value + line + "\n");
        CutAt(head, '\n', rest.value + line + "\n");
        LinesSnoc(rest.value, line);
      }
    }
  }

  lemma EncodedLine(e: Event)
    ensures '\n' !in Encode(e) && OneLine(Encode(e)) && Encode(e) != "" && !IsBlank(Encode(e))
  {
    EncodeOneLine(e);
    var s := Encode(e);
    assert !IsSpace(s[0]);
    assert TrimStart(s) == s;
    var t := TrimEnd(s);
    assert t != "" by {
      TrimEndKeepsFirst(s);
    }
  }

  lemma {:induction false} TrimEndKeepsFirst(s: string)
    requires s != "" && !IsSpace(s[0])
    ensures TrimEnd(s) != ""
  {
    if |s| > 1 {
      TrimEndKeepsFirst(s[..|s| - 1]);
    }
  }

  lemma FeedEnds(text: string, line: string)
    ensures EndsLine(text + line + "\n")
  {
  }

  lemma {:induction false} FileLines(es: seq<Event>)
    ensures EndsLine(FileText(es))
    ensures |Lines(FileText(es))| == |es|
    ensures forall k | 0 <= k < |es| :: Lines(FileText(es))[k] == Encode(es[k])
  {
    hide Lines, Encode, OneLine, IsBlank;
    if es == [] {
      NoLines();
    } else {
      var init, e := es[..|es| - 1], es[|es| - 1];
      var text := FileText(init);
      assert FileText(es) == text + Encode(e) + "\n";
      hide EndsLine, FileText;
      FileLines(init);
      EncodedLine(e);
      FeedEnds(text, Encode(e));
      LinesSnoc(text, Encode(e));
      forall k | 0 <= k < |es| ensures (Lines(text) + [Encode(e)])[k] == Encode(es[k]) {
        if k < |init| { assert init[k] == es[k]; }
      }
    }
  }

  /** Appending an event appends its line. */
  lemma TextSnoc(es: seq<Event>, e: Event)
    ensures FileText(es + [e]) == FileText(es) + Encode(e) + "\n"
    ensures Lines(FileText(es + [e])) == Lines(FileText(es)) + [Encode(e)]
  {
    assert (es + [e])[..|es|] == es;
    FileLines(es);
    EncodedLine(e);
    LinesSnoc(FileText(es), Encode(e));
    hide Lines, OneLine, IsBlank, Encode;
  }

  /** What one more line that is not blank makes of the reading. */
  lemma ReadSnoc(lines: seq<string>, line: string)
    requires !IsBlank(line)
    ensures ReadLines(lines + [line])
         == if ReadLines(lines).Err? then ReadLines(lines)
            else match Decode(line)
                 case None => Err(Serde)
                 case Some(e) => Ok(ReadLines(lines).value + [e])
  {
    hide IsBlank, Decode;
    assert (lines + [line])[..|lines|] == lines;
  }

  /**
   The JSONL round trip. Reading the file back returns the events in order exactly when every one of
   them nests within the reader's limit; a single deeper event makes the whole file unreadable.
   */
  lemma {:induction false} ReadBack(es: seq<Event>)
    ensures ReadText(FileText(es)) == if forall e | e in es :: Readable(e) then Ok(es) else Err(Serde)
  {
    if es != [] {
      hide Readable, IsBlank, Decode, Encode, Lines, FileText, ReadLines, OneLine;
      var init, e := es[..|es| - 1], es[|es| - 1];
      SplitLast(es);
      ReadBack(init);
      TextSnoc(init, e);
      EncodedLine(e);
      ReadSnoc(Lines(FileText(init)), Encode(e));
      DecodeEncode(e);
    }
  }

  /** An array in an array, and so on. */
  function Nest(n: nat): (v: Value)
    ensures Depth(v) == n
  {
    if n == 0 then Null
    else
      var inner := [Nest(n - 1)];
      assert ItemsDepth(inner) == Depth(inner[0]) by { assert inner[1..] == []; }
      Array(inner)
  }

  /** One bracket too many: a line that was written and cannot be read, while one bracket less can. */
  lemma DeepEventSpoils(e: Event)
    requires Depth(e.target) < DEPTH_LIMIT
    ensures ReadText(FileText([e.(meta := Nest(127))])) == Err(Serde)
    ensures ReadText(FileText([e.(meta := Nest(126))])) == Ok([e.(meta := Nest(126))])
  {
    var deep, shallow := e.(meta := Nest(127)), e.(meta := Nest(126));
    ReadBack([deep]);
    ReadBack([shallow]);
    hide Nest, Depth, ReadText, FileText;
    assert deep in [deep] && !Readable(deep) && Readable(shallow);
  }

  lemma NoLines()
    ensures Lines(FileText([])) == []
  {
  }

  /** Resuming a written file: the last event alone decides. */
  lemma ResumeWritten(es: seq<Event>)
    ensures LastLineHash(Lines(FileText(es)))
         == if es == [] || Readable(es[|es| - 1]) then Ok(LastHash(es, GENESIS)) else Err(Serde)
  {
    hide Readable, IsBlank, Decode, Encode, Lines, FileText, OneLine;
    if es == [] {
      NoLines();
    } else {
      var init, e := es[..|es| - 1], es[|es| - 1];
      SplitLast(es);
      TextSnoc(init, e);
      EncodedLine(e);
      DecodeEncode(e);
    }
  }

  // ----- writing --------------------------------------------------------------

  /** The event as written: linked to `prev` and carrying its own hash. */
  function Seal(sha: Sha, e: Event, prev: string): (s: Event)
    ensures Extends(sha, prev, s)
  {
    var linked := e.(prevHash := prev, hash := "");
    linked.(hash := HashOf(sha, linked))
  }

  /** Which call of a write fails, if any. `prev_hash` has moved on before the last three. */
  datatype WriteFault = NoFault | HashFails | OpenFails | AppendFails | SyncFails

  predicate Lands(fault: WriteFault) { fault.NoFault? || fault.SyncFails? }

  /** The log as a state: the events in the file and the hash the next one will point at. */
  datatype LogState = LogState(events: seq<Event>, prev: string)

  function WriteEvent(sha: Sha, st: LogState, e: Event, fault: WriteFault): (LogState, bool) {
    var s := Seal(sha, e, st.prev);
    if fault.HashFails? then (st, false)
    else (LogState(if Lands(fault) then st.events + [s] else st.events, s.hash), fault.NoFault?)
  }

  /** A write's text effect is its effect on the events: the file stays the text of the log state. */
  lemma WriteEventText(sha: Sha, st: LogState, e: Event, fault: WriteFault)
    ensures FileText(WriteEvent(sha, st, e, fault).0.events)
         == FileText(st.events) + (if Lands(fault) then Encode(Seal(sha, e, st.prev)) + "\n" else "")
  {
    var s := Seal(sha, e, st.prev);
    assert (st.events + [s])[..|st.events|] == st.events;
    assert FileText(st.events) + Encode(s) + "\n" == FileText(st.events) + (Encode(s) + "\n");
  }

  /** The file at the log's path, if it exists. */
  class AuditFile {
    var content: Option<string>

    constructor (content: Option<string>)
      ensures this.content == content
    {
      this.content := content;
    }
  }

  class Log {
    const sha: Sha
    const file: AuditFile
    var prevHash: string

    constructor (sha: Sha, file: AuditFile, prevHash: string)
      ensures this.sha == sha && this.file == file && this.prevHash == prevHash
    {
      this.sha, this.file, this.prevHash := sha, file, prevHash;
    }

    /** The file holds exactly these events, as appended. */
    ghost predicate Holds(st: LogState)
      reads this, file
    {
      TextOf(file.content) == FileText(st.events) && prevHash == st.prev
    }

    /** `Log::open`; `io` is false when creating the directory or reading the file fails. */
    static method Open(sha: Sha, file: AuditFile, io: bool) returns (r: Result<Log, AuditError>)
      ensures !io ==> r == Err(Io)
      ensures io && r.Err? ==> LastLineHash(Lines(TextOf(file.content))) == Err(r.error)
      ensures r.Ok? ==> io && fresh(r.value) && r.value.sha == sha && r.value.file == file
      ensures r.Ok? ==> LastLineHash(Lines(TextOf(file.content))) == Ok(r.value.prevHash)
    {
      if !io {
        return Err(Io);
      }
      var last := LastLineHash(Lines(TextOf(file.content)));
      if last.Err? {
        return Err(last.error);
      }
      var log := new Log(sha, file, last.value);
      return Ok(log);
    }

    /** `Log::write`. The hash to point at moves on before the line is appended. */
    method Write(e: Event, fault: WriteFault) returns (r: Result<(), AuditError>)
      modifies this, file
      ensures r == if fault.NoFault? then Ok(()) else if fault.HashFails? then Err(Crypto) else Err(Io)
      ensures var s := Seal(sha, e, old(prevHash));
        && prevHash == (if fault.HashFails? then old(prevHash) else s.hash)
        && TextOf(file.content)
           == old(TextOf(file.content)) + (if Lands(fault) then Encode(s) + "\n" else "")
    {
      if fault.HashFails? {
        return Err(Crypto);
      }
      var sealed := Seal(sha, e, prevHash);
      prevHash := sealed.hash;
      var line := Encode(sealed);
      if fault.OpenFails? {
        return Err(Io);
      }
      var before := TextOf(file.content);
      file.content := Some(before);
      if fault.AppendFails? {
        return Err(Io);
      }
      file.content := Some(before + line + "\n");
      assert before + line + "\n" == before + (line + "\n");
      if fault.SyncFails? {
        return Err(Io);
      }
      return Ok(());
    }

    /** `Log::read_all`: one event per non-blank line, oldest first. */
    method ReadAll(io: bool) returns (r: Result<seq<Event>, AuditError>)
      ensures r == if file.content.Some? && !io then Err(Io) else ReadText(TextOf(file.content))
    {
      if file.content.None? {
        return Ok([]);
      }
      if !io {
        return Err(Io);
      }
      var lines := Lines(file.content.value);
      var events: seq<Event> := [];
      for i := 0 to |lines|
        invariant ReadLines(lines[..i]) == Ok(events)
      {
        ReadLinesStep(lines, i);
        if !IsBlank(lines[i]) {
          var e := Decode(lines[i]);
          if e.None? {
            BadLineStays(lines, i + 1);
            return Err(Serde);
          }
          events := events + [e.value];
        }
      }
      assert lines[..|lines|] == lines;
      return Ok(events);
    }
  }

  lemma ReadLinesStep(lines: seq<string>, i: nat)
    requires i < |lines| && ReadLines(lines[..i]).Ok?
    ensures ReadLines(lines[..i + 1])
         == if IsBlank(lines[i]) then ReadLines(lines[..i])
            else match Decode(lines[i])
                 case None => Err(Serde)
                 case Some(e) => Ok(ReadLines(lines[..i]).value + [e])
  {
    assert lines[..i + 1][..i] == lines[..i];
  }

  /** A line that does not decode spoils every longer file. */
  lemma {:induction false} BadLineStays(lines: seq<string>, k: nat)
    requires k <= |lines| && ReadLines(lines[..k]) == Err(Serde)
    ensures ReadLines(lines) == Err(Serde)
  {
    if k == |lines| {
      assert lines[..k] == lines;
    } else {
      assert lines[..|lines| - 1][..k] == lines[..k];
      BadLineStays(lines[..|lines| - 1], k);
    }
  }
}
