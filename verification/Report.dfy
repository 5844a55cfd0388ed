/** The report the dispatcher reads from a guest console (dispatch_outcome.rs).

    The JSON reader is a parameter: what is proved of a report holds for every
    reader, and the round trip for every reader that undoes the printer, of which
    `Frames.ReadFrame` is one. Denial texts are named, not spelled out. */
module Report {
  import opened Common
  import opened Frames

  const PREFIX := "CELLN:dispatch="
  const ALIVE := "CELLN:pilot=alive"
  const PROTOCOL := "CELLN:dispatch-protocol=5"

  type Reader = string -> Read<Frame>

  // ---------------------------------------------------------------------- lines

  function StripCr(s: string): string {
    if s != "" && s[|s| - 1] == '\r' then s[..|s| - 1] else s
  }

  function NewlineAt(s: string): (k: nat)
    ensures k <= |s| && (k < |s| ==> s[k] == '\n') && '\n' !in s[..k]
  {
    if s == "" || s[0] == '\n' then 0
    else
      var k := 1 + NewlineAt(s[1..]);
      assert s[..k] == [s[0]] + s[1..][..k - 1];
      k
  }

  /** `str::lines`: a carriage return goes only with the newline after it. */
  function Lines(s: string): seq<string>
    decreases |s|
  {
    if s == "" then []
    else
      var k := NewlineAt(s);
      if k == |s| then [s] else [StripCr(s[..k])] + Lines(s[k + 1..])
  }

  lemma {:induction false} NewlineBehind(a: string, rest: string)
    requires '\n' !in a && (rest == "" || rest[0] == '\n')
    ensures NewlineAt(a + rest) == |a|
  {
    if a == "" {
      assert a + rest == rest;
    } else {
      assert a[0] in a && (a + rest)[1..] == a[1..] + rest;
      NewlineBehind(a[1..], rest);
    }
  }

  lemma OneLineText(a: string)
    requires '\n' !in a
    ensures Lines(a) == if a == "" then [] else [a]
  {
    NewlineBehind(a, "");
    assert a + "" == a;
  }

  lemma FirstLine(s: string, a: string, b: string)
    requires '\n' !in a && s == a + ("\n" + b)
    ensures Lines(s) == [StripCr(a)] + Lines(b)
  {
    NewlineBehind(a, "\n" + b);
    assert s[..|a|] == a && s[|a| + 1..] == b;
  }

  /** What the lines of a text are: nothing for no text, the text itself if it has no
      newline, and otherwise what stands before the first newline, less a carriage
      return at its end, and the lines behind it. */
  lemma LinesAre(a: string, b: string)
    requires '\n' !in a
    ensures Lines(a) == if a == "" then [] else [a]
    ensures Lines(a + ("\n" + b)) ==
              [if a != "" && a[|a| - 1] == '\r' then a[..|a| - 1] else a] + Lines(b)
  {
    OneLineText(a);
    FirstLine(a + ("\n" + b), a, b);
  }

  // ---------------------------------------------------------------- negotiation

  predicate Extends(c: char) {
    '0' <= c <= '9' || 'a' <= c <= 'z' || 'A' <= c <= 'Z' || c == '=' || c == '-' || c == '_' || c == '.'
  }

  /** Nothing, or text that cannot make a marker longer. */
  predicate EndsMarker(rest: string) {
    rest == "" || !Extends(rest[0])
  }

  predicate Marker(line: string, expected: string) {
    expected <= line && EndsMarker(line[|expected|..])
  }

  /** A longer word that begins like a marker is no marker: what follows one must not
      be a letter, a digit, or one of four signs. */
  lemma MarkerIff(line: string, expected: string)
    ensures Marker(line, expected) <==>
              && expected <= line
              && (line != expected ==>
                    !('0' <= line[|expected|] <= '9') && !('a' <= line[|expected|] <= 'z')
                    && !('A' <= line[|expected|] <= 'Z') && line[|expected|] !in {'=', '-', '_', '.'})
  {
    if expected <= line {
      assert line == expected + line[|expected|..];
      if line[|expected|..] != "" { assert line[|expected|..][0] == line[|expected|]; }
    }
  }

  function PilotLines(lines: seq<string>): seq<string> {
    if lines == [] then []
    else (if "CELLN:" <= lines[0] then [lines[0]] else []) + PilotLines(lines[1..])
  }

  function FromAlive(lines: seq<string>): seq<string> {
    if lines == [] || Marker(lines[0], ALIVE) then lines else FromAlive(lines[1..])
  }

  predicate Negotiated(lines: seq<string>) {
    var pilot := FromAlive(PilotLines(lines));
    |pilot| >= 2 && Marker(pilot[1], PROTOCOL)
  }

  // --------------------------------------------------------------------- frames

  predicate Contains(s: string, part: string) {
    exists i :: 0 <= i <= |s| && part <= s[i..]
  }

  /** `char::is_whitespace`: the Unicode White_Space property. */
  predicate IsSpace(c: char) {
    var n := c as int;
    || 9 <= n <= 13 || n == 0x20 || n == 0x85 || n == 0xA0 || n == 0x1680
    || 0x2000 <= n <= 0x200A || n == 0x2028 || n == 0x2029 || n == 0x202F || n == 0x205F || n == 0x3000
  }

  function TrimStart(s: string): string {
    if s != "" && IsSpace(s[0]) then TrimStart(s[1..]) else s
  }

  /** The text after a frame cannot carry another one. */
  predicate Harmless(rest: string) {
    !Contains(rest, PREFIX) && !("{" <= TrimStart(rest))
  }

  /** `parse_frame_at`. */
  function ParseFrame(json: string, read: Reader): Option<Frame> {
    match read(json)
    case None => None
    case Some((frame, rest)) => if Harmless(rest) then Some(frame) else None
  }

  /** What a prefixed line amounts to; other lines do not count. */
  function Items(lines: seq<string>, read: Reader): seq<Option<Frame>> {
    if lines == [] then []
    else
      var last := |lines| - 1;
      Items(lines[..last], read)
      + if PREFIX <= lines[last] then [ParseFrame(lines[last][|PREFIX|..], read)] else []
  }

  // -------------------------------------------------------------------- outcome

  datatype Defect = NoNegotiation | AfterTerminal | Unreadable | OutOfOrder

  datatype Denial =
    | ExitedWith(code: i32) | KilledBy(signal: i32) | GaveReason(reason: string)
    | TimedOut | Rejected(defect: Defect) | NoTerminal | NoShutdown

  datatype Outcome = Outcome(
    execution: Option<ExecutionGrant>, inputHashes: seq<string>, output: Bytes,
    denial: Option<Denial>, exitCode: Option<i32>, signal: Option<i32>, timedOut: bool)

  predicate Succeeded(o: Outcome) {
    o.exitCode == Some(0) && o.signal.None? && !o.timedOut && o.denial.None?
  }

  /** The variables of the loop. */
  datatype Scan = Scan(
    result: Outcome, terminal: bool, inputsSeen: bool, outputSeen: bool, defect: Option<Defect>)

  function Fresh(timedOut: bool, negotiated: bool): Scan {
    Scan(Outcome(None, [], [], None, None, None, timedOut), false, false, false,
         if negotiated then None else Some(NoNegotiation))
  }

  function Flawed(s: Scan, d: Defect): Scan {
    if s.defect.None? then s.(defect := Some(d)) else s
  }

  function Taken<T>(items: seq<T>, n: nat): seq<T> {
    if n <= |items| then items[..n] else items
  }

  function Ended(s: Scan, f: Frame): Scan {
    var r := s.result;
    match f
    case Exit(code) =>
      s.(terminal := true, result := r.(exitCode := Some(code),
        denial := if code != 0 then Some(ExitedWith(code)) else r.denial))
    case Signal(signal) =>
      s.(terminal := true, result := r.(signal := Some(signal), denial := Some(KilledBy(signal))))
    case Failed(reason) => s.(terminal := true, result := r.(denial := Some(GaveReason(reason))))
    case _ => s
  }

  predicate IsTerminal(item: Option<Frame>) {
    item.Some? &&
    match item.value
    case Exit(code) => 0 <= code <= 255
    case Signal(signal) => 1 <= signal <= 64
    case Failed(_) => true
    case _ => false
  }

  /** One prefixed line. */
  function Observe(s: Scan, item: Option<Frame>, limit: nat): Scan {
    if s.terminal then Flawed(s, AfterTerminal)
    else if item.None? then Flawed(s, Unreadable)
    else if IsTerminal(item) then Ended(s, item.value)
    else
      match item.value
      case Started(grant) =>
        if s.result.execution.None? && !s.outputSeen
        then s.(result := s.result.(execution := Some(grant))) else Flawed(s, OutOfOrder)
      case Inputs(hashes) =>
        if !s.inputsSeen && !s.outputSeen && s.result.execution.None? && |hashes| <= 16
        then s.(inputsSeen := true, result := s.result.(inputHashes := hashes)) else Flawed(s, OutOfOrder)
      case Output(bytes) =>
        var remaining := Monus(limit, |s.result.output|);
        s.(outputSeen := true, result := s.result.(output := s.result.output + Taken(bytes, remaining)))
      case _ => Flawed(s, OutOfOrder)
  }

  function Scanned(start: Scan, items: seq<Option<Frame>>, limit: nat): Scan {
    if items == [] then start
    else Observe(Scanned(start, items[..|items| - 1], limit), items[|items| - 1], limit)
  }

  function Concluded(s: Scan, shutdown: bool): Outcome {
    var r := s.result.(denial :=
      if s.result.timedOut then Some(TimedOut)
      else if s.defect.Some? then Some(Rejected(s.defect.value))
      else if !s.terminal then Some(NoTerminal)
      else if !shutdown then Some(NoShutdown)
      else s.result.denial);
    if s.defect.Some?
    then r.(execution := None, inputHashes := [], exitCode := None, signal := None) else r
  }

  function Reported(console: string, limit: nat, timedOut: bool, shutdown: bool, read: Reader): Outcome {
    var lines := Lines(console);
    Concluded(Scanned(Fresh(timedOut, Negotiated(lines)), Items(lines, read), limit), shutdown)
  }

  lemma ScannedOneMore(start: Scan, items: seq<Option<Frame>>, item: Option<Frame>, limit: nat)
    ensures Scanned(start, items + [item], limit) == Observe(Scanned(start, items, limit), item, limit)
  {
    assert (items + [item])[..|items|] == items;
  }

  /** The `match frame` of `parse_report`, before any terminal frame. */
  method ObserveFrame(s: Scan, frame: Frame, limit: nat) returns (next: Scan)
    requires !s.terminal
    ensures next == Observe(s, Some(frame), limit)
  {
    var result, defect := s.result, s.defect;
    var terminal, inputsSeen, outputSeen := false, s.inputsSeen, s.outputSeen;
    match frame {
      case Started(grant) =>
        if result.execution.None? && !outputSeen {
          result := result.(execution := Some(grant));
        } else if defect.None? {
          defect := Some(OutOfOrder);
        }
      case Inputs(hashes) =>
        if !inputsSeen && !outputSeen && result.execution.None? && |hashes| <= 16 {
          inputsSeen := true;
          result := result.(inputHashes := hashes);
        } else if defect.None? {
          defect := Some(OutOfOrder);
        }
      case Output(bytes) =>
        outputSeen := true;
        var remaining := Monus(limit, |result.output|);
        result := result.(output := result.output + Taken(bytes, remaining));
      case Exit(code) =>
        if 0 <= code <= 255 {
          terminal := true;
          result := result.(exitCode := Some(code));
          if code != 0 {
            result := result.(denial := Some(ExitedWith(code)));
          }
        } else if defect.None? {
          defect := Some(OutOfOrder);
        }
      case Signal(signal) =>
        if 1 <= signal <= 64 {
          terminal := true;
          result := result.(signal := Some(signal), denial := Some(KilledBy(signal)));
        } else if defect.None? {
          defect := Some(OutOfOrder);
        }
      case Failed(reason) =>
        terminal := true;
        result := result.(denial := Some(GaveReason(reason)));
    }
    next := Scan(result, terminal, inputsSeen, outputSeen, defect);
  }

  /** The loop of `parse_report` over the console lines. */
  method ReadLines(start: Scan, lines: seq<string>, limit: nat, read: Reader) returns (s: Scan)
    ensures s == Scanned(start, Items(lines, read), limit)
  {
    s := start;
    for i := 0 to |lines|
      invariant s == Scanned(start, Items(lines[..i], read), limit)
    {
      var line := lines[i];
      ghost var before := Items(lines[..i], read);
      assert lines[..i + 1][..i] == lines[..i];
      if PREFIX <= line {
        var item := ParseFrame(line[|PREFIX|..], read);
        assert Items(lines[..i + 1], read) == before + [item];
        ScannedOneMore(start, before, item, limit);
        if s.terminal {
          if s.defect.None? { s := s.(defect := Some(AfterTerminal)); }
        } else if item.None? {
          if s.defect.None? { s := s.(defect := Some(Unreadable)); }
        } else {
          s := ObserveFrame(s, item.value, limit);
        }
      } else {
        assert Items(lines[..i + 1], read) == before;
      }
    }
    assert lines[..|lines|] == lines;
  }

  /** `parse_report`. */
  method ParseReport(console: string, limit: nat, timedOut: bool, shutdown: bool, read: Reader)
    returns (result: Outcome)
    ensures result == Reported(console, limit, timedOut, shutdown, read)
  {
    var lines := Lines(console);
    var s := Fresh(timedOut, Negotiated(lines));
    s := ReadLines(s, lines, limit, read);
    result := s.result;
    if timedOut {
      result := result.(denial := Some(TimedOut));
    } else if s.defect.Some? {
      result := result.(denial := Some(Rejected(s.defect.value)));
    } else if !s.terminal {
      result := result.(denial := Some(NoTerminal));
    } else if !shutdown {
      result := result.(denial := Some(NoShutdown));
    }
    if s.defect.Some? {
      result := result.(execution := None, inputHashes := [], exitCode := None, signal := None);
    }
    TimeoutStays(Fresh(timedOut, Negotiated(lines)), Items(lines, read), limit);
  }

  lemma TimeoutStays(start: Scan, items: seq<Option<Frame>>, limit: nat)
    ensures Scanned(start, items, limit).result.timedOut == start.result.timedOut
  {
    if items != [] { TimeoutStays(start, items[..|items| - 1], limit); }
  }

  // -------------------------------------------------------------------- scripts

  /** A report in order: perhaps the inputs, perhaps the grant, the output in
      chunks, and how it ended, if it has. */
  datatype Script = Script(
    inputs: Option<seq<string>>, grant: Option<ExecutionGrant>, chunks: seq<Bytes>, end: Option<Frame>)

  predicate Proper(p: Script) {
    && (p.inputs.Some? ==> |p.inputs.value| <= 16)
    && match p.end
       case None => true
       case Some(Exit(code)) => 0 <= code <= 255
       case Some(Signal(signal)) => 1 <= signal <= 64
       case Some(Failed(_)) => true
       case Some(_) => false
  }

  function ChunkItems(chunks: seq<Bytes>): seq<Option<Frame>> {
    seq(|chunks|, i requires 0 <= i < |chunks| => Some(Output(chunks[i])))
  }

  function Opening(p: Script): seq<Option<Frame>> {
    (if p.inputs.Some? then [Some(Inputs(p.inputs.value))] else [])
    + (if p.grant.Some? then [Some(Started(p.grant.value))] else [])
  }

  /** The frames of a script: `Inputs? Started? Output* end`. */
  function Play(p: Script): seq<Option<Frame>> {
    Opening(p) + ChunkItems(p.chunks) + (if p.end.Some? then [p.end] else [])
  }

  function Flat(chunks: seq<Bytes>): Bytes {
    if chunks == [] then [] else Flat(chunks[..|chunks| - 1]) + chunks[|chunks| - 1]
  }

  /** What the loop knows after a script. */
  function After(p: Script, limit: nat, timedOut: bool): Scan {
    var s := Scan(
      Outcome(p.grant, if p.inputs.Some? then p.inputs.value else [], Taken(Flat(p.chunks), limit),
              None, None, None, timedOut),
      false, p.inputs.Some?, p.chunks != [], None);
    if p.end.Some? then Ended(s, p.end.value) else s
  }

  lemma TakenGrows<T>(a: seq<T>, b: seq<T>, limit: nat)
    ensures Taken(a, limit) + Taken(b, Monus(limit, |Taken(a, limit)|)) == Taken(a + b, limit)
  {
  }

  const SILENCE := Script(None, None, [], None)

  lemma InputsObserved(hashes: seq<string>, limit: nat, timedOut: bool)
    requires |hashes| <= 16
    ensures Observe(Fresh(timedOut, true), Some(Inputs(hashes)), limit)
            == After(SILENCE.(inputs := Some(hashes)), limit, timedOut)
  {
  }

  lemma GrantObserved(p: Script, grant: ExecutionGrant, limit: nat, timedOut: bool)
    requires p == SILENCE.(inputs := p.inputs)
    ensures Observe(After(p, limit, timedOut), Some(Started(grant)), limit)
            == After(p.(grant := Some(grant)), limit, timedOut)
  {
  }

  lemma InputsPlay(p: Script, limit: nat, timedOut: bool)
    requires Proper(p) && p == SILENCE.(inputs := p.inputs)
    ensures Scanned(Fresh(timedOut, true), Opening(p), limit) == After(p, limit, timedOut)
  {
    if p.inputs.Some? {
      var item := Some(Inputs(p.inputs.value));
      assert Opening(p) == [] + [item];
      ScannedOneMore(Fresh(timedOut, true), [], item, limit);
      InputsObserved(p.inputs.value, limit, timedOut);
    } else {
      assert Opening(p) == [];
    }
  }

  lemma OpeningPlays(p: Script, limit: nat, timedOut: bool)
    requires Proper(p) && p.end.None? && p.chunks == []
    ensures Scanned(Fresh(timedOut, true), Opening(p), limit) == After(p, limit, timedOut)
  {
    var before := p.(grant := None);
    InputsPlay(before, limit, timedOut);
    if p.grant.Some? {
      var item := Some(Started(p.grant.value));
      assert Opening(p) == Opening(before) + [item];
      ScannedOneMore(Fresh(timedOut, true), Opening(before), item, limit);
      GrantObserved(before, p.grant.value, limit, timedOut);
    } else {
      assert before == p;
    }
  }

  lemma ChunkObserved(p: Script, bytes: Bytes, limit: nat, timedOut: bool)
    requires Proper(p) && p.end.None?
    ensures Observe(After(p, limit, timedOut), Some(Output(bytes)), limit)
            == After(p.(chunks := p.chunks + [bytes]), limit, timedOut)
  {
    TakenGrows(Flat(p.chunks), bytes, limit);
    assert (p.chunks + [bytes])[..|p.chunks|] == p.chunks;
  }

  lemma PlayOneMore(p: Script, bytes: Bytes)
    requires p.end.None?
    ensures Play(p.(chunks := p.chunks + [bytes])) == Play(p) + [Some(Output(bytes))]
  {
    assert ChunkItems(p.chunks + [bytes]) == ChunkItems(p.chunks) + [Some(Output(bytes))];
  }

  lemma {:induction false} ChunksPlay(p: Script, limit: nat, timedOut: bool)
    requires Proper(p) && p.end.None?
    ensures Scanned(Fresh(timedOut, true), Play(p), limit) == After(p, limit, timedOut)
    decreases |p.chunks|
  {
    if p.chunks == [] {
      assert Play(p) == Opening(p);
      OpeningPlays(p, limit, timedOut);
    } else {
      var last := |p.chunks| - 1;
      var before, bytes := p.(chunks := p.chunks[..last]), p.chunks[last];
      assert p == before.(chunks := before.chunks + [bytes]);
      ChunksPlay(before, limit, timedOut);
      PlayOneMore(before, bytes);
      ScannedOneMore(Fresh(timedOut, true), Play(before), Some(Output(bytes)), limit);
      ChunkObserved(before, bytes, limit, timedOut);
    }
  }

  lemma EndObserved(p: Script, limit: nat, timedOut: bool)
    requires Proper(p) && p.end.Some?
    ensures Observe(After(p.(end := None), limit, timedOut), p.end, limit) == After(p, limit, timedOut)
  {
  }

  /** Reading a script gives exactly what the script says. */
  lemma ScriptPlays(p: Script, limit: nat, timedOut: bool)
    requires Proper(p)
    ensures Scanned(Fresh(timedOut, true), Play(p), limit) == After(p, limit, timedOut)
  {
    var before := p.(end := None);
    ChunksPlay(before, limit, timedOut);
    if p.end.Some? {
      assert Play(p) == Play(before) + [p.end];
      ScannedOneMore(Fresh(timedOut, true), Play(before), p.end, limit);
      EndObserved(p, limit, timedOut);
    } else {
      assert p == before;
    }
  }

  lemma DefectStays(start: Scan, items: seq<Option<Frame>>, limit: nat)
    requires start.defect.Some?
    ensures Scanned(start, items, limit).defect == start.defect
  {
    if items != [] { DefectStays(start, items[..|items| - 1], limit); }
  }

  /** A line that leaves a clean scan clean fits behind the script so far. */
  lemma CleanExtends(q: Script, item: Option<Frame>, limit: nat, timedOut: bool)
    requires Proper(q) && Observe(After(q, limit, timedOut), item, limit).defect.None?
    ensures q.end.None? && item.Some?
    ensures var f := item.value;
            && (f.Inputs? ==> |f.hashes| <= 16 && q.inputs.None? && q.grant.None? && q.chunks == [])
            && (f.Started? ==> q.grant.None? && q.chunks == [])
            && (!f.Inputs? && !f.Started? && !f.Output? ==> IsTerminal(item))
  {
  }

  /** And nothing but a script is read without a defect. */
  lemma {:induction false} OnlyScriptsAreClean(items: seq<Option<Frame>>, limit: nat, timedOut: bool)
    returns (p: Script)
    requires Scanned(Fresh(timedOut, true), items, limit).defect.None?
    ensures Proper(p) && items == Play(p)
  {
    if items == [] {
      p := Script(None, None, [], None);
    } else {
      var last := |items| - 1;
      var before, item := items[..last], items[last];
      assert items == before + [item];
      var q := OnlyScriptsAreClean(before, limit, timedOut);
      ScriptPlays(q, limit, timedOut);
      CleanExtends(q, item, limit, timedOut);
      p := Extended(q, item.value);
    }
  }

  /** A script with one more frame. */
  function Extended(q: Script, f: Frame): (p: Script)
    requires Proper(q) && q.end.None?
    requires f.Inputs? ==> |f.hashes| <= 16 && q.inputs.None? && q.grant.None? && q.chunks == []
    requires f.Started? ==> q.grant.None? && q.chunks == []
    requires !f.Inputs? && !f.Started? && !f.Output? ==> IsTerminal(Some(f))
    ensures Proper(p) && Play(p) == Play(q) + [Some(f)]
  {
    match f
    case Inputs(hashes) => q.(inputs := Some(hashes))
    case Started(grant) => q.(grant := Some(grant))
    case Output(bytes) =>
      assert ChunkItems(q.chunks + [bytes]) == ChunkItems(q.chunks) + [Some(f)];
      q.(chunks := q.chunks + [bytes])
    case _ => q.(end := Some(f))
  }

  // --------------------------------------------------------------- main theorems

  /** Exactly what success means: the markers were exchanged, the guest shut down
      in time, and the prefixed lines are `Inputs? Started? Output* Exit(0)`, at
      most sixteen hashes and not one frame or broken line more. */
  lemma SuccessMeans(console: string, limit: nat, timedOut: bool, shutdown: bool, read: Reader)
    ensures Succeeded(Reported(console, limit, timedOut, shutdown, read)) <==>
              && Negotiated(Lines(console)) && shutdown && !timedOut
              && exists p: Script :: Proper(p) && p.end == Some(Exit(0)) && Items(Lines(console), read) == Play(p)
  {
    var lines := Lines(console);
    var items := Items(lines, read);
    if !Negotiated(lines) {
      DefectStays(Fresh(timedOut, false), items, limit);
    } else if Scanned(Fresh(timedOut, true), items, limit).defect.None? {
      var p := OnlyScriptsAreClean(items, limit, timedOut);
      ScriptPlays(p, limit, timedOut);
      if p.end != Some(Exit(0)) {
        forall q: Script | Proper(q) && q.end == Some(Exit(0)) && items == Play(q) ensures false {
          ScriptPlays(q, limit, timedOut);
        }
      }
    } else {
      forall q: Script | Proper(q) && items == Play(q) ensures false {
        ScriptPlays(q, limit, timedOut);
      }
    }
  }

  /** The report a script makes, field by field: what the guest was granted and given,
      the first `limit` bytes it wrote, the code it exited with or the signal that
      killed it, never both, and why it is denied: a timeout above all, then a missing
      end, then a missing shutdown, then the end itself unless that is exit code 0. */
  ghost predicate Says(r: Outcome, p: Script, limit: nat, timedOut: bool, shutdown: bool) {
    && r.execution == p.grant
    && r.inputHashes == (if p.inputs.Some? then p.inputs.value else [])
    && r.output == Taken(Flat(p.chunks), limit)
    && r.timedOut == timedOut
    && r.exitCode == (if p.end.Some? && p.end.value.Exit? then Some(p.end.value.code) else None)
    && r.signal == (if p.end.Some? && p.end.value.Signal? then Some(p.end.value.signal) else None)
    && r.denial ==
         if timedOut then Some(TimedOut)
         else if p.end.None? then Some(NoTerminal)
         else if !shutdown then Some(NoShutdown)
         else match p.end.value
              case Exit(code) => if code == 0 then None else Some(ExitedWith(code))
              case Signal(signal) => Some(KilledBy(signal))
              case Failed(reason) => Some(GaveReason(reason))
              case _ => None
  }

  lemma EndSays(p: Script, limit: nat, timedOut: bool, shutdown: bool)
    requires Proper(p)
    ensures Says(Concluded(After(p, limit, timedOut), shutdown), p, limit, timedOut, shutdown)
  {
  }

  /** A script that explains a clean report says everything in it. */
  lemma ScriptDecides(console: string, limit: nat, timedOut: bool, shutdown: bool, read: Reader, p: Script)
    requires Negotiated(Lines(console)) && Proper(p) && Items(Lines(console), read) == Play(p)
    ensures Says(Reported(console, limit, timedOut, shutdown, read), p, limit, timedOut, shutdown)
  {
    ScriptPlays(p, limit, timedOut);
    EndSays(p, limit, timedOut, shutdown);
  }

  // --------------------------------------------------------------------- rejections

  /** A line that can stand behind the script so far. */
  predicate Continues(p: Script, item: Option<Frame>) {
    p.end.None? && item.Some? &&
    match item.value
    case Inputs(hashes) => p.inputs.None? && p.grant.None? && p.chunks == [] && |hashes| <= 16
    case Started(_) => p.grant.None? && p.chunks == []
    case Output(_) => true
    case Exit(code) => 0 <= code <= 255
    case Signal(signal) => 1 <= signal <= 64
    case Failed(_) => true
  }

  /** The first `k` items are a script, the next one cannot stand behind it, and `d`
      names why: the script was over, the line is broken, or it is out of place. */
  ghost predicate FlawAt(items: seq<Option<Frame>>, p: Script, k: nat, d: Defect) {
    && k < |items| && Proper(p) && items[..k] == Play(p) && !Continues(p, items[k])
    && d == if p.end.Some? then AfterTerminal else if items[k].None? then Unreadable else OutOfOrder
  }

  ghost predicate FirstFlawIs(items: seq<Option<Frame>>, d: Defect) {
    exists p: Script, k: nat :: FlawAt(items, p, k, d)
  }

  lemma FlawObserved(p: Script, item: Option<Frame>, limit: nat, timedOut: bool)
    requires Proper(p)
    ensures var s := Observe(After(p, limit, timedOut), item, limit);
            if Continues(p, item) then s.defect.None?
            else s.defect == Some(if p.end.Some? then AfterTerminal
                                  else if item.None? then Unreadable else OutOfOrder)
  {
  }

  lemma {:induction false} FirstFlaw(items: seq<Option<Frame>>, limit: nat, timedOut: bool)
    returns (p: Script, k: nat)
    requires Scanned(Fresh(timedOut, true), items, limit).defect.Some?
    ensures FlawAt(items, p, k, Scanned(Fresh(timedOut, true), items, limit).defect.value)
  {
    assert items != [];
    var last := |items| - 1;
    var before := items[..last];
    if Scanned(Fresh(timedOut, true), before, limit).defect.Some? {
      p, k := FirstFlaw(before, limit, timedOut);
      assert items[..k] == before[..k];
      DefectStays(Scanned(Fresh(timedOut, true), before, limit), [items[last]], limit);
    } else {
      p := OnlyScriptsAreClean(before, limit, timedOut);
      k := last;
      ScriptPlays(p, limit, timedOut);
      FlawObserved(p, items[last], limit, timedOut);
    }
  }

  lemma {:induction false} ScannedSplit(start: Scan, a: seq<Option<Frame>>, b: seq<Option<Frame>>, limit: nat)
    ensures Scanned(start, a + b, limit) == Scanned(Scanned(start, a, limit), b, limit)
  {
    if b == [] {
      assert a + b == a;
    } else {
      var last := |b| - 1;
      ScannedSplit(start, a, b[..last], limit);
      assert (a + b)[..|a + b| - 1] == a + b[..last];
    }
  }

  lemma FlawDecides(items: seq<Option<Frame>>, p: Script, k: nat, d: Defect, limit: nat, timedOut: bool)
    requires FlawAt(items, p, k, d)
    ensures Scanned(Fresh(timedOut, true), items, limit).defect == Some(d)
  {
    ScriptPlays(p, limit, timedOut);
    FlawObserved(p, items[k], limit, timedOut);
    ScannedOneMore(Fresh(timedOut, true), items[..k], items[k], limit);
    assert items == (items[..k] + [items[k]]) + items[k + 1..];
    ScannedSplit(Fresh(timedOut, true), items[..k] + [items[k]], items[k + 1..], limit);
    DefectStays(Scanned(Fresh(timedOut, true), items[..k] + [items[k]], limit), items[k + 1..], limit);
  }

  lemma FlawedIff(items: seq<Option<Frame>>, limit: nat, timedOut: bool, d: Defect)
    ensures Scanned(Fresh(timedOut, true), items, limit).defect == Some(d) <==> FirstFlawIs(items, d)
  {
    if Scanned(Fresh(timedOut, true), items, limit).defect.Some? {
      var p, k := FirstFlaw(items, limit, timedOut);
    }
    if p: Script, k: nat :| FlawAt(items, p, k, d) { FlawDecides(items, p, k, d, limit, timedOut); }
  }

  lemma ConcludedRejectedIff(s: Scan, shutdown: bool, d: Defect)
    requires !s.result.timedOut
    requires s.result.denial.Some? ==> !s.result.denial.value.Rejected?
    ensures Concluded(s, shutdown).denial == Some(Rejected(d)) <==> s.defect == Some(d)
  {
  }

  lemma NeverRejectedBefore(start: Scan, items: seq<Option<Frame>>, limit: nat)
    requires start.result.denial.Some? ==> !start.result.denial.value.Rejected?
    ensures var s := Scanned(start, items, limit);
            && s.result.timedOut == start.result.timedOut
            && (s.result.denial.Some? ==> !s.result.denial.value.Rejected?)
  {
    if items != [] { NeverRejectedBefore(start, items[..|items| - 1], limit); }
  }

  /** Exactly when a report is rejected, and for what: the markers were not exchanged,
      or some line is the first that cannot stand behind the script before it. */
  lemma RejectedIff(console: string, limit: nat, shutdown: bool, read: Reader, d: Defect)
    ensures Reported(console, limit, false, shutdown, read).denial == Some(Rejected(d)) <==>
              if Negotiated(Lines(console)) then FirstFlawIs(Items(Lines(console), read), d) else d == NoNegotiation
  {
    var items, start := Items(Lines(console), read), Fresh(false, Negotiated(Lines(console)));
    NeverRejectedBefore(start, items, limit);
    ConcludedRejectedIff(Scanned(start, items, limit), shutdown, d);
    assert Reported(console, limit, false, shutdown, read) == Concluded(Scanned(start, items, limit), shutdown);
    if Negotiated(Lines(console)) {
      assert start == Fresh(false, true);
      FlawedIff(items, limit, false, d);
    } else {
      assert start.defect == Some(NoNegotiation);
      DefectStays(start, items, limit);
    }
  }

  lemma FlawedIsDenied(s: Scan, shutdown: bool)
    requires s.defect.Some?
    ensures var r := Concluded(s, shutdown);
            && r.denial.Some? && !Succeeded(r)
            && r.execution.None? && r.inputHashes == [] && r.exitCode.None? && r.signal.None?
  {
  }

  /** A report is denied unless it succeeded, and a rejected one grants nothing. */
  lemma DeniedUnlessSucceeded(console: string, limit: nat, timedOut: bool, shutdown: bool, read: Reader)
    ensures var r := Reported(console, limit, timedOut, shutdown, read);
            && (Succeeded(r) <==> r.denial.None?)
            && (r.denial.Some? && r.denial.value.Rejected? ==>
                  r.execution.None? && r.inputHashes == [] && r.exitCode.None? && r.signal.None?)
  {
    var lines := Lines(console);
    var items := Items(lines, read);
    if !Negotiated(lines) {
      DefectStays(Fresh(timedOut, false), items, limit);
      FlawedIsDenied(Scanned(Fresh(timedOut, false), items, limit), shutdown);
    } else if Scanned(Fresh(timedOut, true), items, limit).defect.None? {
      var p := OnlyScriptsAreClean(items, limit, timedOut);
      ScriptDecides(console, limit, timedOut, shutdown, read, p);
    } else {
      FlawedIsDenied(Scanned(Fresh(timedOut, true), items, limit), shutdown);
    }
  }

  /** The items before the first terminal frame. */
  function Live(items: seq<Option<Frame>>): seq<Option<Frame>> {
    if items == [] || IsTerminal(items[0]) then [] else [items[0]] + Live(items[1..])
  }

  function Written(items: seq<Option<Frame>>): Bytes {
    if items == [] then []
    else
      var last := |items| - 1;
      Written(items[..last]) + BytesOf(items[last])
  }

  lemma {:induction false} LiveOneMore(items: seq<Option<Frame>>, item: Option<Frame>)
    ensures Live(items + [item]) ==
              if Live(items) != items || IsTerminal(item) then Live(items) else items + [item]
    ensures |Live(items)| <= |items|
  {
    if items == [] {
      assert ([] + [item])[1..] == [];
    } else {
      LiveOneMore(items[1..], item);
      assert (items + [item])[1..] == items[1..] + [item];
      assert [items[0]] + items[1..] == items;
      if !IsTerminal(items[0]) {
        assert Live(items) == items <==> Live(items[1..]) == items[1..];
        assert [items[0]] + (items[1..] + [item]) == items + [item];
      }
    }
  }

  function BytesOf(item: Option<Frame>): Bytes {
    match item
    case Some(Output(bytes)) => bytes
    case _ => []
  }

  lemma ObservedOutput(s: Scan, item: Option<Frame>, limit: nat)
    ensures var s' := Observe(s, item, limit);
            && s'.terminal == (s.terminal || IsTerminal(item))
            && s'.result.output == s.result.output
                 + (if s.terminal then [] else Taken(BytesOf(item), Monus(limit, |s.result.output|)))
  {
  }

  /** For every console, negotiated or not, in order or not: the output is the
      first `limit` bytes of what was written before the first terminal frame. */
  lemma {:induction false} OutputIsThePrefix(start: Scan, items: seq<Option<Frame>>, limit: nat)
    requires start.result.output == [] && !start.terminal
    ensures var s := Scanned(start, items, limit);
            && s.result.output == Taken(Written(Live(items)), limit)
            && (s.terminal <==> Live(items) != items)
  {
    if items != [] {
      var last := |items| - 1;
      var before, item := items[..last], items[last];
      OutputIsThePrefix(start, before, limit);
      assert items == before + [item];
      LiveOneMore(before, item);
      ObservedOutput(Scanned(start, before, limit), item, limit);
      if Live(before) == before && !IsTerminal(item) {
        assert Written(items) == Written(before) + BytesOf(item);
        TakenGrows(Written(before), BytesOf(item), limit);
      }
    }
  }

  lemma OutputOfEveryConsole(console: string, limit: nat, timedOut: bool, shutdown: bool, read: Reader)
    ensures var output := Reported(console, limit, timedOut, shutdown, read).output;
            var written := Written(Live(Items(Lines(console), read)));
            output == Taken(written, limit) && output <= written && |output| == Min(limit, |written|)
  {
    OutputIsThePrefix(Fresh(timedOut, Negotiated(Lines(console))), Items(Lines(console), read), limit);
  }

  /** The markers were exchanged: some line is the first alive marker, some later line
      is the protocol marker, and no line of that family stands between them. */
  ghost predicate Exchanged(lines: seq<string>, i: nat, j: nat) {
    && i < j < |lines| && Marker(lines[i], ALIVE) && Marker(lines[j], PROTOCOL)
    && (forall k :: 0 <= k < i ==> !Marker(lines[k], ALIVE))
    && (forall k :: i < k < j ==> !("CELLN:" <= lines[k]))
  }

  lemma MarkersAreOfTheFamily(line: string)
    ensures Marker(line, ALIVE) ==> "CELLN:" <= line
    ensures Marker(line, PROTOCOL) ==> "CELLN:" <= line
  {
    assert ALIVE[..6] == "CELLN:" && PROTOCOL[..6] == "CELLN:";
    if Marker(line, ALIVE) { assert line[..6] == ALIVE[..6]; }
    if Marker(line, PROTOCOL) { assert line[..6] == PROTOCOL[..6]; }
  }

  /** Line `j` is the protocol marker and the first of the family. */
  ghost predicate ProtocolFirst(lines: seq<string>, j: nat) {
    j < |lines| && Marker(lines[j], PROTOCOL) && forall k :: 0 <= k < j ==> !("CELLN:" <= lines[k])
  }

  lemma {:induction false} NextIsProtocolIff(lines: seq<string>)
    ensures PilotLines(lines) != [] && Marker(PilotLines(lines)[0], PROTOCOL) <==>
              exists j: nat :: ProtocolFirst(lines, j)
  {
    if lines != [] {
      MarkersAreOfTheFamily(lines[0]);
      if "CELLN:" <= lines[0] {
        assert PilotLines(lines)[0] == lines[0];
        if Marker(lines[0], PROTOCOL) { assert ProtocolFirst(lines, 0); }
      } else {
        NextIsProtocolIff(lines[1..]);
        assert PilotLines(lines) == PilotLines(lines[1..]);
        ProtocolLater(lines);
      }
    }
  }

  lemma ProtocolLater(lines: seq<string>)
    requires lines != [] && !("CELLN:" <= lines[0])
    ensures (exists j: nat :: ProtocolFirst(lines, j)) <==> exists j: nat :: ProtocolFirst(lines[1..], j)
  {
    var rest := lines[1..];
    MarkersAreOfTheFamily(lines[0]);
    if j: nat :| ProtocolFirst(rest, j) {
      forall k | 0 < k < j + 1 ensures !("CELLN:" <= lines[k]) { assert rest[k - 1] == lines[k]; }
      assert ProtocolFirst(lines, j + 1);
    }
    if j: nat :| ProtocolFirst(lines, j) {
      assert forall k :: 0 <= k < j - 1 ==> rest[k] == lines[k + 1];
      assert ProtocolFirst(rest, j - 1);
    }
  }

  lemma AliveFirst(lines: seq<string>)
    requires lines != [] && Marker(lines[0], ALIVE)
    ensures (exists i: nat, j: nat :: Exchanged(lines, i, j)) <==> exists j: nat :: ProtocolFirst(lines[1..], j)
  {
    var rest := lines[1..];
    if i: nat, j: nat :| Exchanged(lines, i, j) {
      assert i == 0;
      assert forall k :: 0 <= k < j - 1 ==> rest[k] == lines[k + 1];
      assert ProtocolFirst(rest, j - 1);
    }
    if j: nat :| ProtocolFirst(rest, j) {
      forall k | 0 < k < j + 1 ensures !("CELLN:" <= lines[k]) { assert rest[k - 1] == lines[k]; }
      assert Exchanged(lines, 0, j + 1);
    }
  }

  lemma NotAliveSkips(lines: seq<string>)
    requires lines != [] && !Marker(lines[0], ALIVE)
    ensures Negotiated(lines) <==> Negotiated(lines[1..])
  {
    if "CELLN:" <= lines[0] {
      assert PilotLines(lines)[1..] == PilotLines(lines[1..]);
    } else {
      assert PilotLines(lines) == PilotLines(lines[1..]);
    }
  }

  lemma ExchangedLater(lines: seq<string>)
    requires lines != [] && !Marker(lines[0], ALIVE)
    ensures (exists i: nat, j: nat :: Exchanged(lines, i, j)) <==>
              exists i: nat, j: nat :: Exchanged(lines[1..], i, j)
  {
    var rest := lines[1..];
    if i: nat, j: nat :| Exchanged(lines, i, j) {
      assert forall k :: 0 <= k < |rest| ==> rest[k] == lines[k + 1];
      assert Exchanged(rest, i - 1, j - 1);
    }
    if i: nat, j: nat :| Exchanged(rest, i, j) {
      forall k | 0 < k < i + 1 ensures !Marker(lines[k], ALIVE) { assert rest[k - 1] == lines[k]; }
      forall k | i + 1 < k < j + 1 ensures !("CELLN:" <= lines[k]) { assert rest[k - 1] == lines[k]; }
      assert Exchanged(lines, i + 1, j + 1);
    }
  }

  /** Exactly when the negotiation succeeded, whatever else the console shows. */
  lemma {:induction false} NegotiatedIff(lines: seq<string>)
    ensures Negotiated(lines) <==> exists i: nat, j: nat :: Exchanged(lines, i, j)
  {
    if lines != [] {
      var rest := lines[1..];
      MarkersAreOfTheFamily(lines[0]);
      if Marker(lines[0], ALIVE) {
        assert FromAlive(PilotLines(lines)) == PilotLines(lines) == [lines[0]] + PilotLines(rest);
        NextIsProtocolIff(rest);
        AliveFirst(lines);
      } else {
        NegotiatedIff(rest);
        NotAliveSkips(lines);
        ExchangedLater(lines);
      }
    }
  }

  /** Nothing printed after pilot's second line can repair the negotiation. */
  lemma {:induction false} NegotiationIsFinal(lines: seq<string>, more: seq<string>)
    requires |FromAlive(PilotLines(lines))| >= 2
    ensures Negotiated(lines + more) <==> Negotiated(lines)
  {
    PilotLinesJoin(lines, more);
    FromAliveJoin(PilotLines(lines), PilotLines(more));
  }

  lemma {:induction false} PilotLinesJoin(a: seq<string>, b: seq<string>)
    ensures PilotLines(a + b) == PilotLines(a) + PilotLines(b)
  {
    if a == [] {
      assert a + b == b;
    } else {
      assert (a + b)[1..] == a[1..] + b;
      PilotLinesJoin(a[1..], b);
    }
  }

  lemma {:induction false} FromAliveJoin(a: seq<string>, b: seq<string>)
    ensures FromAlive(a) != [] ==> FromAlive(a + b) == FromAlive(a) + b
    ensures FromAlive(a) == [] ==> FromAlive(a + b) == FromAlive(b)
  {
    if a == [] {
      assert a + b == b;
    } else if !Marker(a[0], ALIVE) {
      assert (a + b)[1..] == a[1..] + b;
      FromAliveJoin(a[1..], b);
    }
  }
}
