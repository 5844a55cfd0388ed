/** What pilot emits is what the dispatcher reads, through whatever the kernel
    prints on the same console (dispatch_report.rs and dispatch_outcome.rs). */
module ReportRoundTrip {
  import opened Common
  import opened Frames
  import opened Report

  /** The reader gives back every printed frame and stops at its end. */
  ghost predicate Undone(read: Reader) {
    forall f: Frame, tail: string :: read(Print(f) + tail) == Some((f, tail))
  }

  lemma CanonicalReaderUndoes()
    ensures Undone(ReadFrame)
  {
    forall f: Frame, tail: string ensures ReadFrame(Print(f) + tail) == Some((f, tail)) {
      FrameReadsBack(f, tail);
    }
  }

  // ------------------------------------------------------------------- consoles

  /** One console line: the kernel's, or a frame the kernel may have added to. */
  datatype Piece = Kernel(text: string) | Emitted(frame: Frame, tail: string)

  function LineOf(p: Piece): string {
    match p
    case Kernel(text) => text
    case Emitted(frame, tail) => PREFIX + (Print(frame) + tail)
  }

  predicate Plausible(p: Piece) {
    match p
    case Kernel(text) => '\n' !in text && !(PREFIX <= text)
    case Emitted(_, tail) => '\n' !in tail && Harmless(tail)
  }

  function FramesIn(pieces: seq<Piece>): seq<Option<Frame>> {
    if pieces == [] then []
    else
      var last := |pieces| - 1;
      FramesIn(pieces[..last]) + if pieces[last].Emitted? then [Some(pieces[last].frame)] else []
  }

  /** The startup: guest init's lines, the two markers, kernel lines between. */
  datatype Boot = Boot(before: seq<string>, aliveTail: string, between: seq<string>, protocolTail: string)

  function BootLines(b: Boot): seq<string> {
    b.before + [ALIVE + b.aliveTail] + b.between + [PROTOCOL + b.protocolTail]
  }

  predicate Boots(b: Boot) {
    && (forall l <- b.before :: '\n' !in l && !(PREFIX <= l) && !Marker(l, ALIVE))
    && (forall l <- b.between :: '\n' !in l && !("CELLN:" <= l))
    && '\n' !in b.aliveTail && EndsMarker(b.aliveTail)
    && '\n' !in b.protocolTail && EndsMarker(b.protocolTail)
  }

  /** `println!` of each line in turn. */
  function Text(lines: seq<string>): string {
    if lines == [] then "" else lines[0] + ("\n" + Text(lines[1..]))
  }

  function Stripped(lines: seq<string>): seq<string> {
    seq(|lines|, i requires 0 <= i < |lines| => StripCr(lines[i]))
  }

  function PieceLines(pieces: seq<Piece>): seq<string> {
    seq(|pieces|, i requires 0 <= i < |pieces| => LineOf(pieces[i]))
  }

  // ---------------------------------------------------------------------- lines

  lemma {:induction false} LinesOfText(lines: seq<string>)
    requires forall l <- lines :: '\n' !in l
    ensures Lines(Text(lines)) == Stripped(lines)
  {
    if lines != [] {
      var rest := Text(lines[1..]);
      FirstLine(Text(lines), lines[0], rest);
      LinesOfText(lines[1..]);
      assert Stripped(lines) == [StripCr(lines[0])] + Stripped(lines[1..]);
    }
  }

  lemma StripKeepsStart(line: string, start: string)
    requires start != "" && start[|start| - 1] != '\r'
    ensures start <= StripCr(line) <==> start <= line
  {
    if start <= line && StripCr(line) != line {
      assert line[|start| - 1] == start[|start| - 1];
    }
  }

  lemma StripKeepsMarker(line: string, expected: string)
    requires expected != "" && expected[|expected| - 1] != '\r'
    ensures Marker(StripCr(line), expected) <==> Marker(line, expected)
  {
    StripKeepsStart(line, expected);
    if expected <= line {
      var rest := line[|expected|..];
      assert StripCr(line)[|expected|..] == StripCr(rest);
    }
  }

  // --------------------------------------------------------------------- frames

  lemma {:induction false} TrimKeepsFront(a: string, b: string)
    requires a <= b && TrimStart(a) != ""
    ensures TrimStart(b) != "" && TrimStart(b)[0] == TrimStart(a)[0]
  {
    if a != "" && IsSpace(a[0]) {
      assert b[0] == a[0] && a[1..] <= b[1..];
      TrimKeepsFront(a[1..], b[1..]);
    }
  }

  lemma BraceStaysInFront(a: string, b: string)
    requires a <= b && "{" <= TrimStart(a)
    ensures "{" <= TrimStart(b)
  {
    TrimKeepsFront(a, b);
    assert TrimStart(a)[0] == '{';
  }

  lemma ContainsGrows(a: string, b: string, part: string)
    requires a <= b && Contains(a, part)
    ensures Contains(b, part)
  {
    var i :| 0 <= i <= |a| && part <= a[i..];
    assert a[i..] <= b[i..];
  }

  lemma HarmlessPrefix(a: string, b: string)
    requires a <= b && Harmless(b)
    ensures Harmless(a)
  {
    if "{" <= TrimStart(a) { BraceStaysInFront(a, b); }
    if Contains(a, PREFIX) { ContainsGrows(a, b, PREFIX); }
  }

  lemma StripBehind(a: string, b: string, tail: string)
    requires b != "" && b[|b| - 1] != '\r'
    ensures StripCr(a + (b + tail)) == a + (b + StripCr(tail))
  {
    var line := a + (b + tail);
    if tail == "" {
      assert line == a + b;
    } else {
      assert line[..|line| - 1] == a + (b + tail[..|tail| - 1]);
    }
  }

  lemma EmittedStrips(f: Frame, tail: string)
    ensures StripCr(LineOf(Emitted(f, tail))) == PREFIX + (Print(f) + StripCr(tail))
  {
    PrintIsOneLine(f);
    StripBehind(PREFIX, Print(f), tail);
  }

  /** The first character that is no space is a brace. */
  ghost predicate BraceAt(s: string, i: nat) {
    i < |s| && s[i] == '{' && forall k :: 0 <= k < i ==> IsSpace(s[k])
  }

  lemma {:induction false} OpensWithBraceIff(s: string)
    ensures "{" <= TrimStart(s) <==> exists i: nat :: BraceAt(s, i)
  {
    assert "{" <= s <==> s != "" && s[0] == '{';
    if s != "" && IsSpace(s[0]) {
      OpensWithBraceIff(s[1..]);
      if i: nat :| BraceAt(s[1..], i) {
        forall k | 0 < k < i + 1 ensures IsSpace(s[k]) { assert s[k] == s[1..][k - 1]; }
        assert BraceAt(s, i + 1);
      }
      if i: nat :| BraceAt(s, i) {
        assert forall k :: 0 <= k < i - 1 ==> s[1..][k] == s[k + 1];
        assert BraceAt(s[1..], i - 1);
      }
    } else if s != "" && s[0] == '{' {
      assert BraceAt(s, 0);
    }
  }

  /** One line, one frame: a frame followed by anything reads as that frame, or,
      exactly when what follows holds the prefix or opens with a brace, as unreadable;
      never as another. */
  lemma FrameOrNothing(f: Frame, tail: string, read: Reader)
    requires Undone(read)
    ensures ParseFrame(Print(f) + tail, read) == if Harmless(tail) then Some(f) else None
    ensures !Harmless(tail) <==>
              (exists i :: 0 <= i <= |tail| && PREFIX <= tail[i..]) || (exists i: nat :: BraceAt(tail, i))
  {
    OpensWithBraceIff(tail);
  }

  lemma PieceReads(p: Piece, read: Reader)
    requires Undone(read) && Plausible(p)
    ensures Items([StripCr(LineOf(p))], read) == FramesIn([p])
  {
    var line := StripCr(LineOf(p));
    var lines, pieces: seq<Piece> := [line], [p];
    assert |lines[..0]| == 0 && |pieces[..0]| == 0;
    match p
    case Kernel(text) => StripKeepsStart(text, PREFIX);
    case Emitted(f, tail) =>
      EmittedStrips(f, tail);
      HarmlessPrefix(StripCr(tail), tail);
      FrameOrNothing(f, StripCr(tail), read);
      assert line[|PREFIX|..] == Print(f) + StripCr(tail);
  }

  lemma {:induction false} ItemsJoin(a: seq<string>, b: seq<string>, read: Reader)
    ensures Items(a + b, read) == Items(a, read) + Items(b, read)
  {
    if b == [] {
      assert a + b == a;
    } else {
      var last := |b| - 1;
      ItemsJoin(a, b[..last], read);
      assert (a + b)[..|a + b| - 1] == a + b[..last];
    }
  }

  lemma PiecesGrow(pieces: seq<Piece>, p: Piece)
    ensures Stripped(PieceLines(pieces + [p])) == Stripped(PieceLines(pieces)) + [StripCr(LineOf(p))]
    ensures FramesIn(pieces + [p]) == FramesIn(pieces) + FramesIn([p])
  {
    var one: seq<Piece> := [p];
    assert |one[..0]| == 0 && (pieces + [p])[..|pieces|] == pieces;
  }

  lemma {:induction false} PiecesRead(pieces: seq<Piece>, read: Reader)
    requires Undone(read) && forall p <- pieces :: Plausible(p)
    ensures Items(Stripped(PieceLines(pieces)), read) == FramesIn(pieces)
  {
    if pieces != [] {
      var last := |pieces| - 1;
      var before, p := pieces[..last], pieces[last];
      assert pieces == before + [p] && p in pieces;
      assert forall q <- before :: q in pieces;
      PiecesRead(before, read);
      PieceReads(p, read);
      PiecesGrow(before, p);
      ItemsJoin(Stripped(PieceLines(before)), [StripCr(LineOf(p))], read);
    }
  }

  lemma {:induction false} NoFrames(lines: seq<string>, read: Reader)
    requires forall l <- lines :: !(PREFIX <= l)
    ensures Items(lines, read) == []
  {
    if lines != [] {
      var last := |lines| - 1;
      assert lines[last] in lines && forall l <- lines[..last] :: l in lines;
      NoFrames(lines[..last], read);
    }
  }

  // ---------------------------------------------------------------- negotiation

  lemma {:induction false} NoPilot(lines: seq<string>)
    requires forall l <- lines :: !("CELLN:" <= l)
    ensures PilotLines(lines) == []
  {
    if lines != [] {
      assert lines[0] in lines && forall l <- lines[1..] :: l in lines;
      NoPilot(lines[1..]);
    }
  }

  lemma {:induction false} NotAlive(lines: seq<string>)
    requires forall l <- lines :: !Marker(l, ALIVE)
    ensures FromAlive(PilotLines(lines)) == []
  {
    if lines != [] {
      assert lines[0] in lines && forall l <- lines[1..] :: l in lines;
      NotAlive(lines[1..]);
      var rest := PilotLines(lines[1..]);
      assert ([lines[0]] + rest)[1..] == rest && [] + rest == rest;
    }
  }

  lemma StartsShorter(line: string)
    ensures PREFIX <= line ==> "CELLN:" <= line
  {
    assert PREFIX[..6] == "CELLN:";
    if PREFIX <= line { assert line[..6] == PREFIX[..6]; }
  }

  /** A boot before any frame: both markers, and no frame about. */
  ghost predicate BootSplit(
      lines: seq<string>, before: seq<string>, alive: string, between: seq<string>, protocol: string) {
    && lines == before + ([alive] + (between + [protocol]))
    && (forall l <- before :: !(PREFIX <= l) && !Marker(l, ALIVE))
    && (forall l <- between :: !("CELLN:" <= l) && !(PREFIX <= l))
    && Marker(alive, ALIVE) && Marker(protocol, PROTOCOL)
  }

  lemma QuietBefore(lines: seq<string>)
    requires forall l <- lines :: !(PREFIX <= l) && !Marker(l, ALIVE)
    ensures forall l <- Stripped(lines) :: !(PREFIX <= l) && !Marker(l, ALIVE)
  {
    forall i | 0 <= i < |lines| ensures !(PREFIX <= StripCr(lines[i])) && !Marker(StripCr(lines[i]), ALIVE) {
      assert lines[i] in lines;
      StripKeepsStart(lines[i], PREFIX);
      StripKeepsMarker(lines[i], ALIVE);
    }
  }

  lemma QuietBetween(lines: seq<string>)
    requires forall l <- lines :: !("CELLN:" <= l)
    ensures forall l <- Stripped(lines) :: !("CELLN:" <= l) && !(PREFIX <= l)
  {
    forall i | 0 <= i < |lines| ensures !("CELLN:" <= StripCr(lines[i])) && !(PREFIX <= StripCr(lines[i])) {
      assert lines[i] in lines;
      StripKeepsStart(lines[i], "CELLN:");
      StartsShorter(StripCr(lines[i]));
    }
  }

  lemma StrippedMarker(marker: string, tail: string)
    requires marker != "" && marker[|marker| - 1] != '\r' && EndsMarker(tail)
    ensures Marker(StripCr(marker + tail), marker)
  {
    assert (marker + tail)[|marker|..] == tail;
    StripKeepsMarker(marker + tail, marker);
  }

  lemma StrippedBoot(b: Boot)
    requires Boots(b)
    ensures exists before, alive, between, protocol ::
              BootSplit(Stripped(BootLines(b)), before, alive, between, protocol)
  {
    var before, between := Stripped(b.before), Stripped(b.between);
    var alive, protocol := StripCr(ALIVE + b.aliveTail), StripCr(PROTOCOL + b.protocolTail);
    QuietBefore(b.before);
    QuietBetween(b.between);
    StrippedMarker(ALIVE, b.aliveTail);
    StrippedMarker(PROTOCOL, b.protocolTail);
    assert BootSplit(Stripped(BootLines(b)), before, alive, between, protocol);
  }

  lemma MarkerLines(alive: string, protocol: string)
    requires Marker(alive, ALIVE) && Marker(protocol, PROTOCOL)
    ensures "CELLN:" <= alive && "CELLN:" <= protocol && !(PREFIX <= alive) && !(PREFIX <= protocol)
  {
    assert alive[..6] == ALIVE[..6] == "CELLN:" && protocol[..6] == PROTOCOL[..6] == "CELLN:";
    assert alive[6] == ALIVE[6] == 'p' && PREFIX[6] == 'd';
    assert protocol[14] == PROTOCOL[14] == '-' && PREFIX[14] == '=';
  }

  lemma BootNegotiates(before: seq<string>, alive: string, between: seq<string>, protocol: string, more: seq<string>)
    requires forall l <- before :: !Marker(l, ALIVE)
    requires forall l <- between :: !("CELLN:" <= l)
    requires Marker(alive, ALIVE) && Marker(protocol, PROTOCOL)
    ensures Negotiated(before + ([alive] + (between + [protocol])) + more)
  {
    MarkerLines(alive, protocol);
    NotAlive(before);
    PilotOfBoot(alive, between, protocol);
    var markers := [alive] + (between + [protocol]);
    PilotLinesJoin(before, markers);
    PilotLinesJoin(before + markers, more);
    FromAliveJoin(PilotLines(before), [alive, protocol] + PilotLines(more));
    assert PilotLines(before + markers + more) == PilotLines(before) + ([alive, protocol] + PilotLines(more));
  }

  lemma PilotOfBoot(alive: string, between: seq<string>, protocol: string)
    requires "CELLN:" <= alive && "CELLN:" <= protocol && forall l <- between :: !("CELLN:" <= l)
    ensures PilotLines([alive] + (between + [protocol])) == [alive, protocol]
  {
    NoPilot(between);
    PilotLinesJoin(between, [protocol]);
    PilotLinesJoin([alive], between + [protocol]);
    OnePilotLine(alive);
    OnePilotLine(protocol);
  }

  lemma OnePilotLine(line: string)
    requires "CELLN:" <= line
    ensures PilotLines([line]) == [line]
  {
    var one := [line];
    assert one[1..] == [];
  }

  lemma BootHasNoFrames(before: seq<string>, alive: string, between: seq<string>, protocol: string, read: Reader)
    requires BootSplit(before + ([alive] + (between + [protocol])), before, alive, between, protocol)
    ensures Items(before + ([alive] + (between + [protocol])), read) == []
  {
    MarkerLines(alive, protocol);
    NoFrames(before + ([alive] + (between + [protocol])), read);
  }

  lemma BootReads(b: Boot, more: seq<string>, read: Reader)
    requires Boots(b)
    ensures Items(Stripped(BootLines(b)), read) == []
    ensures Negotiated(Stripped(BootLines(b)) + more)
  {
    StrippedBoot(b);
    var before, alive, between, protocol :| BootSplit(Stripped(BootLines(b)), before, alive, between, protocol);
    BootHasNoFrames(before, alive, between, protocol, read);
    BootNegotiates(before, alive, between, protocol, more);
  }

  // ----------------------------------------------------------------- round trip

  function Console(b: Boot, pieces: seq<Piece>): string {
    Text(BootLines(b) + PieceLines(pieces))
  }

  lemma PieceHasNoNewline(p: Piece)
    requires Plausible(p)
    ensures '\n' !in LineOf(p)
  {
    if p.Emitted? { PrintIsOneLine(p.frame); }
  }

  lemma BootHasNoNewlines(b: Boot)
    requires Boots(b)
    ensures forall l <- BootLines(b) :: '\n' !in l
  {
    assert '\n' !in ALIVE && '\n' !in PROTOCOL;
  }

  lemma ConsoleLines(b: Boot, pieces: seq<Piece>)
    requires Boots(b) && forall p <- pieces :: Plausible(p)
    ensures Lines(Console(b, pieces)) == Stripped(BootLines(b)) + Stripped(PieceLines(pieces))
  {
    var boot, rest := BootLines(b), PieceLines(pieces);
    BootHasNoNewlines(b);
    forall l <- rest ensures '\n' !in l {
      var i :| 0 <= i < |pieces| && LineOf(pieces[i]) == l;
      assert pieces[i] in pieces;
      PieceHasNoNewline(pieces[i]);
    }
    LinesOfText(boot + rest);
    assert Stripped(boot + rest) == Stripped(boot) + Stripped(rest);
  }

  /** Report round trip. Whatever workload bytes, hashes, names and reasons the
      frames hold, whatever kernel lines stand between them and whatever harmless
      text follows a marker or a frame on its line, a report emitted in order
      reads back exactly. */
  lemma ReportReadsBack(
      b: Boot, pieces: seq<Piece>, p: Script, limit: nat, timedOut: bool, shutdown: bool, read: Reader)
    requires Undone(read) && Boots(b) && (forall piece <- pieces :: Plausible(piece))
    requires Proper(p) && FramesIn(pieces) == Play(p)
    ensures Says(Reported(Console(b, pieces), limit, timedOut, shutdown, read), p, limit, timedOut, shutdown)
  {
    ConsoleLines(b, pieces);
    var boot, rest := Stripped(BootLines(b)), Stripped(PieceLines(pieces));
    BootReads(b, rest, read);
    PiecesRead(pieces, read);
    ItemsJoin(boot, rest, read);
    ScriptDecides(Console(b, pieces), limit, timedOut, shutdown, read, p);
  }

  /** Field by field, for a guest that exits and shuts down in time. */
  lemma ExitReadsBack(b: Boot, pieces: seq<Piece>, p: Script, limit: nat, read: Reader)
    requires Undone(read) && Boots(b) && (forall piece <- pieces :: Plausible(piece))
    requires Proper(p) && FramesIn(pieces) == Play(p) && p.end.Some? && p.end.value.Exit?
    ensures var r := Reported(Console(b, pieces), limit, false, true, read);
            && r.execution == p.grant
            && r.inputHashes == (if p.inputs.Some? then p.inputs.value else [])
            && r.output == Taken(Flat(p.chunks), limit)
            && r.exitCode == Some(p.end.value.code)
            && (Succeeded(r) <==> p.end.value.code == 0)
  {
    ReportReadsBack(b, pieces, p, limit, false, true, read);
  }
}
