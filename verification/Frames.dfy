/** The frames pilot writes to the console and their JSON (dispatch_report.rs):
    the text `serde_json::to_string` gives a frame, and a reader of exactly that
    text which stops where the frame ends. */
module Frames {
  import opened Common
  import opened Decimal

  type i32 = n: int | -0x8000_0000 <= n < 0x8000_0000

  datatype ExecutionGrant = ExecutionGrant(
    tool: string, lane: string, workspace: Option<string>, fetch: bool)

  datatype Frame =
    | Started(grant: ExecutionGrant)
    | Inputs(hashes: seq<string>)
    | Output(bytes: Bytes)
    | Exit(code: i32)
    | Signal(signal: i32)
    | Failed(reason: string)

  // ------------------------------------------------------------------- printing

  function HexChar(n: nat): char
    requires n < 16
  {
    if n < 10 then (n + '0' as int) as char else (n - 10 + 'a' as int) as char
  }

  /** One character of a JSON string (section 7 of RFC 8259). */
  function Escape(c: char): string {
    if c == '"' then "\\\""
    else if c == '\\' then "\\\\"
    else if c as int == 8 then "\\b"
    else if c as int == 12 then "\\f"
    else if c == '\n' then "\\n"
    else if c == '\r' then "\\r"
    else if c == '\t' then "\\t"
    else if c < ' ' then "\\u00" + [HexChar(c as int / 16), HexChar(c as int % 16)]
    else [c]
  }

  function Escaped(s: string): string {
    if s == "" then "" else Escape(s[0]) + Escaped(s[1..])
  }

  function StringText(s: string): string {
    "\"" + (Escaped(s) + "\"")
  }

  function ByteText(b: byte): string {
    Digits(b as int)
  }

  function IntText(n: i32): string {
    var v: int := n;
    if v < 0 then "-" + Digits(-v) else Digits(v)
  }

  function BoolText(b: bool): string {
    if b then "true" else "false"
  }

  function WorkspaceText(w: Option<string>): string {
    match w
    case Some(s) => StringText(s)
    case None => "null"
  }

  /** The elements of an array after its opening bracket. */
  function ItemsText<T>(items: seq<T>, text: T -> string): string {
    if items == [] then "]"
    else if |items| == 1 then text(items[0]) + "]"
    else text(items[0]) + ("," + ItemsText(items[1..], text))
  }

  /** The first two fields of a grant, up to the value of the third, and the rest. */
  function NamesText(tool: string, lane: string): string {
    StringText(tool) + (",\"lane\":" + (StringText(lane) + ",\"workspace\":"))
  }

  function ReachText(workspace: Option<string>, fetch: bool): string {
    WorkspaceText(workspace) + (",\"fetch\":" + (BoolText(fetch) + "}"))
  }

  function GrantText(g: ExecutionGrant): string {
    "{\"tool\":" + (NamesText(g.tool, g.lane) + ReachText(g.workspace, g.fetch))
  }

  const STARTED := "{\"kind\":\"started\",\"grant\":"
  const INPUTS := "{\"kind\":\"inputs\",\"hashes\":["
  const OUTPUT := "{\"kind\":\"output\",\"bytes\":["
  const EXIT := "{\"kind\":\"exit\",\"code\":"
  const SIGNAL := "{\"kind\":\"signal\",\"signal\":"
  const FAILED := "{\"kind\":\"failed\",\"reason\":"

  /** The value of a frame's only field, as text. */
  function BodyText(f: Frame): string {
    match f
    case Started(grant) => GrantText(grant)
    case Inputs(hashes) => ItemsText(hashes, StringText)
    case Output(bytes) => ItemsText(bytes, ByteText)
    case Exit(code) => IntText(code)
    case Signal(signal) => IntText(signal)
    case Failed(reason) => StringText(reason)
  }

  datatype Kind = StartedKind | InputsKind | OutputKind | ExitKind | SignalKind | FailedKind

  function KindOf(f: Frame): Kind {
    match f
    case Started(_) => StartedKind
    case Inputs(_) => InputsKind
    case Output(_) => OutputKind
    case Exit(_) => ExitKind
    case Signal(_) => SignalKind
    case Failed(_) => FailedKind
  }

  function Head(k: Kind): string {
    match k
    case StartedKind => STARTED
    case InputsKind => INPUTS
    case OutputKind => OUTPUT
    case ExitKind => EXIT
    case SignalKind => SIGNAL
    case FailedKind => FAILED
  }

  /** `serde_json::to_string` of a frame. */
  function Print(f: Frame): string {
    Head(KindOf(f)) + (BodyText(f) + "}")
  }

  // -------------------------------------------------------------------- reading

  /** A value and the text after it. */
  type Read<+T> = Option<(T, string)>

  function Expect(s: string, literal: string): Option<string> {
    if literal <= s then Some(s[|literal|..]) else None
  }

  function HexValue(c: char): Option<nat> {
    if '0' <= c <= '9' then Some(c as int - '0' as int)
    else if 'a' <= c <= 'f' then Some(c as int - 'a' as int + 10)
    else None
  }

  /** One character of a string, unescaped. */
  function ReadChar(s: string): Read<char> {
    if s == "" || s[0] < ' ' || s[0] == '"' then None
    else if s[0] != '\\' then Some((s[0], s[1..]))
    else if |s| < 2 then None
    else if s[1] == '"' then Some(('"', s[2..]))
    else if s[1] == '\\' then Some(('\\', s[2..]))
    else if s[1] == 'b' then Some((8 as char, s[2..]))
    else if s[1] == 'f' then Some((12 as char, s[2..]))
    else if s[1] == 'n' then Some(('\n', s[2..]))
    else if s[1] == 'r' then Some(('\r', s[2..]))
    else if s[1] == 't' then Some(('\t', s[2..]))
    else if |s| >= 6 && s[1] == 'u' && s[2] == '0' && s[3] == '0' then
      match (HexValue(s[4]), HexValue(s[5]))
      case (Some(h), Some(l)) => Some(((16 * h + l) as char, s[6..]))
      case _ => None
    else None
  }

  lemma ReadCharConsumes(s: string)
    ensures ReadChar(s).Some? ==> |ReadChar(s).value.1| < |s|
  {
  }

  /** The rest of a string and what follows its closing quote. */
  function ReadBody(s: string): Read<string>
    decreases |s|
  {
    if s == "" then None
    else if s[0] == '"' then Some(("", s[1..]))
    else
      ReadCharConsumes(s);
      match ReadChar(s)
      case None => None
      case Some((c, rest)) =>
        match ReadBody(rest)
        case None => None
        case Some((cs, end)) => Some(([c] + cs, end))
  }

  function ReadString(s: string): Read<string> {
    match Expect(s, "\"")
    case None => None
    case Some(rest) => ReadBody(rest)
  }

  /** A number without leading zeros. */
  function ReadNat(s: string): Read<nat> {
    var k := DigitRun(s);
    if k == 0 || (k > 1 && s[0] == '0') then None else Some((Value(s[..k]), s[k..]))
  }

  function ReadByte(s: string): Read<byte> {
    match ReadNat(s)
    case Some((n, rest)) => if n < 256 then Some((n as byte, rest)) else None
    case None => None
  }

  function ReadInt(s: string): Read<i32> {
    match Expect(s, "-")
    case Some(rest) =>
      (match ReadNat(rest)
       case Some((n, end)) =>
         var v: int := n;
         if 0 < v <= 0x8000_0000 then Some((-v, end)) else None
       case None => None)
    case None =>
      match ReadNat(s)
      case Some((n, end)) => if n < 0x8000_0000 then Some((n, end)) else None
      case None => None
  }

  function ReadBool(s: string): Read<bool> {
    if "true" <= s then Some((true, s[4..]))
    else if "false" <= s then Some((false, s[5..]))
    else None
  }

  function ReadWorkspace(s: string): Read<Option<string>> {
    match Expect(s, "null")
    case Some(rest) => Some((None, rest))
    case None =>
      match ReadString(s)
      case Some((w, rest)) => Some((Some(w), rest))
      case None => None
  }

  /** The elements of an array that is not empty, with its closing bracket. */
  function ReadItems<T>(s: string, read: string -> Read<T>): Read<seq<T>>
    decreases |s|
  {
    match read(s)
    case None => None
    case Some((item, rest)) =>
      if rest == "" || |rest| >= |s| then None
      else if rest[0] == ']' then Some(([item], rest[1..]))
      else if rest[0] != ',' then None
      else
        match ReadItems(rest[1..], read)
        case None => None
        case Some((items, end)) => Some(([item] + items, end))
  }

  function ReadArray<T>(s: string, read: string -> Read<T>): Read<seq<T>> {
    match Expect(s, "]")
    case Some(rest) => Some(([], rest))
    case None => ReadItems(s, read)
  }

  /** A field of an object: its value, then the literal that leads to the next. */
  function Then<T>(r: Read<T>, literal: string): Read<T> {
    match r
    case None => None
    case Some((v, rest)) =>
      match Expect(rest, literal)
      case None => None
      case Some(end) => Some((v, end))
  }

  function ReadNames(s: string): Read<(string, string)> {
    match Then(ReadString(s), ",\"lane\":")
    case None => None
    case Some((tool, s1)) =>
      match Then(ReadString(s1), ",\"workspace\":")
      case None => None
      case Some((lane, end)) => Some(((tool, lane), end))
  }

  function ReadReach(s: string): Read<(Option<string>, bool)> {
    match Then(ReadWorkspace(s), ",\"fetch\":")
    case None => None
    case Some((workspace, s1)) =>
      match Then(ReadBool(s1), "}")
      case None => None
      case Some((fetch, end)) => Some(((workspace, fetch), end))
  }

  function ReadGrant(s: string): Read<ExecutionGrant> {
    match Expect(s, "{\"tool\":")
    case None => None
    case Some(s0) =>
      match ReadNames(s0)
      case None => None
      case Some((names, s1)) =>
        match ReadReach(s1)
        case None => None
        case Some((reach, end)) => Some((ExecutionGrant(names.0, names.1, reach.0, reach.1), end))
  }

  function Wrap<T>(r: Read<T>, make: T -> Frame): Read<Frame> {
    match Then(r, "}")
    case None => None
    case Some((v, end)) => Some((make(v), end))
  }

  function ReadKind(s: string): Option<Kind> {
    if STARTED <= s then Some(StartedKind)
    else if INPUTS <= s then Some(InputsKind)
    else if OUTPUT <= s then Some(OutputKind)
    else if EXIT <= s then Some(ExitKind)
    else if SIGNAL <= s then Some(SignalKind)
    else if FAILED <= s then Some(FailedKind)
    else None
  }

  /** What stands behind the head of a frame. */
  function ReadFields(k: Kind, s: string): Read<Frame> {
    match k
    case StartedKind => Wrap(ReadGrant(s), g => Started(g))
    case InputsKind => Wrap(ReadArray(s, ReadString), h => Inputs(h))
    case OutputKind => Wrap(ReadArray(s, ReadByte), b => Output(b))
    case ExitKind => Wrap(ReadInt(s), (c: i32) => Exit(c))
    case SignalKind => Wrap(ReadInt(s), (n: i32) => Signal(n))
    case FailedKind => Wrap(ReadString(s), r => Failed(r))
  }

  function Behind(s: string, head: string): string {
    if head <= s then s[|head|..] else ""
  }

  /** The frame at the front of the text, if there is one. */
  function ReadFrame(s: string): Read<Frame> {
    match ReadKind(s)
    case None => None
    case Some(k) => ReadFields(k, Behind(s, Head(k)))
  }

  // --------------------------------------------------------------- reading back

  lemma ExpectSkips(literal: string, tail: string)
    ensures Expect(literal + tail, literal) == Some(tail)
  {
    assert (literal + tail)[..|literal|] == literal && (literal + tail)[|literal|..] == tail;
  }

  lemma PlainReadsBack(c: char, tail: string)
    requires Escape(c) == [c]
    ensures ReadChar([c] + tail) == Some((c, tail))
  {
    assert ([c] + tail)[1..] == tail;
  }

  lemma ShortEscapeReadsBack(c: char, tail: string)
    requires |Escape(c)| == 2
    ensures ReadChar(Escape(c) + tail) == Some((c, tail))
  {
    var s := Escape(c) + tail;
    assert s[0] == '\\' && s[1] == Escape(c)[1] && s[2..] == tail;
  }

  lemma HexEscapeReadsBack(c: char, tail: string)
    requires |Escape(c)| == 6
    ensures ReadChar(Escape(c) + tail) == Some((c, tail))
  {
    var s := Escape(c) + tail;
    assert forall i :: 0 <= i < 6 ==> s[i] == Escape(c)[i];
    assert s[6..] == tail;
    assert HexValue(s[4]) == Some(c as int / 16) && HexValue(s[5]) == Some(c as int % 16);
  }

  lemma EscapeShape(c: char)
    ensures Escape(c) == [c] || |Escape(c)| == 2 || |Escape(c)| == 6
    ensures Escape(c) != "" && Escape(c)[0] != '"'
  {
  }

  lemma CharReadsBack(c: char, tail: string)
    ensures ReadChar(Escape(c) + tail) == Some((c, tail))
    ensures Escape(c) != "" && Escape(c)[0] != '"'
  {
    EscapeShape(c);
    if Escape(c) == [c] { PlainReadsBack(c, tail); }
    else if |Escape(c)| == 2 { ShortEscapeReadsBack(c, tail); }
    else { HexEscapeReadsBack(c, tail); }
  }

  lemma EscapedBehind(c: char, s: string, tail: string)
    ensures Escaped([c] + s) + tail == Escape(c) + (Escaped(s) + tail)
  {
    assert ([c] + s)[1..] == s;
  }

  lemma NextCharReads(c: char, rest: string, s: string, tail: string)
    requires ReadBody(rest) == Some((s, tail))
    ensures ReadBody(Escape(c) + rest) == Some(([c] + s, tail))
  {
    CharReadsBack(c, rest);
    assert (Escape(c) + rest)[0] == Escape(c)[0];
  }

  lemma {:induction false} BodyReadsBack(s: string, tail: string)
    ensures ReadBody(Escaped(s) + ("\"" + tail)) == Some((s, tail))
  {
    if s == "" {
      assert Escaped(s) + ("\"" + tail) == "\"" + tail;
    } else {
      BodyReadsBack(s[1..], tail);
      NextCharReads(s[0], Escaped(s[1..]) + ("\"" + tail), s[1..], tail);
      EscapedBehind(s[0], s[1..], "\"" + tail);
      assert [s[0]] + s[1..] == s;
    }
  }

  lemma StringReadsBack(s: string, tail: string)
    ensures ReadString(StringText(s) + tail) == Some((s, tail))
  {
    Regroup("\"", Escaped(s), "\"", tail);
    ExpectSkips("\"", Escaped(s) + ("\"" + tail));
    BodyReadsBack(s, tail);
  }

  lemma NatReadsBack(n: nat, tail: string)
    requires tail == "" || !IsDigit(tail[0])
    ensures ReadNat(Digits(n) + tail) == Some((n, tail))
  {
    DigitsRight(n);
    NoLeadingZero(n);
    DigitRunEnds(Digits(n), tail);
    assert (Digits(n) + tail)[..|Digits(n)|] == Digits(n) && (Digits(n) + tail)[|Digits(n)|..] == tail;
  }

  lemma DigitsStartDigit(n: nat)
    ensures Digits(n) != "" && IsDigit(Digits(n)[0])
  {
    DigitsRight(n);
    NoLeadingZero(n);
    assert Digits(n)[0] in Digits(n);
  }

  lemma PositiveReadsBack(n: nat, tail: string)
    requires n < 0x8000_0000 && (tail == "" || !IsDigit(tail[0]))
    ensures ReadInt(Digits(n) + tail) == Some((n, tail))
  {
    DigitsStartDigit(n);
    NatReadsBack(n, tail);
    assert (Digits(n) + tail)[0] == Digits(n)[0];
    assert !("-" <= Digits(n) + tail) by { assert "-"[0] == '-'; }
  }

  lemma NegativeReadsBack(n: nat, tail: string)
    requires 0 < n <= 0x8000_0000 && (tail == "" || !IsDigit(tail[0]))
    ensures ReadInt("-" + Digits(n) + tail) == Some((-(n as int), tail))
  {
    assert "-" + Digits(n) + tail == "-" + (Digits(n) + tail);
    ExpectSkips("-", Digits(n) + tail);
    NatReadsBack(n, tail);
  }

  lemma IntReadsBack(n: i32, tail: string)
    requires tail == "" || !IsDigit(tail[0])
    ensures ReadInt(IntText(n) + tail) == Some((n, tail))
  {
    var v: int := n;
    if v < 0 { NegativeReadsBack(-v, tail); } else { PositiveReadsBack(v, tail); }
  }

  predicate Delimited(tail: string) {
    tail != "" && (tail[0] == ',' || tail[0] == ']')
  }

  /** `read` undoes `text` in front of a comma or a bracket. */
  ghost predicate Undoes<T(!new)>(text: T -> string, read: string -> Read<T>) {
    && (forall v: T :: text(v) != "" && text(v)[0] != ']')
    && (forall v: T, tail: string :: Delimited(tail) ==> read(text(v) + tail) == Some((v, tail)))
  }

  lemma LastItemReads<T(!new)>(item: T, text: T -> string, read: string -> Read<T>, tail: string)
    requires Undoes(text, read)
    ensures ReadItems(ItemsText([item], text) + tail, read) == Some(([item], tail))
  {
    var s := ItemsText([item], text) + tail;
    assert Delimited("]" + tail) && ("]" + tail)[1..] == tail;
    assert s == text(item) + ("]" + tail);
    assert read(s) == Some((item, "]" + tail));
  }

  lemma NextItemReads<T(!new)>(item: T, rest: seq<T>, text: T -> string, read: string -> Read<T>, tail: string)
    requires Undoes(text, read) && rest != []
    requires ReadItems(ItemsText(rest, text) + tail, read) == Some((rest, tail))
    ensures ReadItems(ItemsText([item] + rest, text) + tail, read) == Some(([item] + rest, tail))
  {
    var more := ItemsText(rest, text) + tail;
    assert ([item] + rest)[1..] == rest;
    assert Delimited("," + more) && ("," + more)[1..] == more;
    assert ItemsText([item] + rest, text) + tail == text(item) + ("," + more);
    assert read(text(item) + ("," + more)) == Some((item, "," + more));
  }

  lemma {:induction false} ItemsReadBack<T(!new)>(
      items: seq<T>, text: T -> string, read: string -> Read<T>, tail: string)
    requires Undoes(text, read) && items != []
    ensures ReadItems(ItemsText(items, text) + tail, read) == Some((items, tail))
  {
    if |items| == 1 {
      assert items == [items[0]];
      LastItemReads(items[0], text, read, tail);
    } else {
      ItemsReadBack(items[1..], text, read, tail);
      NextItemReads(items[0], items[1..], text, read, tail);
      assert items == [items[0]] + items[1..];
    }
  }

  lemma ArrayReadsBack<T(!new)>(items: seq<T>, text: T -> string, read: string -> Read<T>, tail: string)
    requires Undoes(text, read)
    ensures ReadArray(ItemsText(items, text) + tail, read) == Some((items, tail))
  {
    if items == [] {
      ExpectSkips("]", tail);
    } else {
      ItemsReadBack(items, text, read, tail);
      assert (ItemsText(items, text) + tail)[0] == text(items[0])[0];
    }
  }

  lemma StringsUndone()
    ensures Undoes(StringText, ReadString)
  {
    forall v: string, tail: string ensures ReadString(StringText(v) + tail) == Some((v, tail)) {
      StringReadsBack(v, tail);
    }
  }

  lemma BytesUndone()
    ensures Undoes(ByteText, ReadByte)
  {
    forall v: byte ensures ByteText(v) != "" && ByteText(v)[0] != ']' {
      DigitsRight(v as int);
      NoLeadingZero(v as int);
      assert ByteText(v)[0] in ByteText(v);
    }
    forall v: byte, tail: string | Delimited(tail) ensures ReadByte(ByteText(v) + tail) == Some((v, tail)) {
      NatReadsBack(v as int, tail);
    }
  }

  lemma ThenSkips<T>(v: T, literal: string, tail: string)
    ensures Then(Some((v, literal + tail)), literal) == Some((v, tail))
  {
    ExpectSkips(literal, tail);
  }

  lemma WorkspaceReadsBack(w: Option<string>, tail: string)
    ensures ReadWorkspace(WorkspaceText(w) + tail) == Some((w, tail))
  {
    match w
    case None => ExpectSkips("null", tail);
    case Some(s) =>
      StringReadsBack(s, tail);
      assert (WorkspaceText(w) + tail)[0] == '"' && "null"[0] == 'n';
  }

  lemma BoolReadsBack(b: bool, tail: string)
    ensures ReadBool(BoolText(b) + tail) == Some((b, tail))
  {
    var s := BoolText(b) + tail;
    assert s[0] == BoolText(b)[0];
    if b { assert s[4..] == tail; } else { assert s[5..] == tail && "true"[0] == 't'; }
  }

  lemma NamesReadBack(tool: string, lane: string, tail: string)
    ensures ReadNames(NamesText(tool, lane) + tail) == Some(((tool, lane), tail))
  {
    var s1 := StringText(lane) + (",\"workspace\":" + tail);
    assert NamesText(tool, lane) + tail == StringText(tool) + (",\"lane\":" + s1);
    StringReadsBack(tool, ",\"lane\":" + s1);
    ThenSkips(tool, ",\"lane\":", s1);
    StringReadsBack(lane, ",\"workspace\":" + tail);
    ThenSkips(lane, ",\"workspace\":", tail);
  }

  lemma ReachReadsBack(workspace: Option<string>, fetch: bool, tail: string)
    ensures ReadReach(ReachText(workspace, fetch) + tail) == Some(((workspace, fetch), tail))
  {
    var s1 := BoolText(fetch) + ("}" + tail);
    assert ReachText(workspace, fetch) + tail == WorkspaceText(workspace) + (",\"fetch\":" + s1);
    WorkspaceReadsBack(workspace, ",\"fetch\":" + s1);
    ThenSkips(workspace, ",\"fetch\":", s1);
    BoolReadsBack(fetch, "}" + tail);
    ThenSkips(fetch, "}", tail);
  }

  lemma GrantReadsBack(g: ExecutionGrant, tail: string)
    ensures ReadGrant(GrantText(g) + tail) == Some((g, tail))
  {
    var names, reach := NamesText(g.tool, g.lane), ReachText(g.workspace, g.fetch);
    Regroup("{\"tool\":", names, reach, tail);
    ExpectSkips("{\"tool\":", names + (reach + tail));
    NamesReadBack(g.tool, g.lane, reach + tail);
    ReachReadsBack(g.workspace, g.fetch, tail);
  }

  lemma Regroup(a: string, b: string, c: string, d: string)
    ensures a + (b + c) + d == a + (b + (c + d))
  {
  }

  /** The heads of the six kinds differ where none has ended yet. */
  lemma HeadsDiffer(k: Kind, s: string)
    requires Head(k) <= s
    ensures ReadKind(s) == Some(k)
  {
    assert STARTED[9] == 's' && STARTED[10] == 't' && INPUTS[9] == 'i' && OUTPUT[9] == 'o';
    assert EXIT[9] == 'e' && SIGNAL[9] == 's' && SIGNAL[10] == 'i' && FAILED[9] == 'f';
    assert s[9] == Head(k)[9] && s[10] == Head(k)[10];
  }

  lemma HeadReads(head: string, body: string, tail: string)
    ensures head <= (head + (body + "}")) + tail
    ensures Behind((head + (body + "}")) + tail, head) == body + ("}" + tail)
  {
    var s := (head + (body + "}")) + tail;
    assert s == head + (body + ("}" + tail));
  }

  lemma StartedFieldsRead(grant: ExecutionGrant, tail: string)
    ensures ReadFields(StartedKind, GrantText(grant) + ("}" + tail)) == Some((Started(grant), tail))
  {
    GrantReadsBack(grant, "}" + tail);
    ThenSkips(grant, "}", tail);
  }

  lemma InputsFieldsRead(hashes: seq<string>, tail: string)
    ensures ReadFields(InputsKind, ItemsText(hashes, StringText) + ("}" + tail)) == Some((Inputs(hashes), tail))
  {
    StringsUndone();
    ArrayReadsBack(hashes, StringText, ReadString, "}" + tail);
    ThenSkips(hashes, "}", tail);
  }

  lemma OutputFieldsRead(bytes: Bytes, tail: string)
    ensures ReadFields(OutputKind, ItemsText(bytes, ByteText) + ("}" + tail)) == Some((Output(bytes), tail))
  {
    BytesUndone();
    ArrayReadsBack(bytes, ByteText, ReadByte, "}" + tail);
    ThenSkips(bytes, "}", tail);
  }

  lemma NumberFieldsRead(n: i32, tail: string)
    ensures ReadFields(ExitKind, IntText(n) + ("}" + tail)) == Some((Exit(n), tail))
    ensures ReadFields(SignalKind, IntText(n) + ("}" + tail)) == Some((Signal(n), tail))
  {
    IntReadsBack(n, "}" + tail);
    ThenSkips(n, "}", tail);
  }

  lemma FailedFieldsRead(reason: string, tail: string)
    ensures ReadFields(FailedKind, StringText(reason) + ("}" + tail)) == Some((Failed(reason), tail))
  {
    StringReadsBack(reason, "}" + tail);
    ThenSkips(reason, "}", tail);
  }

  lemma FieldsReadBack(f: Frame, tail: string)
    ensures ReadFields(KindOf(f), BodyText(f) + ("}" + tail)) == Some((f, tail))
  {
    match f
    case Started(grant) => StartedFieldsRead(grant, tail);
    case Inputs(hashes) => InputsFieldsRead(hashes, tail);
    case Output(bytes) => OutputFieldsRead(bytes, tail);
    case Exit(code) => NumberFieldsRead(code, tail);
    case Signal(signal) => NumberFieldsRead(signal, tail);
    case Failed(reason) => FailedFieldsRead(reason, tail);
  }

  /** A printed frame reads back as itself in front of any text whatever, and the
      reader stops exactly at its end. */
  lemma FrameReadsBack(f: Frame, tail: string)
    ensures ReadFrame(Print(f) + tail) == Some((f, tail))
  {
    var head := Head(KindOf(f));
    HeadReads(head, BodyText(f), tail);
    HeadsDiffer(KindOf(f), (head + (BodyText(f) + "}")) + tail);
    FieldsReadBack(f, tail);
  }

  lemma PlainText(c: char)
    requires 'a' <= c <= 'z'
    ensures StringText([c]) == "\"" + [c] + "\""
  {
    assert [c][1..] == "";
    assert Escaped([c]) == [c];
  }

  /** The texts themselves, one of each kind. */
  lemma WireTexts()
    ensures Print(Exit(0)) == "{\"kind\":\"exit\",\"code\":0}"
    ensures Print(Signal(9)) == "{\"kind\":\"signal\",\"signal\":9}"
    ensures Print(Failed("n")) == "{\"kind\":\"failed\",\"reason\":\"n\"}"
    ensures Print(Output([7])) == "{\"kind\":\"output\",\"bytes\":[7]}"
    ensures Print(Inputs(["h"])) == "{\"kind\":\"inputs\",\"hashes\":[\"h\"]}"
  {
    assert Digits(0) == "0" && Digits(7) == "7" && Digits(9) == "9";
    PlainText('n');
    PlainText('h');
  }

  lemma NamesWireText()
    ensures NamesText("t", "l") == "\"t\"" + (",\"lane\":" + ("\"l\"" + ",\"workspace\":"))
  {
    PlainText('t');
    PlainText('l');
  }

  lemma ReachWireText()
    ensures ReachText(Some("w"), true) == "\"w\",\"fetch\":true}"
    ensures ReachText(None, false) == "null,\"fetch\":false}"
  {
    PlainText('w');
  }

  lemma GrantWireText()
    ensures GrantText(ExecutionGrant("t", "l", Some("w"), true))
            == "{\"tool\":" + (("\"t\"" + (",\"lane\":" + ("\"l\"" + ",\"workspace\":"))) + "\"w\",\"fetch\":true}")
    ensures GrantText(ExecutionGrant("t", "l", None, false))
            == "{\"tool\":" + (("\"t\"" + (",\"lane\":" + ("\"l\"" + ",\"workspace\":"))) + "null,\"fetch\":false}")
  {
    NamesWireText();
    ReachWireText();
  }

  /** So no two frames share a text, and none is the beginning of another's. */
  lemma PrintIsPrefixFree(f: Frame, g: Frame)
    requires Print(f) <= Print(g)
    ensures f == g
  {
    var tail := Print(g)[|Print(f)|..];
    FrameReadsBack(f, tail);
    FrameReadsBack(g, "");
    OneReading(Print(f), tail, Print(g), f, g);
  }

  lemma OneReading(a: string, tail: string, b: string, f: Frame, g: Frame)
    requires a <= b && tail == b[|a|..]
    requires ReadFrame(a + tail) == Some((f, tail)) && ReadFrame(b + "") == Some((g, ""))
    ensures f == g
  {
    assert a + tail == b == b + "";
  }

  // ------------------------------------------------------------------- one line

  /** No character that could end a console line. */
  predicate OneLine(s: string) {
    forall c <- s :: c != '\n' && c != '\r'
  }

  lemma {:induction false} EscapedIsOneLine(s: string)
    ensures OneLine(Escaped(s))
  {
    if s != "" { EscapedIsOneLine(s[1..]); }
  }

  lemma NumbersAreOneLine(n: nat)
    ensures OneLine(Digits(n))
  {
    DigitsRight(n);
  }

  lemma IntsAreOneLine(n: i32)
    ensures OneLine(IntText(n))
  {
    var v: int := n;
    NumbersAreOneLine(if v < 0 then -v else v);
  }

  lemma {:induction false} ItemsAreOneLine<T(!new)>(items: seq<T>, text: T -> string)
    requires forall v: T :: OneLine(text(v))
    ensures OneLine(ItemsText(items, text))
  {
    if |items| > 1 { ItemsAreOneLine(items[1..], text); }
  }

  lemma JoinedIsOneLine(a: string, b: string)
    requires OneLine(a) && OneLine(b)
    ensures OneLine(a + b)
  {
  }

  lemma NamesAreOneLine(tool: string, lane: string)
    ensures OneLine(NamesText(tool, lane))
  {
    EscapedIsOneLine(tool);
    EscapedIsOneLine(lane);
    JoinedIsOneLine(StringText(lane), ",\"workspace\":");
    JoinedIsOneLine(",\"lane\":", StringText(lane) + ",\"workspace\":");
  }

  lemma ReachIsOneLine(workspace: Option<string>, fetch: bool)
    ensures OneLine(ReachText(workspace, fetch))
  {
    if workspace.Some? { EscapedIsOneLine(workspace.value); }
    JoinedIsOneLine(BoolText(fetch), "}");
    JoinedIsOneLine(",\"fetch\":", BoolText(fetch) + "}");
  }

  lemma GrantIsOneLine(g: ExecutionGrant)
    ensures OneLine(GrantText(g))
  {
    NamesAreOneLine(g.tool, g.lane);
    ReachIsOneLine(g.workspace, g.fetch);
    JoinedIsOneLine(NamesText(g.tool, g.lane), ReachText(g.workspace, g.fetch));
  }

  lemma BodyIsOneLine(f: Frame)
    ensures OneLine(BodyText(f))
  {
    match f
    case Started(g) => GrantIsOneLine(g);
    case Inputs(hashes) =>
      forall v: string ensures OneLine(StringText(v)) { EscapedIsOneLine(v); }
      ItemsAreOneLine(hashes, StringText);
    case Output(bytes) =>
      forall v: byte ensures OneLine(ByteText(v)) { NumbersAreOneLine(v as int); }
      ItemsAreOneLine(bytes, ByteText);
    case Exit(code) => IntsAreOneLine(code);
    case Signal(signal) => IntsAreOneLine(signal);
    case Failed(reason) => EscapedIsOneLine(reason);
  }

  lemma StartedHead() ensures OneLine(STARTED) && STARTED[0] == '{' {}
  lemma InputsHead() ensures OneLine(INPUTS) && INPUTS[0] == '{' {}
  lemma OutputHead() ensures OneLine(OUTPUT) && OUTPUT[0] == '{' {}
  lemma ExitHead() ensures OneLine(EXIT) && EXIT[0] == '{' {}
  lemma SignalHead() ensures OneLine(SIGNAL) && SIGNAL[0] == '{' {}
  lemma FailedHead() ensures OneLine(FAILED) && FAILED[0] == '{' {}

  lemma HeadIsOneLine(k: Kind)
    ensures OneLine(Head(k)) && Head(k) != "" && Head(k)[0] == '{'
  {
    match k
    case StartedKind => StartedHead();
    case InputsKind => InputsHead();
    case OutputKind => OutputHead();
    case ExitKind => ExitHead();
    case SignalKind => SignalHead();
    case FailedKind => FailedHead();
  }

  /** Workload bytes and reasons are data: whatever they hold, a frame is one line
      of text ending in a brace. */
  lemma PrintIsOneLine(f: Frame)
    ensures OneLine(Print(f)) && Print(f) != "" && Print(f)[0] == '{' && Print(f)[|Print(f)| - 1] == '}'
  {
    BodyIsOneLine(f);
    HeadIsOneLine(KindOf(f));
    JoinedIsOneLine(BodyText(f), "}");
    JoinedIsOneLine(Head(KindOf(f)), BodyText(f) + "}");
  }
}
