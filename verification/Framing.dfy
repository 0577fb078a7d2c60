/** Line framing over a fixed-size read buffer. */
module Framing {

  const MAX_MESSAGE: nat := 16 * 1024 * 1024

  // ---------- what a stream of lines means ----------

  /** How many bytes precede the first newline, or the whole length when there is none. */
  function LineLength(s: string): (k: nat)
    ensures k <= |s| && (k < |s| ==> s[k] == '\n')
    ensures forall j | 0 <= j < k :: s[j] != '\n'
  {
    if s == "" || s[0] == '\n' then 0 else 1 + LineLength(s[1..])
  }

  lemma LineLengthIs(s: string, k: nat)
    requires k <= |s| && (k < |s| ==> s[k] == '\n')
    requires forall j | 0 <= j < k :: s[j] != '\n'
    ensures LineLength(s) == k
  {
  }

  function TrimNewline(s: string): string {
    if s != "" && s[|s| - 1] == '\n' then s[..|s| - 1] else s
  }

  function TrimCr(s: string): string {
    if s != "" && s[|s| - 1] == '\r' then s[..|s| - 1] else s
  }

  /** trimLineEnding */
  function TrimLineEnding(s: string): string {
    TrimCr(TrimNewline(s))
  }

  /** One call of readMessageLine, whatever the buffer size: a line, a last line without newline, or an error. */
  datatype ReadResult = Line(text: string, rest: string) | LastLine(text: string) | Eof | TooLarge

  function NextLine(s: string): ReadResult {
    var k := LineLength(s);
    if k < |s| then
      if k + 1 > MAX_MESSAGE then TooLarge else Line(TrimCr(s[..k]), s[k + 1..])
    else if k > MAX_MESSAGE then TooLarge
    else if s == "" then Eof
    else LastLine(TrimCr(s))
  }

  datatype End = AtEof | AtTooLarge

  /** An empty line is read but not dispatched. */
  function Kept(line: string): seq<string> {
    if line == "" then [] else [line]
  }

  /** The lines Peer.Start dispatches, up to the end of the stream or the first error. */
  function ReadAll(s: string): (seq<string>, End)
    decreases |s|
  {
    match NextLine(s)
    case Line(text, rest) => var more := ReadAll(rest); (Kept(text) + more.0, more.1)
    case LastLine(text) => (Kept(text), AtEof)
    case Eof => ([], AtEof)
    case TooLarge => ([], AtTooLarge)
  }

  lemma LineThenRest(text: string, rest: string)
    requires '\n' !in text && |text| < MAX_MESSAGE
    ensures NextLine(text + "\n" + rest) == Line(TrimCr(text), rest)
  {
    var s := text + "\n" + rest;
    assert forall j | 0 <= j < |text| :: s[j] == text[j] && text[j] in text;
    LineLengthIs(s, |text|);
    hide LineLength;
    assert s[..|text|] == text && s[|text| + 1..] == rest;
  }

  lemma EmptyStream()
    ensures NextLine("") == Eof
  {
  }

  /** A line as a peer may write it: its text and either line ending. */
  datatype WireLine = WireLine(text: string, cr: bool)

  predicate IsWireLine(l: WireLine) {
    '\n' !in l.text && (l.text == "" || l.text[|l.text| - 1] != '\r') && |l.text| + 2 <= 16 * 1024 * 1024
  }

  function Written(lines: seq<WireLine>): string {
    if lines == [] then "" else lines[0].text + (if lines[0].cr then "\r\n" else "\n") + Written(lines[1..])
  }

  function Texts(lines: seq<WireLine>): seq<string> {
    if lines == [] then []
    else if lines[0].text == "" then Texts(lines[1..])
    else [lines[0].text] + Texts(lines[1..])
  }

  lemma WireLineIsRead(l: WireLine, rest: string)
    requires IsWireLine(l)
    ensures NextLine(l.text + (if l.cr then "\r\n" else "\n") + rest) == Line(l.text, rest)
  {
    hide NextLine, LineLength;
    var sent := if l.cr then l.text + "\r" else l.text;
    assert l.text + (if l.cr then "\r\n" else "\n") == sent + "\n";
    LineThenRest(sent, rest);
    assert TrimCr(sent) == l.text;
  }

  /** Whatever mixture of the two line endings is written, exactly the non-empty texts are delivered, in order. */
  lemma {:induction false} EitherEndingIsRead(lines: seq<WireLine>)
    requires forall l | l in lines :: IsWireLine(l)
    ensures ReadAll(Written(lines)) == (Texts(lines), AtEof)
  {
    hide NextLine, LineLength, IsWireLine, TrimCr;
    if lines == [] {
      EmptyStream();
    } else {
      assert IsWireLine(lines[0]) && forall l | l in lines[1..] :: IsWireLine(l);
      WireLineIsRead(lines[0], Written(lines[1..]));
      EitherEndingIsRead(lines[1..]);
      assert Texts(lines) == Kept(lines[0].text) + Texts(lines[1..]);
    }
  }

  /** The newline split of a stream: always at least one piece, the last one unterminated. */
  function Split(s: string): (pieces: seq<string>)
    ensures |pieces| > 0
    decreases |s|
  {
    var k := LineLength(s);
    if k < |s| then [s[..k]] + Split(s[k + 1..]) else [s]
  }

  function Join(pieces: seq<string>): string
    requires |pieces| > 0
  {
    if |pieces| == 1 then pieces[0] else pieces[0] + "\n" + Join(pieces[1..])
  }

  /** Split is the newline split: joining gives the stream back and no piece holds a newline. */
  lemma {:induction false} SplitIsInverse(s: string)
    ensures Join(Split(s)) == s && forall p | p in Split(s) :: '\n' !in p
    decreases |s|
  {
    var k := LineLength(s);
    if k < |s| {
      SplitIsInverse(s[k + 1..]);
      assert Split(s)[1..] == Split(s[k + 1..]);
      assert s == s[..k] + "\n" + s[k + 1..];
    }
  }

  /** The size of a piece on the wire: its newline counts, except for the last piece, which has none. */
  function WireSize(pieces: seq<string>, i: nat): nat
    requires i < |pieces|
  {
    |pieces[i]| + (if i + 1 < |pieces| then 1 else 0)
  }

  /** Index of the first piece that does not fit a message, or their number. */
  function FirstUnfit(pieces: seq<string>): (n: nat)
    ensures n <= |pieces|
  {
    if pieces == [] || WireSize(pieces, 0) > MAX_MESSAGE then 0 else 1 + FirstUnfit(pieces[1..])
  }

  lemma {:induction false} FirstUnfitMeaning(pieces: seq<string>)
    ensures var n := FirstUnfit(pieces);
      (n < |pieces| ==> WireSize(pieces, n) > 16 * 1024 * 1024)
      && forall i | 0 <= i < n :: WireSize(pieces, i) <= 16 * 1024 * 1024
  {
    if pieces != [] && WireSize(pieces, 0) <= MAX_MESSAGE {
      FirstUnfitMeaning(pieces[1..]);
      assert forall i | 0 <= i < |pieces[1..]| :: WireSize(pieces[1..], i) == WireSize(pieces, i + 1);
      forall i | 0 <= i < FirstUnfit(pieces) ensures WireSize(pieces, i) <= MAX_MESSAGE {
        if i > 0 { assert WireSize(pieces[1..], i - 1) <= MAX_MESSAGE; }
      }
    }
  }

  function Delivered(pieces: seq<string>): seq<string> {
    if pieces == [] then [] else Kept(TrimCr(pieces[0])) + Delivered(pieces[1..])
  }

  /** Reading delivers the newline split up to the first piece that does not fit, and fails exactly there. */
  lemma {:induction false} ReadAllIsSplit(s: string)
    ensures var pieces, n := Split(s), FirstUnfit(Split(s));
      ReadAll(s) == (Delivered(pieces[..n]), if n < |pieces| then AtTooLarge else AtEof)
    decreases |s|
  {
    var k := LineLength(s);
    var pieces := Split(s);
    if k < |s| {
      var tail := Split(s[k + 1..]);
      assert pieces == [s[..k]] + tail && pieces[1..] == tail;
      ReadAllIsSplit(s[k + 1..]);
      if k + 1 <= MAX_MESSAGE {
        assert pieces[..FirstUnfit(pieces)][1..] == tail[..FirstUnfit(tail)];
      }
    } else {
      assert pieces[1..] == [];
      if |s| <= MAX_MESSAGE {
        assert FirstUnfit(pieces) == 1 && pieces[..1] == pieces;
        assert Delivered(pieces) == Kept(TrimCr(s));
      }
    }
  }

  /** No line handed to the parser is longer than the limit. */
  lemma {:induction false} LinesAreBounded(s: string)
    ensures forall line | line in ReadAll(s).0 :: 0 < |line| <= 16 * 1024 * 1024
    decreases |s|
  {
    if NextLine(s).Line? { LinesAreBounded(NextLine(s).rest); }
  }

  // ---------- the reader ----------

  datatype SliceError = NoError | BufferFull | EndOfStream

  /** bufio.Reader over what the transport will still deliver before it ends. */
  class BufferedReader {
    const size: nat
    var rest: string

    constructor (size: nat, stream: string)
      ensures this.size == size && rest == stream
    {
      this.size, this.rest := size, stream;
    }

    /**
     ReadSlice('\n'): up to a newline that fits the buffer, or a full buffer, or the end. When exactly one
     buffer is left, the end may be noticed along with it or only on the next call.
     */
    method ReadSlice() returns (chunk: string, err: SliceError)
      requires size > 0
      modifies this`rest
      ensures old(rest) == chunk + rest
      ensures err.NoError? ==> chunk != "" && |chunk| <= size && LineLength(old(rest)) == |chunk| - 1 < |old(rest)|
      ensures err.BufferFull? ==> |chunk| == size && '\n' !in chunk
      ensures err.EndOfStream? ==> rest == "" && |chunk| <= size && '\n' !in chunk
    {
      var k := LineLength(rest);
      var n := |rest|;
      if k < |rest| && k < size {
        n, err := k + 1, NoError;
      } else if size < |rest| {
        n, err := size, BufferFull;
      } else {
        var noticed: bool :| size == |rest| || noticed;
        err := if noticed then EndOfStream else BufferFull;
      }
      chunk := rest[..n];
      rest := rest[n..];
    }
  }

  datatype ReadError = NoReadError | AtEnd | MessageTooLarge

  lemma UnterminatedPrefix(line: string, rest: string)
    requires '\n' !in line
    ensures LineLength(line + rest) == |line| + LineLength(rest)
  {
    var s := line + rest;
    var k := |line| + LineLength(rest);
    assert forall j | 0 <= j < |line| :: s[j] == line[j] && line[j] in line;
    assert forall j | |line| <= j < k :: s[j] == rest[j - |line|];
    LineLengthIs(s, k);
  }

  /** readMessageLine: the outcome depends on the stream alone, for every buffer size up to the limit. */
  method ReadMessageLine(r: BufferedReader) returns (line: string, err: ReadError)
    requires 0 < r.size <= MAX_MESSAGE
    modifies r
    ensures match NextLine(old(r.rest))
      case Line(text, rest) => line == text && err == NoReadError && r.rest == rest
      case LastLine(text) => line == text && err == AtEnd
      case Eof => line == "" && err == AtEnd
      case TooLarge => line == "" && err == MessageTooLarge
  {
    hide NextLine, LineLength, TrimLineEnding;
    ghost var s := r.rest;
    line := "";
    while true
      invariant s == line + r.rest && '\n' !in line && |line| <= MAX_MESSAGE
      decreases |r.rest|
    {
      UnterminatedPrefix(line, r.rest);
      var chunk, sliceErr := r.ReadSlice();
      assert s == line + chunk + r.rest;
      if chunk != "" {
        if line == "" && sliceErr.NoError? {
          TerminatedLine(s, chunk, r.rest);
          return TrimLineEnding(chunk), NoReadError;
        }
        line := line + chunk;
        if |line| > MAX_MESSAGE {
          TooLong(s, line, r.rest, sliceErr);
          return "", MessageTooLarge;
        }
      }
      match sliceErr
      case NoError =>
        TerminatedLine(s, line, r.rest);
        return TrimLineEnding(line), NoReadError;
      case BufferFull =>
      case EndOfStream =>
        assert s == line;
        EndedLine(s);
        return TrimLineEnding(line), AtEnd;
    }
  }

  lemma TerminatedLine(s: string, line: string, rest: string)
    requires s == line + rest && line != "" && |line| <= MAX_MESSAGE && LineLength(s) == |line| - 1
    ensures NextLine(s) == Line(TrimLineEnding(line), rest)
  {
    assert s[..|line| - 1] == line[..|line| - 1] && s[|line|..] == rest;
  }

  lemma EndedLine(s: string)
    requires '\n' !in s && |s| <= MAX_MESSAGE
    ensures NextLine(s) == if s == "" then Eof else LastLine(TrimLineEnding(s))
    ensures s == "" ==> TrimLineEnding(s) == ""
  {
    UnterminatedPrefix(s, "");
    assert s + "" == s;
  }

  lemma TooLong(s: string, line: string, rest: string, err: SliceError)
    requires s == line + rest && |line| > MAX_MESSAGE
    requires '\n' !in line || LineLength(s) == |line| - 1
    ensures NextLine(s) == TooLarge
  {
    if '\n' !in line { UnterminatedPrefix(line, rest); }
  }

  /** One turn of the line loop, on what was delivered so far. */
  lemma DeliverStep(lines: seq<string>, s: string)
    ensures NextLine(s).Line? ==>
      lines + ReadAll(s).0 == (lines + Kept(NextLine(s).text)) + ReadAll(NextLine(s).rest).0
      && ReadAll(s).1 == ReadAll(NextLine(s).rest).1
    ensures NextLine(s).LastLine? ==> lines + ReadAll(s).0 == lines + Kept(NextLine(s).text) && ReadAll(s).1 == AtEof
    ensures NextLine(s).Eof? ==> lines + ReadAll(s).0 == lines + Kept("") && ReadAll(s).1 == AtEof
    ensures NextLine(s).TooLarge? ==> lines + ReadAll(s).0 == lines + Kept("") && ReadAll(s).1 == AtTooLarge
  {
    hide NextLine;
  }

  lemma NextLineShrinks(s: string)
    ensures NextLine(s).Line? ==> |NextLine(s).rest| < |s|
  {
  }

  /** The line loop of Peer.Start, with the buffer it is given. */
  method ReadLines(size: nat, stream: string) returns (lines: seq<string>, end: End)
    requires 0 < size <= MAX_MESSAGE
    ensures (lines, end) == ReadAll(stream)
  {
    hide NextLine, ReadAll, LineLength;
    var r := new BufferedReader(size, stream);
    lines := [];
    assert [] + ReadAll(stream).0 == ReadAll(stream).0;
    while true
      invariant r.size == size && fresh(r)
      invariant ReadAll(stream).0 == lines + ReadAll(r.rest).0 && ReadAll(stream).1 == ReadAll(r.rest).1
      decreases |r.rest|
    {
      DeliverStep(lines, r.rest);
      NextLineShrinks(r.rest);
      var line, err := ReadMessageLine(r);
      if line != "" {
        lines := lines + [line];
      } else {
        assert lines + Kept(line) == lines;
      }
      if err != NoReadError {
        return lines, if err == AtEnd then AtEof else AtTooLarge;
      }
    }
  }
}
