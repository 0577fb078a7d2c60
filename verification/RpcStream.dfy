/** A stream of printed messages, read back through line framing and the parser. */
module RpcStream {
  import opened RpcMessages
  import opened RpcPrinting
  import opened RpcRoundTrip
  import opened RpcErrors
  import opened Options
  import Decimal
  import opened Framing

  /** writeMessage */
  function Frame(msg: RpcMessage): string {
    MessageText(msg) + "\n"
  }

  function Stream(msgs: seq<RpcMessage>): string {
    if msgs == [] then "" else Frame(msgs[0]) + Stream(msgs[1..])
  }

  /** What the read loop parses out of the delivered lines; a line that does not parse is skipped. */
  function Received(lines: seq<string>, decode: ErrorDecoder): seq<RpcMessage> {
    if lines == [] then []
    else
      var msg := ParseMessage(lines[0], decode);
      (if msg.Some? then [msg.value] else []) + Received(lines[1..], decode)
  }

  ghost predicate IsTransmittable(msg: RpcMessage) {
    && (IsSendable(msg) || IsErrorReply(msg)) && |Frame(msg)| <= MAX_MESSAGE
    && '\n' !in msg.id && '\n' !in msg.params && '\n' !in msg.result
    && (msg.error.Some? ==> '\n' !in msg.error.value.data)
  }

  /** The envelope's version is checked by nobody: a parsed message carries none. */
  function WithoutVersion(msgs: seq<RpcMessage>): (r: seq<RpcMessage>)
    ensures |r| == |msgs| && forall k | 0 <= k < |r| :: r[k] == msgs[k].(jsonrpc := "")
  {
    seq(|msgs|, k requires 0 <= k < |msgs| => msgs[k].(jsonrpc := ""))
  }

  lemma {:induction false} QuoteHasNoNewline(s: string)
    requires Printable(s)
    ensures '\n' !in QuoteBody(s)
  {
    if s != "" { QuoteHasNoNewline(s[1..]); }
  }

  lemma HeadsHaveNoNewline()
    ensures '\n' !in VersionHead() && '\n' !in IdPart() && '\n' !in MethodPart()
    ensures '\n' !in ParamsPart() && '\n' !in ResultPart()
  {
  }

  lemma NumeralHasNoNewline(n: int)
    ensures '\n' !in Numeral(n)
  {
    var digits := Decimal.ToDecimal(if n < 0 then -n else n);
    assert forall k | 0 <= k < |digits| :: digits[k] != '\n';
  }

  lemma ErrorHasNoNewline(e: RpcError)
    requires Printable(e.message) && '\n' !in e.data
    ensures '\n' !in ErrorText(e)
  {
    NumeralHasNoNewline(e.code);
    QuoteHasNoNewline(e.message);
    hide Quote, QuoteBody;
    assert '\n' !in Quote(e.message) by { QuotedHasNoNewline(e.message); }
    assert '\n' !in Prefix(true, "code") && '\n' !in Prefix(false, "message") && '\n' !in Prefix(false, "data");
    hide Prefix;
    ErrorParts(e, Prefix(true, "code") + Numeral(e.code), Prefix(false, "message") + Quote(e.message),
               if e.data != "" then Prefix(false, "data") + e.data else "");
  }

  lemma QuotedHasNoNewline(s: string)
    requires '\n' !in QuoteBody(s)
    ensures '\n' !in Quote(s)
  {
  }

  lemma ErrorReplyIsOneLine(msg: RpcMessage)
    requires IsErrorReply(msg) && '\n' !in msg.id && '\n' !in msg.error.value.data
    ensures '\n' !in MessageText(msg) && MessageText(msg) != "" && TrimCr(MessageText(msg)) == MessageText(msg)
  {
    HeadsHaveNoNewline();
    ErrorHasNoNewline(msg.error.value);
    ErrorReplyFields(msg.id, msg.error.value);
    assert '\n' !in Prefix(false, "id") && '\n' !in Prefix(false, "error");
    hide VersionHead, Prefix, ErrorText, IsErrorReply;
    var text := MessageText(msg);
    assert text[|text| - 1] == '}';
  }

  lemma TextIsOneLine(msg: RpcMessage)
    requires IsTransmittable(msg)
    ensures '\n' !in MessageText(msg) && MessageText(msg) != "" && TrimCr(MessageText(msg)) == MessageText(msg)
  {
    hide IsSendable, MessageText;
    if IsSendable(msg) { SendableIsOneLine(msg); } else { ErrorReplyIsOneLine(msg); }
  }

  lemma SendableIsOneLine(msg: RpcMessage)
    requires IsTransmittable(msg) && IsSendable(msg)
    ensures '\n' !in MessageText(msg) && MessageText(msg) != "" && TrimCr(MessageText(msg)) == MessageText(msg)
  {
    HeadsHaveNoNewline();
    MethodValueIsQuote(msg.methodName);
    QuoteHasNoNewline(msg.methodName);
    assert '\n' !in MethodValue(msg.methodName);
    hide VersionHead, IdPart, MethodPart, ParamsPart, ResultPart, MethodValue, QuoteBody, Quote, IsSendable;
    assert TakesFastPath(msg) by { SendableIsFast(msg); }
    var text := MessageText(msg);
    assert text[|text| - 1] == '}';
  }

  lemma SendableIsFast(msg: RpcMessage)
    requires IsSendable(msg)
    ensures TakesFastPath(msg)
  {
  }

  function Texts(msgs: seq<RpcMessage>): seq<string> {
    if msgs == [] then [] else [MessageText(msgs[0])] + Texts(msgs[1..])
  }

  lemma {:induction false} StreamLines(msgs: seq<RpcMessage>)
    requires forall msg | msg in msgs :: IsTransmittable(msg)
    ensures ReadAll(Stream(msgs)) == (Texts(msgs), AtEof)
  {
    hide MessageText, NextLine, IsTransmittable;
    if msgs == [] {
      EmptyStream();
    } else {
      TextIsOneLine(msgs[0]);
      assert |Frame(msgs[0])| <= MAX_MESSAGE by { TransmittableFits(msgs[0]); }
      LineThenRest(MessageText(msgs[0]), Stream(msgs[1..]));
      StreamLines(msgs[1..]);
    }
  }

  lemma TransmittableFits(msg: RpcMessage)
    requires IsTransmittable(msg)
    ensures |Frame(msg)| <= MAX_MESSAGE && (IsSendable(msg) || IsErrorReply(msg))
  {
  }

  lemma {:induction false} ReceivedTexts(msgs: seq<RpcMessage>, decode: ErrorDecoder)
    requires Reads(decode) && forall msg | msg in msgs :: IsSendable(msg) || IsErrorReply(msg)
    ensures Received(Texts(msgs), decode) == WithoutVersion(msgs)
  {
    hide MessageText, ParseMessage, IsSendable, IsErrorReply, Reads;
    if msgs != [] {
      if IsSendable(msgs[0]) { MessageRoundTrip(msgs[0], decode); } else { ErrorMessageRoundTrip(msgs[0], decode); }
      ReceivedTexts(msgs[1..], decode);
      assert Texts(msgs)[1..] == Texts(msgs[1..]);
      assert WithoutVersion(msgs) == [msgs[0].(jsonrpc := "")] + WithoutVersion(msgs[1..]);
    }
  }

  /**
   Any sequence of requests, notifications, results and error replies written one after the other is read back,
   through any buffer, as the same ids, methods, params, results and errors in the same order.
   */
  lemma StreamRoundTrip(msgs: seq<RpcMessage>, decode: ErrorDecoder)
    requires Reads(decode) && forall msg | msg in msgs :: IsTransmittable(msg)
    ensures ReadAll(Stream(msgs)).1 == AtEof
    ensures Received(ReadAll(Stream(msgs)).0, decode) == WithoutVersion(msgs)
  {
    hide IsSendable, IsErrorReply, Reads, Received, Texts, Stream, ReadAll;
    StreamLines(msgs);
    ReceivedTexts(msgs, decode);
  }
}
