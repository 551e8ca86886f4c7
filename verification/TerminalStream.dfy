/** The recogniser that tells when a terminal stream is between tokens
    (terminalStreamState in internal/server/status_bar.go). */
module TerminalStream {
  import opened Sequences

  datatype Mode = Ground | Escape | CSI | OSC | OSCEscape | ControlString | ControlStringEscape

  datatype Parser = Parser(mode: Mode, utf8Remaining: nat)

  const START := Parser(Ground, 0)

  predicate SafeBoundary(p: Parser) {
    p.mode == Ground && p.utf8Remaining == 0
  }

  function In(mode: Mode): Parser {
    Parser(mode, 0)
  }

  function FromGround(value: byte): Parser {
    if value == 0x1b then In(Escape)
    else if value == 0x90 || value == 0x98 || value == 0x9e || value == 0x9f then In(ControlString)
    else if value == 0x9b then In(CSI)
    else if value == 0x9d then In(OSC)
    else if 0xc2 <= value <= 0xdf then Parser(Ground, 1)
    else if 0xe0 <= value <= 0xef then Parser(Ground, 2)
    else if 0xf0 <= value <= 0xf4 then Parser(Ground, 3)
    else START
  }

  /** The characters after ESC that open a longer sequence. */
  predicate Introducer(value: byte) {
    value == 0x5b || value == 0x5d || value == 0x50 || value == 0x58 || value == 0x5e || value == 0x5f
  }

  function Next(p: Parser, value: byte): Parser {
    if p.utf8Remaining > 0 && 0x80 <= value <= 0xbf then p.(utf8Remaining := p.utf8Remaining - 1)
    else match p.mode
      case Ground => FromGround(value)
      case Escape =>
        if value == 0x5b then In(CSI)
        else if value == 0x5d then In(OSC)
        else if Introducer(value) then In(ControlString)
        else if 0x20 <= value <= 0x2f then In(Escape)
        else In(Ground)
      case CSI =>
        if value == 0x1b then In(Escape) else if 0x40 <= value <= 0x7e then In(Ground) else In(CSI)
      case OSC =>
        if value == 0x07 || value == 0x9c then In(Ground) else if value == 0x1b then In(OSCEscape) else In(OSC)
      case OSCEscape =>
        if value == 0x5c || value == 0x07 || value == 0x9c then In(Ground)
        else if value != 0x1b then In(OSC) else In(OSCEscape)
      case ControlString =>
        if value == 0x9c then In(Ground) else if value == 0x1b then In(ControlStringEscape) else In(ControlString)
      case ControlStringEscape =>
        if value == 0x5c || value == 0x9c then In(Ground)
        else if value != 0x1b then In(ControlString) else In(ControlStringEscape)
  }

  function Consumed(p: Parser, data: seq<byte>): Parser
    decreases |data|
  {
    if data == [] then p else Consumed(Next(p, data[0]), data[1..])
  }

  class TerminalStreamState {
    var mode: Mode
    var utf8Remaining: nat

    function State(): Parser
      reads this
    {
      Parser(mode, utf8Remaining)
    }

    constructor ()
      ensures State() == START
    {
      mode, utf8Remaining := Ground, 0;
    }

    method Consume(data: seq<byte>)
      modifies this
      ensures State() == Consumed(old(State()), data)
    {
      assert data[0..] == data;
      for i := 0 to |data|
        invariant Consumed(State(), data[i..]) == Consumed(old(State()), data)
      {
        var value := data[i];
        assert data[i..][1..] == data[i + 1..];
        assert Consumed(State(), data[i..]) == Consumed(Next(State(), value), data[i + 1..]);
        if utf8Remaining > 0 {
          if 0x80 <= value <= 0xbf {
            utf8Remaining := utf8Remaining - 1;
            continue;
          }
          utf8Remaining := 0;
        }
        ConsumeToken(value);
      }
    }

    /** One byte outside a multibyte character. */
    method ConsumeToken(value: byte)
      requires utf8Remaining == 0
      modifies this
      ensures State() == Next(old(State()), value)
    {
      match mode {
        case Ground =>
          ConsumeGround(value);
        case Escape =>
          if value == 0x5b {
            mode := CSI;
          } else if value == 0x5d {
            mode := OSC;
          } else if value == 0x50 || value == 0x58 || value == 0x5e || value == 0x5f {
            mode := ControlString;
          } else if value < 0x20 || value > 0x2f {
            mode := Ground;
          }
        case CSI =>
          if value == 0x1b {
            mode := Escape;
          } else if 0x40 <= value <= 0x7e {
            mode := Ground;
          }
        case OSC =>
          if value == 0x07 || value == 0x9c {
            mode := Ground;
          } else if value == 0x1b {
            mode := OSCEscape;
          }
        case OSCEscape =>
          if value == 0x5c || value == 0x07 || value == 0x9c {
            mode := Ground;
          } else if value != 0x1b {
            mode := OSC;
          }
        case ControlString =>
          if value == 0x9c {
            mode := Ground;
          } else if value == 0x1b {
            mode := ControlStringEscape;
          }
        case ControlStringEscape =>
          if value == 0x5c || value == 0x9c {
            mode := Ground;
          } else if value != 0x1b {
            mode := ControlString;
          }
      }
    }

    method ConsumeGround(value: byte)
      requires mode == Ground && utf8Remaining == 0
      modifies this
      ensures State() == FromGround(value)
    {
      if value == 0x1b {
        mode := Escape;
      } else if value == 0x90 || value == 0x98 || value == 0x9e || value == 0x9f {
        mode := ControlString;
      } else if value == 0x9b {
        mode := CSI;
      } else if value == 0x9d {
        mode := OSC;
      } else if 0xc2 <= value <= 0xdf {
        utf8Remaining := 1;
      } else if 0xe0 <= value <= 0xef {
        utf8Remaining := 2;
      } else if 0xf0 <= value <= 0xf4 {
        utf8Remaining := 3;
      }
    }
  }

  // ---- However the stream is cut ----

  lemma {:induction false} ConsumedConcat(p: Parser, a: seq<byte>, b: seq<byte>)
    ensures Consumed(p, a + b) == Consumed(Consumed(p, a), b)
    decreases |a|
  {
    if a == [] {
      assert a + b == b;
    } else {
      assert (a + b)[1..] == a[1..] + b;
      ConsumedConcat(Next(p, a[0]), a[1..], b);
    }
  }

  function ConsumedWrites(p: Parser, writes: seq<seq<byte>>): Parser
    decreases |writes|
  {
    if writes == [] then p else ConsumedWrites(Consumed(p, writes[0]), writes[1..])
  }

  /** Only the bytes matter, not how they were cut into writes. */
  lemma {:induction false} WritesDoNotMatter(p: Parser, writes: seq<seq<byte>>)
    ensures ConsumedWrites(p, writes) == Consumed(p, Flatten(writes))
    decreases |writes|
  {
    if writes != [] {
      WritesDoNotMatter(Consumed(p, writes[0]), writes[1..]);
      ConsumedConcat(p, writes[0], Flatten(writes[1..]));
    }
  }

  lemma ConsumedStep(p: Parser, data: seq<byte>, k: nat)
    requires k < |data|
    ensures Consumed(p, data[..k + 1]) == Next(Consumed(p, data[..k]), data[k])
  {
    assert data[..k + 1] == data[..k] + [data[k]];
    ConsumedConcat(p, data[..k], [data[k]]);
  }

  // ---- Tokens ----

  /** Terminal tokens: UTF-8 characters (section 4 of RFC 3629), control sequences (section 5.4
      of ECMA-48), escape sequences, and control strings (section 5.6 of ECMA-48). */
  datatype Token =
    | Character(code: seq<byte>)
    | Control(eightBit: bool, parameters: seq<byte>, final: byte)
    | Simple(intermediates: seq<byte>, final: byte)
    | ControlText(introducer: seq<byte>, payload: seq<byte>, terminator: seq<byte>)

  predicate Tail(b: byte) { 0x80 <= b <= 0xbf }

  predicate ValidCharacter(c: seq<byte>) {
    match |c|
    case 1 => c[0] < 0x80 && c[0] != 0x1b
    case 2 => 0xc2 <= c[0] <= 0xdf && Tail(c[1])
    case 3 =>
      && 0xe0 <= c[0] <= 0xef && Tail(c[1]) && Tail(c[2])
      && (c[0] == 0xe0 ==> c[1] >= 0xa0) && (c[0] == 0xed ==> c[1] <= 0x9f)
    case 4 =>
      && 0xf0 <= c[0] <= 0xf4 && Tail(c[1]) && Tail(c[2]) && Tail(c[3])
      && (c[0] == 0xf0 ==> c[1] >= 0x90) && (c[0] == 0xf4 ==> c[1] <= 0x8f)
    case _ => false
  }

  predicate OSCIntroducer(s: seq<byte>) {
    s == [0x9d] || s == [0x1b, 0x5d]
  }

  predicate StringIntroducer(s: seq<byte>) {
    || s == [0x90] || s == [0x98] || s == [0x9e] || s == [0x9f]
    || s == [0x1b, 0x50] || s == [0x1b, 0x58] || s == [0x1b, 0x5e] || s == [0x1b, 0x5f]
  }

  predicate Terminator(osc: bool, s: seq<byte>) {
    s == [0x9c] || s == [0x1b, 0x5c] || (osc && s == [0x07])
  }

  /** A byte that ends a control string by itself. */
  predicate Ends(osc: bool, b: byte) {
    b == 0x9c || (osc && b == 0x07)
  }

  predicate ValidText(t: Token) {
    && t.ControlText? && (OSCIntroducer(t.introducer) || StringIntroducer(t.introducer))
    && Terminator(OSCIntroducer(t.introducer), t.terminator)
    && forall k :: 0 <= k < |t.payload| ==> t.payload[k] != 0x1b
  }

  predicate CleanPayload(t: Token) requires t.ControlText? {
    forall k :: 0 <= k < |t.payload| ==> !Ends(OSCIntroducer(t.introducer), t.payload[k])
  }

  predicate ValidSimple(t: Token) {
    && t.Simple? && 0x30 <= t.final <= 0x7e
    && (forall k :: 0 <= k < |t.intermediates| ==> 0x20 <= t.intermediates[k] <= 0x2f)
    && (t.intermediates == [] ==> !Introducer(t.final))
  }

  predicate ValidControl(t: Token) {
    && t.Control? && 0x40 <= t.final <= 0x7e
    && forall k :: 0 <= k < |t.parameters| ==> 0x20 <= t.parameters[k] <= 0x3f
  }

  /** The tokens whose ends the recogniser finds. */
  predicate Recognised(t: Token) {
    match t
    case Character(c) => ValidCharacter(c)
    case Control(_, _, _) => ValidControl(t)
    case Simple(_, final) => ValidSimple(t) && !Introducer(final)
    case ControlText(_, _, _) => ValidText(t) && CleanPayload(t)
  }

  function Code(t: Token): seq<byte> {
    match t
    case Character(c) => c
    case Control(eightBit, parameters, final) => (if eightBit then [0x9b] else [0x1b, 0x5b]) + parameters + [final]
    case Simple(intermediates, final) => [0x1b] + intermediates + [final]
    case ControlText(introducer, payload, terminator) => introducer + payload + terminator
  }

  /** `p` after the first k bytes of a token; ground only at its end. */
  ghost predicate InsideUntilEnd(code: seq<byte>) {
    && Consumed(START, code) == START
    && forall k :: 0 < k < |code| ==> !SafeBoundary(Consumed(START, code[..k]))
  }

  lemma {:induction false} CharacterCountsDown(c: seq<byte>, k: nat)
    requires ValidCharacter(c) && 0 < k <= |c|
    ensures Consumed(START, c[..k]) == Parser(Ground, |c| - k)
  {
    ConsumedStep(START, c, k - 1);
    if k > 1 {
      CharacterCountsDown(c, k - 1);
    }
  }

  lemma CharacterEnds(c: seq<byte>)
    requires ValidCharacter(c)
    ensures InsideUntilEnd(c)
  {
    forall k | 0 < k <= |c| ensures Consumed(START, c[..k]) == Parser(Ground, |c| - k) {
      CharacterCountsDown(c, k);
    }
    assert c[..|c|] == c;
  }

  /** A run of bytes that each keep the recogniser where it is. */
  lemma {:induction false} Stays(code: seq<byte>, p: Parser, lo: nat, hi: nat)
    requires lo <= hi <= |code| && Consumed(START, code[..lo]) == p
    requires forall k :: lo <= k < hi ==> Next(p, code[k]) == p
    ensures forall k :: lo <= k <= hi ==> Consumed(START, code[..k]) == p
    decreases hi
  {
    if lo < hi {
      Stays(code, p, lo, hi - 1);
      ConsumedStep(START, code, hi - 1);
    }
  }

  lemma ControlEnds(t: Token)
    requires ValidControl(t)
    ensures InsideUntilEnd(Code(t))
  {
    var code := Code(t);
    var n := |code| - |t.parameters| - 1;
    ConsumedStep(START, code, 0);
    if n == 2 {
      ConsumedStep(START, code, 1);
    }
    forall k | n <= k < |code| - 1 ensures Next(In(CSI), code[k]) == In(CSI) {
      assert code[k] == t.parameters[k - n];
    }
    Stays(code, In(CSI), n, |code| - 1);
    ConsumedStep(START, code, |code| - 1);
    assert code[..|code|] == code;
  }

  /** An escape sequence is seen to end, unless it has intermediate bytes and its final byte is
      one that opens a longer sequence when it follows ESC directly. */
  lemma SimpleEndsIff(t: Token)
    requires ValidSimple(t)
    ensures InsideUntilEnd(Code(t)) <==> !Introducer(t.final)
  {
    var code := Code(t);
    ConsumedStep(START, code, 0);
    forall k | 1 <= k < |code| - 1 ensures Next(In(Escape), code[k]) == In(Escape) {
      assert code[k] == t.intermediates[k - 1];
    }
    Stays(code, In(Escape), 1, |code| - 1);
    ConsumedStep(START, code, |code| - 1);
    assert code[..|code|] == code;
  }

  function StringMode(osc: bool): Mode {
    if osc then OSC else ControlString
  }

  lemma StringBegins(t: Token)
    requires ValidText(t)
    ensures var n := |t.introducer|;
            1 <= n <= 2 && Consumed(START, Code(t)[..n]) == In(StringMode(OSCIntroducer(t.introducer)))
    ensures |t.introducer| == 2 ==> Consumed(START, Code(t)[..1]) == In(Escape)
  {
    var code := Code(t);
    assert code[0] == t.introducer[0];
    ConsumedStep(START, code, 0);
    if |t.introducer| == 2 {
      assert code[1] == t.introducer[1];
      ConsumedStep(START, code, 1);
    }
  }

  lemma StringCloses(t: Token)
    requires ValidText(t)
    requires var n := |t.introducer| + |t.payload|;
             Consumed(START, Code(t)[..n]) == In(StringMode(OSCIntroducer(t.introducer)))
    ensures Consumed(START, Code(t)) == START
    ensures |t.terminator| == 2 ==> !SafeBoundary(Consumed(START, Code(t)[..|Code(t)| - 1]))
  {
    var code := Code(t);
    var n := |t.introducer| + |t.payload|;
    assert code[n] == t.terminator[0];
    ConsumedStep(START, code, n);
    if |t.terminator| == 2 {
      assert code[n + 1] == t.terminator[1];
      ConsumedStep(START, code, n + 1);
    }
    assert code[..|code|] == code;
  }

  lemma CleanTextEnds(t: Token)
    requires ValidText(t) && CleanPayload(t)
    ensures InsideUntilEnd(Code(t))
  {
    var code, mode := Code(t), StringMode(OSCIntroducer(t.introducer));
    var n := |t.introducer|;
    StringBegins(t);
    forall k | n <= k < n + |t.payload| ensures Next(In(mode), code[k]) == In(mode) {
      assert code[k] == t.payload[k - n];
    }
    Stays(code, In(mode), n, n + |t.payload|);
    StringCloses(t);
  }

  /** A control string without ESC in it is seen to end just where it ends exactly when no byte of
      its payload is itself a terminator; a UTF-8 payload can contain 0x9c. */
  lemma TextEndsIff(t: Token)
    requires ValidText(t)
    ensures InsideUntilEnd(Code(t)) <==> CleanPayload(t)
  {
    if CleanPayload(t) {
      CleanTextEnds(t);
    } else {
      var osc := OSCIntroducer(t.introducer);
      var code, mode, n := Code(t), StringMode(osc), |t.introducer|;
      var j := FirstEnd(osc, t.payload);
      StringBegins(t);
      forall k | n <= k < n + j ensures Next(In(mode), code[k]) == In(mode) {
        assert code[k] == t.payload[k - n];
      }
      Stays(code, In(mode), n, n + j);
      assert code[n + j] == t.payload[j];
      ConsumedStep(START, code, n + j);
      assert n + j + 1 < |code|;
    }
  }

  lemma FirstEnd(osc: bool, payload: seq<byte>) returns (j: nat)
    requires exists k :: 0 <= k < |payload| && Ends(osc, payload[k])
    ensures j < |payload| && Ends(osc, payload[j])
    ensures forall k :: 0 <= k < j ==> !Ends(osc, payload[k])
  {
    j := 0;
    while !Ends(osc, payload[j])
      invariant j < |payload| && exists k :: j <= k < |payload| && Ends(osc, payload[k])
      invariant forall k :: 0 <= k < j ==> !Ends(osc, payload[k])
      decreases |payload| - j
    {
      j := j + 1;
    }
  }

  lemma TokenEnds(t: Token)
    requires Recognised(t)
    ensures InsideUntilEnd(Code(t)) && Code(t) != []
  {
    match t {
      case Character(c) => CharacterEnds(c);
      case Control(_, _, _) => ControlEnds(t);
      case Simple(_, _) => SimpleEndsIff(t);
      case ControlText(_, _, _) => CleanTextEnds(t);
    }
  }

  // ---- Streams of tokens ----

  function Stream(tokens: seq<Token>): seq<byte> {
    if tokens == [] then [] else Code(tokens[0]) + Stream(tokens[1..])
  }

  /** Position n of the stream lies between two tokens. */
  ghost predicate BetweenTokens(tokens: seq<Token>, n: int) {
    n == 0 || (tokens != [] && n >= |Code(tokens[0])| && BetweenTokens(tokens[1..], n - |Code(tokens[0])|))
  }

  /** In a stream of whole tokens the recogniser reports a safe boundary after every whole token
      and nowhere inside one. */
  lemma {:induction false} SafeExactlyBetweenTokens(tokens: seq<Token>, n: nat)
    requires n <= |Stream(tokens)| && forall i :: 0 <= i < |tokens| ==> Recognised(tokens[i])
    ensures SafeBoundary(Consumed(START, Stream(tokens)[..n])) <==> BetweenTokens(tokens, n)
    decreases |tokens|
  {
    if tokens != [] && n > 0 {
      var code, rest := Code(tokens[0]), Stream(tokens[1..]);
      TokenEnds(tokens[0]);
      if n < |code| {
        assert (code + rest)[..n] == code[..n];
      } else {
        assert (code + rest)[..n] == code + rest[..n - |code|];
        ConsumedConcat(START, code, rest[..n - |code|]);
        SafeExactlyBetweenTokens(tokens[1..], n - |code|);
      }
    }
  }

  /** The same however the child cuts its output into writes, including a last partial token. */
  lemma SafeExactlyBetweenTokensInWrites(tokens: seq<Token>, writes: seq<seq<byte>>)
    requires forall i :: 0 <= i < |tokens| ==> Recognised(tokens[i])
    requires Flatten(writes) <= Stream(tokens)
    ensures SafeBoundary(ConsumedWrites(START, writes)) <==> BetweenTokens(tokens, |Flatten(writes)|)
  {
    WritesDoNotMatter(START, writes);
    SafeExactlyBetweenTokens(tokens, |Flatten(writes)|);
    assert Stream(tokens)[..|Flatten(writes)|] == Flatten(writes);
  }

  // ---- Broken tokens ----

  /** The control string ends with byte i of what follows its introducer: a terminating byte, or the second
      byte of ESC backslash. */
  predicate EndsAt(osc: bool, body: seq<byte>, i: nat)
    requires i < |body|
  {
    Ends(osc, body[i]) || (body[i] == 0x5c && i > 0 && body[i - 1] == 0x1b)
  }

  function InString(osc: bool, body: seq<byte>): Parser {
    if body != [] && body[|body| - 1] == 0x1b then In(if osc then OSCEscape else ControlStringEscape)
    else In(StringMode(osc))
  }

  lemma ConsumedLast(p: Parser, body: seq<byte>)
    requires body != []
    ensures Consumed(p, body) == Next(Consumed(p, body[..|body| - 1]), body[|body| - 1])
  {
    var n := |body| - 1;
    assert body == body[..n] + [body[n]];
    ConsumedConcat(p, body[..n], [body[n]]);
    assert [body[n]][1..] == [];
  }

  /** Whatever bytes a control string holds, escapes among them, the recogniser stays in it until its first
      terminator and leaves it there. */
  lemma {:induction false} StringEndsAtFirstTerminator(osc: bool, body: seq<byte>)
    requires forall i :: 0 <= i < |body| - 1 ==> !EndsAt(osc, body, i)
    ensures Consumed(In(StringMode(osc)), body)
         == if body != [] && EndsAt(osc, body, |body| - 1) then START else InString(osc, body)
    decreases |body|
  {
    if body != [] {
      var init := body[..|body| - 1];
      forall i | 0 <= i < |init| ensures !EndsAt(osc, init, i) {
        assert !EndsAt(osc, body, i);
      }
      StringEndsAtFirstTerminator(osc, init);
      ConsumedLast(In(StringMode(osc)), body);
    }
  }

  /** A control sequence that is not finished when an escape comes is given up, and what begins there is
      recognised as if it stood alone. */
  lemma {:induction false} EscapeAbandonsSequence(parameters: seq<byte>, rest: seq<byte>)
    requires forall k :: 0 <= k < |parameters| ==> 0x20 <= parameters[k] <= 0x3f
    requires rest != [] && rest[0] == 0x1b
    ensures Consumed(START, [0x1b, 0x5b] + parameters + rest) == Consumed(START, rest)
  {
    var start := [0x1b, 0x5b] + parameters;
    ConsumedStep(START, start, 0);
    ConsumedStep(START, start, 1);
    forall k | 2 <= k < |start| ensures Next(In(CSI), start[k]) == In(CSI) {
      assert start[k] == parameters[k - 2];
    }
    Stays(start, In(CSI), 2, |start|);
    assert start[..|start|] == start;
    ConsumedConcat(START, start, rest);
    assert Next(In(CSI), rest[0]) == Next(START, rest[0]);
  }

  /** A character cut short by a byte that cannot continue it is given up too. */
  lemma {:induction false} CutCharacterIsAbandoned(c: seq<byte>, k: nat, rest: seq<byte>)
    requires ValidCharacter(c) && 0 < k <= |c| && rest != [] && !Tail(rest[0])
    ensures Consumed(START, c[..k] + rest) == Consumed(START, rest)
  {
    CharacterCountsDown(c, k);
    ConsumedConcat(START, c[..k], rest);
    assert Next(Parser(Ground, |c| - k), rest[0]) == Next(START, rest[0]);
  }

  /** A control sequence ends with its first byte from the range of final bytes, whatever other bytes but escape
      are in it. */
  lemma {:induction false} SequenceEndsAtFirstFinal(body: seq<byte>)
    requires forall i :: 0 <= i < |body| ==> body[i] != 0x1b
    requires forall i :: 0 <= i < |body| - 1 ==> !(0x40 <= body[i] <= 0x7e)
    ensures Consumed(In(CSI), body)
         == if body != [] && 0x40 <= body[|body| - 1] <= 0x7e then START else In(CSI)
    decreases |body|
  {
    if body != [] {
      SequenceEndsAtFirstFinal(body[..|body| - 1]);
      ConsumedLast(In(CSI), body);
    }
  }

  /** Past the eight-bit controls, the recogniser waits for more after a byte exactly if a character of several
      bytes can begin with it. */
  lemma {:induction false} LeadByteIff(b: byte)
    requires b >= 0xa0
    ensures !SafeBoundary(Next(START, b)) <==> exists c :: ValidCharacter(c) && |c| > 1 && c[0] == b
  {
    var second: byte := if b == 0xe0 then 0xa0 else if b == 0xf0 then 0x90 else 0x80;
    if 0xc2 <= b <= 0xdf {
      assert ValidCharacter([b, second]);
    } else if 0xe0 <= b <= 0xef {
      assert ValidCharacter([b, second, 0x80]);
    } else if 0xf0 <= b <= 0xf4 {
      assert ValidCharacter([b, second, 0x80, 0x80]);
    }
  }
}
