/** Drawing the footer into the child's byte stream (attachStatusBar in
    internal/server/status_bar.go). */
module StatusBar {
  import opened Sequences
  import opened TerminalStream
  import opened Footer
  import Handoff
  import SessionOrder

  const MINIMUM_COLUMNS := 40
  const MINIMUM_ROWS := 4
  const LAYOUT_TAIL_BYTES: nat := 32
  const HANDOFF_TAIL_BYTES: nat := 512

  // ---- What the bar means to draw, apart from the stream it draws into ----

  predicate StatusBarVisible(columns: int, rows: int) {
    columns >= MINIMUM_COLUMNS && rows >= MINIMUM_ROWS
  }

  datatype Layout = Layout(
    columns: int, rows: int, menuLines: seq<Line>, scrollRegionDirty: bool, reservedRowsClaimed: int,
    renderPending: bool, pendingClearRows: seq<int>)

  function ReservedBy(l: Layout): nat {
    if StatusBarVisible(l.columns, l.rows) then 1 + |l.menuLines| else 0
  }

  // ---- Local drawing, as terminal tokens ----

  function UTF8(c: char): seq<byte> {
    var n := c as int;
    if n < 0x80 then [n as byte]
    else if n < 0x800 then [(0xc0 + n / 64) as byte, Continuation(n)]
    else if n < 0x10000 then [(0xe0 + n / 4096) as byte, Continuation(n / 64), Continuation(n)]
    else [(0xf0 + n / 262144) as byte, Continuation(n / 4096), Continuation(n / 64), Continuation(n)]
  }

  function Continuation(n: int): (b: byte)
    ensures Tail(b)
  {
    (0x80 + n % 64) as byte
  }

  /** The lead byte tells how many bytes follow, and rules out codes that are too long or too high. */
  lemma UTF8IsValid(c: char)
    requires c != '\U{1b}'
    ensures ValidCharacter(UTF8(c))
  {
    var n := c as int;
    if 0x80 <= n < 0x800 {
      assert 2 <= n / 64 < 32;
    } else if 0x800 <= n < 0x10000 {
      MiddleBits(n, 4096);
      assert n / 4096 == 0 ==> n / 64 % 64 >= 32;
      assert n / 4096 == 13 ==> n < 0xd800 && n / 64 % 64 < 32;
    } else if n >= 0x10000 {
      MiddleBits(n / 64, 4096);
      assert n / 64 / 64 == n / 4096 && n / 64 / 4096 == n / 262144;
      assert n / 262144 == 0 ==> n / 4096 % 64 >= 16;
      assert n / 262144 == 4 ==> n / 4096 % 64 < 16;
    }
  }

  lemma MiddleBits(n: nat, span: nat)
    requires span == 4096
    ensures n / 64 == (n / span) * 64 + n / 64 % 64
  {
  }

  function Decimal(n: int): string {
    (if n < 0 then "-" else "") + Digits(if n < 0 then -n else n)
  }

  /** Parameters written as ASCII text. */
  function CSISequence(parameters: string, final: byte): Token {
    Control(false, Ascii(parameters), final)
  }

  function StyleParameters(style: Style): string {
    match style
    case Bar => "0;38;5;75"
    case NeedsInput => "0;1;38;5;214"
    case Failed => "0;38;5;203"
    case PrefixArmed => "0;7;38;5;75"
    case Completed => "0;38;5;114"
    case Dim => "0;38;5;245"
  }

  function StyleToken(style: Style): Token {
    CSISequence(StyleParameters(style), 0x6d)
  }

  ghost predicate ParameterText(s: string) {
    forall k :: 0 <= k < |s| ==> ' ' <= s[k] <= '?'
  }

  lemma SequenceIsRecognised(parameters: string, final: byte)
    requires ParameterText(parameters) && 0x40 <= final <= 0x7e
    ensures Recognised(CSISequence(parameters, final))
  {
  }

  lemma DecimalIsText(n: int)
    ensures ParameterText(Decimal(n))
  {
  }

  lemma StyleIsRecognised(style: Style)
    ensures Recognised(StyleToken(style))
  {
    SequenceIsRecognised(StyleParameters(style), 0x6d);
  }

  ghost predicate AllRecognised(tokens: seq<Token>) {
    tokens != [] ==> Recognised(tokens[0]) && AllRecognised(tokens[1..])
  }

  lemma {:induction false} AllRecognisedIff(tokens: seq<Token>)
    ensures AllRecognised(tokens) <==> forall k :: 0 <= k < |tokens| ==> Recognised(tokens[k])
  {
    if tokens != [] {
      AllRecognisedIff(tokens[1..]);
      forall k | 0 < k < |tokens| ensures tokens[k] == tokens[1..][k - 1] {
      }
    }
  }

  function LineTokens(line: Line): seq<Token> {
    seq(|line|, i requires 0 <= i < |line| =>
      match line[i] case Rune(c) => Character(UTF8(c)) case Paint(style) => StyleToken(style))
  }

  ghost predicate AllDrawable(lines: seq<Line>) {
    forall k :: 0 <= k < |lines| ==> Drawable(lines[k])
  }

  const SAVE: Token := Simple([], 0x37)     // ESC 7
  const RESTORE: Token := Simple([], 0x38)  // ESC 8

  function MoveToRow(row: int): seq<Token> {
    [CSISequence(Decimal(row) + ";1", 0x48), CSISequence("2", 0x4b)]
  }

  /** clearLocked */
  function Clear(row: int): seq<Token> {
    [SAVE, CSISequence("", 0x72), CSISequence("0", 0x6d)] + MoveToRow(row) + [RESTORE]
  }

  /** claimRowsLocked */
  function ClaimRows(claimed: int, reserved: int): seq<Token> {
    if reserved <= claimed then []
    else
      var first := if claimed == 0 then [Simple([], 0x44), CSISequence("", 0x41)] else [];
      var grown := reserved - (if claimed == 0 then 1 else claimed);
      if grown > 0 then first + [CSISequence(Decimal(grown), 0x53), CSISequence(Decimal(grown), 0x41)] else first
  }

  function MenuTokens(contentBottom: int, lines: seq<Line>): seq<Token> {
    if lines == [] then []
    else
      var index := |lines| - 1;
      MenuTokens(contentBottom, lines[..index])
      + MoveToRow(contentBottom + 1 + index) + LineTokens(lines[index]) + [StyleToken(Bar)]
  }

  function FrameHead(reserved: int, claimed: int, dirty: bool, contentBottom: int): seq<Token> {
    ClaimRows(claimed, reserved) + [SAVE]
    + (if dirty then [CSISequence("1;" + Decimal(contentBottom), 0x72)] else [])
    + [StyleToken(Bar)]
  }

  function FrameFoot(rows: int, footer: Line): seq<Token> {
    MoveToRow(rows) + LineTokens(footer) + [CSISequence("0", 0x6d), RESTORE]
  }

  /** The frame renderLocked writes. */
  function Frame(rows: int, reserved: int, claimed: int, dirty: bool, menu: seq<Line>, footer: Line): seq<Token> {
    var contentBottom := rows - reserved;
    FrameHead(reserved, claimed, dirty, contentBottom) + MenuTokens(contentBottom, menu) + FrameFoot(rows, footer)
  }

  /** Something drawn locally. */
  datatype Drawing = ClearRow(row: int) | FrameOf(layout: Layout, footer: Line)

  function Tokens(d: Drawing): seq<Token> {
    match d
    case ClearRow(row) => Clear(row)
    case FrameOf(l, footer) =>
      Frame(l.rows, ReservedBy(l), l.reservedRowsClaimed, l.scrollRegionDirty, l.menuLines, footer)
  }

  /** The tokens that place the cursor. */
  function Moves(tokens: seq<Token>): seq<Token> {
    MovesUpto(tokens, |tokens|)
  }

  function MovesUpto(tokens: seq<Token>, n: nat): seq<Token>
    requires n <= |tokens|
  {
    if n == 0 then []
    else
      var last := tokens[n - 1];
      var before := MovesUpto(tokens, n - 1);
      if Moving(last) then before + [last] else before
  }

  function RowMove(row: int): Token {
    CSISequence(Decimal(row) + ";1", 0x48)
  }

  function RowMoves(first: int, n: nat): seq<Token> {
    if n == 0 then [] else RowMoves(first, n - 1) + [RowMove(first + n - 1)]
  }

  predicate Moving(token: Token) {
    token.Control? && token.final == 0x48
  }

  /** The first k tokens go to the n rows from first on, top to bottom, and to no other. */
  ghost predicate GoesUpto(tokens: seq<Token>, k: nat, first: int, n: nat)
    requires k <= |tokens|
  {
    if k == 0 then n == 0
    else if Moving(tokens[k - 1]) then
      n > 0 && tokens[k - 1] == RowMove(first + n - 1) && GoesUpto(tokens, k - 1, first, n - 1)
    else GoesUpto(tokens, k - 1, first, n)
  }

  ghost predicate GoesTo(tokens: seq<Token>, first: int, n: nat) {
    GoesUpto(tokens, |tokens|, first, n)
  }

  lemma {:induction false} GoesUptoMeans(tokens: seq<Token>, k: nat, first: int, n: nat)
    requires k <= |tokens| && GoesUpto(tokens, k, first, n)
    ensures MovesUpto(tokens, k) == RowMoves(first, n)
  {
    if k > 0 {
      GoesUptoMeans(tokens, k - 1, first, if Moving(tokens[k - 1]) then n - 1 else n);
    }
  }

  lemma {:induction false} GoesInPrefix(a: seq<Token>, b: seq<Token>, k: nat, first: int, n: nat)
    requires k <= |a| && GoesUpto(a, k, first, n)
    ensures GoesUpto(a + b, k, first, n)
  {
    if k > 0 {
      GoesInPrefix(a, b, k - 1, first, if Moving(a[k - 1]) then n - 1 else n);
    }
  }

  lemma {:induction false} GoesBeyond(a: seq<Token>, b: seq<Token>, k: nat, first: int, m: nat, n: nat)
    requires k <= |b| && GoesTo(a, first, m) && GoesUpto(b, k, first + m, n)
    ensures GoesUpto(a + b, |a| + k, first, m + n)
  {
    if k == 0 {
      GoesInPrefix(a, b, |a|, first, m);
    } else {
      assert (a + b)[|a| + k - 1] == b[k - 1];
      GoesBeyond(a, b, k - 1, first, m, if Moving(b[k - 1]) then n - 1 else n);
    }
  }

  /** After the rows of a, the rows of b. */
  lemma ThenGoesTo(a: seq<Token>, first: int, m: nat, b: seq<Token>, middle: int, n: nat)
    requires GoesTo(a, first, m) && GoesTo(b, middle, n) && middle == first + m
    ensures GoesTo(a + b, first, m + n)
  {
    GoesBeyond(a, b, |b|, first, m, n);
  }

  ghost predicate Still(tokens: seq<Token>) {
    forall k :: 0 <= k < |tokens| ==> !Moving(tokens[k])
  }

  lemma {:induction false} StillUpto(tokens: seq<Token>, k: nat, first: int)
    requires k <= |tokens| && Still(tokens)
    ensures GoesUpto(tokens, k, first, 0)
  {
    if k > 0 {
      StillUpto(tokens, k - 1, first);
    }
  }

  lemma ThenStill(a: seq<Token>, first: int, n: nat, b: seq<Token>)
    requires GoesTo(a, first, n) && Still(b)
    ensures GoesTo(a + b, first, n)
  {
    StillUpto(b, |b|, first + n);
    ThenGoesTo(a, first, n, b, first + n, 0);
  }

  lemma StillThen(a: seq<Token>, b: seq<Token>, first: int, n: nat)
    requires Still(a) && GoesTo(b, first, n)
    ensures GoesTo(a + b, first, n)
  {
    StillUpto(a, |a|, first);
    ThenGoesTo(a, first, 0, b, first, n);
  }

  lemma GoesToRow(row: int)
    ensures GoesTo(MoveToRow(row), row, 1)
  {
    assert GoesUpto(MoveToRow(row), 1, row, 1);
  }

  /** One more row is drawn below the rows before it. */
  lemma RowGoesTo(before: seq<Token>, first: int, n: nat, row: int, line: Line, end: seq<Token>)
    requires GoesTo(before, first, n) && row == first + n && Still(end)
    ensures GoesTo(before + MoveToRow(row) + LineTokens(line) + end, first, n + 1)
  {
    GoesToRow(row);
    ThenGoesTo(before, first, n, MoveToRow(row), row, 1);
    ThenStill(before + MoveToRow(row), first, n + 1, LineTokens(line));
    ThenStill(before + MoveToRow(row) + LineTokens(line), first, n + 1, end);
  }

  lemma {:induction false} MenuGoesTo(contentBottom: int, lines: seq<Line>)
    ensures GoesTo(MenuTokens(contentBottom, lines), contentBottom + 1, |lines|)
    decreases |lines|
  {
    if lines != [] {
      var index := |lines| - 1;
      MenuGoesTo(contentBottom, lines[..index]);
      RowGoesTo(MenuTokens(contentBottom, lines[..index]), contentBottom + 1, index, contentBottom + 1 + index,
                lines[index], [StyleToken(Bar)]);
    }
  }

  lemma FootGoesTo(rows: int, footer: Line)
    ensures GoesTo(FrameFoot(rows, footer), rows, 1)
  {
    GoesToRow(rows);
    ThenStill(MoveToRow(rows), rows, 1, LineTokens(footer));
    ThenStill(MoveToRow(rows) + LineTokens(footer), rows, 1, [CSISequence("0", 0x6d), RESTORE]);
  }

  lemma HeadIsStill(reserved: int, claimed: int, dirty: bool, contentBottom: int)
    ensures Still(FrameHead(reserved, claimed, dirty, contentBottom))
  {
  }

  lemma FrameGoesTo(rows: int, reserved: nat, claimed: int, dirty: bool, menu: seq<Line>, footer: Line)
    requires reserved == |menu| + 1
    ensures GoesTo(Frame(rows, reserved, claimed, dirty, menu, footer), rows - reserved + 1, reserved)
  {
    var bottom := rows - reserved;
    var head, menuTokens := FrameHead(reserved, claimed, dirty, bottom), MenuTokens(bottom, menu);
    HeadIsStill(reserved, claimed, dirty, bottom);
    MenuGoesTo(bottom, menu);
    FootGoesTo(rows, footer);
    StillThen(head, menuTokens, bottom + 1, |menu|);
    ThenGoesTo(head + menuTokens, bottom + 1, |menu|, FrameFoot(rows, footer), rows, 1);
  }

  lemma GoesToMeans(tokens: seq<Token>, first: int, n: nat)
    requires GoesTo(tokens, first, n)
    ensures Moves(tokens) == RowMoves(first, n)
  {
    GoesUptoMeans(tokens, |tokens|, first, n);
  }

  /** A frame goes to each reserved row once, top to bottom, and to no row of the child's. */
  lemma FrameDrawsReservedRows(l: Layout, footer: Line)
    requires StatusBarVisible(l.columns, l.rows)
    ensures Moves(Tokens(FrameOf(l, footer))) == RowMoves(l.rows - ReservedBy(l) + 1, ReservedBy(l))
  {
    FrameGoesTo(l.rows, ReservedBy(l), l.reservedRowsClaimed, l.scrollRegionDirty, l.menuLines, footer);
    GoesToMeans(Tokens(FrameOf(l, footer)), l.rows - ReservedBy(l) + 1, ReservedBy(l));
  }

  ghost predicate Sound(d: Drawing) {
    d.FrameOf? ==> Drawable(d.footer) && AllDrawable(d.layout.menuLines)
  }

  lemma {:induction false} RecognisedConcat(a: seq<Token>, b: seq<Token>)
    requires AllRecognised(a) && AllRecognised(b)
    ensures AllRecognised(a + b)
  {
    if a == [] {
      assert a + b == b;
    } else {
      assert (a + b)[1..] == a[1..] + b;
      RecognisedConcat(a[1..], b);
    }
  }

  lemma RecognisedParts(head: seq<Token>, menu: seq<Token>, foot: seq<Token>)
    requires AllRecognised(head) && AllRecognised(menu) && AllRecognised(foot)
    ensures AllRecognised(head + menu + foot)
  {
    RecognisedConcat(head, menu);
    RecognisedConcat(head + menu, foot);
  }

  lemma LineIsRecognised(line: Line)
    requires Drawable(line)
    ensures AllRecognised(LineTokens(line))
  {
    var tokens := LineTokens(line);
    forall k | 0 <= k < |tokens| ensures Recognised(tokens[k]) {
      match line[k] {
        case Rune(c) => UTF8IsValid(c);
        case Paint(style) => StyleIsRecognised(style);
      }
    }
    AllRecognisedIff(tokens);
  }

  lemma RowIsRecognised(row: int)
    ensures AllRecognised(MoveToRow(row)) && AllRecognised(Clear(row))
  {
    DecimalIsText(row);
    SequenceIsRecognised(Decimal(row) + ";1", 0x48);
    SequenceIsRecognised("2", 0x4b);
    SequenceIsRecognised("", 0x72);
    SequenceIsRecognised("0", 0x6d);
    AllRecognisedIff(MoveToRow(row));
    AllRecognisedIff(Clear(row));
  }

  lemma ClaimIsRecognised(claimed: int, reserved: int)
    ensures AllRecognised(ClaimRows(claimed, reserved))
  {
    var grown := Decimal(reserved - (if claimed == 0 then 1 else claimed));
    DecimalIsText(reserved - (if claimed == 0 then 1 else claimed));
    SequenceIsRecognised("", 0x41);
    SequenceIsRecognised(grown, 0x53);
    SequenceIsRecognised(grown, 0x41);
    AllRecognisedIff(ClaimRows(claimed, reserved));
  }

  lemma HeadIsRecognised(reserved: int, claimed: int, dirty: bool, contentBottom: int)
    ensures AllRecognised(FrameHead(reserved, claimed, dirty, contentBottom))
  {
    var claim := ClaimRows(claimed, reserved);
    ClaimIsRecognised(claimed, reserved);
    AllRecognisedIff(claim);
    DecimalIsText(contentBottom);
    SequenceIsRecognised("1;" + Decimal(contentBottom), 0x72);
    StyleIsRecognised(Bar);
    AllRecognisedIff(FrameHead(reserved, claimed, dirty, contentBottom));
  }

  lemma {:induction false} MenuIsRecognised(contentBottom: int, lines: seq<Line>)
    requires AllDrawable(lines)
    ensures AllRecognised(MenuTokens(contentBottom, lines))
    decreases |lines|
  {
    if lines != [] {
      var index := |lines| - 1;
      var init, row := MenuTokens(contentBottom, lines[..index]), contentBottom + 1 + index;
      MenuIsRecognised(contentBottom, lines[..index]);
      RowIsRecognised(row);
      LineIsRecognised(lines[index]);
      RecognisedConcat(init, MoveToRow(row));
      RecognisedConcat(init + MoveToRow(row), LineTokens(lines[index]));
      StyleIsRecognised(Bar);
      AllRecognisedIff([StyleToken(Bar)]);
      RecognisedConcat(init + MoveToRow(row) + LineTokens(lines[index]), [StyleToken(Bar)]);
    }
  }

  lemma FootIsRecognised(rows: int, footer: Line)
    requires Drawable(footer)
    ensures AllRecognised(FrameFoot(rows, footer))
  {
    RowIsRecognised(rows);
    LineIsRecognised(footer);
    RecognisedConcat(MoveToRow(rows), LineTokens(footer));
    SequenceIsRecognised("0", 0x6d);
    AllRecognisedIff([CSISequence("0", 0x6d), RESTORE]);
    RecognisedConcat(MoveToRow(rows) + LineTokens(footer), [CSISequence("0", 0x6d), RESTORE]);
  }

  lemma FrameIsRecognised(rows: int, reserved: int, claimed: int, dirty: bool, menu: seq<Line>, footer: Line)
    requires Drawable(footer) && AllDrawable(menu)
    ensures AllRecognised(Frame(rows, reserved, claimed, dirty, menu, footer))
  {
    var bottom := rows - reserved;
    HeadIsRecognised(reserved, claimed, dirty, bottom);
    MenuIsRecognised(bottom, menu);
    FootIsRecognised(rows, footer);
    RecognisedParts(FrameHead(reserved, claimed, dirty, bottom), MenuTokens(bottom, menu), FrameFoot(rows, footer));
  }

  /** A drawing made of lines without control characters is made of whole tokens. */
  lemma SoundIsRecognised(d: Drawing)
    requires Sound(d)
    ensures AllRecognised(Tokens(d))
  {
    match d {
      case ClearRow(row) => RowIsRecognised(row);
      case FrameOf(l, footer) =>
        FrameIsRecognised(l.rows, ReservedBy(l), l.reservedRowsClaimed, l.scrollRegionDirty, l.menuLines, footer);
    }
  }

  function Clears(rows: seq<int>): seq<Piece> {
    if rows == [] then [] else Clears(rows[..|rows| - 1]) + [Local(ClearRow(rows[|rows| - 1]))]
  }

  // ---- What has been written to the terminal ----

  datatype Piece = Child(bytes: seq<byte>) | Local(drawing: Drawing)

  function ChildBytes(output: seq<Piece>): seq<byte>
    decreases |output|
  {
    if output == [] then []
    else ChildBytes(output[..|output| - 1])
         + match output[|output| - 1] case Child(bytes) => bytes case Local(_) => []
  }

  function AllBytes(output: seq<Piece>): seq<byte>
    decreases |output|
  {
    if output == [] then []
    else AllBytes(output[..|output| - 1])
         + match output[|output| - 1] case Child(bytes) => bytes case Local(d) => Stream(Tokens(d))
  }

  /** Every local piece is made of whole tokens and was inserted between two tokens of the child. */
  ghost predicate WellInterleaved(output: seq<Piece>)
    decreases |output|
  {
    output != [] ==>
      var before, last := output[..|output| - 1], output[|output| - 1];
      && WellInterleaved(before)
      && (last.Local? ==> AllRecognised(Tokens(last.drawing)) && SafeBoundary(Consumed(START, ChildBytes(before))))
  }

  lemma {:induction false} WholeTokensEnd(tokens: seq<Token>)
    requires AllRecognised(tokens)
    ensures Consumed(START, Stream(tokens)) == START
  {
    if tokens != [] {
      TokenEnds(tokens[0]);
      WholeTokensEnd(tokens[1..]);
      ConsumedConcat(START, Code(tokens[0]), Stream(tokens[1..]));
    }
  }

  /** The terminal, which sees local drawing and child output together, is at every point in the
      state the child's own output would have put it in: no token of the child is ever split. */
  lemma {:induction false} TerminalFollowsChild(output: seq<Piece>)
    requires WellInterleaved(output)
    ensures Consumed(START, AllBytes(output)) == Consumed(START, ChildBytes(output))
    decreases |output|
  {
    if output != [] {
      var before, last := output[..|output| - 1], output[|output| - 1];
      TerminalFollowsChild(before);
      match last {
        case Child(bytes) =>
          ConsumedConcat(START, AllBytes(before), bytes);
          ConsumedConcat(START, ChildBytes(before), bytes);
        case Local(d) =>
          ConsumedConcat(START, AllBytes(before), Stream(Tokens(d)));
          WholeTokensEnd(Tokens(d));
          assert ChildBytes(output) == ChildBytes(before);
      }
    }
  }

  lemma SafeIsBetween(tokens: seq<Token>, child: seq<byte>)
    requires AllRecognised(tokens) && child <= Stream(tokens) && SafeBoundary(Consumed(START, child))
    ensures BetweenTokens(tokens, |child|)
  {
    assert Stream(tokens)[..|child|] == child;
    AllRecognisedIff(tokens);
    SafeExactlyBetweenTokens(tokens, |child|);
  }

  lemma {:induction false} LocalWasSafe(output: seq<Piece>, k: nat)
    requires WellInterleaved(output) && k < |output| && output[k].Local?
    ensures ChildBytes(output[..k]) <= ChildBytes(output)
    ensures SafeBoundary(Consumed(START, ChildBytes(output[..k])))
    decreases |output|
  {
    var before := output[..|output| - 1];
    if k < |before| {
      LocalWasSafe(before, k);
      assert before[..k] == output[..k];
    } else {
      assert output[..k] == before;
    }
  }

  /** Seen from the child: when its output is a stream of recognised tokens, every local piece
      sits exactly between two of them. */
  lemma DrawnBetweenChildTokens(output: seq<Piece>, k: nat, tokens: seq<Token>)
    requires WellInterleaved(output) && k < |output| && output[k].Local?
    requires AllRecognised(tokens) && ChildBytes(output) <= Stream(tokens)
    ensures ChildBytes(output[..k]) <= ChildBytes(output)
    ensures BetweenTokens(tokens, |ChildBytes(output[..k])|)
  {
    LocalWasSafe(output, k);
    SafeIsBetween(tokens, ChildBytes(output[..k]));
  }

  /** The output is well interleaved, and deleting what was drawn locally leaves `child`. */
  ghost predicate Interleaves(output: seq<Piece>, child: seq<byte>) {
    WellInterleaved(output) && ChildBytes(output) == child
  }

  lemma WellInterleavedSnoc(output: seq<Piece>, piece: Piece)
    ensures WellInterleaved(output + [piece]) <==>
            && WellInterleaved(output)
            && (piece.Local? ==> AllRecognised(Tokens(piece.drawing))
                                 && SafeBoundary(Consumed(START, ChildBytes(output))))
    ensures ChildBytes(output + [piece]) == ChildBytes(output) + if piece.Child? then piece.bytes else []
  {
    assert (output + [piece])[..|output|] == output;
  }

  lemma AppendChild(output: seq<Piece>, child: seq<byte>, bytes: seq<byte>)
    requires Interleaves(output, child)
    ensures Interleaves(output + [Child(bytes)], child + bytes)
  {
    WellInterleavedSnoc(output, Child(bytes));
  }

  lemma AppendLocal(output: seq<Piece>, child: seq<byte>, d: Drawing)
    requires Interleaves(output, child) && Sound(d) && SafeBoundary(Consumed(START, child))
    ensures Interleaves(output + [Local(d)], child)
  {
    SoundIsRecognised(d);
    WellInterleavedSnoc(output, Local(d));
  }

  lemma {:induction false} AppendClears(output: seq<Piece>, child: seq<byte>, rows: seq<int>)
    requires Interleaves(output, child) && SafeBoundary(Consumed(START, child))
    ensures Interleaves(output + Clears(rows), child)
    decreases |rows|
  {
    if rows == [] {
      assert output + Clears(rows) == output;
    } else {
      var init, last := rows[..|rows| - 1], ClearRow(rows[|rows| - 1]);
      AppendClears(output, child, init);
      var before := output + Clears(init);
      AppendLocal(before, child, last);
      ConcatAssociates(output, Clears(init), [Local(last)]);
    }
  }

  // ---- Recognising sequences split across writes ----

  /** What follows ESC in the sequences that undo Falkn's scrolling region: a full reset, erasing in the display,
      a reset of the region, and switching to the other screen and back. */
  const RESETS: seq<string> :=
    ["c", "[J", "[0J", "[1J", "[2J", "[3J", "[r", "[;r", "[?47h", "[?47l", "[?1047h", "[?1047l", "[?1049h", "[?1049l"]

  function Reset(r: nat): seq<byte>
    requires r < |RESETS|
  {
    [0x1b] + Ascii(RESETS[r])
  }

  predicate ResetsLayout(data: seq<byte>) {
    exists r :: 0 <= r < |RESETS| && Index(data, Reset(r)) >= 0
  }

  lemma {:induction false} ResetIsShort(r: nat)
    requires r < |RESETS|
    ensures 0 < |Reset(r)| <= LAYOUT_TAIL_BYTES
  {
    assert |RESETS[r]| <= 7;
  }

  /** A window of the newest bytes, with the next write, holds every occurrence that the write
      completes of a pattern no longer than the window. */
  lemma WindowHoldsCompleted(child: seq<byte>, data: seq<byte>, window: nat, pattern: seq<byte>, i: nat)
    requires 0 < |pattern| <= window && OccursAt(child + data, pattern, i) && i + |pattern| > |child|
    ensures var dropped := |child| - |Newest(child, window)|;
            dropped <= i && OccursAt(Newest(child, window) + data, pattern, i - dropped)
  {
    var tail := Newest(child, window);
    var dropped := |child| - |tail|;
    assert child + data == child[..dropped] + (tail + data);
    OccursAtShift(child[..dropped], tail + data, pattern, i - dropped);
  }

  /** However the child's output is cut into writes, the write that completes a reset is seen to. */
  lemma {:induction false} NoResetMissed(child: seq<byte>, data: seq<byte>, r: nat, i: nat)
    requires r < |RESETS| && OccursAt(child + data, Reset(r), i) && i + |Reset(r)| > |child|
    ensures ResetsLayout(Newest(child, LAYOUT_TAIL_BYTES) + data)
  {
    ResetIsShort(r);
    WindowHoldsCompleted(child, data, LAYOUT_TAIL_BYTES, Reset(r), i);
    IndexFinds(Newest(child, LAYOUT_TAIL_BYTES) + data, Reset(r));
  }

  /** Likewise a handoff command cut over any number of writes is read, with its ID, from the
      newest 512 bytes and the write that completes it. */
  lemma SplitHandoffIsRead(child: seq<byte>, data: seq<byte>, before: seq<byte>, id: seq<byte>, after: seq<byte>)
    requires Handoff.ValidSessionID(id) && !Occurs(after, Handoff.PREFIX)
    requires child + data == before + Handoff.Printed(id) + after
    requires |before + Handoff.Printed(id)| > |child|
    ensures Handoff.Parse(Newest(child, HANDOFF_TAIL_BYTES) + data) == Some(id)
  {
    var p := Handoff.Printed(id);
    var printed := Handoff.WriteAttachHandoff(id);
    var dropped := |child| - |Newest(child, HANDOFF_TAIL_BYTES)|;
    assert |p| <= 362;
    assert dropped <= |before|;
    assert Newest(child, HANDOFF_TAIL_BYTES) + data == before[dropped..] + p + after by {
      assert Newest(child, HANDOFF_TAIL_BYTES) + data == (child + data)[dropped..];
      assert (before + p + after)[dropped..] == before[dropped..] + p + after;
    }
    Handoff.ParseUndoesPrint(before[dropped..], id, after);
  }

  /** The write after `child` shows a sequence that undoes the scrolling region. */
  predicate Undone(child: seq<byte>, written: seq<byte>) {
    written != [] && ResetsLayout(Newest(child, LAYOUT_TAIL_BYTES) + written)
  }

  /** The session asked for once the write after `child` has been seen; the first request stands. */
  function Requested(recorded: seq<byte>, child: seq<byte>, written: seq<byte>): seq<byte> {
    if written == [] || recorded != [] then recorded
    else match Handoff.Parse(Newest(child, HANDOFF_TAIL_BYTES) + written)
      case Some(id) => id
      case None => []
  }

  // ---- The status bar ----

  function AppendUniqueRow(rows: seq<int>, row: int): (r: seq<int>)
    ensures row in r && rows <= r
  {
    if row in rows then rows else rows + [row]
  }

  // ---- How each call changes what is to be drawn ----

  predicate Due(l: Layout, closed: bool, safe: bool) {
    !closed && safe && (l.renderPending || l.pendingClearRows != [])
  }

  /** renderLocked's effect on the layout, past its guard. */
  function Drawn(l: Layout): Layout {
    var cleared := l.(pendingClearRows := [], renderPending := false);
    if StatusBarVisible(l.columns, l.rows)
    then cleared.(scrollRegionDirty := false, reservedRowsClaimed := ReservedBy(l)) else cleared
  }

  /** What renderLocked writes, past its guard. */
  function Written(l: Layout, footer: Line): seq<Piece> {
    Clears(l.pendingClearRows) + if StatusBarVisible(l.columns, l.rows)
    then [Local(FrameOf(l.(pendingClearRows := []), footer))] else []
  }

  /** The footer that goes with a layout. */
  ghost function FooterOf(l: Layout, content: Content): Line {
    FooterLine(l.columns, content, l.menuLines != [])
  }

  function Resized(l: Layout, columns: int, rows: int): Layout {
    var released := if StatusBarVisible(l.columns, l.rows)
      then AppendUniqueRow(l.pendingClearRows, l.rows) else l.pendingClearRows;
    var resized := l.(columns := columns, rows := rows, pendingClearRows := released,
                      scrollRegionDirty := true, renderPending := true);
    if StatusBarVisible(columns, rows) then resized else resized.(reservedRowsClaimed := 0, menuLines := [])
  }

  /** Rows from `row` down to above `last`, appended if new. */
  function Released(rows: seq<int>, row: int, last: int): seq<int>
    decreases row - last
  {
    if row <= last then rows else Released(AppendUniqueRow(rows, row), row - 1, last)
  }

  function GivenBack(l: Layout, lines: seq<Line>): Layout {
    var bottom := l.rows - 1;
    l.(pendingClearRows := Released(l.pendingClearRows, bottom, bottom - |l.menuLines| + |lines|),
       reservedRowsClaimed := 1 + |lines|)
  }

  function WithMenu(l: Layout, lines: seq<Line>): Layout {
    if lines == [] && l.menuLines == [] then l
    else
      var given := if |lines| < |l.menuLines| then GivenBack(l, lines) else l;
      given.(menuLines := lines, scrollRegionDirty := true, renderPending := true)
  }

  /** The rows the bar occupies, from the bottom up. */
  function Footprint(l: Layout): (r: seq<int>)
    ensures |r| == ReservedBy(l)
  {
    seq(ReservedBy(l), i => l.rows - i)
  }

  /** The observer's mark, when a write undoes the scrolling region. */
  function Marked(l: Layout, resets: bool): Layout {
    if resets then l.(scrollRegionDirty := true, renderPending := true) else l
  }

  lemma {:induction false} ReleasedIff(rows: seq<int>, row: int, last: int, r: int)
    ensures rows <= Released(rows, row, last)
    ensures r in Released(rows, row, last) <==> r in rows || last < r <= row
    decreases row - last
  {
    if row > last {
      ReleasedIff(AppendUniqueRow(rows, row), row - 1, last, r);
    }
  }

  /** The bar draws on row r. */
  predicate Occupies(l: Layout, r: int) {
    l.rows - ReservedBy(l) < r <= l.rows
  }

  /** The bar gives row r back when its switcher is replaced. */
  predicate GivesBack(l: Layout, lines: seq<Line>, r: int) {
    Occupies(l, r) && !Occupies(WithMenu(l, lines), r)
  }

  lemma QueuedRows(l: Layout, lines: seq<Line>, r: int)
    requires |lines| < |l.menuLines|
    ensures r in WithMenu(l, lines).pendingClearRows
            <==> r in l.pendingClearRows || l.rows - 1 - |l.menuLines| + |lines| < r <= l.rows - 1
    ensures StatusBarVisible(l.columns, l.rows) ==>
              WithMenu(l, lines).reservedRowsClaimed == ReservedBy(WithMenu(l, lines))
  {
    ReleasedIff(l.pendingClearRows, l.rows - 1, l.rows - 1 - |l.menuLines| + |lines|, r);
  }

  /** A shrinking switcher has every row it gives back wiped exactly when it closes, or the topmost
      of those rows, which the loop does not reach, happen to be queued already. */
  lemma GivenBackRowsAreWipedIff(l: Layout, lines: seq<Line>)
    requires StatusBarVisible(l.columns, l.rows) && |lines| < |l.menuLines|
    ensures (forall r :: GivesBack(l, lines, r) ==> r in WithMenu(l, lines).pendingClearRows)
            <==> forall r :: l.rows - |l.menuLines| <= r < l.rows - |l.menuLines| + |lines| && r < l.rows - |lines|
                   ==> r in l.pendingClearRows
  {
    var n, m := |l.menuLines|, |lines|;
    forall r ensures GivesBack(l, lines, r) <==> l.rows - n <= r < l.rows - m {
    }
    forall r | GivesBack(l, lines, r)
      ensures r in WithMenu(l, lines).pendingClearRows <==> r in l.pendingClearRows || l.rows - n + m <= r
    {
      QueuedRows(l, lines, r);
    }
    if forall r :: GivesBack(l, lines, r) ==> r in WithMenu(l, lines).pendingClearRows {
      forall r | l.rows - n <= r < l.rows - n + m && r < l.rows - m ensures r in l.pendingClearRows {
        assert GivesBack(l, lines, r);
      }
    }
  }

  /** With nothing queued before: the rows queued are the rows given back exactly when it closes. */
  lemma QueuedAreGivenBackIff(l: Layout, lines: seq<Line>)
    requires StatusBarVisible(l.columns, l.rows) && |lines| < |l.menuLines| && l.pendingClearRows == []
    ensures (forall r :: r in WithMenu(l, lines).pendingClearRows <==> GivesBack(l, lines, r)) <==> lines == []
  {
    forall r ensures r in WithMenu(l, lines).pendingClearRows
                     <==> l.rows - |l.menuLines| + |lines| <= r <= l.rows - 1 {
      QueuedRows(l, lines, r);
    }
    if lines != [] {
      var top := l.rows - |l.menuLines|;
      assert GivesBack(l, lines, top) && top !in WithMenu(l, lines).pendingClearRows;
    }
  }

  /** Shrunk without closing, the switcher leaves its old top row on the screen and wipes its own
      lowest one. */
  lemma ShrunkSwitcherLeavesItsTopRow(l: Layout, lines: seq<Line>)
    requires StatusBarVisible(l.columns, l.rows) && 0 < |lines| < |l.menuLines| && l.pendingClearRows == []
    ensures var now := WithMenu(l, lines);
            && GivesBack(l, lines, l.rows - |l.menuLines|) && l.rows - |l.menuLines| !in now.pendingClearRows
            && Occupies(now, l.rows - 1) && l.rows - 1 in now.pendingClearRows
  {
    QueuedRows(l, lines, l.rows - |l.menuLines|);
    QueuedRows(l, lines, l.rows - 1);
  }

  datatype Outcome = Passed | WriteFailed | HandoffRequested

  class AttachStatusBar {
    var output: seq<Piece>      // everything written to the terminal, and by whom
    ghost var child: seq<byte>  // the child's part of it
    var layout: Layout          // its sizes, and what is still to be drawn
    var content: Content
    const supportsNotifications: bool
    var layoutSequenceTail: seq<byte>
    var handoffSequenceTail: seq<byte>
    var handoffSessionID: seq<byte>
    const streamState: TerminalStreamState
    var closed: bool

    /** What is known of the output and of the windows on it. */
    ghost predicate Tracking()
      reads this`output, this`child, this`layoutSequenceTail, this`handoffSequenceTail, this`handoffSessionID
      reads streamState
    {
      && Interleaves(output, child)
      && streamState.State() == Consumed(START, child)
      && layoutSequenceTail == Newest(child, LAYOUT_TAIL_BYTES)
      && (handoffSessionID == [] ==> handoffSequenceTail == Newest(child, HANDOFF_TAIL_BYTES))
    }

    ghost predicate Presentable()
      reads this`content, this`layout
    {
      Footer.Plain(content.prefixName) && AllDrawable(layout.menuLines)
    }

    ghost predicate Valid()
      reads this`output, this`child, this`layoutSequenceTail, this`handoffSequenceTail, this`handoffSessionID
      reads streamState
      reads this`content, this`layout
    {
      Tracking() && Presentable()
    }

    ghost predicate Safe()
      reads this`child
    {
      SafeBoundary(Consumed(START, child))
    }

    /** renderLocked has been called on layout l, with `before` written so far. */
    ghost predicate RenderedFrom(l: Layout, before: seq<Piece>)
      reads this`layout, this`output, this`closed, this`child, this`content
    {
      if Due(l, closed, Safe())
      then layout == Drawn(l) && output == before + Written(l, FooterOf(l, content))
      else layout == l && output == before
    }

    constructor (columns: int, rows: int, content: Content)
      requires content.prefixName == ""
      ensures Valid() && fresh(streamState) && output == [] && handoffSessionID == [] && !closed
      ensures layout == Layout(columns, rows, [], true, 0, true, [])
    {
      output, child := [], [];
      layout := Layout(columns, rows, [], true, 0, true, []);
      this.content, supportsNotifications := content, content.supportsNotifications;
      layoutSequenceTail, handoffSequenceTail, handoffSessionID, closed := [], [], [], false;
      streamState := new TerminalStreamState();
    }

    method EmitClears(rows: seq<int>)
      modifies this`output
      ensures output == old(output) + Clears(rows)
    {
      for i := 0 to |rows|
        invariant output == old(output) + Clears(rows[..i])
      {
        output := output + [Local(ClearRow(rows[i]))];
        assert rows[..i + 1][..i] == rows[..i];
      }
      assert rows[..|rows|] == rows;
    }

    /** clearLocked for each of the rows. */
    method DrawClears(rows: seq<int>)
      requires Valid() && Safe()
      modifies this`output
      ensures Valid() && output == old(output) + Clears(rows)
    {
      AppendClears(output, child, rows);
      EmitClears(rows);
    }

    method ComposeFooter() returns (footer: Line)
      requires Presentable()
      ensures footer == FooterOf(layout, content) && Drawable(footer)
    {
      footer := StatusBarLine(layout.columns, content, |layout.menuLines| > 0);
      FooterIsDrawable(layout.columns, content, |layout.menuLines| > 0, footer);
    }

    /** The visible part of renderLocked, with the released rows cleared already. */
    method DrawFrame(ghost l: Layout, footer: Line)
      requires Drawable(footer) && Valid() && Safe()
      requires StatusBarVisible(layout.columns, layout.rows) && layout == l.(pendingClearRows := [])
      modifies this`output, this`layout
      ensures Valid() && layout == Drawn(l)
      ensures output == old(output) + [Local(FrameOf(l.(pendingClearRows := []), footer))]
    {
      var frame := FrameOf(layout, footer);
      AppendLocal(output, child, frame);
      output := output + [Local(frame)];
      layout := layout.(scrollRegionDirty := false, reservedRowsClaimed := ReservedBy(layout), renderPending := false);
    }

    /** renderLocked past its guard. */
    method RenderDue(footer: Line)
      requires Drawable(footer) && Valid() && Safe()
      modifies this`output, this`layout
      ensures Valid() && layout == Drawn(old(layout))
      ensures output == old(output) + Written(old(layout), footer)
    {
      ghost var l, before := layout, output;
      DrawClears(layout.pendingClearRows);
      layout := layout.(pendingClearRows := []);
      if !StatusBarVisible(layout.columns, layout.rows) {
        layout := layout.(renderPending := false);
        assert Written(l, footer) == Clears(l.pendingClearRows);
        return;
      }
      DrawFrame(l, footer);
      ConcatAssociates(before, Clears(l.pendingClearRows), [Local(FrameOf(l.(pendingClearRows := []), footer))]);
    }

    /** renderLocked: nothing happens while closed, inside a token, or with nothing to draw. */
    method Render()
      requires Valid()
      modifies this`output, this`layout
      ensures Valid() && RenderedFrom(old(layout), old(output))
    {
      if closed || !SafeBoundary(streamState.State()) || (!layout.renderPending && |layout.pendingClearRows| == 0) {
        return;
      }
      var footer := ComposeFooter();
      RenderDue(footer);
    }

    method Forward(written: seq<byte>)
      requires Interleaves(output, child)
      modifies this`output, this`child
      ensures Interleaves(output, child) && child == old(child) + written && output == old(output) + [Child(written)]
    {
      AppendChild(output, child, written);
      output := output + [Child(written)];
      child := child + written;
    }

    method Follow(written: seq<byte>, ghost was: seq<byte>)
      requires streamState.State() == Consumed(START, was)
      modifies streamState
      ensures streamState.State() == Consumed(START, was + written)
    {
      streamState.Consume(written);
      ConsumedConcat(START, was, written);
    }

    method ObserveLayout(data: seq<byte>, ghost was: seq<byte>)
      requires data != [] && layoutSequenceTail == Newest(was, LAYOUT_TAIL_BYTES)
      modifies this`layout, this`layoutSequenceTail
      ensures layoutSequenceTail == Newest(was + data, LAYOUT_TAIL_BYTES)
      ensures layout == Marked(old(layout), Undone(was, data))
    {
      var combined := layoutSequenceTail + data;
      if ResetsLayout(combined) {
        layout := layout.(scrollRegionDirty := true, renderPending := true);
      }
      if |combined| > LAYOUT_TAIL_BYTES {
        combined := combined[|combined| - LAYOUT_TAIL_BYTES..];
      }
      layoutSequenceTail := combined;
      NewestAdvances(was, data, LAYOUT_TAIL_BYTES);
    }

    method ObserveHandoff(data: seq<byte>, ghost was: seq<byte>)
      requires data != [] && (handoffSessionID == [] ==> handoffSequenceTail == Newest(was, HANDOFF_TAIL_BYTES))
      modifies this`handoffSequenceTail, this`handoffSessionID
      ensures handoffSessionID == Requested(old(handoffSessionID), was, data)
      ensures handoffSessionID == [] ==> handoffSequenceTail == Newest(was + data, HANDOFF_TAIL_BYTES)
    {
      if handoffSessionID != [] {
        return;
      }
      var combined := handoffSequenceTail + data;
      var id := Handoff.Parse(combined);
      if id.Some? {
        handoffSessionID := id.value;
        return;
      }
      if |combined| > HANDOFF_TAIL_BYTES {
        combined := combined[|combined| - HANDOFF_TAIL_BYTES..];
      }
      handoffSequenceTail := combined;
      NewestAdvances(was, data, HANDOFF_TAIL_BYTES);
    }

    /** The terminal takes a write, and the parser follows it. */
    method TakeIn(written: seq<byte>)
      requires Interleaves(output, child) && streamState.State() == Consumed(START, child)
      modifies this`output, this`child, streamState
      ensures Interleaves(output, child) && streamState.State() == Consumed(START, child)
      ensures child == old(child) + written && output == old(output) + [Child(written)]
    {
      ghost var was := child;
      Forward(written);
      Follow(written, was);
    }

    method Observe(data: seq<byte>, ghost was: seq<byte>)
      requires data != [] && layoutSequenceTail == Newest(was, LAYOUT_TAIL_BYTES)
      requires handoffSessionID == [] ==> handoffSequenceTail == Newest(was, HANDOFF_TAIL_BYTES)
      modifies this`layout, this`layoutSequenceTail, this`handoffSequenceTail, this`handoffSessionID
      ensures layoutSequenceTail == Newest(was + data, LAYOUT_TAIL_BYTES)
      ensures handoffSessionID == [] ==> handoffSequenceTail == Newest(was + data, HANDOFF_TAIL_BYTES)
      ensures layout == Marked(old(layout), Undone(was, data))
      ensures handoffSessionID == Requested(old(handoffSessionID), was, data)
    {
      ObserveLayout(data, was);
      ObserveHandoff(data, was);
    }

    /** The first half of Write: the terminal takes `written` and the observers see it. */
    method PassThrough(written: seq<byte>)
      requires Valid()
      modifies this`output, this`child, this`layout
      modifies this`layoutSequenceTail, this`handoffSequenceTail, this`handoffSessionID, streamState
      ensures Valid() && child == old(child) + written
      ensures output == if written == [] then old(output) else old(output) + [Child(written)]
      ensures layout == Marked(old(layout), Undone(old(child), written))
      ensures handoffSessionID == Requested(old(handoffSessionID), old(child), written)
    {
      if |written| == 0 {
        return;
      }
      ghost var was := child;
      TakeIn(written);
      Observe(written, was);
    }

    /** Write, when the terminal accepts the first `count` bytes and reports whether it failed. */
    method Write(data: seq<byte>, count: nat, failed: bool) returns (outcome: Outcome)
      requires Valid() && count <= |data| && (count < |data| ==> failed)
      modifies this`output, this`layout
      modifies this`child, this`layoutSequenceTail, this`handoffSequenceTail, this`handoffSessionID, streamState
      ensures Valid() && child == old(child) + data[..count]
      ensures handoffSessionID == Requested(old(handoffSessionID), old(child), data[..count])
      ensures outcome == if failed then WriteFailed else if handoffSessionID != [] then HandoffRequested else Passed
      ensures var seen := Marked(old(layout), Undone(old(child), data[..count]));
              var passed := if count == 0 then old(output) else old(output) + [Child(data[..count])];
              if outcome.Passed? then RenderedFrom(seen, passed)
              else layout == seen && output == passed
    {
      var written := data[..count];
      PassThrough(written);
      if failed {
        return WriteFailed;
      }
      if handoffSessionID != [] {
        return HandoffRequested;
      }
      Render();
      outcome := Passed;
    }

    /** render */
    method Redraw()
      requires Valid()
      modifies this`output, this`layout
      ensures Valid() && RenderedFrom(old(layout).(renderPending := true), old(output))
    {
      layout := layout.(renderPending := true);
      Render();
    }

    method Resize(columns: int, rows: int)
      requires Valid()
      modifies this`output, this`layout
      ensures Valid() && RenderedFrom(Resized(old(layout), columns, rows), old(output))
    {
      if StatusBarVisible(layout.columns, layout.rows) {
        layout := layout.(pendingClearRows := AppendUniqueRow(layout.pendingClearRows, layout.rows));
      }
      layout := layout.(columns := columns, rows := rows);
      if !StatusBarVisible(columns, rows) {
        layout := layout.(reservedRowsClaimed := 0, menuLines := []);
      }
      layout := layout.(scrollRegionDirty := true, renderPending := true);
      Render();
    }

    /** Queues as many rows as the switcher shrinks by, from its lowest up: all it gives back if it
        closes, but not if it only gets shorter. */
    method GiveBack(lines: seq<Line>)
      requires |lines| < |layout.menuLines|
      modifies this`layout
      ensures layout == GivenBack(old(layout), lines)
    {
      var bottom := layout.rows - 1;
      var row, last := bottom, bottom - |layout.menuLines| + |lines|;
      ghost var was := layout;
      while row > last
        invariant layout == was.(pendingClearRows := layout.pendingClearRows)
        invariant Released(layout.pendingClearRows, row, last) == Released(was.pendingClearRows, bottom, last)
      {
        layout := layout.(pendingClearRows := AppendUniqueRow(layout.pendingClearRows, row));
        row := row - 1;
      }
      layout := layout.(reservedRowsClaimed := 1 + |lines|);
    }

    method SetMenuLines(lines: seq<Line>)
      requires Valid() && AllDrawable(lines)
      modifies this`output, this`layout
      ensures Valid()
      ensures if lines == [] && old(layout.menuLines) == [] then layout == old(layout) && output == old(output)
              else RenderedFrom(WithMenu(old(layout), lines), old(output))
    {
      if |lines| == 0 && |layout.menuLines| == 0 {
        return;
      }
      if |lines| < |layout.menuLines| {
        GiveBack(lines);
      }
      layout := layout.(menuLines := lines);
      layout := layout.(scrollRegionDirty := true, renderPending := true);
      Render();
    }

    /** setNotificationsMuted, setPrefixArmed and the end of updateSessions: redraw only when something
        changed. */
    method UpdateContent(updated: Content)
      requires Valid() && updated.prefixName == content.prefixName
      modifies this`output, this`layout
      modifies this`content
      ensures Valid() && content == updated
      ensures if updated == old(content) then layout == old(layout) && output == old(output)
              else RenderedFrom(old(layout).(renderPending := true), old(output))
    {
      if updated == content {
        return;
      }
      content := updated;
      layout := layout.(renderPending := true);
      Render();
    }

    /** updateSessions: what the listed records say, with what the bar itself knows. */
    method UpdateSessions(sessionID: string, records: seq<SessionOrder.Record>)
      requires Valid() && SessionOrder.DistinctIDs(records)
      modifies this`output, this`layout, this`content
      ensures Valid() && SessionOrder.IsContentFor(content, sessionID, records)
      ensures content.supportsNotifications == supportsNotifications
      ensures content.prefixName == old(content.prefixName) && content.prefixArmed == old(content.prefixArmed)
      ensures if content == old(content) then layout == old(layout) && output == old(output)
              else RenderedFrom(old(layout).(renderPending := true), old(output))
    {
      var updated := SessionOrder.FooterContentFor(sessionID, records);
      updated := updated.(supportsNotifications := supportsNotifications, prefixName := content.prefixName,
                          prefixArmed := content.prefixArmed);
      UpdateContent(updated);
    }

    method SetPrefixName(name: string)
      requires Valid() && Footer.Plain(name)
      modifies this`content
      ensures Valid() && content == old(content).(prefixName := name)
    {
      content := content.(prefixName := name);
    }

    /** requestHandoff: only the first request is recorded. */
    method RequestHandoff(id: seq<byte>) returns (recorded: bool)
      requires Valid()
      modifies this`handoffSessionID
      ensures Valid() && recorded == (old(handoffSessionID) == [])
      ensures handoffSessionID == if recorded then id else old(handoffSessionID)
    {
      if handoffSessionID != [] {
        return false;
      }
      handoffSessionID := id;
      recorded := true;
    }

    /** close: unless the child stopped inside a sequence, everything drawn is wiped, from the bottom up. */
    method Close()
      requires Valid()
      modifies this`output, this`closed
      ensures Valid() && closed
      ensures if old(closed) || !Safe() then output == old(output)
              else output == old(output) + Clears(layout.pendingClearRows) + Clears(Footprint(layout))
    {
      if closed {
        return;
      }
      closed := true;
      if !SafeBoundary(streamState.State()) {
        return;
      }
      DrawClears(layout.pendingClearRows);
      DrawClears(Footprint(layout));
    }
  }
}
