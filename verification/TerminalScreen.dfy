/** What a terminal shows of Falkn's own drawing: an interpreter of the control functions it uses
    (internal/server/status_bar.go writes them), after ECMA-48 and the DEC VT510 manual. */
module TerminalScreen {
  import opened Sequences
  import opened TerminalStream
  import opened Footer
  import opened StatusBar

  /** A character on the screen, with the rendition it was written in. */
  datatype Glyph = Glyph(rune: int, style: seq<byte>)

  /** Rows count from 1, columns from 0. */
  datatype Cursor = Cursor(row: int, column: nat, style: seq<byte>)

  datatype Screen = Screen(rows: seq<seq<Glyph>>, cursor: Cursor, saved: Cursor, top: int, bottom: int)

  // ---- Reading parameters and characters back ----

  /** The numbers of a parameter string, with `value` read of the first so far. */
  function Numbers(p: seq<byte>, value: int): (r: seq<int>)
    ensures r != []
  {
    if p == [] then [value]
    else if p[0] == 0x3b then [value] + Numbers(p[1..], 0)
    else Numbers(p[1..], 10 * value + p[0] as int - 0x30)
  }

  /** A count, which is 1 when none is given. */
  function Count(p: seq<byte>): int {
    if p == [] then 1 else Numbers(p, 0)[0]
  }

  lemma {:induction false} AsciiConcat(a: string, b: string)
    ensures Ascii(a + b) == Ascii(a) + Ascii(b)
  {
  }

  lemma {:induction false} DigitIsRead(d: byte, rest: seq<byte>, value: int)
    requires 0x30 <= d <= 0x39
    ensures Numbers([d] + rest, value) == Numbers(rest, 10 * value + d as int - 0x30)
  {
    assert ([d] + rest)[1..] == rest;
  }

  lemma {:induction false} LastDigit(n: nat)
    ensures var last: byte := 0x30 + (n % 10) as byte;
            Ascii(Digits(n)) == if n < 10 then [last] else Ascii(Digits(n / 10)) + [last]
  {
    AsciiConcat(if n < 10 then "" else Digits(n / 10), ['0' + (n % 10) as char]);
  }

  lemma {:induction false} DigitsAreRead(n: nat, rest: seq<byte>)
    ensures Numbers(Ascii(Digits(n)) + rest, 0) == Numbers(rest, n)
  {
    var last: byte := 0x30 + (n % 10) as byte;
    LastDigit(n);
    if n < 10 {
      DigitIsRead(last, rest, 0);
    } else {
      ConcatAssociates(Ascii(Digits(n / 10)), [last], rest);
      DigitsAreRead(n / 10, [last] + rest);
      DigitIsRead(last, rest, n / 10);
    }
  }

  lemma {:induction false} DecimalIsRead(n: nat, rest: seq<byte>)
    ensures Numbers(Ascii(Decimal(n)) + rest, 0) == Numbers(rest, n)
  {
    assert Decimal(n) == Digits(n);
    DigitsAreRead(n, rest);
  }

  /** The code point of a UTF-8 character (section 3 of RFC 3629). */
  function CodePoint(c: seq<byte>): int {
    match |c|
    case 1 => c[0] as int
    case 2 => (c[0] as int - 0xc0) * 64 + (c[1] as int - 0x80)
    case 3 => (c[0] as int - 0xe0) * 4096 + (c[1] as int - 0x80) * 64 + (c[2] as int - 0x80)
    case 4 =>
      (c[0] as int - 0xf0) * 262144 + (c[1] as int - 0x80) * 4096 + (c[2] as int - 0x80) * 64 + (c[3] as int - 0x80)
    case _ => 0
  }

  lemma {:induction false} Regrouped(n: nat)
    ensures n == n / 64 * 64 + n % 64
    ensures n / 64 == n / 4096 * 64 + n / 64 % 64
    ensures n / 4096 == n / 262144 * 64 + n / 4096 % 64
  {
    MiddleBits(n, 4096);
    MiddleBits(n / 64, 4096);
    assert n / 64 / 64 == n / 4096 && n / 64 / 4096 == n / 262144;
  }

  lemma {:induction false} UTF8IsReadBack(c: char)
    ensures CodePoint(UTF8(c)) == c as int
  {
    Regrouped(c as int);
  }

  // ---- The control functions ----

  function Placed(row: seq<Glyph>, column: nat, g: Glyph): seq<Glyph> {
    if column < |row| then row[column := g]
    else row + seq(column - |row|, _ => Glyph(0x20, [])) + [g]
  }

  /** The row of the screen nearest to row n. */
  function Within(n: int, height: nat): int {
    if n < 1 then 1 else if n > height then height else n
  }

  /** The row the cursor is on is replaced. */
  function WithRow(s: Screen, row: seq<Glyph>): (r: Screen)
    ensures |r.rows| == |s.rows|
  {
    if 1 <= s.cursor.row <= |s.rows| then s.(rows := s.rows[s.cursor.row - 1 := row]) else s
  }

  function RowAt(s: Screen, i: int): seq<Glyph> {
    if 0 <= i < |s.rows| then s.rows[i] else []
  }

  function RowOf(s: Screen): seq<Glyph> {
    RowAt(s, s.cursor.row - 1)
  }

  /** The rows of the scrolling region move up by n, blank rows coming in at its end. */
  function ScrolledUp(s: Screen, n: int): (r: Screen)
    ensures |r.rows| == |s.rows|
  {
    if 1 <= s.top <= s.bottom <= |s.rows| && n > 0 then
      var k := if n < s.bottom - s.top + 1 then n else s.bottom - s.top + 1;
      s.(rows := s.rows[..s.top - 1] + s.rows[s.top - 1 + k..s.bottom] + seq(k, _ => []) + s.rows[s.bottom..])
    else s
  }

  function Put(s: Screen, g: Glyph): (r: Screen)
    ensures |r.rows| == |s.rows|
  {
    WithRow(s, Placed(RowOf(s), s.cursor.column, g)).(cursor := s.cursor.(column := s.cursor.column + 1))
  }

  function Controlled(s: Screen, p: seq<byte>, final: byte): (r: Screen)
    ensures |r.rows| == |s.rows|
  {
    if final == 0x6d then s.(cursor := s.cursor.(style := p))                       // SGR
    else if final == 0x48 then                                                      // CUP
      var n := Numbers(p, 0);
      s.(cursor := s.cursor.(row := Within(n[0], |s.rows|), column := if |n| > 1 && n[1] > 0 then n[1] - 1 else 0))
    else if final == 0x4b then if p == [0x32] then WithRow(s, []) else s            // EL
    else if final == 0x53 then ScrolledUp(s, Count(p))                              // SU
    else if final == 0x41 then                                                      // CUU
      var least := if s.cursor.row >= s.top then s.top else 1;
      s.(cursor := s.cursor.(row := if s.cursor.row - Count(p) < least then least else s.cursor.row - Count(p)))
    else if final == 0x72 then                                                      // DECSTBM
      var home := s.cursor.(row := 1, column := 0);
      if p == [] then s.(top := 1, bottom := |s.rows|, cursor := home)
      else
        var n := Numbers(p, 0);
        if |n| == 2 && 1 <= n[0] < n[1] <= |s.rows| then s.(top := n[0], bottom := n[1], cursor := home) else s
    else s
  }

  function Applied(s: Screen, t: Token): (r: Screen)
    ensures |r.rows| == |s.rows|
  {
    match t
    case Character(c) => Put(s, Glyph(CodePoint(c), s.cursor.style))
    case Control(_, p, final) => Controlled(s, p, final)
    case Simple(_, final) =>
      if final == 0x37 then s.(saved := s.cursor)                                   // DECSC
      else if final == 0x38 then s.(cursor := s.saved)                              // DECRC
      else if final == 0x44 then                                                    // IND
        if s.cursor.row == s.bottom then ScrolledUp(s, 1)
        else if s.cursor.row < |s.rows| then s.(cursor := s.cursor.(row := s.cursor.row + 1)) else s
      else s
    case ControlText(_, _, _) => s
  }

  /** A terminal: what it makes of each token. */
  type Terminal = (Screen, Token) -> Screen

  /** It has the control functions above. */
  ghost predicate Conforms(terminal: Terminal) {
    forall s, t {:trigger Applied(s, t)} :: terminal(s, t) == Applied(s, t)
  }

  /** The screen after a number of the tokens. */
  function ShownUpto(terminal: Terminal, s: Screen, tokens: seq<Token>, n: nat): Screen
    requires n <= |tokens|
  {
    if n == 0 then s else terminal(ShownUpto(terminal, s, tokens, n - 1), tokens[n - 1])
  }

  function Shown(terminal: Terminal, s: Screen, tokens: seq<Token>): Screen {
    ShownUpto(terminal, s, tokens, |tokens|)
  }

  lemma {:induction false} ShownInPrefix(terminal: Terminal, s: Screen, a: seq<Token>, b: seq<Token>, n: nat)
    requires n <= |a|
    ensures ShownUpto(terminal, s, a + b, n) == ShownUpto(terminal, s, a, n)
  {
    if n > 0 {
      ShownInPrefix(terminal, s, a, b, n - 1);
    }
  }

  lemma {:induction false} ShownBeyond(terminal: Terminal, s: Screen, a: seq<Token>, b: seq<Token>, n: nat)
    requires n <= |b|
    ensures ShownUpto(terminal, s, a + b, |a| + n) == ShownUpto(terminal, Shown(terminal, s, a), b, n)
  {
    if n == 0 {
      ShownInPrefix(terminal, s, a, b, |a|);
    } else {
      ShownBeyond(terminal, s, a, b, n - 1);
    }
  }

  lemma {:induction false} ShownConcat(terminal: Terminal, s: Screen, a: seq<Token>, b: seq<Token>)
    ensures Shown(terminal, s, a + b) == Shown(terminal, Shown(terminal, s, a), b)
  {
    ShownBeyond(terminal, s, a, b, |b|);
  }

  lemma {:induction false} ShownThree(terminal: Terminal, s: Screen, a: seq<Token>, b: seq<Token>, c: seq<Token>)
    ensures Shown(terminal, s, a + b + c) == Shown(terminal, Shown(terminal, Shown(terminal, s, a), b), c)
  {
    ShownConcat(terminal, s, a, b);
    ShownConcat(terminal, s, a + b, c);
  }

  lemma {:induction false} ShownOne(terminal: Terminal, s: Screen, t: Token)
    requires Conforms(terminal)
    ensures Shown(terminal, s, [t]) == Applied(s, t)
  {
    assert ShownUpto(terminal, s, [t], 0) == s;
  }

  lemma {:induction false} ShownTwo(terminal: Terminal, s: Screen, t: Token, u: Token)
    requires Conforms(terminal)
    ensures Shown(terminal, s, [t, u]) == Applied(Applied(s, t), u)
  {
    ShownConcat(terminal, s, [t], [u]);
    ShownOne(terminal, s, t);
    ShownOne(terminal, Applied(s, t), u);
    assert [t] + [u] == [t, u];
  }

  lemma {:induction false} ShownFirst(terminal: Terminal, s: Screen, tokens: seq<Token>)
    requires Conforms(terminal) && tokens != []
    ensures Shown(terminal, s, tokens) == Shown(terminal, Applied(s, tokens[0]), tokens[1..])
  {
    ShownConcat(terminal, s, [tokens[0]], tokens[1..]);
    ShownOne(terminal, s, tokens[0]);
    assert [tokens[0]] + tokens[1..] == tokens;
  }

  lemma {:induction false} HeightUpto(terminal: Terminal, s: Screen, tokens: seq<Token>, n: nat)
    requires Conforms(terminal) && n <= |tokens|
    ensures |ShownUpto(terminal, s, tokens, n).rows| == |s.rows|
  {
    if n > 0 {
      HeightUpto(terminal, s, tokens, n - 1);
      assert |Applied(ShownUpto(terminal, s, tokens, n - 1), tokens[n - 1]).rows| == |s.rows|;
    }
  }

  lemma {:induction false} ShowingKeepsHeight(terminal: Terminal, s: Screen, tokens: seq<Token>)
    requires Conforms(terminal)
    ensures |Shown(terminal, s, tokens).rows| == |s.rows|
  {
    HeightUpto(terminal, s, tokens, |tokens|);
  }

  // ---- A line ----

  /** What a line looks like, begun in a rendition. */
  function Glyphs(line: Line, style: seq<byte>): seq<Glyph> {
    if line == [] then []
    else match line[0]
      case Rune(c) => [Glyph(c as int, style)] + Glyphs(line[1..], style)
      case Paint(p) => Glyphs(line[1..], Ascii(StyleParameters(p)))
  }

  /** It takes as many columns as it is wide. */
  lemma {:induction false} GlyphsAreVisible(line: Line, style: seq<byte>)
    ensures |Glyphs(line, style)| == Visible(line)
  {
    if line != [] {
      GlyphsAreVisible(line[1..], match line[0] case Rune(_) => style case Paint(p) => Ascii(StyleParameters(p)));
    }
  }

  /** t is s but for what is on row r, and for the cursor, which is on that row. */
  ghost predicate OnRow(s: Screen, t: Screen, r: int, row: seq<Glyph>) {
    && 1 <= r <= |s.rows|
    && t == s.(rows := s.rows[r - 1 := row], cursor := t.cursor)
    && t.cursor.row == r
  }

  lemma {:induction false} LineIsShown(terminal: Terminal, s: Screen, t: Screen, r: int, row: seq<Glyph>, line: Line)
    requires Conforms(terminal)
    requires OnRow(s, t, r, row) && t.cursor.column == |row|
    ensures OnRow(s, Shown(terminal, t, LineTokens(line)), r, row + Glyphs(line, t.cursor.style))
    decreases |line|
  {
    var tokens := LineTokens(line);
    if line == [] {
      assert row + [] == row;
    } else {
      assert tokens[1..] == LineTokens(line[1..]);
      var u := Applied(t, tokens[0]);
      ShownFirst(terminal, t, tokens);
      match line[0] {
        case Rune(c) =>
          var g := Glyph(c as int, t.cursor.style);
          UTF8IsReadBack(c);
          PutAtEnd(s, t, r, row, g);
          LineIsShown(terminal, s, u, r, row + [g], line[1..]);
          ConcatAssociates(row, [g], Glyphs(line[1..], t.cursor.style));
        case Paint(p) =>
          LineIsShown(terminal, s, u, r, row, line[1..]);
      }
    }
  }

  lemma {:induction false} PutAtEnd(s: Screen, t: Screen, r: int, row: seq<Glyph>, g: Glyph)
    requires OnRow(s, t, r, row) && t.cursor.column == |row|
    ensures OnRow(s, Put(t, g), r, row + [g])
    ensures Put(t, g).cursor == t.cursor.(column := |row| + 1)
  {
    assert RowOf(t) == row;
    assert row + seq(0, _ => Glyph(0x20, [])) + [g] == row + [g];
    assert s.rows[r - 1 := row][r - 1 := row + [g]] == s.rows[r - 1 := row + [g]];
  }

  /** Going to a row wipes it. */
  lemma {:induction false} RowIsWiped(terminal: Terminal, s: Screen, row: nat)
    requires Conforms(terminal)
    requires 1 <= row && s.rows != []
    ensures var at := Within(row, |s.rows|);
            Shown(terminal, s, MoveToRow(row))
            == s.(rows := s.rows[at - 1 := []], cursor := Cursor(at, 0, s.cursor.style))
  {
    var p := Ascii(Decimal(row) + ";1");
    AsciiConcat(Decimal(row), ";1");
    assert Ascii(";1") == [0x3b, 0x31];
    DecimalIsRead(row, [0x3b, 0x31]);
    assert [0x3b, 0x31][1..] == [0x31] && [0x31][1..] == [];
    assert Numbers([0x31], 0) == [1];
    assert Numbers(p, 0) == [row, 1];
    ShownTwo(terminal, s, CSISequence(Decimal(row) + ";1", 0x48), CSISequence("2", 0x4b));
  }

  // ---- A frame ----

  /** The rendition of the footer and of what the switcher starts its rows with. */
  const BAR: seq<byte> := Ascii(StyleParameters(Bar))

  /** A whole row drawn from scratch. */
  lemma {:induction false} RowIsDrawn(terminal: Terminal, s: Screen, row: nat, line: Line)
    requires Conforms(terminal)
    requires 1 <= row <= |s.rows|
    ensures OnRow(s, Shown(terminal, s, MoveToRow(row) + LineTokens(line)), row, Glyphs(line, s.cursor.style))
  {
    RowIsWiped(terminal, s, row);
    ShownConcat(terminal, s, MoveToRow(row), LineTokens(line));
    LineIsShown(terminal, s, Shown(terminal, s, MoveToRow(row)), row, [], line);
    assert [] + Glyphs(line, s.cursor.style) == Glyphs(line, s.cursor.style);
  }

  /** t is s with the switcher's lines, and nothing else, on the rows from `bottom` down. */
  ghost predicate MenuOn(s: Screen, t: Screen, bottom: nat, lines: seq<Line>) {
    && |t.rows| == |s.rows| && bottom + |lines| <= |s.rows|
    && t == s.(rows := t.rows, cursor := t.cursor) && t.cursor.style == BAR
    && (forall i :: 0 <= i < |lines| ==> t.rows[bottom + i] == Glyphs(lines[i], BAR))
    && (forall i :: 0 <= i < |s.rows| && !(bottom <= i < bottom + |lines|) ==> t.rows[i] == s.rows[i])
  }

  lemma {:induction false} OneMoreRow(
    s: Screen, t: Screen, v: Screen, u: Screen, bottom: nat, lines: seq<Line>, init: seq<Line>, last: Line)
    requires MenuOn(s, t, bottom, init) && lines == init + [last] && bottom + |lines| <= |s.rows|
    requires OnRow(t, v, bottom + |lines|, Glyphs(last, BAR)) && u == v.(cursor := u.cursor) && u.cursor.style == BAR
    ensures MenuOn(s, u, bottom, lines)
  {
  }

  lemma {:induction false} MenuIsShown(terminal: Terminal, s: Screen, bottom: nat, lines: seq<Line>)
    requires Conforms(terminal)
    requires bottom + |lines| <= |s.rows| && s.cursor.style == BAR
    ensures MenuOn(s, Shown(terminal, s, MenuTokens(bottom, lines)), bottom, lines)
    decreases |lines|
  {
    if lines != [] {
      var n := |lines| - 1;
      var init, last := lines[..n], lines[n];
      var row := MoveToRow(bottom + |lines|) + LineTokens(last);
      assert lines == init + [last];
      MenuIsShown(terminal, s, bottom, init);
      MenuParts(bottom, lines, n, row);
      RowIsDrawn(terminal, Shown(terminal, s, MenuTokens(bottom, init)), bottom + |lines|, last);
      MenuRowIsShown(terminal, s, bottom, lines, init, last, MenuTokens(bottom, init), row);
    }
  }

  lemma {:induction false} MenuRowIsShown(
    terminal: Terminal, s: Screen, bottom: nat, lines: seq<Line>, init: seq<Line>, last: Line,
    before: seq<Token>, row: seq<Token>)
    requires Conforms(terminal) && bottom + |lines| <= |s.rows| && lines == init + [last]
    requires MenuOn(s, Shown(terminal, s, before), bottom, init)
    requires OnRow(Shown(terminal, s, before), Shown(terminal, Shown(terminal, s, before), row), bottom + |lines|,
                   Glyphs(last, BAR))
    ensures MenuOn(s, Shown(terminal, s, before + row + [StyleToken(Bar)]), bottom, lines)
  {
    var t := Shown(terminal, s, before);
    var v := Shown(terminal, t, row);
    ShownConcat(terminal, s, before, row);
    ShownConcat(terminal, s, before + row, [StyleToken(Bar)]);
    ShownOne(terminal, v, StyleToken(Bar));
    OneMoreRow(s, t, v, Applied(v, StyleToken(Bar)), bottom, lines, init, last);
  }

  lemma {:induction false} MenuParts(bottom: nat, lines: seq<Line>, n: nat, row: seq<Token>)
    requires |lines| == n + 1 && row == MoveToRow(bottom + 1 + n) + LineTokens(lines[n])
    ensures MenuTokens(bottom, lines) == MenuTokens(bottom, lines[..n]) + row + [StyleToken(Bar)]
  {
    ConcatAssociates(MenuTokens(bottom, lines[..n]), MoveToRow(bottom + 1 + n), LineTokens(lines[n]));
  }

  /** u is t with the cursor kept, the region set if that is due, and the bar's colours on. */
  ghost predicate HeadOn(t: Screen, u: Screen, dirty: bool, bottom: nat) {
    && u == t.(saved := t.cursor, cursor := u.cursor, top := u.top, bottom := u.bottom)
    && u.cursor.style == BAR
    && (u.top, u.bottom) == if dirty && 2 <= bottom then (1, bottom) else (t.top, t.bottom)
  }

  lemma {:induction false} HeadIsShown(
    terminal: Terminal, s: Screen, reserved: int, claimed: int, dirty: bool, bottom: nat)
    requires Conforms(terminal)
    requires bottom < |s.rows|
    ensures HeadOn(Shown(terminal, s, ClaimRows(claimed, reserved)),
                   Shown(terminal, s, FrameHead(reserved, claimed, dirty, bottom)), dirty, bottom)
  {
    var claim := ClaimRows(claimed, reserved);
    var region := if dirty then [CSISequence("1;" + Decimal(bottom), 0x72)] else [];
    var t := Shown(terminal, s, claim);
    ShowingKeepsHeight(terminal, s, claim);
    ShownConcat(terminal, s, claim, [SAVE]);
    ShownOne(terminal, t, SAVE);
    ShownConcat(terminal, s, claim + [SAVE], region);
    ShownConcat(terminal, s, claim + [SAVE] + region, [StyleToken(Bar)]);
    RegionIsShown(terminal, Applied(t, SAVE), dirty, bottom, region);
    ShownOne(terminal, Shown(terminal, Applied(t, SAVE), region), StyleToken(Bar));
  }

  lemma {:induction false} RegionIsShown(terminal: Terminal, s: Screen, dirty: bool, bottom: nat, region: seq<Token>)
    requires Conforms(terminal)
    requires bottom < |s.rows| && region == if dirty then [CSISequence("1;" + Decimal(bottom), 0x72)] else []
    ensures var u := Shown(terminal, s, region);
            && u == s.(cursor := u.cursor, top := u.top, bottom := u.bottom)
            && (u.top, u.bottom) == if dirty && 2 <= bottom then (1, bottom) else (s.top, s.bottom)
  {
    if dirty {
      RegionIsRead(bottom);
      ShownOne(terminal, s, region[0]);
    }
  }

  lemma {:induction false} RegionIsRead(bottom: nat)
    ensures Ascii("1;" + Decimal(bottom)) != [] && Numbers(Ascii("1;" + Decimal(bottom)), 0) == [1, bottom]
  {
    var d := Ascii(Decimal(bottom));
    AsciiConcat("1;", Decimal(bottom));
    assert Ascii("1;") == [0x31, 0x3b];
    var p := [0x31, 0x3b] + d;
    assert p[1..] == [0x3b] + d && ([0x3b] + d)[1..] == d;
    assert Numbers(p, 0) == Numbers([0x3b] + d, 1);
    assert Numbers([0x3b] + d, 1) == [1] + Numbers(d, 0);
    DecimalIsRead(bottom, []);
    assert d + [] == d && Numbers([], bottom) == [bottom];
  }

  /** u is t with the footer on its last row, and the cursor back where it was kept. */
  ghost predicate FootOn(t: Screen, u: Screen, footer: Line) {
    |t.rows| > 0 && u == t.(rows := t.rows[|t.rows| - 1 := Glyphs(footer, t.cursor.style)], cursor := t.saved)
  }

  lemma {:induction false} FootIsShown(terminal: Terminal, s: Screen, rows: nat, footer: Line)
    requires Conforms(terminal)
    requires 1 <= rows == |s.rows|
    ensures FootOn(s, Shown(terminal, s, FrameFoot(rows, footer)), footer)
  {
    var row := MoveToRow(rows) + LineTokens(footer);
    RowIsDrawn(terminal, s, rows, footer);
    ShownConcat(terminal, s, row, [CSISequence("0", 0x6d), RESTORE]);
    ShownTwo(terminal, Shown(terminal, s, row), CSISequence("0", 0x6d), RESTORE);
  }

  /** What a frame for this layout makes of a screen: `t` is the screen with the rows claimed. */
  ghost predicate Framed(t: Screen, u: Screen, l: Layout, footer: Line) {
    var bottom := l.rows - ReservedBy(l);
    && |u.rows| == |t.rows| == l.rows && 0 <= bottom < l.rows
    && u.cursor == t.cursor
    && (u.top, u.bottom) == (if l.scrollRegionDirty && 2 <= bottom then (1, bottom) else (t.top, t.bottom))
    && u.rows[l.rows - 1] == Glyphs(footer, BAR)
    && (forall i :: 0 <= i < |l.menuLines| ==> u.rows[bottom + i] == Glyphs(l.menuLines[i], BAR))
    && (forall i :: 0 <= i < bottom ==> u.rows[i] == t.rows[i])
  }

  /** A frame without its footer. */
  ghost predicate Headed(t: Screen, u: Screen, l: Layout, bottom: nat) {
    && |u.rows| == |t.rows| && bottom + |l.menuLines| < |t.rows|
    && u.saved == t.cursor && u.cursor.style == BAR
    && (u.top, u.bottom) == (if l.scrollRegionDirty && 2 <= bottom then (1, bottom) else (t.top, t.bottom))
    && (forall i :: 0 <= i < |l.menuLines| ==> u.rows[bottom + i] == Glyphs(l.menuLines[i], BAR))
    && (forall i :: 0 <= i < bottom ==> u.rows[i] == t.rows[i])
  }

  lemma {:induction false} HeadThenMenu(t: Screen, head: Screen, u: Screen, l: Layout, bottom: nat)
    requires HeadOn(t, head, l.scrollRegionDirty, bottom) && MenuOn(head, u, bottom, l.menuLines)
    requires bottom + |l.menuLines| < |t.rows|
    ensures Headed(t, u, l, bottom)
  {
  }

  lemma {:induction false} HeadAndMenuAreShown(
    terminal: Terminal, s: Screen, l: Layout, reserved: nat, bottom: nat, head: seq<Token>, menu: seq<Token>)
    requires Conforms(terminal) && |s.rows| == l.rows == bottom + |l.menuLines| + 1
    requires head == FrameHead(reserved, l.reservedRowsClaimed, l.scrollRegionDirty, bottom)
    requires menu == MenuTokens(bottom, l.menuLines)
    ensures Headed(Shown(terminal, s, ClaimRows(l.reservedRowsClaimed, reserved)), Shown(terminal, s, head + menu),
                   l, bottom)
  {
    var claimed := Shown(terminal, s, ClaimRows(l.reservedRowsClaimed, reserved));
    ShowingKeepsHeight(terminal, s, ClaimRows(l.reservedRowsClaimed, reserved));
    HeadIsShown(terminal, s, reserved, l.reservedRowsClaimed, l.scrollRegionDirty, bottom);
    var t := Shown(terminal, s, head);
    MenuIsShown(terminal, t, bottom, l.menuLines);
    ShownConcat(terminal, s, head, menu);
    HeadThenMenu(claimed, t, Shown(terminal, t, menu), l, bottom);
  }

  lemma {:induction false} ThenFoot(t: Screen, u: Screen, v: Screen, l: Layout, footer: Line, bottom: nat)
    requires Headed(t, u, l, bottom) && FootOn(u, v, footer)
    requires |t.rows| == l.rows && bottom == l.rows - ReservedBy(l) && ReservedBy(l) == |l.menuLines| + 1
    ensures Framed(t, v, l, footer)
  {
  }

  /** A frame leaves the child's rows, its cursor and its colours as they were once the rows were claimed; shows
      the switcher's lines and the footer on the rows below; and, if that is due and there is room for two rows
      or more, sets the scrolling region to the child's rows. */
  lemma {:induction false} FrameIsShown(
    terminal: Terminal, s: Screen, l: Layout, footer: Line, claim: seq<Token>, tokens: seq<Token>)
    requires Conforms(terminal)
    requires StatusBarVisible(l.columns, l.rows) && |s.rows| == l.rows && ReservedBy(l) <= l.rows
    requires claim == ClaimRows(l.reservedRowsClaimed, ReservedBy(l)) && tokens == Tokens(FrameOf(l, footer))
    ensures Framed(Shown(terminal, s, claim), Shown(terminal, s, tokens), l, footer)
  {
    var bottom := l.rows - ReservedBy(l);
    var head := FrameHead(ReservedBy(l), l.reservedRowsClaimed, l.scrollRegionDirty, bottom);
    var menu, foot := MenuTokens(bottom, l.menuLines), FrameFoot(l.rows, footer);
    assert tokens == head + menu + foot;
    FootFollows(terminal, s, l, footer, bottom, head, menu, foot);
  }

  lemma {:induction false} FootFollows(
    terminal: Terminal, s: Screen, l: Layout, footer: Line, bottom: nat,
    head: seq<Token>, menu: seq<Token>, foot: seq<Token>)
    requires Conforms(terminal) && |s.rows| == l.rows && bottom == l.rows - ReservedBy(l)
    requires ReservedBy(l) == |l.menuLines| + 1
    requires head == FrameHead(ReservedBy(l), l.reservedRowsClaimed, l.scrollRegionDirty, bottom)
    requires menu == MenuTokens(bottom, l.menuLines) && foot == FrameFoot(l.rows, footer)
    ensures Framed(Shown(terminal, s, ClaimRows(l.reservedRowsClaimed, ReservedBy(l))),
                   Shown(terminal, s, head + menu + foot), l, footer)
  {
    var claimed := Shown(terminal, s, ClaimRows(l.reservedRowsClaimed, ReservedBy(l)));
    ShowingKeepsHeight(terminal, s, ClaimRows(l.reservedRowsClaimed, ReservedBy(l)));
    HeadAndMenuAreShown(terminal, s, l, ReservedBy(l), bottom, head, menu);
    FootIsShown(terminal, Shown(terminal, s, head + menu), l.rows, footer);
    ShownConcat(terminal, s, head + menu, foot);
    ThenFoot(claimed, Shown(terminal, s, head + menu), Shown(terminal, s, head + menu + foot), l, footer, bottom);
  }

  // ---- A wipe ----

  /** Wiping a row leaves every other row, the cursor and the colours alone, and gives the region the
      whole screen. A row below the screen is its last one. */
  lemma {:induction false} ClearIsShown(terminal: Terminal, s: Screen, row: nat)
    requires Conforms(terminal)
    requires 1 <= row && s.rows != []
    ensures Shown(terminal, s, Clear(row))
         == s.(rows := s.rows[Within(row, |s.rows|) - 1 := []], top := 1, bottom := |s.rows|, saved := s.cursor)
  {
    var start := [SAVE, CSISequence("", 0x72), CSISequence("0", 0x6d)];
    ShownFirst(terminal, s, start);
    assert start[1..] == [CSISequence("", 0x72), CSISequence("0", 0x6d)];
    assert Ascii("") == [];
    ShownTwo(terminal, Applied(s, SAVE), CSISequence("", 0x72), CSISequence("0", 0x6d));
    var t := Shown(terminal, s, start);
    RowIsWiped(terminal, t, row);
    ShownConcat(terminal, s, start, MoveToRow(row));
    ShownConcat(terminal, s, start + MoveToRow(row), [RESTORE]);
    ShownOne(terminal, Shown(terminal, t, MoveToRow(row)), RESTORE);
  }

  // ---- Claiming rows ----

  /** The rows up to `bottom` pushed up by n, the topmost leaving the screen. */
  function Pushed(rows: seq<seq<Glyph>>, bottom: nat, n: nat): seq<seq<Glyph>>
    requires n <= bottom <= |rows|
  {
    if n == 0 then rows else rows[n..bottom] + seq(n, _ => []) + rows[bottom..]
  }

  lemma {:induction false} PushedAt(rows: seq<seq<Glyph>>, bottom: nat, n: nat, i: nat)
    requires n <= bottom <= |rows| && i < |rows|
    ensures |Pushed(rows, bottom, n)| == |rows|
    ensures Pushed(rows, bottom, n)[i] == if i + n < bottom then rows[i + n] else if i < bottom then [] else rows[i]
  {
  }

  /** The cursor is on one of the rows above those claimed, which are the scrolling region. */
  predicate Claimable(s: Screen, claimed: nat, reserved: nat) {
    && claimed <= reserved < |s.rows|
    && s.top == 1 && s.bottom == |s.rows| - claimed && 1 <= s.cursor.row <= s.bottom
  }

  /** By how many rows claiming pushes the screen up. */
  function PushedBy(s: Screen, claimed: nat, reserved: nat): int {
    if reserved <= claimed then 0
    else if claimed > 0 then reserved - claimed
    else reserved - 1 + if s.cursor.row == |s.rows| then 1 else 0
  }

  lemma {:induction false} ScrollPushes(s: Screen, n: nat)
    requires s.top == 1 && n <= s.bottom <= |s.rows|
    ensures ScrolledUp(s, n) == s.(rows := Pushed(s.rows, s.bottom, n))
  {
    if n > 0 {
      assert s.rows[..0] + s.rows[0 + n..s.bottom] == s.rows[n..s.bottom];
    }
  }

  lemma {:induction false} PushedTwice(rows: seq<seq<Glyph>>, bottom: nat, m: nat, n: nat)
    requires m + n <= bottom <= |rows|
    ensures Pushed(Pushed(rows, bottom, m), bottom, n) == Pushed(rows, bottom, m + n)
  {
  }

  /** The first row: an index and one up, which scroll only from the last row. */
  lemma {:induction false} FirstRowIsClaimed(terminal: Terminal, s: Screen)
    requires Conforms(terminal)
    requires s.top == 1 && 2 <= s.bottom == |s.rows| && 1 <= s.cursor.row <= s.bottom
    ensures var n := if s.cursor.row == |s.rows| then 1 else 0;
            Shown(terminal, s, [Simple([], 0x44), CSISequence("", 0x41)])
            == s.(rows := Pushed(s.rows, s.bottom, n), cursor := s.cursor.(row := s.cursor.row - n))
  {
    assert Ascii("") == [];
    ShownTwo(terminal, s, Simple([], 0x44), CSISequence("", 0x41));
    var t := Applied(s, Simple([], 0x44));
    if s.cursor.row == |s.rows| {
      ScrollPushes(s, 1);
      assert t == s.(rows := Pushed(s.rows, s.bottom, 1));
    } else {
      ScrollPushes(s, 0);
      assert t == s.(cursor := s.cursor.(row := s.cursor.row + 1));
    }
    assert Applied(t, CSISequence("", 0x41)) == t.(cursor := t.cursor.(row := t.cursor.row - 1));
  }

  /** Further rows: scroll up and move up. */
  lemma {:induction false} MoreRowsAreClaimed(terminal: Terminal, s: Screen, n: nat)
    requires Conforms(terminal)
    requires s.top == 1 && 0 < n <= s.bottom <= |s.rows| && 1 <= s.cursor.row
    ensures Shown(terminal, s, [CSISequence(Decimal(n), 0x53), CSISequence(Decimal(n), 0x41)])
         == s.(rows := Pushed(s.rows, s.bottom, n),
               cursor := s.cursor.(row := if s.cursor.row > n then s.cursor.row - n else 1))
  {
    var p := Ascii(Decimal(n));
    DecimalIsRead(n, []);
    assert p + [] == p && p != [] && Numbers([], n) == [n];
    ShownTwo(terminal, s, CSISequence(Decimal(n), 0x53), CSISequence(Decimal(n), 0x41));
    ScrollPushes(s, n);
  }

  /** Claiming pushes the child's rows up by as many as are claimed, less one if the first claim finds the last
      row free; and takes the cursor along, but never above the first row. */
  lemma {:induction false} ClaimIsShown(terminal: Terminal, s: Screen, claimed: nat, reserved: nat)
    requires Conforms(terminal)
    requires Claimable(s, claimed, reserved)
    ensures var n := PushedBy(s, claimed, reserved);
            && 0 <= n <= s.bottom
            && Shown(terminal, s, ClaimRows(claimed, reserved))
               == s.(rows := Pushed(s.rows, s.bottom, n),
                     cursor := s.cursor.(row := if s.cursor.row > n then s.cursor.row - n else 1))
  {
    if reserved <= claimed {
      ScrollPushes(s, 0);
    } else if claimed > 0 {
      MoreRowsAreClaimed(terminal, s, reserved - claimed);
      assert [] + [CSISequence(Decimal(reserved - claimed), 0x53), CSISequence(Decimal(reserved - claimed), 0x41)]
          == [CSISequence(Decimal(reserved - claimed), 0x53), CSISequence(Decimal(reserved - claimed), 0x41)];
    } else {
      FirstClaimIsShown(terminal, s, reserved);
    }
  }

  lemma {:induction false} FirstClaimIsShown(terminal: Terminal, s: Screen, reserved: nat)
    requires Conforms(terminal)
    requires Claimable(s, 0, reserved) && reserved > 0
    ensures var n := PushedBy(s, 0, reserved);
            Shown(terminal, s, ClaimRows(0, reserved))
            == s.(rows := Pushed(s.rows, s.bottom, n),
                  cursor := s.cursor.(row := if s.cursor.row > n then s.cursor.row - n else 1))
  {
    var first := [Simple([], 0x44), CSISequence("", 0x41)];
    FirstRowIsClaimed(terminal, s);
    if reserved > 1 {
      var n := reserved - 1;
      var m := if s.cursor.row == |s.rows| then 1 else 0;
      var more := [CSISequence(Decimal(n), 0x53), CSISequence(Decimal(n), 0x41)];
      ShownConcat(terminal, s, first, more);
      MoreRowsAreClaimed(terminal, Shown(terminal, s, first), n);
      PushedTwice(s.rows, s.bottom, m, n);
    }
  }

  /** Whatever is on the screen, the line the cursor is on is still the cursor's once rows are claimed. */
  ghost predicate KeepsCursorLine(terminal: Terminal, s: Screen, claimed: nat, reserved: nat) {
    forall rows :: |rows| == |s.rows| ==>
      RowOf(Shown(terminal, s.(rows := rows), ClaimRows(claimed, reserved))) == RowOf(s.(rows := rows))
  }

  /** Whatever is on the screen, the rows claimed are blank when they are drawn on. */
  ghost predicate CoversNothing(terminal: Terminal, s: Screen, claimed: nat, reserved: nat) {
    forall rows: seq<seq<Glyph>>, i :: |rows| == |s.rows| && |rows| - reserved <= i < |rows| - claimed ==>
      RowAt(Shown(terminal, s.(rows := rows), ClaimRows(claimed, reserved)), i) == []
  }

  lemma {:induction false} CursorLineAfter(
    terminal: Terminal, s: Screen, claimed: nat, reserved: nat, rows: seq<seq<Glyph>>)
    requires Conforms(terminal)
    requires Claimable(s, claimed, reserved) && |rows| == |s.rows|
    ensures var n := PushedBy(s, claimed, reserved);
            && 0 <= n <= s.bottom
            && RowOf(Shown(terminal, s.(rows := rows), ClaimRows(claimed, reserved)))
               == if s.cursor.row > n then rows[s.cursor.row - 1] else Pushed(rows, s.bottom, n)[0]
  {
    var n := PushedBy(s, claimed, reserved);
    ClaimIsShown(terminal, s.(rows := rows), claimed, reserved);
    var u := Shown(terminal, s.(rows := rows), ClaimRows(claimed, reserved));
    assert u.rows == Pushed(rows, s.bottom, n);
    PushedAt(rows, s.bottom, n, u.cursor.row - 1);
  }

  /** A screen with something on one row only. */
  function Marking(height: nat, row: int): (rows: seq<seq<Glyph>>)
    requires 1 <= row <= height
    ensures |rows| == height && rows[row - 1] != []
    ensures forall i :: 0 <= i < height && i != row - 1 ==> rows[i] == []
  {
    seq(height, i => if i == row - 1 then [Glyph(0x2a, [])] else [])
  }

  lemma {:induction false} CursorIsAbove(terminal: Terminal, s: Screen, claimed: nat, reserved: nat)
    requires Conforms(terminal)
    requires Claimable(s, claimed, reserved)
    ensures 1 <= Shown(terminal, s, ClaimRows(claimed, reserved)).cursor.row <= |s.rows| - reserved
  {
    ClaimIsShown(terminal, s, claimed, reserved);
  }

  lemma {:induction false} CursorLineIsKept(terminal: Terminal, s: Screen, claimed: nat, reserved: nat)
    requires Conforms(terminal)
    requires Claimable(s, claimed, reserved) && s.cursor.row > PushedBy(s, claimed, reserved)
    ensures KeepsCursorLine(terminal, s, claimed, reserved)
  {
    forall rows | |rows| == |s.rows|
      ensures RowOf(Shown(terminal, s.(rows := rows), ClaimRows(claimed, reserved))) == RowOf(s.(rows := rows))
    {
      CursorLineAfter(terminal, s, claimed, reserved, rows);
    }
  }

  lemma {:induction false} CursorLineIsLost(terminal: Terminal, s: Screen, claimed: nat, reserved: nat)
    requires Conforms(terminal)
    requires Claimable(s, claimed, reserved) && s.cursor.row <= PushedBy(s, claimed, reserved)
    ensures !KeepsCursorLine(terminal, s, claimed, reserved)
  {
    var rows := Marking(|s.rows|, s.cursor.row);
    CursorLineAfter(terminal, s, claimed, reserved, rows);
    assert Pushed(rows, s.bottom, PushedBy(s, claimed, reserved))[0] == [];
    assert RowOf(s.(rows := rows)) != [];
  }

  /** Claiming rows never leaves the cursor on one of them. The line it was on stays with it exactly when there are
      more rows down to it than it is pushed up by, so not near the top of the screen. */
  lemma {:induction false} ClaimKeepsCursorLineIff(terminal: Terminal, s: Screen, claimed: nat, reserved: nat)
    requires Conforms(terminal)
    requires Claimable(s, claimed, reserved)
    ensures 1 <= Shown(terminal, s, ClaimRows(claimed, reserved)).cursor.row <= |s.rows| - reserved
    ensures KeepsCursorLine(terminal, s, claimed, reserved) <==> s.cursor.row > PushedBy(s, claimed, reserved)
  {
    CursorIsAbove(terminal, s, claimed, reserved);
    if s.cursor.row > PushedBy(s, claimed, reserved) {
      CursorLineIsKept(terminal, s, claimed, reserved);
    } else {
      CursorLineIsLost(terminal, s, claimed, reserved);
    }
  }

  lemma {:induction false} ClaimedRowAfter(
    terminal: Terminal, s: Screen, claimed: nat, reserved: nat, rows: seq<seq<Glyph>>, i: nat)
    requires Conforms(terminal)
    requires Claimable(s, claimed, reserved) && |rows| == |s.rows| && i < |rows|
    ensures var n := PushedBy(s, claimed, reserved);
            && 0 <= n <= s.bottom
            && RowAt(Shown(terminal, s.(rows := rows), ClaimRows(claimed, reserved)), i) == Pushed(rows, s.bottom, n)[i]
  {
    ClaimIsShown(terminal, s.(rows := rows), claimed, reserved);
  }

  /** Nothing of the child's is drawn over exactly unless the first claim finds the cursor above the last row:
      then what is on that row is covered. */
  lemma {:induction false} ClaimCoversNothingIff(terminal: Terminal, s: Screen, claimed: nat, reserved: nat)
    requires Conforms(terminal)
    requires Claimable(s, claimed, reserved) && claimed < reserved
    ensures CoversNothing(terminal, s, claimed, reserved) <==> claimed > 0 || s.cursor.row == |s.rows|
  {
    var n := PushedBy(s, claimed, reserved);
    if claimed == 0 && s.cursor.row < |s.rows| {
      var rows := Marking(|s.rows|, |s.rows|);
      ClaimedRowAfter(terminal, s, claimed, reserved, rows, |rows| - reserved);
      assert Pushed(rows, s.bottom, n)[|rows| - reserved] == rows[|rows| - 1];
      assert !CoversNothing(terminal, s, claimed, reserved);
    } else {
      forall rows, i | |rows| == |s.rows| && |rows| - reserved <= i < |rows| - claimed
        ensures RowAt(Shown(terminal, s.(rows := rows), ClaimRows(claimed, reserved)), i) == []
      {
        ClaimedRowAfter(terminal, s, claimed, reserved, rows, i);
      }
    }
  }

  // ---- What the bar draws ----

  /** The tokens drawn locally, the child's output left out. */
  function DrawnTokens(output: seq<Piece>): seq<Token>
    decreases |output|
  {
    if output == [] then []
    else
      var before := DrawnTokens(output[..|output| - 1]);
      match output[|output| - 1] case Local(d) => before + Tokens(d) case Child(_) => before
  }

  lemma {:induction false} DrawnSnoc(output: seq<Piece>, d: Drawing)
    ensures DrawnTokens(output + [Local(d)]) == DrawnTokens(output) + Tokens(d)
  {
    assert (output + [Local(d)])[..|output|] == output;
  }

  /** One of the rows, or what is nearest to it on a screen of this height. */
  ghost predicate Wiped(rows: seq<int>, height: nat, i: int) {
    exists k :: 0 <= k < |rows| && Within(rows[k], height) == i + 1
  }

  /** t is s with the rows wiped. */
  ghost predicate WipedOn(s: Screen, t: Screen, rows: seq<int>) {
    && |t.rows| == |s.rows| && t.cursor == s.cursor
    && (t.top, t.bottom) == (if rows == [] then (s.top, s.bottom) else (1, |s.rows|))
    && forall i :: 0 <= i < |s.rows| ==> t.rows[i] == if Wiped(rows, |s.rows|, i) then [] else s.rows[i]
  }

  lemma {:induction false} OneMoreWipe(s: Screen, t: Screen, u: Screen, rows: seq<int>, init: seq<int>, last: int)
    requires WipedOn(s, t, init) && rows == init + [last] && s.rows != []
    requires u == t.(rows := t.rows[Within(last, |t.rows|) - 1 := []], top := 1, bottom := |t.rows|, saved := u.saved)
    ensures WipedOn(s, u, rows)
  {
    forall i | 0 <= i < |s.rows|
      ensures Wiped(rows, |s.rows|, i) <==> Wiped(init, |s.rows|, i) || Within(last, |s.rows|) == i + 1
    {
      assert rows[|init|] == last;
      if Wiped(init, |s.rows|, i) {
        var k :| 0 <= k < |init| && Within(init[k], |s.rows|) == i + 1;
        assert rows[k] == init[k];
      }
    }
  }

  lemma {:induction false} OneMoreClear(
    terminal: Terminal, s: Screen, rows: seq<int>, init: seq<int>, last: int, before: seq<Token>)
    requires Conforms(terminal) && s.rows != [] && last >= 1 && rows == init + [last]
    requires WipedOn(s, Shown(terminal, s, before), init)
    ensures WipedOn(s, Shown(terminal, s, before + Clear(last)), rows)
  {
    var t := Shown(terminal, s, before);
    ShownConcat(terminal, s, before, Clear(last));
    ClearIsShown(terminal, t, last);
    OneMoreWipe(s, t, Shown(terminal, t, Clear(last)), rows, init, last);
  }

  lemma {:induction false} ClearsAreShown(terminal: Terminal, s: Screen, rows: seq<int>)
    requires Conforms(terminal) && s.rows != [] && forall k :: 0 <= k < |rows| ==> rows[k] >= 1
    ensures WipedOn(s, Shown(terminal, s, DrawnTokens(Clears(rows))), rows)
    decreases |rows|
  {
    if rows != [] {
      var init, last := rows[..|rows| - 1], rows[|rows| - 1];
      ClearsAreShown(terminal, s, init);
      OneMoreClear(terminal, s, rows, init, last, DrawnTokens(Clears(init)));
      DrawnSnoc(Clears(init), ClearRow(last));
    }
  }

  lemma {:induction false} WrittenTokens(l: Layout, footer: Line)
    requires StatusBarVisible(l.columns, l.rows)
    ensures DrawnTokens(Written(l, footer))
         == DrawnTokens(Clears(l.pendingClearRows)) + Tokens(FrameOf(l.(pendingClearRows := []), footer))
  {
    DrawnSnoc(Clears(l.pendingClearRows), FrameOf(l.(pendingClearRows := []), footer));
  }

  /** Room for the bar, and the rows to be wiped are rows. */
  ghost predicate Fits(s: Screen, l: Layout) {
    && StatusBarVisible(l.columns, l.rows) && |s.rows| == l.rows && ReservedBy(l) <= l.rows
    && forall k :: 0 <= k < |l.pendingClearRows| ==> l.pendingClearRows[k] >= 1
  }

  lemma {:induction false} FrameAfterWipes(
    terminal: Terminal, s: Screen, l: Layout, footer: Line, claim: seq<Token>, wipes: seq<Token>, frame: seq<Token>)
    requires Conforms(terminal) && Fits(s, l)
    requires claim == ClaimRows(l.reservedRowsClaimed, ReservedBy(l)) && frame == Tokens(FrameOf(l, footer))
    ensures Framed(Shown(terminal, Shown(terminal, s, wipes), claim), Shown(terminal, s, wipes + frame), l, footer)
  {
    ShowingKeepsHeight(terminal, s, wipes);
    ShownConcat(terminal, s, wipes, frame);
    FrameIsShown(terminal, Shown(terminal, s, wipes), l, footer, claim, frame);
  }

  lemma {:induction false} QueueDoesNotMatter(t: Screen, u: Screen, l: Layout, cleared: Layout, footer: Line)
    requires cleared == l.(pendingClearRows := []) && Framed(t, u, cleared, footer)
    ensures Framed(t, u, l, footer)
  {
  }

  /** What drawing a layout does: the released rows are wiped, rows are claimed, and the frame is drawn. */
  lemma {:induction false} RenderIsShown(
    terminal: Terminal, s: Screen, l: Layout, footer: Line, claim: seq<Token>, wipes: seq<Token>, drawn: seq<Token>)
    requires Conforms(terminal) && Fits(s, l)
    requires claim == ClaimRows(l.reservedRowsClaimed, ReservedBy(l))
    requires wipes == DrawnTokens(Clears(l.pendingClearRows)) && drawn == DrawnTokens(Written(l, footer))
    ensures WipedOn(s, Shown(terminal, s, wipes), l.pendingClearRows)
    ensures Framed(Shown(terminal, Shown(terminal, s, wipes), claim), Shown(terminal, s, drawn), l, footer)
  {
    ClearsAreShown(terminal, s, l.pendingClearRows);
    WrittenTokens(l, footer);
    var cleared := l.(pendingClearRows := []);
    FrameAfterWipes(terminal, s, cleared, footer, claim, wipes, Tokens(FrameOf(cleared, footer)));
    QueueDoesNotMatter(Shown(terminal, Shown(terminal, s, wipes), claim), Shown(terminal, s, drawn),
                       l, cleared, footer);
  }

  lemma {:induction false} FooterIsShown(terminal: Terminal, s: Screen, l: Layout, footer: Line, drawn: seq<Token>)
    requires Conforms(terminal) && Fits(s, l) && drawn == DrawnTokens(Written(l, footer))
    ensures RowAt(Shown(terminal, s, drawn), l.rows - 1) == Glyphs(footer, BAR)
  {
    RenderIsShown(terminal, s, l, footer, ClaimRows(l.reservedRowsClaimed, ReservedBy(l)),
                  DrawnTokens(Clears(l.pendingClearRows)), drawn);
  }

  /** What every layout satisfies: rows wait to be wiped, or fewer are claimed than needed, only while the
      region is to be set anyway. */
  predicate LayoutOk(l: Layout) {
    && (l.pendingClearRows != [] ==> l.scrollRegionDirty)
    && (!l.scrollRegionDirty ==> l.reservedRowsClaimed >= ReservedBy(l))
  }

  lemma {:induction false} LayoutOkIsKept(
    l: Layout, columns: int, rows: int, lines: seq<Line>, resets: bool, content: Content)
    requires LayoutOk(l)
    ensures LayoutOk(Layout(columns, rows, [], true, 0, true, []))
    ensures LayoutOk(Resized(l, columns, rows)) && LayoutOk(WithMenu(l, lines)) && LayoutOk(Marked(l, resets))
    ensures LayoutOk(l.(renderPending := true)) && LayoutOk(Drawn(l))
  {
  }

  /** The scrolling region is the rows above the bar's. */
  ghost predicate RegionIsChilds(s: Screen, l: Layout) {
    s.top == 1 && forall r :: 1 <= r <= l.rows ==> (r <= s.bottom <==> !Occupies(l, r))
  }

  /** Whenever a layout is drawn, the region is the child's rows afterwards: because it was and nothing has changed,
      or because it is set anew, whatever the child has made of it. Two rows or more have to be left for it. */
  lemma {:induction false} RegionIsRight(terminal: Terminal, s: Screen, l: Layout, footer: Line, drawn: seq<Token>)
    requires Conforms(terminal) && LayoutOk(l) && Fits(s, l) && ReservedBy(l) + 2 <= l.rows
    requires l.scrollRegionDirty || RegionIsChilds(s, l)
    requires drawn == DrawnTokens(Written(l, footer))
    ensures RegionIsChilds(Shown(terminal, s, drawn), l)
  {
    var claim := ClaimRows(l.reservedRowsClaimed, ReservedBy(l));
    var wipes := DrawnTokens(Clears(l.pendingClearRows));
    RenderIsShown(terminal, s, l, footer, claim, wipes, drawn);
    if !l.scrollRegionDirty {
      assert claim == [] && wipes == [];
    }
  }

  /** What the child undoes is repaired by the next drawing: once a write has shown a reset, the bar is due, and
      drawing it sets the region and shows the footer, whatever is on the screen. */
  lemma {:induction false} ResetIsRepaired(
    terminal: Terminal, s: Screen, l: Layout, marked: Layout, footer: Line, drawn: seq<Token>)
    requires Conforms(terminal) && LayoutOk(l) && marked == Marked(l, true)
    requires Fits(s, marked) && ReservedBy(marked) + 2 <= marked.rows
    requires drawn == DrawnTokens(Written(marked, footer))
    ensures Due(marked, false, true)
    ensures RegionIsChilds(Shown(terminal, s, drawn), marked)
    ensures RowAt(Shown(terminal, s, drawn), marked.rows - 1) == Glyphs(footer, BAR)
  {
    FooterIsShown(terminal, s, marked, footer, drawn);
    RegionIsRight(terminal, s, marked, footer, drawn);
  }

  /** A new size is to be drawn at once, and the row that was the footer's wiped. */
  lemma {:induction false} ResizedIsDue(l: Layout, columns: int, rows: int)
    ensures Due(Resized(l, columns, rows), false, true)
    ensures l.columns >= 40 && l.rows >= 4 ==> l.rows in Resized(l, columns, rows).pendingClearRows
    ensures ReservedBy(Resized(l, columns, rows)) == 0 <==> columns < 40 || rows < 4
  {
  }

  lemma {:induction false} ResizedShowsFooter(
    terminal: Terminal, s: Screen, l: Layout, columns: int, rows: int, resized: Layout, footer: Line,
    drawn: seq<Token>)
    requires Conforms(terminal) && resized == Resized(l, columns, rows) && Fits(s, resized)
    requires drawn == DrawnTokens(Written(resized, footer))
    ensures RowAt(Shown(terminal, s, drawn), rows - 1) == Glyphs(footer, BAR)
  {
    FooterIsShown(terminal, s, resized, footer, drawn);
  }

  /** A terminal of another size, if it is large enough, has the footer on its new last row, in every column but
      the new last one. */
  lemma {:induction false} ResizedFooterFits(
    terminal: Terminal, s: Screen, l: Layout, columns: int, rows: int, resized: Layout, content: Content,
    footer: Line, drawn: seq<Token>)
    requires Conforms(terminal) && columns >= 40 && rows >= 4
    requires resized == Resized(l, columns, rows) && Fits(s, resized)
    requires footer == FooterLine(columns, content, l.menuLines != [])
    requires drawn == DrawnTokens(Written(resized, footer))
    ensures FooterOf(resized, content) == footer
    ensures RowAt(Shown(terminal, s, drawn), rows - 1) == Glyphs(footer, BAR)
    ensures |Glyphs(footer, BAR)| == columns - 1
  {
    ResizedShowsFooter(terminal, s, l, columns, rows, resized, footer, drawn);
    FooterIsAsWide(columns, content, l.menuLines != [], footer);
  }

  lemma {:induction false} FooterIsAsWide(columns: int, content: Content, menuOpen: bool, footer: Line)
    requires columns >= 40 && footer == FooterLine(columns, content, menuOpen)
    ensures |Glyphs(footer, BAR)| == columns - 1
  {
    GlyphsAreVisible(footer, BAR);
    FooterFillsTheRow(columns, content, menuOpen);
  }

  /** A terminal that becomes too small releases every row and closes the switcher; grown back, it has the footer's
      row to claim anew and to set the region for. */
  lemma {:induction false} TooSmallReleases(l: Layout, columns: int, rows: int, wider: int, taller: int)
    requires columns < 40 || rows < 4
    requires wider >= 40 && taller >= 4
    ensures var grown := Resized(Resized(l, columns, rows), wider, taller);
            ReservedBy(grown) == 1 && grown.reservedRowsClaimed == 0 && grown.scrollRegionDirty
  {
  }

  /** The switcher's rows are what it was given last. Only if there are fewer than before is anything given back;
      and a change is to be drawn at once. */
  lemma {:induction false} SwitcherIsReplaced(l: Layout, lines: seq<Line>)
    ensures WithMenu(l, lines).menuLines == lines && WithMenu(l, lines).rows == l.rows
    ensures lines != [] || l.menuLines != [] ==> Due(WithMenu(l, lines), false, true)
    ensures |lines| >= |l.menuLines| ==>
              WithMenu(l, lines).pendingClearRows == l.pendingClearRows
              && WithMenu(l, lines).reservedRowsClaimed == l.reservedRowsClaimed
  {
  }

  lemma {:induction false} MenuRowsAreShown(
    terminal: Terminal, s: Screen, l: Layout, lines: seq<Line>, footer: Line, drawn: seq<Token>)
    requires Conforms(terminal) && Fits(s, l) && l.menuLines == lines && drawn == DrawnTokens(Written(l, footer))
    ensures forall i :: 0 <= i < |lines| ==>
              RowAt(Shown(terminal, s, drawn), l.rows - 1 - |lines| + i) == Glyphs(lines[i], BAR)
  {
    RenderIsShown(terminal, s, l, footer, ClaimRows(l.reservedRowsClaimed, ReservedBy(l)),
                  DrawnTokens(Clears(l.pendingClearRows)), drawn);
  }

  /** And then they are on the screen, right above the footer. */
  lemma {:induction false} SwitcherIsShown(
    terminal: Terminal, s: Screen, l: Layout, lines: seq<Line>, changed: Layout, footer: Line, drawn: seq<Token>)
    requires Conforms(terminal) && changed == WithMenu(l, lines) && Fits(s, changed)
    requires drawn == DrawnTokens(Written(changed, footer))
    ensures forall i :: 0 <= i < |lines| ==>
              RowAt(Shown(terminal, s, drawn), changed.rows - 1 - |lines| + i) == Glyphs(lines[i], BAR)
  {
    SwitcherIsReplaced(l, lines);
    MenuRowsAreShown(terminal, s, changed, lines, footer, drawn);
  }

  /** A plain redraw touches nothing of the child's: no row, not the cursor or its colours, and not the scrolling
      region, which the child may have set as it likes. */
  lemma {:induction false} RedrawTouchesNothing(
    terminal: Terminal, s: Screen, l: Layout, again: Layout, footer: Line, drawn: seq<Token>)
    requires Conforms(terminal) && again == Drawn(l).(renderPending := true) && Fits(s, again)
    requires drawn == DrawnTokens(Written(again, footer))
    ensures var t := Shown(terminal, s, drawn);
            && t.cursor == s.cursor && t.top == s.top && t.bottom == s.bottom
            && forall i :: 0 <= i < l.rows - ReservedBy(l) ==> RowAt(t, i) == RowAt(s, i)
  {
    var claim, wipes := ClaimRows(again.reservedRowsClaimed, ReservedBy(again)), DrawnTokens(Clears([]));
    assert claim == [] && wipes == [];
    RenderIsShown(terminal, s, again, footer, claim, wipes, drawn);
  }

  /** Closing wipes the rows the bar occupies, and no other. */
  lemma {:induction false} ClosingWipes(terminal: Terminal, s: Screen, l: Layout, wipes: seq<Token>)
    requires Conforms(terminal) && |s.rows| == l.rows && 0 < ReservedBy(l) <= l.rows
    requires wipes == DrawnTokens(Clears(Footprint(l)))
    ensures forall i :: 0 <= i < l.rows ==>
              RowAt(Shown(terminal, s, wipes), i) == if Occupies(l, i + 1) then [] else s.rows[i]
  {
    var rows := Footprint(l);
    ClearsAreShown(terminal, s, rows);
    forall i | 0 <= i < l.rows ensures Wiped(rows, |s.rows|, i) <==> Occupies(l, i + 1) {
      if Occupies(l, i + 1) {
        assert rows[l.rows - (i + 1)] == i + 1;
      }
    }
  }

  /** What has been drawn is not drawn again until something changes. */
  lemma {:induction false} DrawnOnce(l: Layout, closed: bool, safe: bool)
    ensures !Due(Drawn(l), closed, safe)
  {
  }

  // ---- The bytes themselves ----

  /** A control sequence is written in its seven-bit form: ESC, a bracket, the parameters, the final byte. */
  lemma {:induction false} SequenceIsWritten(parameters: string, final: char)
    requires final < '\U{80}'
    ensures Code(CSISequence(parameters, final as int as byte)) == Ascii("\U{1b}[" + parameters + [final])
  {
    AsciiConcat("\U{1b}[", parameters);
    AsciiConcat("\U{1b}[" + parameters, [final]);
    assert Ascii("\U{1b}[") == [0x1b, 0x5b] && Ascii([final]) == [final as int as byte];
  }

  lemma {:induction false} StreamConcat(a: seq<Token>, b: seq<Token>)
    ensures Stream(a + b) == Stream(a) + Stream(b)
    decreases |a|
  {
    if a == [] {
      assert a + b == b;
    } else {
      assert (a + b)[1..] == a[1..] + b;
      StreamConcat(a[1..], b);
      ConcatAssociates(Code(a[0]), Stream(a[1..]), Stream(b));
    }
  }

  lemma {:induction false} StreamOne(t: Token)
    ensures Stream([t]) == Code(t)
  {
    assert [t][1..] == [];
  }

  lemma {:induction false} StreamTwo(t: Token, u: Token)
    ensures Stream([t, u]) == Code(t) + Code(u)
  {
    assert [t] + [u] == [t, u];
    StreamConcat([t], [u]);
    StreamOne(t);
    StreamOne(u);
  }

  lemma {:induction false} MoveIsWritten(row: int)
    ensures Stream(MoveToRow(row)) == Ascii("\U{1b}[" + Decimal(row) + ";1H" + "\U{1b}[2K")
  {
    SequenceIsWritten(Decimal(row) + ";1", 'H');
    SequenceIsWritten("2", 'K');
    StreamTwo(CSISequence(Decimal(row) + ";1", 0x48), CSISequence("2", 0x4b));
    assert "\U{1b}[" + (Decimal(row) + ";1") + "H" == "\U{1b}[" + Decimal(row) + ";1H";
    assert "\U{1b}[" + "2" + "K" == "\U{1b}[2K";
    AsciiConcat("\U{1b}[" + Decimal(row) + ";1H", "\U{1b}[2K");
  }

  lemma {:induction false} WipeStart()
    ensures Stream([SAVE, CSISequence("", 0x72), CSISequence("0", 0x6d)]) == Ascii("\U{1b}7\U{1b}[r\U{1b}[0m")
  {
    SequenceIsWritten("", 'r');
    SequenceIsWritten("0", 'm');
    assert [SAVE] + [CSISequence("", 0x72), CSISequence("0", 0x6d)]
        == [SAVE, CSISequence("", 0x72), CSISequence("0", 0x6d)];
    StreamConcat([SAVE], [CSISequence("", 0x72), CSISequence("0", 0x6d)]);
    StreamOne(SAVE);
    StreamTwo(CSISequence("", 0x72), CSISequence("0", 0x6d));
    assert Ascii("\U{1b}7\U{1b}[r\U{1b}[0m") == [0x1b, 0x37, 0x1b, 0x5b, 0x72, 0x1b, 0x5b, 0x30, 0x6d];
  }

  /** A wipe, byte for byte: keep the cursor, the whole screen as the region, plain colours, to the row, clear it,
      back to the cursor. */
  lemma {:induction false} ClearIsWritten(row: int)
    ensures Stream(Clear(row))
         == Ascii("\U{1b}7\U{1b}[r\U{1b}[0m" + ("\U{1b}[" + Decimal(row) + ";1H" + "\U{1b}[2K") + "\U{1b}8")
  {
    var start := [SAVE, CSISequence("", 0x72), CSISequence("0", 0x6d)];
    var text := "\U{1b}[" + Decimal(row) + ";1H" + "\U{1b}[2K";
    WipeStart();
    MoveIsWritten(row);
    StreamConcat(start, MoveToRow(row));
    StreamConcat(start + MoveToRow(row), [RESTORE]);
    StreamOne(RESTORE);
    assert Ascii("\U{1b}8") == [0x1b, 0x38];
    AsciiConcat("\U{1b}7\U{1b}[r\U{1b}[0m", text);
    AsciiConcat("\U{1b}7\U{1b}[r\U{1b}[0m" + text, "\U{1b}8");
  }

  /** Renditions as numbers: every style starts from the plain one and takes a colour of the 256, asking for input
      is bold, and a held prefix is reversed. */
  function Renditions(style: Style): seq<nat> {
    match style
    case Bar => [0, 38, 5, 75]
    case NeedsInput => [0, 1, 38, 5, 214]
    case Failed => [0, 38, 5, 203]
    case PrefixArmed => [0, 7, 38, 5, 75]
    case Completed => [0, 38, 5, 114]
    case Dim => [0, 38, 5, 245]
  }

  lemma {:induction false} SmallDigits()
    ensures Digits(75) == "75" && Digits(114) == "114" && Digits(203) == "203" && Digits(214) == "214"
    ensures Digits(245) == "245"
  {
    assert Digits(11) == "11" && Digits(20) == "20" && Digits(21) == "21" && Digits(24) == "24";
  }

  /** One number after another. */
  lemma {:induction false} FieldIsRead(d: byte, rest: seq<byte>)
    requires 0x30 <= d <= 0x39
    ensures Numbers([d, 0x3b] + rest, 0) == [d as int - 0x30] + Numbers(rest, 0)
  {
    assert ([d, 0x3b] + rest)[1..] == [0x3b] + rest && ([0x3b] + rest)[1..] == rest;
  }

  const COLOUR: seq<byte> := [0x33, 0x38, 0x3b, 0x35, 0x3b]

  lemma {:induction false} ColourIsRead(n: nat)
    ensures Numbers(COLOUR + Ascii(Digits(n)), 0) == [38, 5, n]
  {
    var d := Ascii(Digits(n));
    var tail := [0x35, 0x3b] + d;
    DigitsAreRead(n, []);
    assert d + [] == d;
    FieldIsRead(0x35, d);
    assert COLOUR + d == [0x33] + ([0x38] + ([0x3b] + tail));
    DigitIsRead(0x33, [0x38] + ([0x3b] + tail), 0);
    DigitIsRead(0x38, [0x3b] + tail, 3);
    assert ([0x3b] + tail)[1..] == tail;
    assert [38] + ([5] + [n]) == [38, 5, n];
  }

  /** A style without an attribute. */
  lemma {:induction false} ColourTextIsRead(n: nat, digits: string)
    requires digits == Digits(n)
    ensures Numbers(Ascii("0;38;5;" + digits), 0) == [0, 38, 5, n]
  {
    ColourIsRead(n);
    FieldIsRead(0x30, COLOUR + Ascii(digits));
    assert Ascii("0;38;5;") == [0x30, 0x3b] + COLOUR;
    AsciiConcat("0;38;5;", digits);
    ConcatAssociates([0x30, 0x3b], COLOUR, Ascii(digits));
  }

  lemma {:induction false} AttributeText(a: byte, attribute: string)
    requires Ascii(attribute) == [a]
    ensures Ascii("0;" + attribute + ";38;5;") == [0x30, 0x3b] + ([a, 0x3b] + COLOUR)
  {
    AsciiConcat("0;", attribute);
    AsciiConcat("0;" + attribute, ";38;5;");
    assert Ascii("0;") == [0x30, 0x3b] && Ascii(";38;5;") == [0x3b] + COLOUR;
  }

  /** And one with. */
  lemma {:induction false} StyleTextIsRead(n: nat, digits: string, a: byte, attribute: string)
    requires digits == Digits(n) && 0x31 <= a <= 0x39 && Ascii(attribute) == [a]
    ensures Numbers(Ascii("0;" + attribute + ";38;5;" + digits), 0) == [0, a as int - 0x30, 38, 5, n]
  {
    var d := Ascii(digits);
    ColourIsRead(n);
    FieldIsRead(a, COLOUR + d);
    FieldIsRead(0x30, [a, 0x3b] + (COLOUR + d));
    AttributeText(a, attribute);
    AsciiConcat("0;" + attribute + ";38;5;", digits);
    ConcatAssociates([a, 0x3b], COLOUR, d);
    ConcatAssociates([0x30, 0x3b], [a, 0x3b] + COLOUR, d);
  }

  lemma {:induction false} ColouredStyleIsRead(style: Style)
    requires style != NeedsInput && style != PrefixArmed
    ensures Numbers(Ascii(StyleParameters(style)), 0) == Renditions(style)
  {
    SmallDigits();
    match style {
      case Bar => ColourTextIsRead(75, "75"); assert "0;38;5;" + "75" == "0;38;5;75";
      case Failed => ColourTextIsRead(203, "203"); assert "0;38;5;" + "203" == "0;38;5;203";
      case Completed => ColourTextIsRead(114, "114"); assert "0;38;5;" + "114" == "0;38;5;114";
      case Dim => ColourTextIsRead(245, "245"); assert "0;38;5;" + "245" == "0;38;5;245";
    }
  }

  lemma {:induction false} AttributedStyleIsRead(style: Style)
    requires style == NeedsInput || style == PrefixArmed
    ensures Numbers(Ascii(StyleParameters(style)), 0) == Renditions(style)
  {
    SmallDigits();
    assert Ascii("1") == [0x31] && Ascii("7") == [0x37];
    if style == NeedsInput {
      StyleTextIsRead(214, "214", 0x31, "1");
      assert "0;" + "1" + ";38;5;" + "214" == "0;1;38;5;214";
    } else {
      StyleTextIsRead(75, "75", 0x37, "7");
      assert "0;" + "7" + ";38;5;" + "75" == "0;7;38;5;75";
    }
  }

  /** The parameters of a style are read back as those numbers. */
  lemma {:induction false} StyleIsRead(style: Style)
    ensures Numbers(Ascii(StyleParameters(style)), 0) == Renditions(style)
  {
    if style == NeedsInput || style == PrefixArmed {
      AttributedStyleIsRead(style);
    } else {
      ColouredStyleIsRead(style);
    }
  }
}
