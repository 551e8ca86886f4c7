/** Fitting the footer to the terminal (internal/server/status_bar_content.go). A line is the
    runes it shows and the style changes between them. */
module Footer {
  import opened Sequences

  /** The footer's own styles, and those only the switcher's rows use. */
  datatype Style = Bar | NeedsInput | Failed | PrefixArmed | Completed | Dim

  datatype Cell = Rune(c: char) | Paint(style: Style)

  type Line = seq<Cell>

  function Text(s: string): (line: Line)
    ensures |line| == |s|
  {
    seq(|s|, i requires 0 <= i < |s| => Rune(s[i]))
  }

  /** How many columns a line shows. */
  function Visible(line: Line): nat {
    if line == [] then 0 else (if line[0].Rune? then 1 else 0) + Visible(line[1..])
  }

  lemma {:induction false} VisibleConcat(a: Line, b: Line)
    ensures Visible(a + b) == Visible(a) + Visible(b)
  {
    if a == [] {
      assert a + b == b;
    } else {
      assert (a + b)[1..] == a[1..] + b;
      VisibleConcat(a[1..], b);
    }
  }

  lemma {:induction false} VisibleText(s: string)
    ensures Visible(Text(s)) == |s|
  {
    if s != [] {
      assert Text(s)[1..] == Text(s[1..]);
      VisibleText(s[1..]);
    }
  }

  // ---- Labels ----

  /** unicode.IsControl */
  predicate IsControl(c: char) {
    c < ' ' || '\U{7f}' <= c < '\U{a0}'
  }

  /** unicode.IsSpace, for characters that are not controls. */
  predicate IsSpace(c: char) {
    || c == ' ' || c == '\U{a0}' || c == '\U{1680}' || '\U{2000}' <= c <= '\U{200a}'
    || c == '\U{2028}' || c == '\U{2029}' || c == '\U{202f}' || c == '\U{205f}' || c == '\U{3000}'
  }

  /** strings.TrimSpace */
  function Trimmed(s: string): string
    decreases |s|
  {
    if s == [] then []
    else if IsBlank(s[0]) then Trimmed(s[1..])
    else if IsBlank(s[|s| - 1]) then Trimmed(s[..|s| - 1])
    else s
  }

  /** unicode.IsSpace */
  predicate IsBlank(c: char) {
    IsSpace(c) || '\t' <= c <= '\r' || c == '\U{85}'
  }

  function WithoutControls(s: string): (r: string)
    ensures forall k :: 0 <= k < |r| ==> !IsControl(r[k])
  {
    if s == [] then [] else (if IsControl(s[0]) then [] else [s[0]]) + WithoutControls(s[1..])
  }

  /** strings.Join(strings.Fields(s), " "); `gap` says a separator is due before the next field. */
  function JoinedFields(s: string, started: bool, gap: bool): (r: string)
    requires forall k :: 0 <= k < |s| ==> !IsControl(s[k])
    ensures forall k :: 0 <= k < |r| ==> !IsControl(r[k])
  {
    if s == [] then []
    else if IsSpace(s[0]) then JoinedFields(s[1..], started, true)
    else (if started && gap then " " else "") + [s[0]] + JoinedFields(s[1..], true, false)
  }

  function CleanStatusLabel(s: string): (r: string)
    ensures r != "" && forall k :: 0 <= k < |r| ==> !IsControl(r[k])
  {
    var joined := JoinedFields(WithoutControls(s), false, false);
    if joined == "" then "session" else joined
  }

  function Digits(n: nat): (s: string)
    ensures s != "" && forall k :: 0 <= k < |s| ==> '0' <= s[k] <= '9'
  {
    (if n < 10 then "" else Digits(n / 10)) + ['0' + (n % 10) as char]
  }

  // ---- Content ----

  datatype Content = Content(
    title: string, agent: string, permissionMode: string, attachedClients: nat,
    notificationsMuted: bool, supportsNotifications: bool,
    otherSessions: nat, othersNeedingInput: nat, othersFailed: nat,
    prefixName: string, prefixArmed: bool, sessionNumber: nat, sessionCount: nat)

  datatype Segment = Segment(text: string, style: Option<Style>)

  function HintPrefix(content: Content): string {
    if content.sessionCount > 1 && content.sessionNumber > 0
    then content.prefixName + " [" + Digits(content.sessionNumber) + "]"
    else content.prefixName
  }

  function HintForms(content: Content): seq<string> {
    if content.prefixName == "" then []
    else
      var prefix := HintPrefix(content);
      [prefix + " \U{2191} sessions", prefix + " \U{2191}", prefix]
  }

  /** The reminder forms in play: only the shortest while the switcher explains its own keys. */
  function Hints(content: Content, menuOpen: bool): seq<string> {
    var forms := HintForms(content);
    if menuOpen && forms != [] then forms[|forms| - 1..] else forms
  }

  function RenderHint(content: Content, hint: string): Line {
    if !content.prefixArmed then Text(hint)
    else
      var rest := if content.prefixName <= hint then hint[|content.prefixName|..] else hint;
      [Paint(PrefixArmed)] + Text(content.prefixName) + [Paint(Bar)] + Text(rest)
  }

  predicate Plain(s: string) {
    forall k :: 0 <= k < |s| ==> !IsControl(s[k])
  }

  ghost predicate PlainSegments(segments: seq<Segment>) {
    forall k :: 0 <= k < |segments| ==> Plain(segments[k].text)
  }

  function Optional(shown: bool, text: string, style: Option<Style>): (r: seq<Segment>)
    ensures Plain(text) ==> PlainSegments(r)
  {
    if shown then [Segment(text, style)] else []
  }

  function AttentionSummary(content: Content): (r: seq<Segment>)
    ensures PlainSegments(r)
  {
    if content.othersNeedingInput > 0 then
      Optional(true, Digits(content.othersNeedingInput) + " needs input", Some(NeedsInput))
    else if content.othersFailed > 0 then
      Optional(true, Digits(content.othersFailed) + " failed", Some(Failed))
    else
      Optional(content.otherSessions > 0, Digits(content.otherSessions) + " others", None)
  }

  function Watching(content: Content): (r: seq<Segment>)
    ensures PlainSegments(r)
  {
    if content.attachedClients > 1 then
      Optional(true, "+" + Digits(content.attachedClients - 1) + " watching", None)
    else []
  }

  function Named(content: Content): (r: seq<Segment>)
    ensures PlainSegments(r)
  {
    Optional(content.title != "", CleanStatusLabel(content.title), None)
    + Optional(content.agent != "" && content.agent != "shell", CleanStatusLabel(content.agent), None)
  }

  function Mode(content: Content): (r: seq<Segment>)
    ensures PlainSegments(r)
  {
    Optional(Trimmed(content.permissionMode) == "full_access", "full access", Some(NeedsInput))
  }

  function Muted(content: Content): (r: seq<Segment>)
    ensures PlainSegments(r)
  {
    Optional(content.supportsNotifications && content.notificationsMuted, "muted", None)
  }

  /** The droppable segments, least useful first, and the kept ones. */
  function Segments(content: Content): (seq<Segment>, seq<Segment>) {
    (Watching(content) + Named(content) + Mode(content), Muted(content) + AttentionSummary(content))
  }

  // ---- Rendering ----

  const MARK: string := "\U{2500} Falkn"
  const DOT: string := " \U{b7} "
  const RULE: char := '\U{2500}'

  function Width(segments: seq<Segment>): nat {
    if segments == [] then |MARK|
    else Width(segments[..|segments| - 1]) + |DOT| + |segments[|segments| - 1].text|
  }

  method FooterVisibleWidth(segments: seq<Segment>) returns (width: nat)
    ensures width == Width(segments)
  {
    width := |MARK|;
    for i := 0 to |segments|
      invariant width == Width(segments[..i])
    {
      assert segments[..i + 1][..i] == segments[..i];
      width := width + |DOT| + |segments[i].text|;
    }
    assert segments[..|segments|] == segments;
  }

  function Rendered(segments: seq<Segment>): Line {
    if segments == [] then Text(MARK)
    else
      var last := segments[|segments| - 1];
      Rendered(segments[..|segments| - 1]) + Text(DOT)
      + match last.style
        case None => Text(last.text)
        case Some(style) => [Paint(style)] + Text(last.text) + [Paint(Bar)]
  }

  method RenderFooter(segments: seq<Segment>) returns (line: Line)
    ensures line == Rendered(segments)
  {
    line := Text(MARK);
    for i := 0 to |segments|
      invariant line == Rendered(segments[..i])
    {
      assert segments[..i + 1][..i] == segments[..i];
      var segment := segments[i];
      line := line + Text(DOT)
        + match segment.style
          case None => Text(segment.text)
          case Some(style) => [Paint(style)] + Text(segment.text) + [Paint(Bar)];
    }
    assert segments[..|segments|] == segments;
  }

  function Rule(n: nat): string {
    seq(n, i => RULE)
  }

  function PadFooter(line: Line, visible: nat, width: nat): Line {
    var remaining := width - visible;
    if remaining > 1 then line + Text(" " + Rule(remaining - 1))
    else if remaining == 1 then line + Text(" ")
    else line
  }

  function TruncateRunes(s: string, maximum: int): (r: string)
    ensures |r| == if maximum <= 0 then 0 else if |s| <= maximum then |s| else maximum
  {
    if maximum <= 0 then ""
    else if |s| <= maximum then s
    else if maximum == 1 then "\U{2026}"
    else s[..maximum - 1] + "\U{2026}"
  }

  function LineWidth(columns: int): nat {
    if columns - 1 > 1 then columns - 1 else 1
  }

  /** What is shown when the first `dropped` droppable segments are left out. */
  function Shown(droppable: seq<Segment>, kept: seq<Segment>, dropped: nat): seq<Segment>
    requires dropped <= |droppable|
  {
    droppable[dropped..] + kept
  }

  function HintedLine(content: Content, segments: seq<Segment>, width: nat, hint: string): Line {
    var gap := width - Width(segments) - |hint| - 2;
    Rendered(segments) + Text(" ") + Text(Rule(if gap > 1 then gap else 1)) + Text(" ") + RenderHint(content, hint)
  }

  predicate HintFits(
    droppable: seq<Segment>, kept: seq<Segment>, width: nat, hints: seq<string>, dropped: int, form: int)
  {
    && 0 <= dropped <= |droppable| && 0 <= form < |hints|
    && Width(Shown(droppable, kept, dropped)) + |hints[form]| + 3 <= width
  }

  predicate PlainFits(droppable: seq<Segment>, kept: seq<Segment>, width: nat, dropped: int) {
    0 <= dropped <= |droppable| && Width(Shown(droppable, kept, dropped)) <= width
  }

  /** Fewest segments dropped, and among those the first form that fits. */
  ghost predicate BestHint(
    droppable: seq<Segment>, kept: seq<Segment>, width: nat, hints: seq<string>, dropped: int, form: int)
  {
    && HintFits(droppable, kept, width, hints, dropped, form)
    && (forall d, f :: HintFits(droppable, kept, width, hints, d, f) ==> d > dropped || (d == dropped && f >= form))
  }

  ghost predicate BestPlain(droppable: seq<Segment>, kept: seq<Segment>, width: nat, dropped: int) {
    && PlainFits(droppable, kept, width, dropped)
    && forall d :: PlainFits(droppable, kept, width, d) ==> dropped <= d
  }

  /** The first loop of statusBarLine. */
  method WithReminder(content: Content, droppable: seq<Segment>, kept: seq<Segment>, hints: seq<string>, width: nat)
      returns (fits: bool, line: Line)
    ensures fits <==> exists d, f :: HintFits(droppable, kept, width, hints, d, f)
    ensures fits ==> exists d, f :: BestHint(droppable, kept, width, hints, d, f)
                                    && line == HintedLine(content, Shown(droppable, kept, d), width, hints[f])
  {
    fits, line := true, [];
    for dropped := 0 to |droppable| + 1
      invariant forall d, f :: d < dropped ==> !HintFits(droppable, kept, width, hints, d, f)
    {
      var candidate := droppable[dropped..] + kept;
      var visible := FooterVisibleWidth(candidate);
      for form := 0 to |hints|
        invariant forall f :: f < form ==> !HintFits(droppable, kept, width, hints, dropped, f)
      {
        if visible + |hints[form]| + 3 > width {
          continue;
        }
        var gap := width - visible - |hints[form]| - 2;
        line := RenderFooter(candidate);
        line := line + Text(" ") + Text(Rule(if gap > 1 then gap else 1)) + Text(" ")
                + RenderHint(content, hints[form]);
        assert BestHint(droppable, kept, width, hints, dropped, form);
        return;
      }
    }
    fits := false;
  }

  /** The second loop of statusBarLine. */
  method WithoutReminder(droppable: seq<Segment>, kept: seq<Segment>, width: nat) returns (fits: bool, line: Line)
    ensures fits <==> exists d :: PlainFits(droppable, kept, width, d)
    ensures fits ==> exists d :: BestPlain(droppable, kept, width, d) && var shown := Shown(droppable, kept, d);
                                 line == PadFooter(Rendered(shown), Width(shown), width)
  {
    fits, line := true, [];
    for dropped := 0 to |droppable| + 1
      invariant forall d :: d < dropped ==> !PlainFits(droppable, kept, width, d)
    {
      var candidate := droppable[dropped..] + kept;
      var visible := FooterVisibleWidth(candidate);
      if visible <= width {
        line := RenderFooter(candidate);
        line := PadFooter(line, visible, width);
        assert BestPlain(droppable, kept, width, dropped);
        return;
      }
    }
    fits := false;
  }

  /** statusBarLine */
  method StatusBarLine(columns: int, content: Content, menuOpen: bool) returns (line: Line)
    ensures line == FooterLine(columns, content, menuOpen)
    ensures Visible(line) == (if columns <= 2 then 1 else columns - 1) && IsFooterLine(columns, content, menuOpen, line)
  {
    line := FittedLine(columns, content, menuOpen);
    FooterLineIsUnique(columns, content, menuOpen, line);
    FooterFillsTheRow(columns, content, menuOpen);
  }

  method FittedLine(columns: int, content: Content, menuOpen: bool) returns (line: Line)
    ensures IsFooterLine(columns, content, menuOpen, line)
  {
    var width := LineWidth(columns);
    var (droppable, kept) := Segments(content);
    var fits;
    fits, line := WithReminder(content, droppable, kept, Hints(content, menuOpen), width);
    if fits {
      return;
    }
    fits, line := WithoutReminder(droppable, kept, width);
    if fits {
      return;
    }
    var truncated := TruncateRunes(MARK, width);
    line := PadFooter(Text(truncated), |truncated|, width);
  }

  /** Which line the footer is: the reminder with the best choice while any form fits, else the
      segments alone, else the mark. */
  ghost predicate IsFooterLine(columns: int, content: Content, menuOpen: bool, line: Line) {
    var (droppable, kept) := Segments(content);
    IsFitted(content, droppable, kept, Hints(content, menuOpen), LineWidth(columns), line)
  }

  ghost predicate IsFitted(
    content: Content, droppable: seq<Segment>, kept: seq<Segment>, hints: seq<string>, width: nat, line: Line)
  {
    if exists d, f :: HintFits(droppable, kept, width, hints, d, f) then
      exists d, f :: BestHint(droppable, kept, width, hints, d, f)
                     && line == HintedLine(content, Shown(droppable, kept, d), width, hints[f])
    else if exists d :: PlainFits(droppable, kept, width, d) then
      exists d :: BestPlain(droppable, kept, width, d) && var shown := Shown(droppable, kept, d);
                  line == PadFooter(Rendered(shown), Width(shown), width)
    else
      line == PadFooter(Text(TruncateRunes(MARK, width)), |TruncateRunes(MARK, width)|, width)
  }

  /** The one line statusBarLine can return. */
  ghost function FooterLine(columns: int, content: Content, menuOpen: bool): Line {
    if exists line :: IsFooterLine(columns, content, menuOpen, line) then
      var line :| IsFooterLine(columns, content, menuOpen, line); line
    else []
  }

  // ---- Widths ----

  /** The measured width of the segments is the number of runes they show when rendered. */
  lemma {:induction false} RenderedWidth(segments: seq<Segment>)
    ensures Visible(Rendered(segments)) == Width(segments)
    decreases |segments|
  {
    if segments == [] {
      VisibleText(MARK);
    } else {
      var init, last := segments[..|segments| - 1], segments[|segments| - 1];
      RenderedWidth(init);
      VisibleText(DOT);
      VisibleText(last.text);
      VisibleConcat(Rendered(init), Text(DOT));
      match last.style {
        case None =>
          VisibleConcat(Rendered(init) + Text(DOT), Text(last.text));
        case Some(style) =>
          VisibleConcat([Paint(style)], Text(last.text));
          VisibleConcat([Paint(style)] + Text(last.text), [Paint(Bar)]);
          VisibleConcat(Rendered(init) + Text(DOT), [Paint(style)] + Text(last.text) + [Paint(Bar)]);
      }
    }
  }

  lemma PaddedIsFull(line: Line, visible: nat, width: nat)
    requires Visible(line) == visible <= width
    ensures Visible(PadFooter(line, visible, width)) == width
  {
    var remaining := width - visible;
    if remaining > 1 {
      VisibleText(" " + Rule(remaining - 1));
      VisibleConcat(line, Text(" " + Rule(remaining - 1)));
    } else if remaining == 1 {
      VisibleText(" ");
      VisibleConcat(line, Text(" "));
    }
  }

  lemma HintStartsWithPrefix(content: Content, menuOpen: bool, form: int)
    requires 0 <= form < |Hints(content, menuOpen)|
    ensures content.prefixName <= Hints(content, menuOpen)[form]
  {
  }

  /** Holding the prefix restyles the reminder without changing what it shows. */
  lemma HintWidth(content: Content, menuOpen: bool, form: int)
    requires 0 <= form < |Hints(content, menuOpen)|
    ensures var hint := Hints(content, menuOpen)[form]; Visible(RenderHint(content, hint)) == |hint|
  {
    var hint := Hints(content, menuOpen)[form];
    VisibleText(hint);
    if content.prefixArmed {
      HintStartsWithPrefix(content, menuOpen, form);
      var name, rest := content.prefixName, hint[|content.prefixName|..];
      VisibleText(name);
      VisibleText(rest);
      VisibleConcat([Paint(PrefixArmed)], Text(name));
      VisibleConcat([Paint(PrefixArmed)] + Text(name), [Paint(Bar)]);
      VisibleConcat([Paint(PrefixArmed)] + Text(name) + [Paint(Bar)], Text(rest));
    }
  }

  lemma HintedLineIsFull(content: Content, segments: seq<Segment>, width: nat, menuOpen: bool, form: int)
    requires 0 <= form < |Hints(content, menuOpen)|
    requires Width(segments) + |Hints(content, menuOpen)[form]| + 3 <= width
    ensures Visible(HintedLine(content, segments, width, Hints(content, menuOpen)[form])) == width
  {
    var hint := Hints(content, menuOpen)[form];
    var gap := width - Width(segments) - |hint| - 2;
    RenderedWidth(segments);
    HintWidth(content, menuOpen, form);
    VisibleText(" ");
    VisibleText(Rule(gap));
    var a, b, c := Rendered(segments), Text(" "), Text(Rule(gap));
    VisibleConcat(a, b);
    VisibleConcat(a + b, c);
    VisibleConcat(a + b + c, b);
    VisibleConcat(a + b + c + b, RenderHint(content, hint));
  }

  // ---- The choice is well defined ----

  /** Forms are listed longest first, so the first that fits is the longest that fits. */
  lemma FormsGetShorter(content: Content, menuOpen: bool, f: int, g: int)
    requires 0 <= f < g < |Hints(content, menuOpen)|
    ensures |Hints(content, menuOpen)[f]| > |Hints(content, menuOpen)[g]|
  {
  }

  /** Dropping more always makes room, so the best choice drops the fewest segments possible. */
  lemma DroppingMakesRoom(droppable: seq<Segment>, kept: seq<Segment>, d: nat, e: nat)
    requires d < e <= |droppable|
    ensures Width(Shown(droppable, kept, e)) < Width(Shown(droppable, kept, d))
    decreases e - d
  {
    WidthCons(Shown(droppable, kept, d));
    assert Shown(droppable, kept, d)[1..] == Shown(droppable, kept, d + 1);
    if d + 1 < e {
      DroppingMakesRoom(droppable, kept, d + 1, e);
    }
  }

  lemma {:induction false} WidthCons(segments: seq<Segment>)
    requires segments != []
    ensures Width(segments) == Width(segments[1..]) + |DOT| + |segments[0].text|
    decreases |segments|
  {
    if |segments| > 1 {
      WidthCons(segments[..|segments| - 1]);
      assert segments[..|segments| - 1][1..] == segments[1..][..|segments| - 2];
    }
  }

  /** The footer's line is determined: two best choices are the same choice, and the longest form
      that fits with the fewest segments dropped. */
  lemma FooterChoiceIsUnique(content: Content, menuOpen: bool, width: nat, d: int, f: int, e: int, g: int)
    requires var (droppable, kept) := Segments(content);
             && BestHint(droppable, kept, width, Hints(content, menuOpen), d, f)
             && HintFits(droppable, kept, width, Hints(content, menuOpen), e, g)
    ensures d <= e
    ensures d == e ==> |Hints(content, menuOpen)[g]| <= |Hints(content, menuOpen)[f]|
    ensures (var (droppable, kept) := Segments(content);
             BestHint(droppable, kept, width, Hints(content, menuOpen), e, g)) ==> d == e && f == g
  {
    if f < g {
      FormsGetShorter(content, menuOpen, f, g);
    }
  }

  lemma LeastHint(droppable: seq<Segment>, kept: seq<Segment>, width: nat, hints: seq<string>, d: nat, f: nat)
      returns (e: nat, g: nat)
    requires HintFits(droppable, kept, width, hints, d, f)
    ensures BestHint(droppable, kept, width, hints, e, g)
    decreases d, f
  {
    e, g := d, f;
    if x, y :| HintFits(droppable, kept, width, hints, x, y) && (x < d || (x == d && y < f)) {
      e, g := LeastHint(droppable, kept, width, hints, x, y);
    }
  }

  lemma LeastPlain(droppable: seq<Segment>, kept: seq<Segment>, width: nat, d: nat) returns (e: nat)
    requires PlainFits(droppable, kept, width, d)
    ensures BestPlain(droppable, kept, width, e)
    decreases d
  {
    e := d;
    if x :| PlainFits(droppable, kept, width, x) && x < d {
      e := LeastPlain(droppable, kept, width, x);
    }
  }

  lemma FittedExists(content: Content, droppable: seq<Segment>, kept: seq<Segment>, hints: seq<string>, width: nat)
      returns (line: Line)
    ensures IsFitted(content, droppable, kept, hints, width, line)
  {
    if d, f :| HintFits(droppable, kept, width, hints, d, f) {
      var e, g := LeastHint(droppable, kept, width, hints, d, f);
      line := HintedLine(content, Shown(droppable, kept, e), width, hints[g]);
    } else if d :| PlainFits(droppable, kept, width, d) {
      var e := LeastPlain(droppable, kept, width, d);
      var shown := Shown(droppable, kept, e);
      line := PadFooter(Rendered(shown), Width(shown), width);
    } else {
      line := PadFooter(Text(TruncateRunes(MARK, width)), |TruncateRunes(MARK, width)|, width);
    }
  }

  lemma FittedIsUnique(
    content: Content, droppable: seq<Segment>, kept: seq<Segment>, hints: seq<string>, width: nat,
    one: Line, other: Line)
    requires IsFitted(content, droppable, kept, hints, width, one)
    requires IsFitted(content, droppable, kept, hints, width, other)
    ensures one == other
  {
  }

  /** For every width and content there is exactly one footer line. */
  lemma FooterLineIsUnique(columns: int, content: Content, menuOpen: bool, line: Line)
    ensures IsFooterLine(columns, content, menuOpen, FooterLine(columns, content, menuOpen))
    ensures IsFooterLine(columns, content, menuOpen, line) <==> line == FooterLine(columns, content, menuOpen)
  {
    var found := FooterExists(columns, content, menuOpen);
    var chosen := FooterLine(columns, content, menuOpen);
    if IsFooterLine(columns, content, menuOpen, line) {
      FooterIsOne(columns, content, menuOpen, line, chosen);
    }
  }

  lemma FooterExists(columns: int, content: Content, menuOpen: bool) returns (line: Line)
    ensures IsFooterLine(columns, content, menuOpen, line)
  {
    var (droppable, kept) := Segments(content);
    line := FittedExists(content, droppable, kept, Hints(content, menuOpen), LineWidth(columns));
  }

  lemma FooterIsOne(columns: int, content: Content, menuOpen: bool, one: Line, other: Line)
    requires IsFooterLine(columns, content, menuOpen, one) && IsFooterLine(columns, content, menuOpen, other)
    ensures one == other
  {
    var (droppable, kept) := Segments(content);
    FittedIsUnique(content, droppable, kept, Hints(content, menuOpen), LineWidth(columns), one, other);
  }

  lemma FittedIsFull(
    content: Content, menuOpen: bool, droppable: seq<Segment>, kept: seq<Segment>, width: nat, line: Line)
    requires IsFitted(content, droppable, kept, Hints(content, menuOpen), width, line)
    ensures Visible(line) == width
  {
    var hints := Hints(content, menuOpen);
    if exists d, f :: HintFits(droppable, kept, width, hints, d, f) {
      var d, f :| BestHint(droppable, kept, width, hints, d, f)
                  && line == HintedLine(content, Shown(droppable, kept, d), width, hints[f]);
      HintedLineIsFull(content, Shown(droppable, kept, d), width, menuOpen, f);
    } else if exists d :: PlainFits(droppable, kept, width, d) {
      var d :| BestPlain(droppable, kept, width, d) && var shown := Shown(droppable, kept, d);
               line == PadFooter(Rendered(shown), Width(shown), width);
      var shown := Shown(droppable, kept, d);
      RenderedWidth(shown);
      PaddedIsFull(Rendered(shown), Width(shown), width);
    } else {
      var truncated := TruncateRunes(MARK, width);
      VisibleText(truncated);
      PaddedIsFull(Text(truncated), |truncated|, width);
    }
  }

  /** Whatever the width and the content, the footer shows one rune for every column but the last. */
  lemma FooterFillsTheRow(columns: int, content: Content, menuOpen: bool)
    ensures Visible(FooterLine(columns, content, menuOpen)) == if columns <= 2 then 1 else columns - 1
  {
    var (droppable, kept) := Segments(content);
    FooterLineIsUnique(columns, content, menuOpen, FooterLine(columns, content, menuOpen));
    FittedIsFull(content, menuOpen, droppable, kept, LineWidth(columns), FooterLine(columns, content, menuOpen));
  }

  // ---- A footer line shows no control character ----

  predicate Drawable(line: Line) {
    forall k :: 0 <= k < |line| ==> line[k].Rune? ==> !IsControl(line[k].c)
  }

  lemma SegmentsArePlain(content: Content)
    ensures PlainSegments(Segments(content).0) && PlainSegments(Segments(content).1)
  {
    PlainConcat(Watching(content), Named(content));
    PlainConcat(Watching(content) + Named(content), Mode(content));
    PlainConcat(Muted(content), AttentionSummary(content));
  }

  lemma PlainConcat(a: seq<Segment>, b: seq<Segment>)
    requires PlainSegments(a) && PlainSegments(b)
    ensures PlainSegments(a + b)
  {
  }

  lemma DrawableConcat(a: Line, b: Line)
    requires Drawable(a) && Drawable(b)
    ensures Drawable(a + b)
  {
  }

  lemma SegmentIsDrawable(segment: Segment)
    requires Plain(segment.text)
    ensures Drawable(Text(segment.text)) && Drawable(Text(DOT))
    ensures segment.style.Some? ==> Drawable([Paint(segment.style.value)] + Text(segment.text) + [Paint(Bar)])
  {
  }

  lemma {:induction false} RenderedIsDrawable(segments: seq<Segment>)
    requires PlainSegments(segments)
    ensures Drawable(Rendered(segments))
    decreases |segments|
  {
    if segments != [] {
      var init, last := segments[..|segments| - 1], segments[|segments| - 1];
      RenderedIsDrawable(init);
      SegmentIsDrawable(last);
      DrawableConcat(Rendered(init), Text(DOT));
      DrawableConcat(Rendered(init) + Text(DOT),
                     if last.style.None? then Text(last.text)
                     else [Paint(last.style.value)] + Text(last.text) + [Paint(Bar)]);
    }
  }

  lemma HintsArePlain(content: Content, menuOpen: bool, form: int)
    requires Plain(content.prefixName) && 0 <= form < |Hints(content, menuOpen)|
    ensures Plain(Hints(content, menuOpen)[form])
  {
    assert Plain(HintPrefix(content));
    var prefix := HintPrefix(content);
    assert Plain(prefix + " \U{2191} sessions") && Plain(prefix + " \U{2191}");
  }

  lemma RenderedHintIsDrawable(content: Content, hint: string)
    requires Plain(content.prefixName) && Plain(hint)
    ensures Drawable(RenderHint(content, hint))
  {
  }

  lemma HintedIsDrawable(content: Content, segments: seq<Segment>, width: nat, hint: string)
    requires Plain(content.prefixName) && Plain(hint) && PlainSegments(segments)
    ensures Drawable(HintedLine(content, segments, width, hint))
  {
    RenderedIsDrawable(segments);
    RenderedHintIsDrawable(content, hint);
  }

  lemma PaddedIsDrawable(line: Line, visible: nat, width: nat)
    requires Drawable(line)
    ensures Drawable(PadFooter(line, visible, width))
  {
  }

  lemma FittedIsDrawable(
    content: Content, droppable: seq<Segment>, kept: seq<Segment>, hints: seq<string>, width: nat, line: Line)
    requires PlainSegments(droppable) && PlainSegments(kept) && Plain(content.prefixName)
    requires forall f :: 0 <= f < |hints| ==> Plain(hints[f])
    requires IsFitted(content, droppable, kept, hints, width, line)
    ensures Drawable(line)
  {
    if exists d, f :: HintFits(droppable, kept, width, hints, d, f) {
      var d, f :| BestHint(droppable, kept, width, hints, d, f)
                  && line == HintedLine(content, Shown(droppable, kept, d), width, hints[f]);
      PlainConcat(droppable[d..], kept);
      HintedIsDrawable(content, Shown(droppable, kept, d), width, hints[f]);
    } else if exists d :: PlainFits(droppable, kept, width, d) {
      var d :| BestPlain(droppable, kept, width, d) && var shown := Shown(droppable, kept, d);
               line == PadFooter(Rendered(shown), Width(shown), width);
      var shown := Shown(droppable, kept, d);
      PlainConcat(droppable[d..], kept);
      RenderedIsDrawable(shown);
      PaddedIsDrawable(Rendered(shown), Width(shown), width);
    } else {
      PaddedIsDrawable(Text(TruncateRunes(MARK, width)), |TruncateRunes(MARK, width)|, width);
    }
  }

  /** Titles and agent names are cleaned and everything else is fixed text, so only the prefix's name
      matters. */
  lemma FooterIsDrawable(columns: int, content: Content, menuOpen: bool, line: Line)
    requires IsFooterLine(columns, content, menuOpen, line) && Plain(content.prefixName)
    ensures Drawable(line)
  {
    var hints := Hints(content, menuOpen);
    SegmentsArePlain(content);
    forall f | 0 <= f < |hints| ensures Plain(hints[f]) {
      HintsArePlain(content, menuOpen, f);
    }
    FittedIsDrawable(content, Segments(content).0, Segments(content).1, hints, LineWidth(columns), line);
  }
}
