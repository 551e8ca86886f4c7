/** What the footer can be relied on to say (internal/server/status_bar_content.go): which words it keeps
    when the terminal is narrow, in what order the others go, and how labels are cleaned. */
module FooterContents {
  import opened Sequences
  import opened Footer

  // ---- The text of a line ----

  /** The runes a line shows. */
  function Runes(line: Line): string {
    if line == [] then []
    else match line[0]
      case Rune(c) => [c] + Runes(line[1..])
      case Paint(_) => Runes(line[1..])
  }

  lemma {:induction false} RunesConcat(a: Line, b: Line)
    ensures Runes(a + b) == Runes(a) + Runes(b)
  {
    if a == [] {
      assert a + b == b;
    } else {
      assert (a + b)[1..] == a[1..] + b;
      RunesConcat(a[1..], b);
    }
  }

  lemma {:induction false} RunesOfText(s: string)
    ensures Runes(Text(s)) == s
  {
    if s != [] {
      assert Text(s)[1..] == Text(s[1..]);
      RunesOfText(s[1..]);
    }
  }

  lemma {:induction false} RunesOfPainted(style: Style, s: string)
    ensures Runes([Paint(style)] + Text(s) + [Paint(Bar)]) == s
  {
    RunesOfText(s);
    RunesConcat([Paint(style)], Text(s));
    RunesConcat([Paint(style)] + Text(s), [Paint(Bar)]);
    assert Runes([Paint(style)]) == "" && Runes([Paint(Bar)]) == "";
  }

  /** What segments say, each after a dot. */
  function Said(segments: seq<Segment>): string {
    if segments == [] then "\U{2500} Falkn"
    else Said(segments[..|segments| - 1]) + " \U{b7} " + segments[|segments| - 1].text
  }

  lemma {:induction false} RenderedSays(segments: seq<Segment>)
    ensures Runes(Rendered(segments)) == Said(segments)
    decreases |segments|
  {
    if segments == [] {
      RunesOfText(MARK);
    } else {
      var init, last := segments[..|segments| - 1], segments[|segments| - 1];
      RenderedSays(init);
      RunesOfText(DOT);
      RunesOfText(last.text);
      RunesConcat(Rendered(init), Text(DOT));
      match last.style {
        case None => RunesConcat(Rendered(init) + Text(DOT), Text(last.text));
        case Some(style) =>
          RunesOfPainted(style, last.text);
          RunesConcat(Rendered(init) + Text(DOT), [Paint(style)] + Text(last.text) + [Paint(Bar)]);
      }
    }
  }

  lemma {:induction false} SaidEach(segments: seq<Segment>, k: nat)
    requires k < |segments|
    ensures Occurs(Said(segments), segments[k].text)
    decreases |segments|
  {
    var n := |segments| - 1;
    var before, text := Said(segments[..n]) + " \U{b7} ", segments[n].text;
    if k == n {
      assert (before + text)[|before|..|before| + |text|] == text;
      assert OccursAt(Said(segments), text, |before|);
    } else {
      SaidEach(segments[..n], k);
      OccursInPart(Said(segments[..n]), Said(segments), segments[k].text);
    }
  }

  lemma {:induction false} OccursInPart<T>(part: seq<T>, whole: seq<T>, needle: seq<T>)
    requires part <= whole && Occurs(part, needle)
    ensures Occurs(whole, needle)
  {
    var i :| OccursAt(part, needle, i);
    assert whole[i..i + |needle|] == part[i..i + |needle|];
    assert OccursAt(whole, needle, i);
  }

  // ---- What always stays ----

  lemma {:induction false} HintedSays(content: Content, segments: seq<Segment>, width: nat, hint: string)
    ensures Said(segments) <= Runes(HintedLine(content, segments, width, hint))
  {
    var gap := width - Width(segments) - |hint| - 2;
    var a, b, c := Rendered(segments), Text(" "), Text(Rule(if gap > 1 then gap else 1));
    RenderedSays(segments);
    RunesConcat(a, b);
    RunesConcat(a + b, c);
    RunesConcat(a + b + c, b);
    RunesConcat(a + b + c + b, RenderHint(content, hint));
  }

  lemma {:induction false} PaddedSays(line: Line, visible: nat, width: nat)
    ensures Runes(line) <= Runes(PadFooter(line, visible, width))
  {
    var remaining := width - visible;
    if remaining > 1 {
      RunesConcat(line, Text(" " + Rule(remaining - 1)));
    } else if remaining == 1 {
      RunesConcat(line, Text(" "));
    }
  }

  lemma {:induction false} FittedSays(
    content: Content, droppable: seq<Segment>, kept: seq<Segment>, hints: seq<string>, width: nat, line: Line)
    returns (dropped: nat)
    requires Width(kept) <= width && IsFitted(content, droppable, kept, hints, width, line)
    ensures dropped <= |droppable| && Said(Shown(droppable, kept, dropped)) <= Runes(line)
  {
    if exists d, f :: HintFits(droppable, kept, width, hints, d, f) {
      var d, f :| BestHint(droppable, kept, width, hints, d, f)
                  && line == HintedLine(content, Shown(droppable, kept, d), width, hints[f]);
      HintedSays(content, Shown(droppable, kept, d), width, hints[f]);
      dropped := d;
    } else {
      assert Shown(droppable, kept, |droppable|) == kept;
      assert PlainFits(droppable, kept, width, |droppable|);
      var d :| BestPlain(droppable, kept, width, d) && var shown := Shown(droppable, kept, d);
               line == PadFooter(Rendered(shown), Width(shown), width);
      RenderedSays(Shown(droppable, kept, d));
      PaddedSays(Rendered(Shown(droppable, kept, d)), Width(Shown(droppable, kept, d)), width);
      dropped := d;
    }
  }

  /** As soon as the kept segments fit, the footer says them, after as many of the others as it has room for. */
  lemma {:induction false} FooterSays(columns: int, content: Content, menuOpen: bool) returns (dropped: nat)
    requires Width(Segments(content).1) <= LineWidth(columns)
    ensures dropped <= |Segments(content).0|
    ensures var (droppable, kept) := Segments(content);
            Said(Shown(droppable, kept, dropped)) <= Runes(FooterLine(columns, content, menuOpen))
  {
    var (droppable, kept) := Segments(content);
    var line := FooterLine(columns, content, menuOpen);
    FooterLineIsUnique(columns, content, menuOpen, line);
    dropped := FittedSays(content, droppable, kept, Hints(content, menuOpen), LineWidth(columns), line);
  }

  lemma {:induction false} KeptIsSaid(columns: int, content: Content, menuOpen: bool, k: nat)
    requires Width(Segments(content).1) <= LineWidth(columns) && k < |Segments(content).1|
    ensures Occurs(Runes(FooterLine(columns, content, menuOpen)), Segments(content).1[k].text)
  {
    var (droppable, kept) := Segments(content);
    var dropped := FooterSays(columns, content, menuOpen);
    var shown := Shown(droppable, kept, dropped);
    SaidEach(shown, |droppable| - dropped + k);
    OccursInPart(Said(shown), Runes(FooterLine(columns, content, menuOpen)), kept[k].text);
  }

  /** When not even the kept segments fit, nothing is said but the mark. */
  lemma {:induction false} NoRoomForKept(columns: int, content: Content, menuOpen: bool)
    requires Width(Segments(content).1) > LineWidth(columns)
    ensures forall c :: c in Runes(FooterLine(columns, content, menuOpen)) ==> c in "\U{2500} Falkn\U{2026} "
  {
    var (droppable, kept) := Segments(content);
    var hints, width, line := Hints(content, menuOpen), LineWidth(columns), FooterLine(columns, content, menuOpen);
    FooterLineIsUnique(columns, content, menuOpen, line);
    NothingFits(droppable, kept, hints, width);
    MarkOnly(TruncateRunes(MARK, width), width);
  }

  lemma {:induction false} NothingFits(
    droppable: seq<Segment>, kept: seq<Segment>, hints: seq<string>, width: nat)
    requires Width(kept) > width
    ensures forall d, f :: !HintFits(droppable, kept, width, hints, d, f)
    ensures forall d :: !PlainFits(droppable, kept, width, d)
  {
    forall d | 0 <= d <= |droppable| ensures Width(Shown(droppable, kept, d)) > width {
      assert Shown(droppable, kept, |droppable|) == kept;
      if d < |droppable| {
        DroppingMakesRoom(droppable, kept, d, |droppable|);
      }
    }
  }

  lemma {:induction false} MarkOnly(mark: string, width: nat)
    requires mark == TruncateRunes(MARK, width)
    ensures forall c :: c in Runes(PadFooter(Text(mark), |mark|, width)) ==> c in "\U{2500} Falkn\U{2026} "
  {
    var remaining := width - |mark|;
    RunesOfText(mark);
    if remaining > 1 {
      RunesOfText(" " + Rule(remaining - 1));
      RunesConcat(Text(mark), Text(" " + Rule(remaining - 1)));
    } else if remaining == 1 {
      RunesOfText(" ");
      RunesConcat(Text(mark), Text(" "));
    }
  }

  /** What there is to say of the other sessions, and its colour: how many need input, or else have failed, or
      else are there at all. */
  predicate Attention(content: Content, text: string, style: Option<Style>) {
    if content.othersNeedingInput > 0 then
      text == Digits(content.othersNeedingInput) + " needs input" && style == Some(NeedsInput)
    else if content.othersFailed > 0 then
      text == Digits(content.othersFailed) + " failed" && style == Some(Failed)
    else
      content.otherSessions > 0 && text == Digits(content.otherSessions) + " others" && style == None
  }

  /** How many runes it takes: the mark, a muted sign if there is one, a dot and the words. */
  function RoomFor(content: Content, text: string): nat {
    7 + (if content.supportsNotifications && content.notificationsMuted then 8 else 0) + 3 + |text|
  }

  lemma {:induction false} AttentionIsKept(content: Content, text: string, style: Option<Style>)
    requires Attention(content, text, style)
    ensures var kept := Segments(content).1;
            Width(kept) == RoomFor(content, text) && kept != [] && kept[|kept| - 1] == Segment(text, style)
  {
    var attention := AttentionSummary(content);
    assert attention == [Segment(text, style)];
    assert |MARK| == 7 && |DOT| == 3 && |"muted"| == 5;
    var kept := Segments(content).1;
    if content.supportsNotifications && content.notificationsMuted {
      var muted := [Segment("muted", None)];
      assert kept == muted + attention && kept[..1] == muted && muted[..0] == [];
      assert Width(muted) == 15;
    } else {
      assert kept == attention && kept[..0] == [];
    }
  }

  lemma {:induction false} NotInMark(runes: string, text: string)
    requires forall c :: c in runes ==> c in "\U{2500} Falkn\U{2026} "
    requires text != "" && text[|text| - 1] in "tds"
    ensures !Occurs(runes, text)
  {
    var k := |text| - 1;
    forall i ensures !OccursAt(runes, text, i) {
      if 0 <= i && i + |text| <= |runes| {
        assert runes[i + k] in runes;
        OccursAtElements(runes, text, i);
      }
    }
  }

  /** Whatever else there is to say, the footer tells how many other sessions need input, or else have failed, or
      else run, exactly when there is room for that alone. */
  lemma {:induction false} AttentionIsShownIff(
    columns: int, content: Content, menuOpen: bool, text: string, style: Option<Style>)
    requires Attention(content, text, style)
    ensures Occurs(Runes(FooterLine(columns, content, menuOpen)), text)
            <==> RoomFor(content, text) <= LineWidth(columns)
  {
    AttentionIsKept(content, text, style);
    if RoomFor(content, text) <= LineWidth(columns) {
      KeptIsSaid(columns, content, menuOpen, |Segments(content).1| - 1);
    } else {
      NoRoomForKept(columns, content, menuOpen);
      NotInMark(Runes(FooterLine(columns, content, menuOpen)), text);
    }
  }

  /** Likewise the muted sign, when no session needs attention. */
  lemma {:induction false} MutedIsShown(columns: int, content: Content, menuOpen: bool)
    requires content.supportsNotifications && content.notificationsMuted
    requires content.otherSessions == content.othersNeedingInput == content.othersFailed == 0
    requires LineWidth(columns) >= 15
    ensures Occurs(Runes(FooterLine(columns, content, menuOpen)), "muted")
  {
    var kept := Segments(content).1;
    assert kept == [Segment("muted", None)] && kept[..0] == [];
    assert Width(kept) == 15;
    KeptIsSaid(columns, content, menuOpen, 0);
  }

  // ---- What goes first ----

  /** Which of the other segments there are: others watching, a title, an agent, full access. */
  function Present(content: Content): (bool, bool, bool, bool) {
    (content.attachedClients > 1, content.title != "", content.agent != "" && content.agent != "shell",
     Trimmed(content.permissionMode) == "full_access")
  }

  function One(b: bool): nat {
    if b then 1 else 0
  }

  /** A narrow footer loses how many others watch first, then the title, then the agent, and full access last;
      a title or a plain shell it has nothing to say of takes no place. */
  lemma {:induction false} LeastUsefulGoesFirst(content: Content)
    ensures var (w, t, a, m) := Present(content); var droppable := Segments(content).0;
            && |droppable| == One(w) + One(t) + One(a) + One(m)
            && (w ==> droppable[0].text == "+" + Digits(content.attachedClients - 1) + " watching")
            && (t ==> droppable[One(w)].text == CleanStatusLabel(content.title))
            && (a ==> droppable[One(w) + One(t)].text == CleanStatusLabel(content.agent))
            && (m ==> droppable[One(w) + One(t) + One(a)] == Segment("full access", Some(NeedsInput)))
  {
  }

  // ---- The reminder ----

  lemma {:induction false} HintIsShown(content: Content, hint: string)
    requires content.prefixName <= hint
    ensures Runes(RenderHint(content, hint)) == hint
  {
    RunesOfText(hint);
    if content.prefixArmed {
      var name, rest := content.prefixName, hint[|content.prefixName|..];
      RunesOfText(name);
      RunesOfText(rest);
      RunesConcat([Paint(PrefixArmed)], Text(name));
      RunesConcat([Paint(PrefixArmed)] + Text(name), [Paint(Bar)]);
      RunesConcat([Paint(PrefixArmed)] + Text(name) + [Paint(Bar)], Text(rest));
      assert Runes([Paint(PrefixArmed)]) == "" && Runes([Paint(Bar)]) == "";
    }
  }

  /** The prefix's name, and behind it the session's number if there are several. */
  function Reminder(content: Content): string {
    content.prefixName
    + if content.sessionCount >= 2 && content.sessionNumber >= 1 then " [" + Digits(content.sessionNumber) + "]" else ""
  }

  /** The reminder says the prefix and the number, held or not, and what the arrow does as long as there is room and
      the switcher is not open; without a name for the prefix there is none. */
  lemma {:induction false} ReminderSaysNumber(content: Content, menuOpen: bool)
    ensures Hints(content, menuOpen)
         == if content.prefixName == "" then [] else if menuOpen then [Reminder(content)]
            else [Reminder(content) + " \U{2191} sessions", Reminder(content) + " \U{2191}", Reminder(content)]
    ensures forall form :: 0 <= form < |Hints(content, menuOpen)| ==>
              Runes(RenderHint(content, Hints(content, menuOpen)[form])) == Hints(content, menuOpen)[form]
  {
    assert content.prefixName + "" == content.prefixName;
    assert content.prefixName + (" [" + Digits(content.sessionNumber) + "]")
        == content.prefixName + " [" + Digits(content.sessionNumber) + "]";
    forall form | 0 <= form < |Hints(content, menuOpen)|
      ensures Runes(RenderHint(content, Hints(content, menuOpen)[form])) == Hints(content, menuOpen)[form]
    {
      HintStartsWithPrefix(content, menuOpen, form);
      HintIsShown(content, Hints(content, menuOpen)[form]);
    }
  }

  lemma {:induction false} SaidIsAsWide(segments: seq<Segment>)
    ensures |Said(segments)| == Width(segments)
    decreases |segments|
  {
    assert |MARK| == 7 && |DOT| == 3 && |"\U{2500} Falkn"| == 7 && |" \U{b7} "| == 3;
    if segments != [] {
      SaidIsAsWide(segments[..|segments| - 1]);
    }
  }

  /** The text ends with this, after a space. */
  predicate EndsWith(text: string, end: string) {
    |text| > |end| && text[|text| - |end|..] == end && text[|text| - |end| - 1] == ' '
  }

  lemma {:induction false} HintedEnds(content: Content, segments: seq<Segment>, width: nat, hint: string)
    requires content.prefixName <= hint
    ensures EndsWith(Runes(HintedLine(content, segments, width, hint)), hint)
  {
    var gap := width - Width(segments) - |hint| - 2;
    var before := Rendered(segments) + Text(" ") + Text(Rule(if gap > 1 then gap else 1));
    var line := HintedLine(content, segments, width, hint);
    HintIsShown(content, hint);
    RunesOfText(" ");
    RunesConcat(before, Text(" "));
    RunesConcat(before + Text(" "), RenderHint(content, hint));
    assert Runes(line) == (Runes(before) + " ") + hint;
  }

  lemma {:induction false} FittedEnds(
    content: Content, droppable: seq<Segment>, kept: seq<Segment>, hints: seq<string>, width: nat, line: Line,
    dropped: nat, fits: nat)
    returns (form: nat)
    requires IsFitted(content, droppable, kept, hints, width, line)
    requires HintFits(droppable, kept, width, hints, dropped, fits)
    requires forall f :: 0 <= f < |hints| ==> content.prefixName <= hints[f]
    ensures form < |hints| && EndsWith(Runes(line), hints[form])
  {
    var d, f :| BestHint(droppable, kept, width, hints, d, f)
                && line == HintedLine(content, Shown(droppable, kept, d), width, hints[f]);
    HintedEnds(content, Shown(droppable, kept, d), width, hints[f]);
    form := f;
  }

  /** As soon as the shortest reminder fits beside what is kept, with a space, a rule and a space between, the
      footer ends with a reminder. */
  lemma {:induction false} ReminderIsShown(columns: int, content: Content, menuOpen: bool) returns (form: nat)
    requires content.prefixName != ""
    requires |Said(Segments(content).1)| + 3 + |Reminder(content)| <= LineWidth(columns)
    ensures form < |Hints(content, menuOpen)|
    ensures EndsWith(Runes(FooterLine(columns, content, menuOpen)), Hints(content, menuOpen)[form])
  {
    var (droppable, kept) := Segments(content);
    var hints, width, line := Hints(content, menuOpen), LineWidth(columns), FooterLine(columns, content, menuOpen);
    FooterLineIsUnique(columns, content, menuOpen, line);
    forall f | 0 <= f < |hints| ensures content.prefixName <= hints[f] {
      HintStartsWithPrefix(content, menuOpen, f);
    }
    LastHint(content, menuOpen);
    SaidIsAsWide(kept);
    assert Shown(droppable, kept, |droppable|) == kept;
    form := FittedEnds(content, droppable, kept, hints, width, line, |droppable|, |hints| - 1);
  }

  lemma {:induction false} LastHint(content: Content, menuOpen: bool)
    requires content.prefixName != ""
    ensures var hints := Hints(content, menuOpen); hints != [] && hints[|hints| - 1] == Reminder(content)
  {
    ReminderSaysNumber(content, menuOpen);
  }

  /** With room for everything, everything is there: all segments, and the reminder in its longest form. */
  lemma {:induction false} EverythingIsShown(columns: int, content: Content, menuOpen: bool)
    requires content.prefixName != ""
    requires |Said(Segments(content).0 + Segments(content).1)| + 3 + |Hints(content, menuOpen)[0]| <= LineWidth(columns)
    ensures var text := Runes(FooterLine(columns, content, menuOpen));
            Said(Segments(content).0 + Segments(content).1) <= text && EndsWith(text, Hints(content, menuOpen)[0])
  {
    var (droppable, kept) := Segments(content);
    var hints, width, line := Hints(content, menuOpen), LineWidth(columns), FooterLine(columns, content, menuOpen);
    FooterLineIsUnique(columns, content, menuOpen, line);
    SaidIsAsWide(droppable + kept);
    assert Shown(droppable, kept, 0) == droppable + kept;
    assert HintFits(droppable, kept, width, hints, 0, 0);
    var d, f :| BestHint(droppable, kept, width, hints, d, f)
                && line == HintedLine(content, Shown(droppable, kept, d), width, hints[f]);
    assert d == 0 && f == 0;
    HintStartsWithPrefix(content, menuOpen, 0);
    HintedSays(content, droppable + kept, width, hints[0]);
    HintedEnds(content, droppable + kept, width, hints[0]);
  }

  // ---- Labels ----

  /** The words of a text, as strings.Fields gives them; `word` is the one being read. */
  function Fields(s: string, word: string): seq<string>
    decreases |s|
  {
    if s == [] then if word == "" then [] else [word]
    else if IsSpace(s[0]) then (if word == "" then [] else [word]) + Fields(s[1..], "")
    else Fields(s[1..], word + [s[0]])
  }

  /** The words with one space between them. */
  function Joined(words: seq<string>): string {
    if words == [] then "" else if |words| == 1 then words[0] else words[0] + " " + Joined(words[1..])
  }

  lemma {:induction false} JoinedMore(word: string, words: seq<string>)
    ensures Joined([word] + words) == if words == [] then word else word + " " + Joined(words)
  {
    assert ([word] + words)[1..] == words;
  }

  lemma {:induction false} FieldsStart(s: string, word: string)
    requires word != ""
    ensures Fields(s, word) != []
    decreases |s|
  {
    if s != [] && !IsSpace(s[0]) {
      FieldsStart(s[1..], word + [s[0]]);
    }
  }

  /** In the middle of a word the rest of it is joined on. */
  lemma {:induction false} JoinsOn(s: string, word: string)
    requires forall k :: 0 <= k < |s| ==> !IsControl(s[k])
    requires word != ""
    ensures Joined(Fields(s, word)) == word + JoinedFields(s, true, false)
    decreases |s|, 1
  {
    if s != [] {
      if IsSpace(s[0]) {
        JoinsAfterGap(s[1..]);
        JoinedMore(word, Fields(s[1..], ""));
      } else {
        JoinsOn(s[1..], word + [s[0]]);
        ConcatAssociates(word, [s[0]], JoinedFields(s[1..], true, false));
      }
    }
  }

  /** After a gap the next word, if there is one, follows a space. */
  lemma {:induction false} JoinsAfterGap(s: string)
    requires forall k :: 0 <= k < |s| ==> !IsControl(s[k])
    ensures var words := Fields(s, "");
            JoinedFields(s, true, true) == if words == [] then "" else " " + Joined(words)
    decreases |s|, 0
  {
    if s != [] {
      if IsSpace(s[0]) {
        JoinsAfterGap(s[1..]);
        assert [] + Fields(s[1..], "") == Fields(s[1..], "");
      } else {
        assert "" + [s[0]] == [s[0]];
        JoinsOn(s[1..], [s[0]]);
        FieldsStart(s[1..], [s[0]]);
      }
    }
  }

  lemma {:induction false} JoinsFromStart(s: string, gap: bool)
    requires forall k :: 0 <= k < |s| ==> !IsControl(s[k])
    ensures JoinedFields(s, false, gap) == Joined(Fields(s, ""))
    decreases |s|
  {
    if s != [] {
      if IsSpace(s[0]) {
        JoinsFromStart(s[1..], true);
        assert [] + Fields(s[1..], "") == Fields(s[1..], "");
      } else {
        assert "" + [s[0]] == [s[0]];
        JoinsOn(s[1..], [s[0]]);
      }
    }
  }

  /** A label is its words, without control characters and with one space between them, or a stand-in if
      there are none. */
  lemma {:induction false} LabelIsItsWords(s: string)
    ensures var words := Fields(WithoutControls(s), "");
            CleanStatusLabel(s) == if Joined(words) == "" then "session" else Joined(words)
  {
    JoinsFromStart(WithoutControls(s), false);
  }

  /** s[i..j] is s without its blanks at both ends. */
  ghost predicate TrimsTo(s: string, i: nat, j: nat) {
    && i <= j <= |s| && Trimmed(s) == s[i..j]
    && (forall k :: 0 <= k < i || j <= k < |s| ==> IsBlank(s[k]))
    && (i < j ==> !IsBlank(s[i]) && !IsBlank(s[j - 1]))
  }

  lemma {:induction false} TrimsFront(s: string, rest: string, i: nat, j: nat)
    requires s != [] && IsBlank(s[0]) && rest == s[1..] && TrimsTo(rest, i, j)
    ensures TrimsTo(s, i + 1, j + 1)
  {
    assert rest[i..j] == s[i + 1..j + 1];
    forall k | 0 <= k < i + 1 || j + 1 <= k < |s| ensures IsBlank(s[k]) {
      assert k > 0 ==> s[k] == rest[k - 1];
    }
  }

  lemma {:induction false} TrimsBack(s: string, rest: string, i: nat, j: nat)
    requires s != [] && !IsBlank(s[0]) && IsBlank(s[|s| - 1]) && rest == s[..|s| - 1] && TrimsTo(rest, i, j)
    ensures TrimsTo(s, i, j)
  {
    assert rest[i..j] == s[i..j];
    forall k | 0 <= k < i || j <= k < |s| ensures IsBlank(s[k]) {
      assert k < |rest| ==> s[k] == rest[k];
    }
  }

  /** The control characters are those of the sets C0 and C1 and delete (section 5.2 of ECMA-48). */
  lemma {:induction false} ControlsIff(c: char)
    ensures IsControl(c) <==> c as int == 127 || (c as int / 128 < 2 && c as int % 128 < 32)
  {
  }

  /** The blanks are the characters with Unicode's White_Space property; spaces are those that are no controls. */
  lemma {:induction false} BlanksIff(c: char)
    ensures IsBlank(c) <==>
            c as int in {9, 10, 11, 12, 13, 32, 133, 160, 5760, 8192, 8193, 8194, 8195, 8196, 8197, 8198, 8199, 8200,
                         8201, 8202, 8232, 8233, 8239, 8287, 12288}
    ensures IsSpace(c) <==> IsBlank(c) && !IsControl(c)
  {
  }

  /** Trimming takes blanks off both ends, all of them and nothing else. */
  lemma {:induction false} TrimmedIs(s: string) returns (i: nat, j: nat)
    ensures TrimsTo(s, i, j)
    decreases |s|
  {
    if s == [] {
      i, j := 0, 0;
    } else if IsBlank(s[0]) {
      i, j := TrimmedIs(s[1..]);
      TrimsFront(s, s[1..], i, j);
      i, j := i + 1, j + 1;
    } else if IsBlank(s[|s| - 1]) {
      i, j := TrimmedIs(s[..|s| - 1]);
      TrimsBack(s, s[..|s| - 1], i, j);
    } else {
      i, j := 0, |s|;
      assert s[0..|s|] == s;
    }
  }
}
