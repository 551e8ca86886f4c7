/** What the keyboard reader promises over whole runs: reads may be cut anywhere, the open switcher
    owns the keyboard, and a doubled prefix is one literal prefix. */
module KeyboardRuns {
  import opened Sequences
  import opened Keyboard

  // ---- Splitting ----

  function Reads(cfg: Config, lists: Listings, r: Reader, chunks: seq<seq<byte>>): Reader
    decreases |chunks|
  {
    if chunks == [] then r else Reads(cfg, lists, Read(cfg, lists, r, chunks[0]), chunks[1..])
  }

  /** Fed byte by byte, the reader would come to a focus report with no key pending and the
      switcher leaving it alone. */
  predicate MeetsFocusReport(cfg: Config, lists: Listings, r: Reader, data: seq<byte>)
    decreases |data|
  {
    && data != [] && r.running
    && (var (q, taken) := Offered(cfg, r, data[0]);
        || (!taken && q.mode == Idle && FocusReport(data))
        || MeetsFocusReport(cfg, lists, Step(cfg, lists, r, data[0]), data[1..]))
  }

  predicate FocusReportAt(cfg: Config, lists: Listings, r: Reader, data: seq<byte>, i: nat)
    requires i < |data|
  {
    var q := Feed(cfg, lists, r, data[..i]);
    && FocusReport(data[i..]) && q.running
    && var (o, taken) := Offered(cfg, q, data[i]); !taken && o.mode == Idle
  }

  lemma FocusReportShifts(cfg: Config, lists: Listings, r: Reader, data: seq<byte>, q: Reader, tail: seq<byte>, i: nat)
    requires data != [] && tail == data[1..] && q == Step(cfg, lists, r, data[0]) && i < |tail|
    ensures FocusReportAt(cfg, lists, r, data, i + 1) == FocusReportAt(cfg, lists, q, tail, i)
  {
    var before := data[..i + 1];
    assert before[0] == data[0] && before[1..] == tail[..i];
    assert data[i + 1..] == tail[i..];
  }

  lemma StoppedMeetsNone(cfg: Config, lists: Listings, r: Reader, data: seq<byte>, i: nat)
    requires !r.running && i < |data|
    ensures !FocusReportAt(cfg, lists, r, data, i)
  {
    StoppedStays(cfg, lists, r, data[..i]);
  }

  lemma FocusReportFirst(cfg: Config, lists: Listings, r: Reader, data: seq<byte>)
    requires data != [] && r.running
    ensures var (o, taken) := Offered(cfg, r, data[0]);
            FocusReportAt(cfg, lists, r, data, 0) <==> !taken && o.mode == Idle && FocusReport(data)
  {
    assert data[0..] == data && data[..0] == [];
  }

  lemma {:induction false} MeetsFocusReportSomewhere(cfg: Config, lists: Listings, r: Reader, data: seq<byte>)
    ensures MeetsFocusReport(cfg, lists, r, data) <==>
            exists i :: 0 <= i < |data| && FocusReportAt(cfg, lists, r, data, i)
    decreases |data|
  {
    if data != [] && r.running {
      var q, tail := Step(cfg, lists, r, data[0]), data[1..];
      MeetsFocusReportSomewhere(cfg, lists, q, tail);
      FocusReportFirst(cfg, lists, r, data);
      if i :| 0 < i < |data| && FocusReportAt(cfg, lists, r, data, i) {
        FocusReportShifts(cfg, lists, r, data, q, tail, i - 1);
      }
      if i :| 0 <= i < |tail| && FocusReportAt(cfg, lists, q, tail, i) {
        FocusReportShifts(cfg, lists, r, data, q, tail, i);
      }
    } else {
      forall i | 0 <= i < |data| ensures !FocusReportAt(cfg, lists, r, data, i) {
        StoppedMeetsNone(cfg, lists, r, data, i);
      }
    }
  }

  lemma {:induction false} StoppedStays(cfg: Config, lists: Listings, r: Reader, data: seq<byte>)
    requires !r.running
    ensures Feed(cfg, lists, r, data) == r
    decreases |data|
  {
    if data != [] {
      StoppedStays(cfg, lists, r, data[1..]);
    }
  }

  lemma {:induction false} FeedConcat(cfg: Config, lists: Listings, r: Reader, a: seq<byte>, b: seq<byte>)
    ensures Feed(cfg, lists, r, a + b) == Feed(cfg, lists, Feed(cfg, lists, r, a), b)
    decreases |a|
  {
    if a == [] {
      assert a + b == b;
    } else {
      assert (a + b)[1..] == a[1..] + b;
      FeedConcat(cfg, lists, Step(cfg, lists, r, a[0]), a[1..], b);
    }
  }

  lemma {:induction false} ReadIsFeed(cfg: Config, lists: Listings, r: Reader, data: seq<byte>, rest: seq<byte>)
    requires !MeetsFocusReport(cfg, lists, r, data + rest)
    ensures Read(cfg, lists, r, data) == Feed(cfg, lists, r, data)
    ensures !MeetsFocusReport(cfg, lists, Feed(cfg, lists, r, data), rest)
    decreases |data|
  {
    if data == [] {
      assert data + rest == rest;
    } else if !r.running {
      StoppedStays(cfg, lists, r, data);
    } else {
      var whole := data + rest;
      assert whole[0] == data[0] && whole[1..] == data[1..] + rest;
      assert FocusReport(data) ==> FocusReport(whole);
      ReadIsFeed(cfg, lists, Step(cfg, lists, r, data[0]), data[1..], rest);
    }
  }

  lemma {:induction false} ReadsAreFeed(cfg: Config, lists: Listings, r: Reader, chunks: seq<seq<byte>>)
    requires !MeetsFocusReport(cfg, lists, r, Flatten(chunks))
    ensures Reads(cfg, lists, r, chunks) == Feed(cfg, lists, r, Flatten(chunks))
    decreases |chunks|
  {
    if chunks != [] {
      var rest := Flatten(chunks[1..]);
      ReadIsFeed(cfg, lists, r, chunks[0], rest);
      FeedConcat(cfg, lists, r, chunks[0], rest);
      ReadsAreFeed(cfg, lists, Read(cfg, lists, r, chunks[0]), chunks[1..]);
    }
  }

  /** q happened after r, reporting no focus in between. */
  ghost predicate NoFocusBetween(r: Reader, q: Reader) {
    r.trace <= q.trace && forall k :: |r.trace| <= k < |q.trace| ==> !q.trace[k].Focus?
  }

  lemma OfferedReportsNoFocus(cfg: Config, r: Reader, b: byte)
    ensures NoFocusBetween(r, Offered(cfg, r, b).0)
  {
    OfferedIsQuiet(cfg, r, b);
  }

  lemma KeyReportsNoFocus(cfg: Config, lists: Listings, r: Reader, b: byte)
    ensures NoFocusBetween(r, KeyStep(cfg, lists, r, b))
  {
    if r.mode == Armed {
      ArmedReportsNoFocus(cfg, r, b);
    } else if r.mode == Sequence {
      SequenceReportsNoFocus(cfg, lists, r, b);
    }
  }

  lemma ArmedReportsNoFocus(cfg: Config, r: Reader, b: byte)
    ensures NoFocusBetween(r, ArmedStep(cfg, r, b))
  {
  }

  lemma SequenceReportsNoFocus(cfg: Config, lists: Listings, r: Reader, b: byte)
    ensures NoFocusBetween(r, SequenceStep(cfg, lists, r, b))
  {
  }

  lemma StepReportsNoFocus(cfg: Config, lists: Listings, r: Reader, b: byte)
    ensures NoFocusBetween(r, Step(cfg, lists, r, b))
  {
    if r.running {
      OfferedReportsNoFocus(cfg, r, b);
      KeyReportsNoFocus(cfg, lists, Offered(cfg, r, b).0, b);
    }
  }

  lemma {:induction false} FeedReportsNoFocus(cfg: Config, lists: Listings, r: Reader, data: seq<byte>)
    ensures NoFocusBetween(r, Feed(cfg, lists, r, data))
    decreases |data|
  {
    if data != [] {
      StepReportsNoFocus(cfg, lists, r, data[0]);
      FeedReportsNoFocus(cfg, lists, Step(cfg, lists, r, data[0]), data[1..]);
    }
  }

  lemma {:induction false} ReadGrows(cfg: Config, lists: Listings, r: Reader, data: seq<byte>)
    ensures r.trace <= Read(cfg, lists, r, data).trace
    decreases |data|
  {
    if data != [] && r.running {
      var (q, n) := Turn(cfg, lists, r, data);
      var (o, taken) := Offered(cfg, r, data[0]);
      OfferedReportsNoFocus(cfg, r, data[0]);
      KeyReportsNoFocus(cfg, lists, o, data[0]);
      ReadGrows(cfg, lists, q, data[n..]);
    }
  }

  lemma {:induction false} MetFocusReportIsRead(cfg: Config, lists: Listings, r: Reader, data: seq<byte>)
    requires MeetsFocusReport(cfg, lists, r, data)
    ensures !NoFocusBetween(r, Read(cfg, lists, r, data))
    decreases |data|
  {
    var (q, n) := Turn(cfg, lists, r, data);
    var (o, taken) := Offered(cfg, r, data[0]);
    var end := Read(cfg, lists, r, data);
    OfferedReportsNoFocus(cfg, r, data[0]);
    if !taken && o.mode == Idle && FocusReport(data) {
      ReadGrows(cfg, lists, q, data[n..]);
      assert q.trace == o.trace + [Focus(data[2] == 0x49)];
      assert q.trace[|o.trace|].Focus? && end.trace[|o.trace|] == q.trace[|o.trace|];
    } else {
      StepReportsNoFocus(cfg, lists, r, data[0]);
      assert q == Step(cfg, lists, r, data[0]) && n == 1;
      MetFocusReportIsRead(cfg, lists, q, data[1..]);
      ReadGrows(cfg, lists, q, data[1..]);
      var k :| |q.trace| <= k < |end.trace| && end.trace[k].Focus?;
      assert |r.trace| <= k;
    }
  }

  /** Cutting the same bytes into reads makes no difference, to what is sent, what is done, or the
      order of the two, exactly when no focus report stands where it would be recognised. */
  lemma SplittingIsInvisibleIff(cfg: Config, lists: Listings, r: Reader, data: seq<byte>)
    ensures (forall chunks :: Flatten(chunks) == data ==> Reads(cfg, lists, r, chunks) == Feed(cfg, lists, r, data))
            <==> !(exists i :: 0 <= i < |data| && FocusReportAt(cfg, lists, r, data, i))
  {
    MeetsFocusReportSomewhere(cfg, lists, r, data);
    if MeetsFocusReport(cfg, lists, r, data) {
      assert Flatten([data]) == data;
      assert Reads(cfg, lists, r, [data]) == Read(cfg, lists, r, data);
      MetFocusReportIsRead(cfg, lists, r, data);
      FeedReportsNoFocus(cfg, lists, r, data);
    } else {
      forall chunks | Flatten(chunks) == data ensures Reads(cfg, lists, r, chunks) == Feed(cfg, lists, r, data) {
        ReadsAreFeed(cfg, lists, r, chunks);
      }
    }
  }

  predicate NoFocusReports(data: seq<byte>) {
    forall i :: 0 <= i < |data| ==> !FocusReport(data[i..])
  }

  lemma PlainTextMeetsNoFocusReport(cfg: Config, lists: Listings, r: Reader, data: seq<byte>)
    requires NoFocusReports(data)
    ensures !MeetsFocusReport(cfg, lists, r, data)
  {
    MeetsFocusReportSomewhere(cfg, lists, r, data);
  }

  /** Two ways of cutting text free of focus reports cannot be told apart. */
  lemma SplittingPlainText(cfg: Config, lists: Listings, r: Reader, one: seq<seq<byte>>, other: seq<seq<byte>>)
    requires Flatten(one) == Flatten(other) && NoFocusReports(Flatten(one))
    ensures Reads(cfg, lists, r, one) == Reads(cfg, lists, r, other)
  {
    PlainTextMeetsNoFocusReport(cfg, lists, r, Flatten(one));
    ReadsAreFeed(cfg, lists, r, one);
    ReadsAreFeed(cfg, lists, r, other);
  }

  // ---- The open switcher owns the keyboard ----

  datatype Input = Bytes(data: seq<byte>) | Timeout

  /** readAttachInput: reads and expired escape deadlines, in any order. */
  function Run(cfg: Config, lists: Listings, r: Reader, inputs: seq<Input>): Reader
    decreases |inputs|
  {
    if inputs == [] || !r.running then r
    else Run(cfg, lists, match inputs[0] case Bytes(data) => Read(cfg, lists, r, data) case Timeout => TimedOut(cfg, r),
             inputs[1..])
  }

  predicate ForMenu(e: Event) {
    e.MenuToggle? || e.MenuMove? || e.MenuSelect? || e.MenuChoose? || e.MenuClose?
  }

  function MenuAfter(lists: Listings, m: Menu, e: Event): Menu {
    match e
    case MenuToggle => MenuToggled(lists, m)
    case MenuMove(delta) => MenuMoved(m, delta)
    case MenuSelect(index) => MenuSelected(m, index)
    case MenuChoose => MenuClosed(m)
    case MenuClose => MenuClosed(m)
    case _ => m
  }

  /** The switcher as its calls alone leave it. */
  function Replay(lists: Listings, trace: seq<Event>): Menu
    decreases |trace|
  {
    if trace == [] then Menu(false, 0, 0, 0)
    else MenuAfter(lists, Replay(lists, trace[..|trace| - 1]), trace[|trace| - 1])
  }

  /** Whatever is not a switcher call happened while the switcher was closed. */
  ghost predicate Owns(lists: Listings, trace: seq<Event>) {
    forall k :: 0 <= k < |trace| && !ForMenu(trace[k]) ==> !Replay(lists, trace[..k]).open
  }

  ghost predicate Good(cfg: Config, lists: Listings, r: Reader) {
    && r.menu == Replay(lists, r.trace)
    && Owns(lists, r.trace)
    && (r.menu.open ==> cfg.hasMenu && r.mode == Idle)
  }

  lemma EmitOwned(lists: Listings, trace: seq<Event>, e: Event)
    requires Owns(lists, trace) && (ForMenu(e) || !Replay(lists, trace).open)
    ensures Owns(lists, trace + [e])
    ensures Replay(lists, trace + [e]) == MenuAfter(lists, Replay(lists, trace), e)
  {
    var whole := trace + [e];
    assert whole[..|trace|] == trace;
    forall k | 0 <= k < |whole| && !ForMenu(whole[k]) ensures !Replay(lists, whole[..k]).open {
      if k < |trace| {
        assert whole[..k] == trace[..k];
      }
    }
  }

  lemma TypedSnoc(trace: seq<Event>, bytes: seq<byte>, init: seq<byte>, last: byte)
    requires bytes == init + [last]
    ensures trace + Typed(bytes) == (trace + Typed(init)) + [SessionByte(last)]
  {
    assert Typed(bytes) == Typed(init) + [SessionByte(last)];
  }

  lemma {:induction false} TypedOwned(lists: Listings, trace: seq<Event>, bytes: seq<byte>)
    requires Owns(lists, trace) && !Replay(lists, trace).open
    ensures Owns(lists, trace + Typed(bytes)) && Replay(lists, trace + Typed(bytes)) == Replay(lists, trace)
    decreases |bytes|
  {
    if bytes == [] {
      assert trace + Typed(bytes) == trace;
    } else {
      var init, last := bytes[..|bytes| - 1], bytes[|bytes| - 1];
      var before := trace + Typed(init);
      TypedOwned(lists, trace, init);
      TypedSnoc(trace, bytes, init, last);
      EmitOwned(lists, before, SessionByte(last));
    }
  }

  /** A switcher key either makes one switcher call, on the switcher as it was, or none. */
  predicate Drives(lists: Listings, r: Reader, q: Reader) {
    || q == r.(menuMode := q.menuMode)
    || (r.trace < q.trace
        && var e := q.trace[|r.trace|];
           && ForMenu(e) && e != MenuToggle
           && q == Emit(r.(menuMode := q.menuMode, menu := MenuAfter(lists, r.menu, e)), e))
  }

  lemma MenuKeyDrives(cfg: Config, lists: Listings, r: Reader, b: byte)
    ensures Drives(lists, r, MenuKey(cfg, r, b))
  {
  }

  lemma MenuStepDrives(cfg: Config, lists: Listings, r: Reader, b: byte)
    ensures Drives(lists, r, MenuStep(cfg, r, b).0)
  {
    if r.menuMode != Escape && r.menuMode != Sequence {
      MenuKeyDrives(cfg, lists, r, b);
    }
  }

  lemma DrivenGood(cfg: Config, lists: Listings, r: Reader, q: Reader)
    requires Good(cfg, lists, r) && r.menu.open && Drives(lists, r, q)
    ensures Good(cfg, lists, q)
  {
    if q.trace != r.trace {
      EmitOwned(lists, r.trace, q.trace[|r.trace|]);
    }
  }

  lemma OfferedGood(cfg: Config, lists: Listings, r: Reader, b: byte)
    requires Good(cfg, lists, r)
    ensures var (q, taken) := Offered(cfg, r, b); Good(cfg, lists, q) && (!taken ==> !q.menu.open)
  {
    if r.menu.open {
      MenuStepDrives(cfg, lists, r, b);
      DrivenGood(cfg, lists, r, Offered(cfg, r, b).0);
    }
  }

  lemma EmitGood(cfg: Config, lists: Listings, r: Reader, e: Event)
    requires Good(cfg, lists, r) && !r.menu.open && !ForMenu(e)
    ensures Good(cfg, lists, Emit(r, e))
  {
    EmitOwned(lists, r.trace, e);
  }

  lemma TypeGood(cfg: Config, lists: Listings, r: Reader, bytes: seq<byte>)
    requires Good(cfg, lists, r) && !r.menu.open
    ensures Good(cfg, lists, EmitBytes(r, bytes))
  {
    TypedOwned(lists, r.trace, bytes);
  }

  lemma ArmedGood(cfg: Config, lists: Listings, r: Reader, b: byte)
    requires Good(cfg, lists, r) && !r.menu.open
    ensures Good(cfg, lists, ArmedStep(cfg, r, b))
  {
    var p, q := r.(mode := Idle), ArmedStep(cfg, r, b);
    if b == 0x71 || b == 0x51 {
      EmitGood(cfg, lists, p, Detach);
    } else if (b == 0x6d || b == 0x4d) && cfg.supportsNotifications {
      EmitGood(cfg, lists, p.(muted := !p.muted), Mute(!p.muted));
    } else if (b == 0x6e || b == 0x4e) && cfg.canCreate {
      EmitGood(cfg, lists, p, NewSession);
    } else if Digit(b) && cfg.canSwitch {
      EmitGood(cfg, lists, p, Switch(0, (b - 0x30) as nat));
    } else if b != ESC {
      TypeGood(cfg, lists, p, if b == cfg.prefix then [cfg.prefix] else [cfg.prefix, b]);
    }
  }

  lemma SequenceGood(cfg: Config, lists: Listings, r: Reader, b: byte)
    requires Good(cfg, lists, r) && !r.menu.open
    ensures Good(cfg, lists, SequenceStep(cfg, lists, r, b))
  {
    var p := r.(mode := Idle);
    if (b == 0x43 || b == 0x44) && cfg.canSwitch {
      EmitGood(cfg, lists, p, Switch(if b == 0x43 then 1 else -1, 0));
    } else if (b == 0x41 || b == 0x42) && cfg.hasMenu {
      EmitOwned(lists, r.trace, MenuToggle);
    } else {
      TypeGood(cfg, lists, p, [cfg.prefix, ESC, r.introducer, b]);
    }
  }

  lemma KeyGood(cfg: Config, lists: Listings, r: Reader, b: byte)
    requires Good(cfg, lists, r) && !r.menu.open
    ensures Good(cfg, lists, KeyStep(cfg, lists, r, b))
  {
    match r.mode {
      case Armed => ArmedGood(cfg, lists, r, b);
      case Escape => TypeGood(cfg, lists, r.(mode := Idle), [cfg.prefix, ESC, b]);
      case Sequence => SequenceGood(cfg, lists, r, b);
      case Idle => TypeGood(cfg, lists, r, [b]);
    }
  }

  lemma {:induction false} ReadGood(cfg: Config, lists: Listings, r: Reader, data: seq<byte>)
    requires Good(cfg, lists, r)
    ensures Good(cfg, lists, Read(cfg, lists, r, data))
    decreases |data|
  {
    if data != [] && r.running {
      var (q, n) := Turn(cfg, lists, r, data);
      var (o, taken) := Offered(cfg, r, data[0]);
      OfferedGood(cfg, lists, r, data[0]);
      if !taken {
        if o.mode == Idle && FocusReport(data) {
          EmitGood(cfg, lists, o, Focus(data[2] == 0x49));
        } else {
          KeyGood(cfg, lists, o, data[0]);
        }
      }
      ReadGood(cfg, lists, q, data[n..]);
    }
  }

  lemma TimedOutGood(cfg: Config, lists: Listings, r: Reader)
    requires Good(cfg, lists, r)
    ensures Good(cfg, lists, TimedOut(cfg, r))
  {
    if r.menuMode == Escape && cfg.hasMenu {
      EmitOwned(lists, r.trace, MenuClose);
    }
  }

  lemma {:induction false} RunGood(cfg: Config, lists: Listings, r: Reader, inputs: seq<Input>)
    requires Good(cfg, lists, r)
    ensures Good(cfg, lists, Run(cfg, lists, r, inputs))
    decreases |inputs|
  {
    if inputs != [] && r.running {
      match inputs[0] {
        case Bytes(data) => ReadGood(cfg, lists, r, data);
        case Timeout => TimedOutGood(cfg, lists, r);
      }
      var q := match inputs[0] case Bytes(data) => Read(cfg, lists, r, data) case Timeout => TimedOut(cfg, r);
      RunGood(cfg, lists, q, inputs[1..]);
    }
  }

  /** However keys are split over reads and whenever deadlines expire: a byte reaches the session,
      and an attach action fires, only at a point where the switcher is closed; and while it is open
      no prefixed key is half read. */
  lemma SwitcherOwnsTheKeyboard(cfg: Config, lists: Listings, muted: bool, inputs: seq<Input>)
    ensures var end := Run(cfg, lists, Fresh(muted), inputs);
            && (forall k :: 0 <= k < |end.trace| && !ForMenu(end.trace[k]) ==> !Replay(lists, end.trace[..k]).open)
            && end.menu == Replay(lists, end.trace)
            && (end.menu.open ==> cfg.hasMenu && end.mode == Idle)
  {
    RunGood(cfg, lists, Fresh(muted), inputs);
  }

  /** A turn that starts with the switcher open and does anything but drive it closed it first, on
      a byte showing that a held escape stood alone. */
  lemma OnlyALoneEscapeLetsAByteThrough(cfg: Config, lists: Listings, r: Reader, data: seq<byte>)
    requires data != [] && r.menu.open && r.mode == Idle && cfg.hasMenu
    ensures var (q, n) := Turn(cfg, lists, r, data);
            (q.mode != Idle || exists k :: |r.trace| <= k < |q.trace| && !ForMenu(q.trace[k]))
            <==> r.menuMode == Escape && data[0] != BRACKET && data[0] != 0x4f
  {
    var (q, n) := Turn(cfg, lists, r, data);
    var (o, taken) := Offered(cfg, r, data[0]);
    if r.menuMode == Escape && data[0] != BRACKET && data[0] != 0x4f {
      assert !taken && o.trace == r.trace + [MenuClose];
      if q.mode == Idle {
        assert q.trace[|o.trace|].SessionByte? || q.trace[|o.trace|].Focus?;
      }
    } else {
      assert taken;
    }
  }

  // ---- Quoting ----

  function Quote(prefix: byte, data: seq<byte>): (r: seq<byte>) {
    if data == [] then [] else (if data[0] == prefix then [prefix, prefix] else [data[0]]) + Quote(prefix, data[1..])
  }

  /** parseAttachPrefix: the control keys, but not interrupt, end-of-file or suspend. */
  predicate AllowedPrefix(prefix: byte) {
    prefix < 0x20 && prefix != 0x03 && prefix != 0x04 && prefix != 0x1a
  }

  /** Ready for a key, with the switcher out of the way. */
  predicate AtRest(r: Reader) {
    r.running && r.mode == Idle && !r.menu.open && r.menuMode == Idle
  }

  lemma {:induction false} QuotedIsTyped(cfg: Config, lists: Listings, r: Reader, data: seq<byte>)
    requires AllowedPrefix(cfg.prefix) && cfg.prefix != ESC && AtRest(r)
    ensures Feed(cfg, lists, r, Quote(cfg.prefix, data)) == EmitBytes(r, data)
    decreases |data|
  {
    if data == [] {
      assert r.trace + Typed(data) == r.trace;
    } else {
      var b, rest := data[0], Quote(cfg.prefix, data[1..]);
      var quoted := Quote(cfg.prefix, data);
      var q := EmitBytes(r, [b]);
      if b == cfg.prefix {
        assert quoted[1..][1..] == rest && quoted[1..][0] == cfg.prefix;
        assert Step(cfg, lists, Step(cfg, lists, r, b), b) == q;
      } else {
        assert quoted[1..] == rest;
        assert Step(cfg, lists, r, b) == q;
      }
      QuotedIsTyped(cfg, lists, q, data[1..]);
      assert data == [b] + data[1..];
      TypedConcat([b], data[1..]);
      ConcatAssociates(r.trace, Typed([b]), Typed(data[1..]));
    }
  }

  /** Fed a byte at a time, where no focus report is ever seen: doubling the prefix delivers every byte
      string exactly when the prefix is not escape. */
  lemma QuotingWorksIff(cfg: Config, lists: Listings, r: Reader)
    requires AllowedPrefix(cfg.prefix) && AtRest(r)
    ensures (forall data :: Feed(cfg, lists, r, Quote(cfg.prefix, data)) == EmitBytes(r, data)) <==> cfg.prefix != ESC
  {
    if cfg.prefix != ESC {
      forall data ensures Feed(cfg, lists, r, Quote(cfg.prefix, data)) == EmitBytes(r, data) {
        QuotedIsTyped(cfg, lists, r, data);
      }
    } else {
      var data := [ESC];
      assert Quote(ESC, data) == [ESC, ESC];
      var armed := Step(cfg, lists, r, ESC);
      assert [ESC, ESC][1..] == [ESC];
      assert Feed(cfg, lists, r, [ESC, ESC]) == Feed(cfg, lists, armed, [ESC]);
      assert [ESC][1..] == [];
      assert Feed(cfg, lists, armed, [ESC]) == Step(cfg, lists, armed, ESC);
      assert Step(cfg, lists, armed, ESC).mode == Escape;
      assert Feed(cfg, lists, r, Quote(cfg.prefix, data)) != EmitBytes(r, data);
    }
  }

  lemma QuotedReportWasThere(prefix: byte, data: seq<byte>)
    requires AllowedPrefix(prefix) && prefix != ESC && FocusReport(Quote(prefix, data))
    ensures FocusReport(data)
  {
    var quoted, rest := Quote(prefix, data), Quote(prefix, data[1..]);
    assert quoted[0] == data[0] && quoted[1..] == rest;
    assert rest[0] == quoted[1] == data[1];
    assert rest[1..] == Quote(prefix, data[1..][1..]);
    assert rest[1] == quoted[2] == data[2];
  }

  lemma {:induction false} QuotingAddsNoFocusReport(prefix: byte, data: seq<byte>)
    requires AllowedPrefix(prefix) && prefix != ESC && NoFocusReports(data)
    ensures NoFocusReports(Quote(prefix, data))
    decreases |data|
  {
    if data != [] {
      var tail := data[1..];
      var rest, quoted := Quote(prefix, tail), Quote(prefix, data);
      forall i | 0 <= i < |tail| ensures !FocusReport(tail[i..]) {
        assert tail[i..] == data[i + 1..];
      }
      QuotingAddsNoFocusReport(prefix, tail);
      assert data[0..] == data;
      if FocusReport(quoted) {
        QuotedReportWasThere(prefix, data);
      }
      forall i | 0 <= i < |quoted| ensures !FocusReport(quoted[i..]) {
        var head := |quoted| - |rest|;
        if i >= head {
          assert quoted[i..] == rest[i - head..];
        } else if i > 0 {
          assert quoted[i] == prefix;
        } else {
          assert quoted[0..] == quoted;
        }
      }
    }
  }

  /** Text free of focus reports, sent with its prefix bytes doubled and cut anywhere, reaches the
      session unchanged and fires nothing. */
  lemma QuotedTextIsDelivered(cfg: Config, lists: Listings, r: Reader, data: seq<byte>, chunks: seq<seq<byte>>)
    requires AllowedPrefix(cfg.prefix) && cfg.prefix != ESC && AtRest(r)
    requires NoFocusReports(data) && Flatten(chunks) == Quote(cfg.prefix, data)
    ensures Reads(cfg, lists, r, chunks) == EmitBytes(r, data)
  {
    QuotingAddsNoFocusReport(cfg.prefix, data);
    PlainTextMeetsNoFocusReport(cfg, lists, r, Flatten(chunks));
    ReadsAreFeed(cfg, lists, r, chunks);
    QuotedIsTyped(cfg, lists, r, data);
  }
}
