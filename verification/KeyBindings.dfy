/** Which key does what (internal/server/attach_input.go), told from the bytes a terminal sends, in
    reads of any size; and where the keys that switch sessions lead. */
module KeyBindings {
  import opened Sequences
  import opened Keyboard
  import opened KeyboardRuns
  import SessionOrder

  /** The byte of an ASCII character. */
  function Key(c: char): byte
    requires c < '\U{80}'
  {
    c as int as byte
  }

  /** An arrow key, in a terminal's normal or its application mode: A is up, B down, C right, D left. */
  predicate Arrow(keys: seq<byte>, which: char)
    requires which < '\U{80}'
  {
    keys == [0x1b, Key('['), Key(which)] || keys == [0x1b, Key('O'), Key(which)]
  }

  /** The digit d. */
  predicate Numbered(keys: seq<byte>, d: nat) {
    1 <= d <= 9 && keys == [(0x30 + d) as byte]
  }

  /** What is bound to these keys after the prefix. */
  ghost predicate Bound(cfg: Config, muted: bool, keys: seq<byte>, e: Event) {
    || ((keys == [Key('q')] || keys == [Key('Q')]) && e == Detach)
    || ((keys == [Key('m')] || keys == [Key('M')]) && cfg.supportsNotifications && e == Mute(!muted))
    || ((keys == [Key('n')] || keys == [Key('N')]) && cfg.canCreate && e == NewSession)
    || (exists d: nat :: Numbered(keys, d) && cfg.canSwitch && e == Switch(0, d))
    || (Arrow(keys, 'C') && cfg.canSwitch && e == Switch(1, 0))
    || (Arrow(keys, 'D') && cfg.canSwitch && e == Switch(-1, 0))
    || ((Arrow(keys, 'A') || Arrow(keys, 'B')) && cfg.hasMenu && e == MenuToggle)
  }

  /** What is bound to these keys while the switcher is open. */
  ghost predicate BoundInMenu(cfg: Config, keys: seq<byte>, e: Event) {
    || ((keys == [0x0d] || keys == [0x0a]) && e == MenuChoose)
    || ((keys == [Key('k')] || Arrow(keys, 'A')) && e == MenuMove(-1))
    || ((keys == [Key('j')] || Arrow(keys, 'B')) && e == MenuMove(1))
    || (exists d: nat :: Numbered(keys, d) && e == MenuSelect(d))
    || ((keys == [Key('q')] || keys == [Key('Q')] || keys == [0x03]) && e == MenuClose)
    || (keys == [cfg.prefix] && cfg.prefix !in [0x0d, 0x0a, 0x1b] && e == MenuClose)
  }

  /** One key: a single byte, or an arrow-like sequence. */
  predicate OneKey(keys: seq<byte>) {
    || (|keys| == 1 && keys[0] != 0x1b)
    || (|keys| == 3 && keys[0] == 0x1b && (keys[1] == Key('[') || keys[1] == Key('O')))
  }

  // ---- Feeding a key ----

  lemma {:induction false} FeedOne(cfg: Config, lists: Listings, r: Reader, a: byte)
    ensures Feed(cfg, lists, r, [a]) == Step(cfg, lists, r, a)
  {
    assert [a][1..] == [];
  }

  lemma {:induction false} FeedTwo(cfg: Config, lists: Listings, r: Reader, a: byte, b: byte)
    ensures Feed(cfg, lists, r, [a, b]) == Step(cfg, lists, Step(cfg, lists, r, a), b)
  {
    assert [a, b][1..] == [b];
    FeedOne(cfg, lists, Step(cfg, lists, r, a), b);
  }

  lemma {:induction false} FeedThree(cfg: Config, lists: Listings, r: Reader, a: byte, b: byte, c: byte)
    ensures Feed(cfg, lists, r, [a, b, c])
         == Step(cfg, lists, Step(cfg, lists, Step(cfg, lists, r, a), b), c)
  {
    assert [a, b, c][1..] == [b, c];
    FeedTwo(cfg, lists, Step(cfg, lists, r, a), b, c);
  }

  lemma {:induction false} TwoNewEvents(trace: seq<Event>, bytes: seq<byte>, e: Event)
    requires bytes != [] && !e.SessionByte?
    ensures trace + Typed(bytes) != trace + [e]
  {
    assert (trace + Typed(bytes))[|trace|] == SessionByte(bytes[0]);
    assert (trace + [e])[|trace|] == e;
  }

  lemma {:induction false} SameEvent(trace: seq<Event>, one: Event, other: Event)
    ensures trace + [one] == trace + [other] <==> one == other
  {
    assert (trace + [one])[|trace|] == one && (trace + [other])[|trace|] == other;
  }

  /** The reader with the prefix held. */
  lemma {:induction false} PrefixArms(cfg: Config, lists: Listings, r: Reader)
    requires AtRest(r)
    ensures Step(cfg, lists, r, cfg.prefix) == r.(mode := Armed)
  {
  }

  /** A byte is the digit d for at most one d. */
  lemma {:induction false} NumberedIff(b: byte, d: nat)
    ensures Numbered([b], d) <==> Digit(b) && d == (b - 0x30) as nat
  {
  }

  lemma {:induction false} NoArrow(b: byte)
    ensures !Arrow([b], 'A') && !Arrow([b], 'B') && !Arrow([b], 'C') && !Arrow([b], 'D')
  {
  }

  lemma {:induction false} BoundByteIff(cfg: Config, muted: bool, b: byte, e: Event)
    ensures Bound(cfg, muted, [b], e) <==>
            || ((b == 0x71 || b == 0x51) && e == Detach)
            || ((b == 0x6d || b == 0x4d) && cfg.supportsNotifications && e == Mute(!muted))
            || ((b == 0x6e || b == 0x4e) && cfg.canCreate && e == NewSession)
            || (Digit(b) && cfg.canSwitch && e == Switch(0, (b - 0x30) as nat))
  {
    NoArrow(b);
    forall d: nat ensures Numbered([b], d) <==> Digit(b) && d == (b - 0x30) as nat {
      NumberedIff(b, d);
    }
  }

  lemma {:induction false} ByteActsIff(cfg: Config, lists: Listings, r: Reader, b: byte, e: Event)
    requires AtRest(r) && b != 0x1b && !e.SessionByte?
    ensures Step(cfg, lists, r.(mode := Armed), b).trace == r.trace + [e] <==> Bound(cfg, r.muted, [b], e)
  {
    BoundByteIff(cfg, r.muted, b, e);
    TwoNewEvents(r.trace, [cfg.prefix], e);
    TwoNewEvents(r.trace, [cfg.prefix, b], e);
    SameEvent(r.trace, Detach, e);
    SameEvent(r.trace, Mute(!r.muted), e);
    SameEvent(r.trace, NewSession, e);
    if Digit(b) {
      SameEvent(r.trace, Switch(0, (b - 0x30) as nat), e);
    }
  }

  lemma {:induction false} SequenceActsIff(cfg: Config, lists: Listings, r: Reader, keys: seq<byte>, e: Event)
    requires AtRest(r) && OneKey(keys) && |keys| == 3 && !e.SessionByte?
    ensures Step(cfg, lists, r.(mode := Sequence, introducer := keys[1]), keys[2]).trace == r.trace + [e]
            <==> Bound(cfg, r.muted, keys, e)
  {
    var i, f := keys[1], keys[2];
    assert keys == [0x1b, i, f];
    assert forall d: nat :: !Numbered(keys, d);
    TwoNewEvents(r.trace, [cfg.prefix, ESC, i, f], e);
    SameEvent(r.trace, Switch(1, 0), e);
    SameEvent(r.trace, Switch(-1, 0), e);
    SameEvent(r.trace, MenuToggle, e);
  }

  lemma {:induction false} SequenceIsHeld(cfg: Config, lists: Listings, r: Reader, introducer: byte)
    requires AtRest(r) && (introducer == BRACKET || introducer == 0x4f)
    ensures var held := Step(cfg, lists, r.(mode := Armed), ESC);
            Step(cfg, lists, held, introducer) == r.(mode := Sequence, introducer := introducer)
  {
  }

  lemma {:induction false} KeyHasNoFocusReport(prefix: byte, keys: seq<byte>)
    requires OneKey(keys) && (|keys| == 3 ==> keys[2] != 0x49 && keys[2] != 0x4f)
    ensures NoFocusReports([prefix] + keys) && NoFocusReports(keys)
  {
    var data := [prefix] + keys;
    forall i | 0 <= i < |data| ensures !FocusReport(data[i..]) {
      if |data[i..]| > 2 && data[i] == ESC && data[i + 1] == BRACKET {
        assert data[i + 2] == data[i..][2];
      }
    }
    forall i | 0 <= i < |keys| ensures !FocusReport(keys[i..]) {
      assert keys[i..] == data[i + 1..];
    }
  }

  /** From rest, whatever the prefix and the reads: a prefixed key makes just this happen, exactly when that
      is what is bound to it. */
  lemma {:induction false} KeyActsIff(cfg: Config, lists: Listings, r: Reader, keys: seq<byte>, e: Event)
    requires AtRest(r) && OneKey(keys) && !e.SessionByte?
    ensures Feed(cfg, lists, r, [cfg.prefix] + keys).trace == r.trace + [e] <==> Bound(cfg, r.muted, keys, e)
  {
    PrefixArms(cfg, lists, r);
    if |keys| == 1 {
      assert [cfg.prefix] + keys == [cfg.prefix, keys[0]] && keys == [keys[0]];
      FeedTwo(cfg, lists, r, cfg.prefix, keys[0]);
      ByteActsIff(cfg, lists, r, keys[0], e);
    } else {
      FeedArrow(cfg, lists, r, keys);
      SequenceActsIff(cfg, lists, r, keys, e);
    }
  }

  lemma {:induction false} FeedArrow(cfg: Config, lists: Listings, r: Reader, keys: seq<byte>)
    requires AtRest(r) && OneKey(keys) && |keys| == 3
    ensures Feed(cfg, lists, r, [cfg.prefix] + keys)
         == Step(cfg, lists, r.(mode := Sequence, introducer := keys[1]), keys[2])
  {
    var data := [cfg.prefix] + keys;
    assert data[1..] == keys == [ESC, keys[1], keys[2]];
    PrefixArms(cfg, lists, r);
    assert Feed(cfg, lists, r, data) == Feed(cfg, lists, r.(mode := Armed), keys);
    FeedThree(cfg, lists, r.(mode := Armed), ESC, keys[1], keys[2]);
    SequenceIsHeld(cfg, lists, r, keys[1]);
  }

  /** What a bound key leaves: it is over and done with, the switcher and the mute state are those of the
      action, and only detaching stops the reader. */
  ghost predicate ActedBy(lists: Listings, r: Reader, q: Reader, e: Event) {
    && q.trace == r.trace + [e]
    && (q.running <==> e != Detach)
    && q.mode == Idle && q.menuMode == Idle
    && q.muted == (if e.Mute? then e.muted else r.muted)
    && q.menu == MenuAfter(lists, r.menu, e)
  }

  /** A bound key does what is bound to it, in reads cut anywhere. */
  lemma {:induction false} BoundKeyActs(
    cfg: Config, lists: Listings, r: Reader, keys: seq<byte>, e: Event, chunks: seq<seq<byte>>)
    requires AtRest(r) && Bound(cfg, r.muted, keys, e) && Flatten(chunks) == [cfg.prefix] + keys
    ensures ActedBy(lists, r, Reads(cfg, lists, r, chunks), e)
  {
    KeyActsIff(cfg, lists, r, keys, e);
    KeyHasNoFocusReport(cfg.prefix, keys);
    PlainTextMeetsNoFocusReport(cfg, lists, r, Flatten(chunks));
    ReadsAreFeed(cfg, lists, r, chunks);
    BoundKeyEnds(cfg, lists, r, keys, e);
  }

  lemma {:induction false} BoundKeyEnds(cfg: Config, lists: Listings, r: Reader, keys: seq<byte>, e: Event)
    requires AtRest(r) && Bound(cfg, r.muted, keys, e)
    ensures ActedBy(lists, r, Feed(cfg, lists, r, [cfg.prefix] + keys), e)
  {
    PrefixArms(cfg, lists, r);
    if |keys| == 1 {
      assert [cfg.prefix] + keys == [cfg.prefix, keys[0]] && keys == [keys[0]];
      FeedTwo(cfg, lists, r, cfg.prefix, keys[0]);
      BoundByteIff(cfg, r.muted, keys[0], e);
    } else {
      FeedArrow(cfg, lists, r, keys);
    }
  }

  // ---- The open switcher ----

  /** The switcher is open and waiting for a key. */
  predicate MenuAtRest(cfg: Config, r: Reader) {
    r.running && r.mode == Idle && r.menu.open && r.menuMode == Idle && cfg.hasMenu
  }

  lemma {:induction false} MenuByteActsIff(cfg: Config, lists: Listings, r: Reader, b: byte, e: Event)
    requires MenuAtRest(cfg, r) && b != 0x1b && AllowedPrefix(cfg.prefix)
    ensures Step(cfg, lists, r, b).trace == r.trace + [e] <==> BoundInMenu(cfg, [b], e)
  {
    var keys := [b];
    NoArrow(b);
    forall d: nat ensures Numbered(keys, d) <==> Digit(b) && d == (b - 0x30) as nat {
      NumberedIff(b, d);
    }
    SameEvent(r.trace, MenuChoose, e);
    SameEvent(r.trace, MenuMove(-1), e);
    SameEvent(r.trace, MenuMove(1), e);
    SameEvent(r.trace, MenuClose, e);
    if Digit(b) {
      SameEvent(r.trace, MenuSelect((b - 0x30) as nat), e);
    }
  }

  lemma {:induction false} MenuSequenceActsIff(cfg: Config, lists: Listings, r: Reader, keys: seq<byte>, e: Event)
    requires MenuAtRest(cfg, r) && OneKey(keys) && |keys| == 3
    ensures Step(cfg, lists, r.(menuMode := Sequence), keys[2]).trace == r.trace + [e] <==> BoundInMenu(cfg, keys, e)
  {
    assert keys == [0x1b, keys[1], keys[2]];
    assert forall d: nat :: !Numbered(keys, d);
    SameEvent(r.trace, MenuMove(-1), e);
    SameEvent(r.trace, MenuMove(1), e);
  }

  lemma {:induction false} MenuSequenceIsHeld(cfg: Config, lists: Listings, r: Reader, introducer: byte)
    requires MenuAtRest(cfg, r) && (introducer == BRACKET || introducer == 0x4f)
    ensures Step(cfg, lists, Step(cfg, lists, r, ESC), introducer) == r.(menuMode := Sequence)
  {
  }

  /** While the switcher is open a key makes just this happen exactly when that is what is bound to it
      there; any other key does nothing at all. */
  lemma {:induction false} MenuKeyActsIff(cfg: Config, lists: Listings, r: Reader, keys: seq<byte>, e: Event)
    requires MenuAtRest(cfg, r) && OneKey(keys) && AllowedPrefix(cfg.prefix)
    ensures Feed(cfg, lists, r, keys).trace == r.trace + [e] <==> BoundInMenu(cfg, keys, e)
    ensures (forall e :: !BoundInMenu(cfg, keys, e)) ==> Feed(cfg, lists, r, keys) == r
    ensures BoundInMenu(cfg, keys, e) ==> Feed(cfg, lists, r, keys).menu == MenuAfter(lists, r.menu, e)
  {
    if |keys| == 1 {
      assert keys == [keys[0]];
      FeedOne(cfg, lists, r, keys[0]);
      MenuByteActsIff(cfg, lists, r, keys[0], e);
      MenuByteElse(cfg, lists, r, keys[0], e);
    } else {
      assert keys == [ESC, keys[1], keys[2]];
      FeedThree(cfg, lists, r, ESC, keys[1], keys[2]);
      MenuSequenceIsHeld(cfg, lists, r, keys[1]);
      MenuSequenceActsIff(cfg, lists, r, keys, e);
      MenuSequenceElse(cfg, lists, r, keys, e);
    }
  }

  lemma {:induction false} MenuByteElse(cfg: Config, lists: Listings, r: Reader, b: byte, e: Event)
    requires MenuAtRest(cfg, r) && b != 0x1b
    ensures var q := Step(cfg, lists, r, b);
            && (q == r || exists f :: BoundInMenu(cfg, [b], f))
            && (q.trace == r.trace + [e] ==> q.menu == MenuAfter(lists, r.menu, e))
  {
    SameEvent(r.trace, MenuChoose, e);
    SameEvent(r.trace, MenuMove(-1), e);
    SameEvent(r.trace, MenuMove(1), e);
    SameEvent(r.trace, MenuClose, e);
    if Digit(b) {
      SameEvent(r.trace, MenuSelect((b - 0x30) as nat), e);
      NumberedIff(b, (b - 0x30) as nat);
      assert BoundInMenu(cfg, [b], MenuSelect((b - 0x30) as nat));
    }
    assert b == 0x0d || b == 0x0a ==> BoundInMenu(cfg, [b], MenuChoose);
    assert b == Key('k') ==> BoundInMenu(cfg, [b], MenuMove(-1));
    assert b == Key('j') ==> BoundInMenu(cfg, [b], MenuMove(1));
    assert b == 0x71 || b == 0x51 || b == 0x03 || (b == cfg.prefix && b != 0x0d && b != 0x0a)
           ==> BoundInMenu(cfg, [b], MenuClose);
  }

  lemma {:induction false} MenuSequenceElse(cfg: Config, lists: Listings, r: Reader, keys: seq<byte>, e: Event)
    requires MenuAtRest(cfg, r) && OneKey(keys) && |keys| == 3
    ensures var q := Step(cfg, lists, r.(menuMode := Sequence), keys[2]);
            && (q == r || exists f :: BoundInMenu(cfg, keys, f))
            && (q.trace == r.trace + [e] ==> q.menu == MenuAfter(lists, r.menu, e))
  {
    SameEvent(r.trace, MenuMove(-1), e);
    SameEvent(r.trace, MenuMove(1), e);
    assert keys == [0x1b, keys[1], keys[2]];
    assert keys[2] == 0x41 ==> BoundInMenu(cfg, keys, MenuMove(-1));
    assert keys[2] == 0x42 ==> BoundInMenu(cfg, keys, MenuMove(1));
  }

  // ---- The switcher's selection ----

  /** An open switcher lists something, and has one of it selected. */
  predicate MenuOk(m: Menu) {
    m.open ==> m.selection < m.count
  }

  lemma {:induction false} ReplayIsOk(lists: Listings, trace: seq<Event>)
    ensures MenuOk(Replay(lists, trace))
    decreases |trace|
  {
    if trace != [] {
      ReplayIsOk(lists, trace[..|trace| - 1]);
    }
  }

  /** Moving the selection goes around the list: up from the first to the last, down from the last to the first. */
  lemma {:induction false} MovingGoesAround(m: Menu)
    requires MenuOk(m) && m.open
    ensures MenuMoved(m, 1) == m.(selection := if m.selection + 1 == m.count then 0 else m.selection + 1)
    ensures MenuMoved(m, -1) == m.(selection := if m.selection == 0 then m.count - 1 else m.selection - 1)
  {
    SessionOrder.ModuloIs(m.selection + 1, m.count, if m.selection + 1 == m.count then 1 else 0,
                          if m.selection + 1 == m.count then 0 else m.selection + 1);
    SessionOrder.ModuloIs(m.selection - 1, m.count, if m.selection == 0 then -1 else 0,
                          if m.selection == 0 then m.count - 1 else m.selection - 1);
  }

  lemma {:induction false} TogglingOpens(lists: Listings, m: Menu)
    ensures var q, listing := MenuToggled(lists, m), lists(m.fetches);
            && (m.open ==> !q.open)
            && (!m.open ==> (q.open <==> listing.count > 0))
            && (q.open ==> q.count == listing.count
                           && q.selection == if listing.current < listing.count then listing.current else 0)
  {
  }

  lemma {:induction false} PickingCloses(m: Menu, d: nat)
    requires MenuOk(m) && m.open
    ensures if 1 <= d <= m.count then !MenuSelected(m, d).open && MenuSelected(m, d).selection == d - 1
            else MenuSelected(m, d) == m
    ensures !MenuClosed(m).open
  {
  }

  /** After any run of the reader: opening the switcher shows what is running, with the attached session
      selected; moving goes around the list; a number in the list picks that session and closes, any other
      does nothing; choosing closes. */
  lemma {:induction false} SwitcherSelects(lists: Listings, trace: seq<Event>, d: nat)
    ensures var m := Replay(lists, trace);
            var toggled, picked := MenuAfter(lists, m, MenuToggle), MenuAfter(lists, m, MenuSelect(d));
            if !m.open then
              var listing := lists(m.fetches);
              && (toggled.open <==> listing.count > 0)
              && (toggled.open ==>
                    && toggled.count == listing.count
                    && toggled.selection == if listing.current < listing.count then listing.current else 0)
            else
              && !toggled.open && !MenuAfter(lists, m, MenuClose).open && !MenuAfter(lists, m, MenuChoose).open
              && MenuAfter(lists, m, MenuMove(1))
                 == m.(selection := if m.selection + 1 == m.count then 0 else m.selection + 1)
              && MenuAfter(lists, m, MenuMove(-1))
                 == m.(selection := if m.selection == 0 then m.count - 1 else m.selection - 1)
              && if 1 <= d <= m.count then !picked.open && picked.selection == d - 1 else picked == m
  {
    var m := Replay(lists, trace);
    ReplayIsOk(lists, trace);
    TogglingOpens(lists, m);
    if m.open {
      MovingGoesAround(m);
      PickingCloses(m, d);
    }
  }

  /** The session an open switcher has selected, of those it lists. */
  function Selected(running: seq<SessionOrder.Record>, m: Menu): string {
    if m.selection < |running| then running[m.selection].id else ""
  }

  /** What a toggle is told about the running sessions. */
  predicate Lists(listing: Listing, running: seq<SessionOrder.Record>, id: string) {
    listing.count == |running|
    && listing.current == var at := SessionOrder.Position(running, id); if at < 0 then |running| else at
  }

  lemma {:induction false} NumbersAgree(running: seq<SessionOrder.Record>, id: string, m: Menu, d: nat)
    requires MenuOk(m) && m.open && m.count == |running| && 1 <= d <= m.count
    ensures Selected(running, MenuSelected(m, d)) == SessionOrder.Target(running, id, SessionOrder.Request(0, d))
  {
    PickingCloses(m, d);
  }

  lemma {:induction false} MovesAgree(running: seq<SessionOrder.Record>, id: string, m: Menu)
    requires MenuOk(m) && m.open && m.count == |running| && SessionOrder.DistinctIDs(running)
    requires running[m.selection].id == id
    ensures Selected(running, m) == id
    ensures Selected(running, MenuMoved(m, 1)) == SessionOrder.Target(running, id, SessionOrder.Request(1, 0))
    ensures Selected(running, MenuMoved(m, -1)) == SessionOrder.Target(running, id, SessionOrder.Request(-1, 0))
  {
    MovingGoesAround(m);
    SessionOrder.StepLandsOn(running, m.selection, 1);
    SessionOrder.StepLandsOn(running, m.selection, -1);
  }

  /** The switcher and the prefixed keys agree: a number picks the same session in both, and from the attached
      session, moving down and choosing leads where switching forward does, moving up where switching back does. */
  lemma {:induction false} SwitcherAgreesWithKeys(
    lists: Listings, trace: seq<Event>, running: seq<SessionOrder.Record>, id: string, d: nat)
    requires var m := Replay(lists, trace); !m.open && Lists(lists(m.fetches), running, id)
    requires SessionOrder.DistinctIDs(running) && running != []
    ensures var m := MenuAfter(lists, Replay(lists, trace), MenuToggle);
            && m.open
            && (1 <= d <= |running| ==>
                  Selected(running, MenuAfter(lists, m, MenuSelect(d)))
                  == SessionOrder.Target(running, id, SessionOrder.Request(0, d)))
            && ((exists r :: r in running && r.id == id) ==>
                  && Selected(running, m) == id
                  && Selected(running, MenuAfter(lists, m, MenuMove(1)))
                     == SessionOrder.Target(running, id, SessionOrder.Request(1, 0))
                  && Selected(running, MenuAfter(lists, m, MenuMove(-1)))
                     == SessionOrder.Target(running, id, SessionOrder.Request(-1, 0)))
  {
    var m := MenuToggled(lists, Replay(lists, trace));
    TogglingOpens(lists, Replay(lists, trace));
    if 1 <= d <= |running| {
      NumbersAgree(running, id, m, d);
    }
    if SessionOrder.Position(running, id) >= 0 {
      MovesAgree(running, id, m);
    }
  }

  // ---- Where typed keys lead ----

  /** The session in front after what has happened, among those running. */
  function Lands(running: seq<SessionOrder.Record>, id: string, trace: seq<Event>): string
    decreases |trace|
  {
    if trace == [] then id
    else
      var before := Lands(running, id, trace[..|trace| - 1]);
      match trace[|trace| - 1]
      case Switch(step, index) => SessionOrder.Target(running, before, SessionOrder.Request(step, index))
      case _ => before
  }

  /** The same keys, n times. */
  function Times(keys: seq<byte>, n: nat): seq<byte> {
    if n == 0 then [] else Times(keys, n - 1) + keys
  }

  const RIGHT: seq<byte> := [0x1b, 0x5b, 0x43]
  const LEFT: seq<byte> := [0x1b, 0x5b, 0x44]

  lemma {:induction false} StaysAtRest(lists: Listings, r: Reader, q: Reader, step: int)
    requires AtRest(r) && ActedBy(lists, r, q, Switch(step, 0))
    ensures AtRest(q)
  {
  }

  lemma {:induction false} ArrowsWalk(
    cfg: Config, lists: Listings, muted: bool, running: seq<SessionOrder.Record>, id: string, step: int, n: nat)
    requires cfg.canSwitch && (step == 1 || step == -1)
    ensures var keys := [cfg.prefix] + (if step == 1 then RIGHT else LEFT);
            var q := Feed(cfg, lists, Fresh(muted), Times(keys, n));
            AtRest(q) && Lands(running, id, q.trace) == SessionOrder.Walked(running, id, step, n)
  {
    if n > 0 {
      var arrow := if step == 1 then RIGHT else LEFT;
      var keys := [cfg.prefix] + arrow;
      var before := Feed(cfg, lists, Fresh(muted), Times(keys, n - 1));
      ArrowsWalk(cfg, lists, muted, running, id, step, n - 1);
      FeedConcat(cfg, lists, Fresh(muted), Times(keys, n - 1), keys);
      assert Arrow(arrow, if step == 1 then 'C' else 'D');
      BoundKeyEnds(cfg, lists, before, arrow, Switch(step, 0));
      StaysAtRest(lists, before, Feed(cfg, lists, before, keys), step);
      LandsOneMore(running, id, before.trace, step);
    }
  }

  lemma {:induction false} LandsOneMore(running: seq<SessionOrder.Record>, id: string, trace: seq<Event>, step: int)
    ensures Lands(running, id, trace + [Switch(step, 0)])
         == SessionOrder.Target(running, Lands(running, id, trace), SessionOrder.Request(step, 0))
  {
    assert (trace + [Switch(step, 0)])[..|trace|] == trace;
  }

  /** Where a fresh client is after typing the prefix and the right arrow n times. */
  function AfterRights(cfg: Config, lists: Listings, muted: bool, running: seq<SessionOrder.Record>, id: string, n: nat)
    : string
  {
    Lands(running, id, Feed(cfg, lists, Fresh(muted), Times([cfg.prefix] + RIGHT, n)).trace)
  }

  /** Typing the prefix and the right arrow over and over visits every running session once and then comes
      back to the first. */
  lemma {:induction false} RightArrowVisitsEach(
    cfg: Config, lists: Listings, muted: bool, running: seq<SessionOrder.Record>, k: nat)
    requires cfg.canSwitch && SessionOrder.DistinctIDs(running) && k < |running|
    ensures forall j :: 0 <= j < |running| ==>
              exists n: nat :: n < |running|
                && AfterRights(cfg, lists, muted, running, running[k].id, n) == running[j].id
    ensures forall n: nat, p: nat :: n < p < |running| ==>
              AfterRights(cfg, lists, muted, running, running[k].id, n)
              != AfterRights(cfg, lists, muted, running, running[k].id, p)
    ensures AfterRights(cfg, lists, muted, running, running[k].id, |running|) == running[k].id
  {
    var id := running[k].id;
    forall n: nat ensures AfterRights(cfg, lists, muted, running, id, n) == SessionOrder.Walked(running, id, 1, n) {
      ArrowsWalk(cfg, lists, muted, running, id, 1, n);
    }
    SessionOrder.ForwardVisitsEach(running, k);
  }

  lemma {:induction false} ArrowLeads(
    cfg: Config, lists: Listings, muted: bool, running: seq<SessionOrder.Record>, k: nat, step: int)
    requires cfg.canSwitch && SessionOrder.DistinctIDs(running) && k < |running| && (step == 1 || step == -1)
    ensures var keys := [cfg.prefix] + (if step == 1 then RIGHT else LEFT);
            Lands(running, running[k].id, Feed(cfg, lists, Fresh(muted), keys).trace)
            == SessionOrder.Target(running, running[k].id, SessionOrder.Request(step, 0))
  {
    var keys := [cfg.prefix] + (if step == 1 then RIGHT else LEFT);
    ArrowsWalk(cfg, lists, muted, running, running[k].id, step, 1);
    assert Times(keys, 0) == [] && Times(keys, 1) == keys;
    assert SessionOrder.Walked(running, running[k].id, step, 0) == running[k].id;
  }

  /** The right arrow leads to the next newer session, or from the newest to the oldest; the left arrow
      to the next older one, or from the oldest to the newest. */
  lemma {:induction false} ArrowsFollowAge(
    cfg: Config, lists: Listings, muted: bool, records: seq<SessionOrder.Record>, k: nat, step: int)
    requires cfg.canSwitch && SessionOrder.DistinctIDs(records) && k < |SessionOrder.SwitchableSessions(records)|
    requires step == 1 || step == -1
    ensures var running := SessionOrder.SwitchableSessions(records);
            var keys := [cfg.prefix] + (if step == 1 then RIGHT else LEFT);
            var at := if step == 1 then (if k + 1 == |running| then 0 else k + 1)
                      else (if k == 0 then |running| - 1 else k - 1);
            && Lands(running, running[k].id, Feed(cfg, lists, Fresh(muted), keys).trace) == running[at].id
            && forall i, j :: 0 <= i < j < |running| ==>
                 running[i].createdAt < running[j].createdAt
                 || (running[i].createdAt == running[j].createdAt && SessionOrder.Less(running[i].id, running[j].id))
  {
    SessionOrder.SwitchableOnceEach(records);
    ArrowLeads(cfg, lists, muted, SessionOrder.SwitchableSessions(records), k, step);
    SessionOrder.StepLandsOn(SessionOrder.SwitchableSessions(records), k, step);
  }

  /** Typing the prefix and the number in a session's footer leads to that session, from anywhere. */
  lemma {:induction false} FooterNumberLeadsBack(
    cfg: Config, lists: Listings, muted: bool, records: seq<SessionOrder.Record>, id: string, from: string)
    requires cfg.canSwitch && SessionOrder.DistinctIDs(records) && id != ""
    requires 1 <= SessionOrder.NumberOf(records, id) <= 9
    ensures var keys := [cfg.prefix, (0x30 + SessionOrder.NumberOf(records, id)) as byte];
            Lands(SessionOrder.SwitchableSessions(records), from, Feed(cfg, lists, Fresh(muted), keys).trace) == id
  {
    var d := SessionOrder.NumberOf(records, id);
    var digit := [(0x30 + d) as byte];
    var running := SessionOrder.SwitchableSessions(records);
    assert Numbered(digit, d);
    BoundKeyEnds(cfg, lists, Fresh(muted), digit, Switch(0, d));
    assert [cfg.prefix] + digit == [cfg.prefix, (0x30 + d) as byte];
    SessionOrder.FooterNumberSelects(records, id, from, d);
    assert ([] + [Switch(0, d)])[..0] == [];
  }

  // ---- Focus reports and the escape key ----

  /** A terminal's focus report, read whole, says what it says, whatever the prefix. */
  lemma {:induction false} FocusReportIsRead(cfg: Config, lists: Listings, r: Reader, gained: bool)
    requires AtRest(r)
    ensures Read(cfg, lists, r, [0x1b, Key('['), if gained then Key('I') else Key('O')]) == Emit(r, Focus(gained))
  {
    var data := [0x1b, Key('['), if gained then Key('I') else Key('O')];
    assert FocusReport(data) && data[3..] == [];
    assert Turn(cfg, lists, r, data) == (Emit(r, Focus(gained)), 3);
  }

  /** The escape key alone closes the switcher: once its time has run out, or with the next key, which then
      counts as typed with the switcher closed. */
  lemma {:induction false} LoneEscapeCloses(cfg: Config, lists: Listings, r: Reader, b: byte)
    requires MenuAtRest(cfg, r)
    ensures var closed := Emit(r.(menu := MenuClosed(r.menu)), MenuClose);
            && AtRest(closed)
            && Run(cfg, lists, r, [Bytes([ESC]), Timeout]) == closed
            && (b != Key('[') && b != Key('O') ==>
                  Feed(cfg, lists, r, [ESC, b]) == Feed(cfg, lists, closed, [b]))
  {
    var held := r.(menuMode := Escape);
    var inputs := [Bytes([ESC]), Timeout];
    assert [ESC][1..] == [] && Read(cfg, lists, r, [ESC]) == held;
    assert inputs[1..] == [Timeout] && [Timeout][1..] == [];
    assert Run(cfg, lists, r, inputs) == Run(cfg, lists, held, [Timeout]);
    assert Run(cfg, lists, held, [Timeout]) == Run(cfg, lists, TimedOut(cfg, held), []);
    FeedTwo(cfg, lists, r, ESC, b);
    FeedOne(cfg, lists, Emit(r.(menu := MenuClosed(r.menu)), MenuClose), b);
  }
}
