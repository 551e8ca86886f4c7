/** The attach client's keyboard reader (internal/server/attach_input.go), and the part of the
    session switcher that decides when it is open (internal/server/attach_menu.go). */
module Keyboard {
  import opened Sequences

  const ESC: byte := 0x1b
  const BRACKET: byte := 0x5b

  /** How far through a prefixed key, or a switcher key, the reader has read. */
  datatype Mode = Idle | Armed | Escape | Sequence

  /** Which handlers are wired. */
  datatype Config = Config(
    prefix: byte, supportsNotifications: bool, canCreate: bool, canSwitch: bool, hasMenu: bool)

  /** The running sessions a toggle finds, and the attached one's position among them. */
  datatype Listing = Listing(count: nat, current: nat)

  /** What the daemon answers to each toggle that opens the switcher. */
  type Listings = nat -> Listing

  datatype Menu = Menu(open: bool, count: nat, selection: nat, fetches: nat)

  datatype Event =
    | SessionByte(b: byte)
    | Focus(gained: bool) | Detach | Mute(muted: bool) | NewSession | Switch(step: int, index: nat)
    | MenuToggle | MenuMove(delta: int) | MenuSelect(index: nat) | MenuChoose | MenuClose

  /** The reader without its buffer: every session byte is an event of its own. */
  datatype Reader = Reader(
    mode: Mode, introducer: byte, menuMode: Mode, muted: bool, menu: Menu, running: bool, trace: seq<Event>)

  function Fresh(muted: bool): Reader {
    Reader(Idle, 0, Idle, muted, Menu(false, 0, 0, 0), true, [])
  }

  function Emit(r: Reader, e: Event): Reader {
    r.(trace := r.trace + [e])
  }

  function Typed(bytes: seq<byte>): (events: seq<Event>)
    ensures |events| == |bytes|
  {
    seq(|bytes|, i requires 0 <= i < |bytes| => SessionByte(bytes[i]))
  }

  function EmitBytes(r: Reader, bytes: seq<byte>): Reader {
    r.(trace := r.trace + Typed(bytes))
  }

  // ---- The switcher ----

  function MenuClosed(m: Menu): Menu {
    if m.open then m.(open := false, count := 0) else m
  }

  function MenuToggled(lists: Listings, m: Menu): Menu {
    if m.open then MenuClosed(m)
    else
      var listing := lists(m.fetches);
      if listing.count == 0 then m.(fetches := m.fetches + 1)
      else Menu(true, listing.count, if listing.current < listing.count then listing.current else 0, m.fetches + 1)
  }

  function MenuMoved(m: Menu, delta: int): Menu {
    if !m.open || m.count == 0 then m else m.(selection := (m.selection + delta) % m.count)
  }

  function MenuSelected(m: Menu, index: nat): Menu {
    if !m.open || index < 1 || index > m.count then m else MenuClosed(m.(selection := index - 1))
  }

  predicate Digit(b: byte) { 0x31 <= b <= 0x39 }

  /** A key for the open switcher, with no escape before it. */
  function MenuKey(cfg: Config, r: Reader, b: byte): Reader {
    if b == ESC then r.(menuMode := Escape)
    else if b == 0x0d || b == 0x0a then Emit(r.(menu := MenuClosed(r.menu)), MenuChoose)
    else if b == 0x6b then Emit(r.(menu := MenuMoved(r.menu, -1)), MenuMove(-1))
    else if b == 0x6a then Emit(r.(menu := MenuMoved(r.menu, 1)), MenuMove(1))
    else if Digit(b) then
      Emit(r.(menu := MenuSelected(r.menu, (b - 0x30) as nat)), MenuSelect((b - 0x30) as nat))
    else if b == 0x71 || b == 0x51 || b == 0x03 || b == cfg.prefix then
      Emit(r.(menu := MenuClosed(r.menu)), MenuClose)
    else r
  }

  /** consumeMenuByte: the new reader, and whether the switcher took the byte. */
  function MenuStep(cfg: Config, r: Reader, b: byte): (Reader, bool) {
    match r.menuMode
    case Escape =>
      if b == BRACKET || b == 0x4f then (r.(menuMode := Sequence), true)
      else (Emit(r.(menuMode := Idle, menu := MenuClosed(r.menu)), MenuClose), false)
    case Sequence =>
      var q := r.(menuMode := Idle);
      (if b == 0x41 then Emit(q.(menu := MenuMoved(q.menu, -1)), MenuMove(-1))
       else if b == 0x42 then Emit(q.(menu := MenuMoved(q.menu, 1)), MenuMove(1))
       else q, true)
    case _ => (MenuKey(cfg, r, b), true)
  }

  // ---- Prefixed keys ----

  /** consumeArmed */
  function ArmedStep(cfg: Config, r: Reader, b: byte): Reader {
    var q := r.(mode := Idle);
    if b == 0x71 || b == 0x51 then Emit(q, Detach).(running := false)
    else if (b == 0x6d || b == 0x4d) && cfg.supportsNotifications then Emit(q.(muted := !q.muted), Mute(!q.muted))
    else if (b == 0x6e || b == 0x4e) && cfg.canCreate then Emit(q, NewSession)
    else if Digit(b) && cfg.canSwitch then Emit(q, Switch(0, (b - 0x30) as nat))
    else if b == ESC then q.(mode := Escape)
    else if b == cfg.prefix then EmitBytes(q, [cfg.prefix])
    else EmitBytes(q, [cfg.prefix, b])
  }

  /** consumeSequence */
  function SequenceStep(cfg: Config, lists: Listings, r: Reader, b: byte): Reader {
    var q := r.(mode := Idle);
    if b == 0x43 && cfg.canSwitch then Emit(q, Switch(1, 0))
    else if b == 0x44 && cfg.canSwitch then Emit(q, Switch(-1, 0))
    else if (b == 0x41 || b == 0x42) && cfg.hasMenu then Emit(q.(menu := MenuToggled(lists, q.menu)), MenuToggle)
    else EmitBytes(q, [cfg.prefix, ESC, r.introducer, b])
  }

  /** consumeByte */
  function KeyStep(cfg: Config, lists: Listings, r: Reader, b: byte): Reader {
    match r.mode
    case Armed => ArmedStep(cfg, r, b)
    case Escape =>
      if b == BRACKET || b == 0x4f then r.(mode := Sequence, introducer := b)
      else EmitBytes(r.(mode := Idle), [cfg.prefix, ESC, b])
    case Sequence => SequenceStep(cfg, lists, r, b)
    case Idle => if b == cfg.prefix then r.(mode := Armed) else EmitBytes(r, [b])
  }

  /** What consume does with a byte before it looks for focus reports: the switcher's turn. */
  function Offered(cfg: Config, r: Reader, b: byte): (Reader, bool) {
    if !cfg.hasMenu || !r.menu.open then (r.(menuMode := Idle), false)
    else if r.mode == Idle then MenuStep(cfg, r, b)
    else (r, false)
  }

  /** One byte, with no other byte in sight. */
  function Step(cfg: Config, lists: Listings, r: Reader, b: byte): Reader {
    if !r.running then r
    else
      var (q, taken) := Offered(cfg, r, b);
      if taken then q else KeyStep(cfg, lists, q, b)
  }

  function Feed(cfg: Config, lists: Listings, r: Reader, data: seq<byte>): Reader
    decreases |data|
  {
    if data == [] then r else Feed(cfg, lists, Step(cfg, lists, r, data[0]), data[1..])
  }

  predicate FocusReport(data: seq<byte>) {
    |data| > 2 && data[0] == ESC && data[1] == BRACKET && (data[2] == 0x49 || data[2] == 0x4f)
  }

  /** One turn of consume's loop: the reader after it and how many bytes it took. A focus report
      lying entirely in the read is taken whole. */
  function Turn(cfg: Config, lists: Listings, r: Reader, data: seq<byte>): (t: (Reader, nat))
    requires data != []
    ensures 1 <= t.1 <= |data|
  {
    var (q, taken) := Offered(cfg, r, data[0]);
    if taken then (q, 1)
    else if q.mode == Idle && FocusReport(data) then (Emit(q, Focus(data[2] == 0x49)), 3)
    else (KeyStep(cfg, lists, q, data[0]), 1)
  }

  /** A whole read. */
  function Read(cfg: Config, lists: Listings, r: Reader, data: seq<byte>): Reader
    decreases |data|
  {
    if data == [] || !r.running then r
    else
      var (q, n) := Turn(cfg, lists, r, data);
      Read(cfg, lists, q, data[n..])
  }

  /** resolveMenuEscape, when the grace period runs out. */
  function TimedOut(cfg: Config, r: Reader): Reader {
    if r.menuMode != Escape then r
    else if cfg.hasMenu then Emit(r.(menuMode := Idle, menu := MenuClosed(r.menu)), MenuClose)
    else r.(menuMode := Idle)
  }

  // ---- The reader as it is written, with its buffer ----

  /** Everything that happens but a byte for the session. */
  type Action = e: Event | !e.SessionByte? witness Detach

  /** What was sent: input frames, and everything else that happened, in order. */
  datatype Sent = InputFrame(payload: seq<byte>) | Did(event: Action)

  function Expand(sent: seq<Sent>): seq<Event>
    decreases |sent|
  {
    if sent == [] then []
    else Expand(sent[..|sent| - 1])
         + match sent[|sent| - 1] case InputFrame(payload) => Typed(payload) case Did(e) => [e]
  }

  lemma TypedConcat(a: seq<byte>, b: seq<byte>)
    ensures Typed(a + b) == Typed(a) + Typed(b)
  {
  }

  // ---- How much a read can send ----

  /** The bytes sent to the session. */
  function SessionBytes(trace: seq<Event>): seq<byte>
    decreases |trace|
  {
    if trace == [] then []
    else SessionBytes(trace[..|trace| - 1])
         + match trace[|trace| - 1] case SessionByte(b) => [b] case _ => []
  }

  lemma SessionBytesSnoc(trace: seq<Event>, e: Event)
    ensures SessionBytes(trace + [e]) == SessionBytes(trace) + match e case SessionByte(b) => [b] case _ => []
  {
    assert (trace + [e])[..|trace|] == trace;
  }

  lemma {:induction false} SessionBytesTyped(trace: seq<Event>, bytes: seq<byte>)
    ensures SessionBytes(trace + Typed(bytes)) == SessionBytes(trace) + bytes
    decreases |bytes|
  {
    if bytes == [] {
      assert trace + Typed(bytes) == trace;
    } else {
      var init, last := bytes[..|bytes| - 1], bytes[|bytes| - 1];
      SessionBytesTyped(trace, init);
      SessionBytesSnoc(trace + Typed(init), SessionByte(last));
      assert trace + Typed(bytes) == trace + Typed(init) + [SessionByte(last)];
    }
  }

  /** Bytes swallowed so far that may still be handed to the session. */
  function Held(mode: Mode): nat {
    match mode
    case Idle => 0
    case Armed => 1
    case Escape => 2
    case Sequence => 3
  }

  function Pending(r: Reader): nat {
    |SessionBytes(r.trace)| + Held(r.mode)
  }

  lemma EmitPending(r: Reader, e: Event, bytes: seq<byte>)
    ensures !e.SessionByte? ==> SessionBytes(Emit(r, e).trace) == SessionBytes(r.trace)
    ensures SessionBytes(EmitBytes(r, bytes).trace) == SessionBytes(r.trace) + bytes
  {
    SessionBytesSnoc(r.trace, e);
    SessionBytesTyped(r.trace, bytes);
  }

  /** The switcher adds at most one event, never a session byte. */
  predicate Quiet(r: Reader, q: Reader) {
    && q.mode == r.mode
    && (q.trace == r.trace || (r.trace < q.trace && |q.trace| == |r.trace| + 1 && !q.trace[|r.trace|].SessionByte?))
  }

  lemma MenuKeyIsQuiet(cfg: Config, r: Reader, b: byte)
    ensures Quiet(r, MenuKey(cfg, r, b))
  {
  }

  lemma OfferedIsQuiet(cfg: Config, r: Reader, b: byte)
    ensures Quiet(r, Offered(cfg, r, b).0)
  {
    if r.menuMode != Escape && r.menuMode != Sequence {
      MenuKeyIsQuiet(cfg, r, b);
    }
  }

  lemma OfferedPending(cfg: Config, r: Reader, b: byte)
    ensures var q := Offered(cfg, r, b).0; SessionBytes(q.trace) == SessionBytes(r.trace) && q.mode == r.mode
  {
    var q := Offered(cfg, r, b).0;
    OfferedIsQuiet(cfg, r, b);
    if q.trace != r.trace {
      assert q.trace[..|r.trace|] == r.trace;
    }
  }

  lemma TypedPending(r: Reader, bytes: seq<byte>)
    requires |bytes| <= Held(r.mode) + 1
    ensures Pending(EmitBytes(r.(mode := Idle), bytes)) <= Pending(r) + 1
  {
    EmitPending(r.(mode := Idle), Detach, bytes);
  }

  lemma ArmedPending(cfg: Config, r: Reader, b: byte)
    requires r.mode == Armed
    ensures Pending(ArmedStep(cfg, r, b)) <= Pending(r) + 1
  {
    var p, q := r.(mode := Idle), ArmedStep(cfg, r, b);
    if q.trace != r.trace {
      TypedPending(r, [cfg.prefix]);
      TypedPending(r, [cfg.prefix, b]);
      EmitPending(p, Detach, []);
      EmitPending(p, Mute(!p.muted), []);
      EmitPending(p, NewSession, []);
      EmitPending(p, Switch(0, if Digit(b) then (b - 0x30) as nat else 0), []);
    }
  }

  lemma SequencePending(cfg: Config, lists: Listings, r: Reader, b: byte)
    requires r.mode == Sequence
    ensures Pending(SequenceStep(cfg, lists, r, b)) <= Pending(r) + 1
  {
    var p := r.(mode := Idle);
    TypedPending(r, [cfg.prefix, ESC, r.introducer, b]);
    EmitPending(p, Switch(1, 0), []);
    EmitPending(p, Switch(-1, 0), []);
    EmitPending(p, MenuToggle, []);
  }

  lemma KeyPending(cfg: Config, lists: Listings, r: Reader, b: byte)
    ensures Pending(KeyStep(cfg, lists, r, b)) <= Pending(r) + 1
  {
    match r.mode {
      case Armed => ArmedPending(cfg, r, b);
      case Escape => TypedPending(r, [cfg.prefix, ESC, b]);
      case Sequence => SequencePending(cfg, lists, r, b);
      case Idle => TypedPending(r, [b]);
    }
  }

  /** A turn never produces more than it reads, counting what is held back. */
  lemma TurnPending(cfg: Config, lists: Listings, r: Reader, data: seq<byte>)
    requires data != []
    ensures var (q, n) := Turn(cfg, lists, r, data); Pending(q) <= Pending(r) + n
  {
    var (q, taken) := Offered(cfg, r, data[0]);
    OfferedPending(cfg, r, data[0]);
    if !taken {
      if q.mode == Idle && FocusReport(data) {
        EmitPending(q, Focus(data[2] == 0x49), []);
      } else {
        KeyPending(cfg, lists, q, data[0]);
      }
    }
  }

  lemma {:induction false} ReadPending(cfg: Config, lists: Listings, r: Reader, data: seq<byte>)
    ensures Pending(Read(cfg, lists, r, data)) <= Pending(r) + |data|
    decreases |data|
  {
    if data != [] && r.running {
      var (q, n) := Turn(cfg, lists, r, data);
      TurnPending(cfg, lists, r, data);
      ReadPending(cfg, lists, q, data[n..]);
    }
  }

  function FramedBytes(sent: seq<Sent>): nat {
    |SessionBytes(Expand(sent))|
  }

  lemma {:induction false} FrameIsCounted(before: seq<Sent>, sent: seq<Sent>, k: nat)
    requires before <= sent && |before| <= k < |sent| && sent[k].InputFrame?
    ensures FramedBytes(before) + |sent[k].payload| <= FramedBytes(sent)
    decreases |sent|
  {
    var init, last := sent[..|sent| - 1], sent[|sent| - 1];
    match last {
      case InputFrame(payload) => SessionBytesTyped(Expand(init), payload);
      case Did(e) => SessionBytesSnoc(Expand(init), e);
    }
    if k < |init| {
      FrameIsCounted(before, init, k);
    } else {
      FramesGrow(before, init);
    }
  }

  lemma {:induction false} FramesGrow(before: seq<Sent>, sent: seq<Sent>)
    requires before <= sent
    ensures FramedBytes(before) <= FramedBytes(sent)
    decreases |sent|
  {
    if before != sent {
      var init, last := sent[..|sent| - 1], sent[|sent| - 1];
      FramesGrow(before, init);
      match last {
        case InputFrame(payload) => SessionBytesTyped(Expand(init), payload);
        case Did(e) => SessionBytesSnoc(Expand(init), e);
      }
    }
  }

  lemma BytesWithinRead(
    cfg: Config, lists: Listings, before: seq<Sent>, sent: seq<Sent>, r: Reader, q: Reader, data: seq<byte>)
    requires q == Read(cfg, lists, r, data) && r.trace == Expand(before) && q.trace == Expand(sent)
    ensures FramedBytes(sent) <= FramedBytes(before) + |data| + 3
  {
    ReadPending(cfg, lists, r, data);
    assert Pending(r) <= FramedBytes(before) + 3 && FramedBytes(sent) <= Pending(q);
  }

  lemma FramesWithinRead(
    cfg: Config, lists: Listings, before: seq<Sent>, sent: seq<Sent>, r: Reader, q: Reader, data: seq<byte>)
    requires before <= sent && q == Read(cfg, lists, r, data)
    requires r.trace == Expand(before) && q.trace == Expand(sent)
    ensures forall k :: |before| <= k < |sent| && sent[k].InputFrame? ==> |sent[k].payload| <= |data| + 3
  {
    BytesWithinRead(cfg, lists, before, sent, r, q, data);
    forall k | |before| <= k < |sent| && sent[k].InputFrame? ensures |sent[k].payload| <= |data| + 3 {
      FrameIsCounted(before, sent, k);
    }
  }

  class AttachInputReader {
    const cfg: Config
    const lists: Listings
    var mode: Mode
    var introducer: byte
    var menuMode: Mode
    var muted: bool
    var menu: Menu
    var running: bool
    var out: seq<byte>
    var sent: seq<Sent>

    /** The reader as if every buffered byte had been sent by itself. */
    function View(): Reader
      reads this
    {
      Reader(mode, introducer, menuMode, muted, menu, running, Expand(sent) + Typed(out))
    }

    constructor (cfg: Config, lists: Listings, muted: bool)
      ensures this.cfg == cfg && this.lists == lists && out == []
      ensures Valid() && View() == Fresh(muted)
    {
      this.cfg, this.lists, this.muted := cfg, lists, muted;
      mode, introducer, menuMode, menu := Idle, 0, Idle, Menu(false, 0, 0, 0);
      running, out, sent := true, [], [];
    }

    method Flush()
      modifies this`out, this`sent
      ensures View() == old(View()) && out == []
      ensures sent == if old(out) == [] then old(sent) else old(sent) + [InputFrame(old(out))]
    {
      if |out| == 0 {
        return;
      }
      assert (sent + [InputFrame(out)])[..|sent|] == sent;
      sent := sent + [InputFrame(out)];
      out := [];
    }

    method Record(e: Action)
      requires out == []
      modifies this`sent
      ensures View() == Emit(old(View()), e) && sent == old(sent) + [Did(e)]
    {
      assert (sent + [Did(e)])[..|sent|] == sent;
      sent := sent + [Did(e)];
    }

    /** flush, then act: an action comes after every byte typed before it. */
    method FlushAndRecord(e: Action)
      modifies this`out, this`sent
      ensures View() == Emit(old(View()), e) && out == []
      ensures sent == (if old(out) == [] then old(sent) else old(sent) + [InputFrame(old(out))]) + [Did(e)]
      ensures old(sent) <= sent
    {
      Flush();
      Record(e);
    }

    method Push(bytes: seq<byte>)
      modifies this`out
      ensures View() == EmitBytes(old(View()), bytes) && out == old(out) + bytes
    {
      TypedConcat(out, bytes);
      ConcatAssociates(Expand(sent), Typed(out), Typed(bytes));
      out := out + bytes;
    }

    /** While the switcher is open nothing is buffered and no prefix is held. */
    ghost predicate Valid()
      reads this`out, this`menu, this`mode
    {
      menu.open ==> cfg.hasMenu && mode == Idle && out == []
    }

    method ConsumeMenuByte(value: byte) returns (taken: bool)
      requires Valid() && menu.open
      modifies this`menuMode, this`menu, this`sent
      ensures Valid() && (View(), taken) == MenuStep(cfg, old(View()), value)
      ensures old(sent) <= sent
    {
      if menuMode == Escape {
        if value == BRACKET || value == 0x4f {
          menuMode := Sequence;
          return true;
        }
        // The escape stood alone: this byte belongs to the session now in front again.
        menuMode := Idle;
        CloseMenu();
        return false;
      }
      taken := true;
      if menuMode == Sequence {
        menuMode := Idle;
        if value == 0x41 {
          MoveSelection(-1);
        } else if value == 0x42 {
          MoveSelection(1);
        }
        return;
      }
      DriveMenu(value);
    }

    method DriveMenu(value: byte)
      requires Valid() && menu.open
      modifies this`menuMode, this`menu, this`sent
      ensures Valid() && View() == MenuKey(cfg, old(View()), value)
      ensures old(sent) <= sent
    {
      if value == ESC {
        menuMode := Escape;
      } else if value == 0x0d || value == 0x0a {
        menu := MenuClosed(menu);
        Record(MenuChoose);
      } else if value == 0x6b {
        MoveSelection(-1);
      } else if value == 0x6a {
        MoveSelection(1);
      } else if 0x31 <= value <= 0x39 {
        menu := MenuSelected(menu, (value - 0x30) as nat);
        Record(MenuSelect((value - 0x30) as nat));
      } else if value == 0x71 || value == 0x51 || value == 0x03 || value == cfg.prefix {
        CloseMenu();
      }
    }

    method CloseMenu()
      requires out == []
      modifies this`menu, this`sent
      ensures View() == Emit(old(View()).(menu := MenuClosed(old(menu))), MenuClose)
      ensures old(sent) <= sent
    {
      menu := MenuClosed(menu);
      Record(MenuClose);
    }

    method MoveSelection(delta: int)
      requires out == []
      modifies this`menu, this`sent
      ensures View() == Emit(old(View()).(menu := MenuMoved(old(menu), delta)), MenuMove(delta))
      ensures old(sent) <= sent
    {
      menu := MenuMoved(menu, delta);
      Record(MenuMove(delta));
    }

    method ConsumeArmed(value: byte)
      requires Valid() && running && mode == Armed
      modifies this`mode, this`muted, this`running, this`out, this`sent
      ensures Valid() && View() == ArmedStep(cfg, old(View()), value)
      ensures !running ==> out == []
      ensures old(sent) <= sent
    {
      mode := Idle;
      if value == 0x71 || value == 0x51 {
        FlushAndRecord(Detach);
        running := false;
      } else if (value == 0x6d || value == 0x4d) && cfg.supportsNotifications {
        ToggleMute();
      } else if (value == 0x6e || value == 0x4e) && cfg.canCreate {
        FlushAndRecord(NewSession);
      } else if 0x31 <= value <= 0x39 && cfg.canSwitch {
        FlushAndRecord(Switch(0, (value - 0x30) as nat));
      } else {
        ConsumeUnclaimed(value);
      }
    }

    method ToggleMute()
      modifies this`muted, this`out, this`sent
      ensures View() == Emit(old(View()).(muted := !old(muted)), Mute(!old(muted))) && out == []
      ensures old(sent) <= sent
    {
      FlushAndRecord(Mute(!muted));
      muted := !muted;
    }

    /** The end of consumeArmed's switch. */
    method ConsumeUnclaimed(value: byte)
      requires mode == Idle && !menu.open
      modifies this`mode, this`out
      ensures View() == if value == ESC then old(View()).(mode := Escape)
                        else EmitBytes(old(View()), if value == cfg.prefix then [cfg.prefix] else [cfg.prefix, value])
    {
      if value == ESC {
        mode := Escape;
      } else if value == cfg.prefix {
        Push([cfg.prefix]);
      } else {
        Push([cfg.prefix, value]);
      }
    }

    method ConsumeSequence(final: byte)
      requires Valid() && running && mode == Sequence
      modifies this`mode, this`menu, this`out, this`sent
      ensures Valid() && View() == SequenceStep(cfg, lists, old(View()), final)
      ensures old(sent) <= sent
    {
      mode := Idle;
      if (final == 0x43 || final == 0x44) && cfg.canSwitch {
        var step := if final == 0x44 then -1 else 1;
        FlushAndRecord(Switch(step, 0));
      } else if (final == 0x41 || final == 0x42) && cfg.hasMenu {
        ToggleMenu();
      } else {
        Push([cfg.prefix, ESC, introducer, final]);
      }
    }

    method ToggleMenu()
      requires cfg.hasMenu && mode == Idle
      modifies this`menu, this`out, this`sent
      ensures Valid() && View() == Emit(old(View()).(menu := MenuToggled(lists, old(menu))), MenuToggle)
      ensures old(sent) <= sent
    {
      Flush();
      menu := MenuToggled(lists, menu);
      Record(MenuToggle);
    }

    method ConsumeByte(value: byte)
      requires Valid() && running && !menu.open
      modifies this`mode, this`introducer, this`muted, this`menu, this`running, this`out, this`sent
      ensures Valid() && View() == KeyStep(cfg, lists, old(View()), value)
      ensures !running ==> out == []
      ensures old(sent) <= sent
    {
      match mode {
        case Armed =>
          ConsumeArmed(value);
        case Escape =>
          mode := Idle;
          if value == BRACKET || value == 0x4f {
            mode := Sequence;
            introducer := value;
          } else {
            Push([cfg.prefix, ESC, value]);
          }
        case Sequence =>
          ConsumeSequence(value);
        case Idle =>
          if value == cfg.prefix {
            mode := Armed;
          } else {
            Push([value]);
          }
      }
    }

    /** One turn of consume's loop. */
    method ConsumeOne(data: seq<byte>, index: nat, ghost rest: seq<byte>) returns (taken: nat)
      requires Valid() && running && index < |data| && rest == data[index..]
      modifies this
      ensures Valid() && (View(), taken) == Turn(cfg, lists, old(View()), rest)
      ensures !running ==> out == []
      ensures old(sent) <= sent
    {
      var value := data[index];
      ghost var before := View();
      var byMenu := false;
      if !cfg.hasMenu || !menu.open {
        menuMode := Idle;
      } else if mode == Idle {
        byMenu := ConsumeMenuByte(value);
      }
      assert (View(), byMenu) == Offered(cfg, before, value);
      if byMenu {
        return 1;
      }
      if mode == Idle && value == ESC && index + 2 < |data| &&
         data[index + 1] == BRACKET && (data[index + 2] == 0x49 || data[index + 2] == 0x4f) {
        assert FocusReport(rest);
        FlushAndRecord(Focus(data[index + 2] == 0x49));
        return 3;
      }
      assert !(mode == Idle && FocusReport(rest));
      ConsumeByte(value);
      return 1;
    }

    /** consume: one read from the terminal. What happens is what Read says, every input frame is
        at most three bytes longer than the read, and nothing stays in the buffer. */
    method Consume(data: seq<byte>) returns (keepReading: bool)
      requires Valid() && running && out == []
      modifies this
      ensures Valid() && out == [] && keepReading == running
      ensures View() == Read(cfg, lists, old(View()), data)
      ensures old(sent) <= sent
      ensures forall k :: |old(sent)| <= k < |sent| && sent[k].InputFrame? ==> |sent[k].payload| <= |data| + 3
    {
      var index := 0;
      assert data[0..] == data;
      while index < |data| && running
        invariant Valid() && index <= |data| && old(sent) <= sent && (!running ==> out == [])
        invariant Read(cfg, lists, View(), data[index..]) == Read(cfg, lists, old(View()), data)
      {
        ghost var rest := data[index..];
        var taken := ConsumeOne(data, index, rest);
        assert rest[taken..] == data[index + taken..];
        index := index + taken;
      }
      Flush();
      FramesWithinRead(cfg, lists, old(sent), sent, old(View()), View(), data);
      keepReading := running;
    }

    method ResolveMenuEscape()
      requires Valid() && out == []
      modifies this`menuMode, this`menu, this`sent
      ensures Valid() && View() == TimedOut(cfg, old(View()))
    {
      if menuMode != Escape {
        return;
      }
      menuMode := Idle;
      if cfg.hasMenu {
        CloseMenu();
      }
    }
  }
}
