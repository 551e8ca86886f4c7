/** Nothing typed is lost: keys the prefix turns out not to claim are handed on whole. */
module KeyboardConservation {
  import opened Sequences
  import opened Keyboard

  /** The bytes swallowed so far by a prefixed key that may yet turn out to be none. */
  function HeldBytes(cfg: Config, r: Reader): seq<byte> {
    match r.mode
    case Idle => []
    case Armed => [cfg.prefix]
    case Escape => [cfg.prefix, ESC]
    case Sequence => [cfg.prefix, ESC, r.introducer]
  }

  /** What has reached the session, and what may still. */
  function Accounted(cfg: Config, r: Reader): seq<byte> {
    SessionBytes(r.trace) + HeldBytes(cfg, r)
  }

  /** Something other than a session byte was the last thing to happen. */
  predicate Fired(r: Reader, q: Reader) {
    q.trace != r.trace && q.trace != [] && !q.trace[|q.trace| - 1].SessionByte?
  }

  /** Keys the prefix claims before it looks for itself. */
  predicate Claimed(cfg: Config, b: byte) {
    || b == 0x71 || b == 0x51 || b == ESC
    || ((b == 0x6d || b == 0x4d) && cfg.supportsNotifications)
    || ((b == 0x6e || b == 0x4e) && cfg.canCreate)
    || (Digit(b) && cfg.canSwitch)
  }

  /** b is the second of two prefix bytes that stand for one. */
  predicate Doubles(cfg: Config, r: Reader, b: byte) {
    r.mode == Armed && b == cfg.prefix && !Claimed(cfg, b)
  }

  lemma HandedBack(cfg: Config, r: Reader, bytes: seq<byte>)
    ensures var q := EmitBytes(r.(mode := Idle), bytes);
            && Accounted(cfg, q) == SessionBytes(r.trace) + bytes
            && !Fired(r, q)
  {
    SessionBytesTyped(r.trace, bytes);
    assert SessionBytes(r.trace) + bytes + [] == SessionBytes(r.trace) + bytes;
  }

  lemma ArmedFires(cfg: Config, r: Reader, b: byte)
    requires Claimed(cfg, b) && b != ESC
    ensures Fired(r, ArmedStep(cfg, r, b))
  {
    var q := ArmedStep(cfg, r, b);
    assert |q.trace| == |r.trace| + 1;
  }

  lemma EscapeIsHeld(cfg: Config, r: Reader)
    requires r.mode == Armed
    ensures Accounted(cfg, ArmedStep(cfg, r, ESC)) == Accounted(cfg, r) + [ESC]
  {
    assert ArmedStep(cfg, r, ESC) == r.(mode := Escape);
    assert [cfg.prefix] + [ESC] == [cfg.prefix, ESC];
    ConcatAssociates(SessionBytes(r.trace), [cfg.prefix], [ESC]);
  }

  lemma DoubledIsSent(cfg: Config, r: Reader, b: byte)
    requires Doubles(cfg, r, b)
    ensures Accounted(cfg, ArmedStep(cfg, r, b)) == Accounted(cfg, r)
  {
    assert ArmedStep(cfg, r, b) == EmitBytes(r.(mode := Idle), [cfg.prefix]);
    HandedBack(cfg, r, [cfg.prefix]);
  }

  lemma PairIsHandedBack(cfg: Config, r: Reader, b: byte)
    requires r.mode == Armed && !Claimed(cfg, b) && b != cfg.prefix
    ensures Accounted(cfg, ArmedStep(cfg, r, b)) == Accounted(cfg, r) + [b]
  {
    assert ArmedStep(cfg, r, b) == EmitBytes(r.(mode := Idle), [cfg.prefix, b]);
    HandedBack(cfg, r, [cfg.prefix, b]);
    assert [cfg.prefix] + [b] == [cfg.prefix, b];
    ConcatAssociates(SessionBytes(r.trace), [cfg.prefix], [b]);
  }

  lemma ArmedConserves(cfg: Config, r: Reader, b: byte)
    requires r.mode == Armed && (Claimed(cfg, b) ==> b == ESC)
    ensures Accounted(cfg, ArmedStep(cfg, r, b))
         == if Doubles(cfg, r, b) then Accounted(cfg, r) else Accounted(cfg, r) + [b]
  {
    if b == ESC {
      EscapeIsHeld(cfg, r);
    } else if b == cfg.prefix {
      DoubledIsSent(cfg, r, b);
    } else {
      PairIsHandedBack(cfg, r, b);
    }
  }

  lemma EscapeConserves(cfg: Config, lists: Listings, r: Reader, b: byte)
    requires r.mode == Escape
    ensures Accounted(cfg, KeyStep(cfg, lists, r, b)) == Accounted(cfg, r) + [b]
  {
    var was := SessionBytes(r.trace);
    HandedBack(cfg, r, [cfg.prefix, ESC, b]);
    assert was + [cfg.prefix, ESC, b] == was + [cfg.prefix, ESC] + [b];
  }

  predicate ClaimedArrow(cfg: Config, b: byte) {
    ((b == 0x43 || b == 0x44) && cfg.canSwitch) || ((b == 0x41 || b == 0x42) && cfg.hasMenu)
  }

  lemma ArrowFires(cfg: Config, lists: Listings, r: Reader, b: byte)
    requires r.mode == Sequence && ClaimedArrow(cfg, b)
    ensures Fired(r, KeyStep(cfg, lists, r, b))
  {
    var q := KeyStep(cfg, lists, r, b);
    assert |q.trace| == |r.trace| + 1;
  }

  lemma SequenceConserves(cfg: Config, lists: Listings, r: Reader, b: byte)
    requires r.mode == Sequence && !ClaimedArrow(cfg, b)
    ensures Accounted(cfg, KeyStep(cfg, lists, r, b)) == Accounted(cfg, r) + [b]
  {
    var was, swallowed := SessionBytes(r.trace), [cfg.prefix, ESC, r.introducer];
    HandedBack(cfg, r, [cfg.prefix, ESC, r.introducer, b]);
    assert [cfg.prefix, ESC, r.introducer, b] == swallowed + [b];
    ConcatAssociates(was, swallowed, [b]);
  }

  lemma IdleConserves(cfg: Config, lists: Listings, r: Reader, b: byte)
    requires r.mode == Idle
    ensures Accounted(cfg, KeyStep(cfg, lists, r, b)) == Accounted(cfg, r) + [b]
  {
    HandedBack(cfg, r, [b]);
    assert SessionBytes(r.trace) + [] == SessionBytes(r.trace);
  }

  lemma KeyConserves(cfg: Config, lists: Listings, r: Reader, b: byte)
    requires !Fired(r, KeyStep(cfg, lists, r, b))
    ensures Accounted(cfg, KeyStep(cfg, lists, r, b))
         == if Doubles(cfg, r, b) then Accounted(cfg, r) else Accounted(cfg, r) + [b]
  {
    match r.mode {
      case Armed =>
        if Claimed(cfg, b) && b != ESC {
          ArmedFires(cfg, r, b);
        } else {
          ArmedConserves(cfg, r, b);
        }
      case Escape => EscapeConserves(cfg, lists, r, b);
      case Sequence =>
        if ClaimedArrow(cfg, b) {
          ArrowFires(cfg, lists, r, b);
        } else {
          SequenceConserves(cfg, lists, r, b);
        }
      case Idle => IdleConserves(cfg, lists, r, b);
    }
  }

  /** No byte of data makes anything happen but session bytes. */
  predicate FiresNothing(cfg: Config, lists: Listings, r: Reader, data: seq<byte>)
    decreases |data|
  {
    data == [] || (var q := Step(cfg, lists, r, data[0]);
                   !Fired(r, q) && FiresNothing(cfg, lists, q, data[1..]))
  }

  /** data without the second byte of each doubled prefix. */
  function Undoubled(cfg: Config, lists: Listings, r: Reader, data: seq<byte>): seq<byte>
    decreases |data|
  {
    if data == [] then []
    else
      (if Doubles(cfg, r, data[0]) then [] else [data[0]])
      + Undoubled(cfg, lists, Step(cfg, lists, r, data[0]), data[1..])
  }

  /** Keys that fire nothing are not lost, changed or reordered: what the session has been given,
      with what is still held, is all that was typed, a doubled prefix counting once. */
  lemma {:induction false} UnclaimedKeysAreKept(cfg: Config, lists: Listings, r: Reader, data: seq<byte>)
    requires r.running && !r.menu.open && FiresNothing(cfg, lists, r, data)
    ensures Accounted(cfg, Feed(cfg, lists, r, data)) == Accounted(cfg, r) + Undoubled(cfg, lists, r, data)
    decreases |data|
  {
    if data == [] {
      assert Accounted(cfg, r) + [] == Accounted(cfg, r);
    } else {
      var b, o := data[0], Offered(cfg, r, data[0]).0;
      var q := Step(cfg, lists, r, b);
      assert o == r.(menuMode := Idle) && q == KeyStep(cfg, lists, o, b);
      KeyConserves(cfg, lists, o, b);
      QuietKeyKeepsRunning(cfg, lists, o, b);
      UnclaimedKeysAreKept(cfg, lists, q, data[1..]);
      ConcatAssociates(Accounted(cfg, r), if Doubles(cfg, r, b) then [] else [b], Undoubled(cfg, lists, q, data[1..]));
    }
  }

  lemma QuietKeyKeepsRunning(cfg: Config, lists: Listings, r: Reader, b: byte)
    requires r.running && !r.menu.open && !Fired(r, KeyStep(cfg, lists, r, b))
    ensures var q := KeyStep(cfg, lists, r, b); q.running && !q.menu.open
  {
  }
}
