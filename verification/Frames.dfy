/** The framed half of an attach connection: the client's locked writer
    (internal/server/attach_client.go) and the daemon's reader (internal/server/attach.go). */
module Frames {
  import opened Sequences

  const INPUT: byte := 0x69
  const RESIZE: byte := 0x72
  const DETACH: byte := 0x64
  const FOCUS: byte := 0x66
  const NOTIFY: byte := 0x6e
  const MAX_ATTACH_FRAME: nat := 256 * 1024

  datatype Frame = Frame(kind: byte, payload: seq<byte>)

  /** PutUint32 of a length: only its low 32 bits are kept. */
  function Big32(n: nat): (r: seq<byte>)
    ensures |r| == 4
  {
    [(n / 0x100_0000 % 0x100) as byte, (n / 0x1_0000 % 0x100) as byte, (n / 0x100 % 0x100) as byte, (n % 0x100) as byte]
  }

  function FromBig32(s: seq<byte>): nat
    requires |s| == 4
  {
    s[0] as nat * 0x100_0000 + s[1] as nat * 0x1_0000 + s[2] as nat * 0x100 + s[3] as nat
  }

  function Big16(n: int): (r: seq<byte>)
    ensures |r| == 2
  {
    [(n / 0x100 % 0x100) as byte, (n % 0x100) as byte]
  }

  function FromBig16(s: seq<byte>): nat
    requires |s| == 2
  {
    s[0] as nat * 0x100 + s[1] as nat
  }

  lemma ShiftTwice(n: nat)
    ensures n / 0x1_0000 == n / 0x100 / 0x100
  {
    var q := n / 0x100;
    assert n == 0x100 * q + n % 0x100 && q == 0x100 * (q / 0x100) + q % 0x100;
  }

  lemma ShiftThrice(n: nat)
    ensures n / 0x100_0000 == n / 0x1_0000 / 0x100
  {
    var q := n / 0x1_0000;
    assert n == 0x1_0000 * q + n % 0x1_0000 && q == 0x100 * (q / 0x100) + q % 0x100;
  }

  lemma LowWord(n: nat, top: nat, low: nat)
    requires n == top * 0x1_0000_0000 + low && low < 0x1_0000_0000
    ensures low == n % 0x1_0000_0000
  {
  }

  lemma Big32Wraps(n: nat)
    ensures FromBig32(Big32(n)) == n % 0x1_0000_0000
  {
    var a, b, c := n / 0x100, n / 0x1_0000, n / 0x100_0000;
    ShiftTwice(n);
    ShiftThrice(n);
    var low := FromBig32(Big32(n));
    assert n == 0x100 * a + n % 0x100;
    assert a == 0x100 * b + a % 0x100;
    assert b == 0x100 * c + b % 0x100;
    assert c == 0x100 * (c / 0x100) + c % 0x100;
    assert low == (c % 0x100) * 0x100_0000 + (b % 0x100) * 0x1_0000 + (a % 0x100) * 0x100 + n % 0x100;
    LowWord(n, c / 0x100, low);
  }

  lemma Big16Wraps(n: int)
    ensures FromBig16(Big16(n)) == n % 0x1_0000
  {
  }

  function Header(f: Frame): (r: seq<byte>)
    ensures |r| == 5
  {
    [f.kind] + Big32(|f.payload|)
  }

  function Encode(f: Frame): seq<byte> {
    Header(f) + f.payload
  }

  function EncodeAll(frames: seq<Frame>): seq<byte> {
    if frames == [] then [] else Encode(frames[0]) + EncodeAll(frames[1..])
  }

  lemma {:induction false} EncodeAllSnoc(frames: seq<Frame>, f: Frame)
    ensures EncodeAll(frames + [f]) == EncodeAll(frames) + Encode(f)
  {
    if frames == [] {
      assert frames + [f] == [f] && [f][1..] == [];
    } else {
      assert (frames + [f])[1..] == frames[1..] + [f];
      EncodeAllSnoc(frames[1..], f);
      ConcatAssociates(Encode(frames[0]), EncodeAll(frames[1..]), Encode(f));
    }
  }

  function ResizeFrame(columns: int, rows: int): Frame {
    Frame(RESIZE, Big16(columns) + Big16(rows))
  }

  function FlagFrame(kind: byte, on: bool): Frame {
    Frame(kind, [if on then 1 else 0])
  }

  // ---- Writing ----

  class AttachFrameWriter {
    var wire: seq<byte>

    constructor ()
      ensures wire == []
    {
      wire := [];
    }

    /** frame, for a single caller. */
    method WriteFrame(kind: byte, payload: seq<byte>)
      modifies this
      ensures wire == old(wire) + Encode(Frame(kind, payload))
    {
      var header := new byte[5];
      header[0] := kind;
      var n := |payload|;
      header[1], header[2] := (n / 0x100_0000 % 0x100) as byte, (n / 0x1_0000 % 0x100) as byte;
      header[3], header[4] := (n / 0x100 % 0x100) as byte, (n % 0x100) as byte;
      assert header[..] == Header(Frame(kind, payload));
      wire := wire + header[..];
      if |payload| > 0 {
        wire := wire + payload;
      }
      ConcatAssociates(old(wire), Header(Frame(kind, payload)), payload);
    }

    method WriteResize(columns: int, rows: int)
      modifies this
      ensures wire == old(wire) + Encode(ResizeFrame(columns, rows))
    {
      WriteFrame(RESIZE, Big16(columns) + Big16(rows));
    }

    method WriteFocus(focused: bool)
      modifies this
      ensures wire == old(wire) + Encode(FlagFrame(FOCUS, focused))
    {
      var value: byte := 0;
      if focused {
        value := 1;
      }
      WriteFrame(FOCUS, [value]);
    }

    method WriteNotificationsMuted(muted: bool)
      modifies this
      ensures wire == old(wire) + Encode(FlagFrame(NOTIFY, muted))
    {
      var value: byte := 0;
      if muted {
        value := 1;
      }
      WriteFrame(NOTIFY, [value]);
    }
  }

  // ---- Writing from several goroutines ----

  datatype Phase = HeaderDue | PayloadDue | Written

  datatype Holder = Free | Held(thread: nat, frame: Frame, phase: Phase)

  /** What each goroutine has still to write, the mutex, the connection, and which frames have
      been finished by whom. */
  datatype Writers = Writers(
    todo: seq<seq<Frame>>, holder: Holder, wire: seq<byte>, finished: seq<(nat, Frame)>)

  datatype Action = Lock(thread: nat) | WriteHeader | WritePayload | Unlock

  predicate Enabled(w: Writers, a: Action) {
    match a
    case Lock(t) => w.holder.Free? && t < |w.todo| && w.todo[t] != []
    case WriteHeader => w.holder.Held? && w.holder.phase == HeaderDue
    case WritePayload => w.holder.Held? && w.holder.phase == PayloadDue
    case Unlock => w.holder.Held? && w.holder.phase == Written
  }

  function Act(w: Writers, a: Action): Writers
    requires Enabled(w, a)
  {
    match a
    case Lock(t) => w.(holder := Held(t, w.todo[t][0], HeaderDue), todo := w.todo[t := w.todo[t][1..]])
    case WriteHeader =>
      w.(wire := w.wire + Header(w.holder.frame),
         holder := w.holder.(phase := if w.holder.frame.payload == [] then Written else PayloadDue))
    case WritePayload => w.(wire := w.wire + w.holder.frame.payload, holder := w.holder.(phase := Written))
    case Unlock => w.(holder := Free, finished := w.finished + [(w.holder.thread, w.holder.frame)])
  }

  predicate CanRun(w: Writers, actions: seq<Action>)
    decreases |actions|
  {
    actions != [] ==> Enabled(w, actions[0]) && CanRun(Act(w, actions[0]), actions[1..])
  }

  function RunAll(w: Writers, actions: seq<Action>): Writers
    requires CanRun(w, actions)
    decreases |actions|
  {
    if actions == [] then w else RunAll(Act(w, actions[0]), actions[1..])
  }

  function FramesOf(finished: seq<(nat, Frame)>): seq<Frame> {
    seq(|finished|, i requires 0 <= i < |finished| => finished[i].1)
  }

  /** The finished frames of one goroutine, in the order they were finished. */
  function Of(finished: seq<(nat, Frame)>, t: nat): seq<Frame>
    decreases |finished|
  {
    if finished == [] then []
    else
      var last := finished[|finished| - 1];
      Of(finished[..|finished| - 1], t) + if last.0 == t then [last.1] else []
  }

  /** The part of the frame under way that is on the wire already. */
  function Partial(h: Holder): seq<byte> {
    match h
    case Free => []
    case Held(_, f, phase) => match phase
      case HeaderDue => []
      case PayloadDue => Header(f)
      case Written => Encode(f)
  }

  function Current(h: Holder, t: nat): seq<Frame> {
    if h.Held? && h.thread == t then [h.frame] else []
  }

  /** One goroutine's frames: finished, under way, and still to write. */
  function Share(w: Writers, t: nat): seq<Frame>
    requires t < |w.todo|
  {
    Of(w.finished, t) + Current(w.holder, t) + w.todo[t]
  }

  ghost predicate Whole(w: Writers, programs: seq<seq<Frame>>) {
    && w.wire == EncodeAll(FramesOf(w.finished)) + Partial(w.holder)
    && |w.todo| == |programs|
    && forall t :: 0 <= t < |programs| ==> Share(w, t) == programs[t]
  }

  lemma FinishedSnoc(finished: seq<(nat, Frame)>, t: nat, f: Frame)
    ensures FramesOf(finished + [(t, f)]) == FramesOf(finished) + [f]
    ensures forall u :: Of(finished + [(t, f)], u) == Of(finished, u) + if t == u then [f] else []
  {
    assert (finished + [(t, f)])[..|finished|] == finished;
  }

  lemma ActKeepsWire(w: Writers, a: Action)
    requires Enabled(w, a) && w.wire == EncodeAll(FramesOf(w.finished)) + Partial(w.holder)
    ensures var v := Act(w, a); v.wire == EncodeAll(FramesOf(v.finished)) + Partial(v.holder)
  {
    var done := EncodeAll(FramesOf(w.finished));
    match a {
      case Lock(t) =>
      case WriteHeader =>
        assert Header(w.holder.frame) + [] == Header(w.holder.frame);
      case WritePayload =>
        ConcatAssociates(done, Header(w.holder.frame), w.holder.frame.payload);
      case Unlock =>
        FinishedSnoc(w.finished, w.holder.thread, w.holder.frame);
        EncodeAllSnoc(FramesOf(w.finished), w.holder.frame);
    }
  }

  lemma ActKeepsShare(w: Writers, a: Action, t: nat)
    requires Enabled(w, a) && t < |w.todo|
    ensures |Act(w, a).todo| == |w.todo| && Share(Act(w, a), t) == Share(w, t)
  {
    match a {
      case Lock(u) =>
        if u == t {
          var next, rest := w.todo[t][0], w.todo[t][1..];
          assert w.todo[t] == [next] + rest;
          assert Of(w.finished, t) + [] == Of(w.finished, t);
          ConcatAssociates(Of(w.finished, t), [next], rest);
        }
      case WriteHeader =>
      case WritePayload =>
      case Unlock =>
        FinishedSnoc(w.finished, w.holder.thread, w.holder.frame);
        var was := Of(w.finished, t);
        assert Of(Act(w, a).finished, t) == was + Current(w.holder, t);
        assert (was + Current(w.holder, t)) + [] == was + Current(w.holder, t);
    }
  }

  lemma ActKeepsWhole(w: Writers, a: Action, programs: seq<seq<Frame>>)
    requires Whole(w, programs) && Enabled(w, a)
    ensures Whole(Act(w, a), programs)
  {
    ActKeepsWire(w, a);
    forall t | 0 <= t < |programs| ensures Share(Act(w, a), t) == programs[t] {
      ActKeepsShare(w, a, t);
    }
  }

  lemma {:induction false} RunKeepsWhole(w: Writers, actions: seq<Action>, programs: seq<seq<Frame>>)
    requires Whole(w, programs) && CanRun(w, actions)
    ensures Whole(RunAll(w, actions), programs)
    decreases |actions|
  {
    if actions != [] {
      ActKeepsWhole(w, actions[0], programs);
      RunKeepsWhole(Act(w, actions[0]), actions[1..], programs);
    }
  }

  /** However the goroutines' writes interleave, the connection holds whole finished frames, then at
      most part of one more; and each goroutine's frames are there in its own order. */
  lemma WireHoldsWholeFrames(programs: seq<seq<Frame>>, actions: seq<Action>)
    requires CanRun(Writers(programs, Free, [], []), actions)
    ensures var w := RunAll(Writers(programs, Free, [], []), actions);
            && EncodeAll(FramesOf(w.finished)) <= w.wire
            && (w.holder.Free? ==> w.wire == EncodeAll(FramesOf(w.finished)))
            && (w.holder.Held? ==> w.wire <= EncodeAll(FramesOf(w.finished) + [w.holder.frame]))
            && |w.todo| == |programs|
            && forall t :: 0 <= t < |programs| ==> Share(w, t) == programs[t]
  {
    var start := Writers(programs, Free, [], []);
    forall t | 0 <= t < |programs| ensures Share(start, t) == programs[t] {
    }
    RunKeepsWhole(start, actions, programs);
    var w := RunAll(start, actions);
    if w.holder.Held? {
      EncodeAllSnoc(FramesOf(w.finished), w.holder.frame);
    }
  }

  // ---- Reading ----

  datatype Outcome =
    | Detached | Truncated | TooLong | InvalidResize | InvalidDetach | InvalidFocus | InvalidNotify
    | UnknownKind(kind: byte) | Refused

  /** A call on the session manager. */
  datatype Effect = WriteRaw(payload: seq<byte>) | Resize(columns: nat, rows: nat) | Mute(muted: bool)

  datatype Meaning = Do(effect: Effect) | Skip | Stop(outcome: Outcome)

  predicate IsFlag(payload: seq<byte>) {
    |payload| == 1 && (payload[0] == 0 || payload[0] == 1)
  }

  function MeaningOf(f: Frame): Meaning {
    if f.kind == INPUT then Do(WriteRaw(f.payload))
    else if f.kind == RESIZE then
      if |f.payload| != 4 then Stop(InvalidResize)
      else Do(Resize(FromBig16(f.payload[0..2]), FromBig16(f.payload[2..4])))
    else if f.kind == DETACH then Stop(if f.payload != [] then InvalidDetach else Detached)
    else if f.kind == FOCUS then if IsFlag(f.payload) then Skip else Stop(InvalidFocus)
    else if f.kind == NOTIFY then if IsFlag(f.payload) then Do(Mute(f.payload[0] == 1)) else Stop(InvalidNotify)
    else Stop(UnknownKind(f.kind))
  }

  datatype Reading = Got(frame: Frame, rest: seq<byte>) | Failed(outcome: Outcome)

  function ReadFrame(input: seq<byte>): Reading {
    if |input| < 5 then Failed(Truncated)
    else
      var length := FromBig32(input[1..5]);
      if length > MAX_ATTACH_FRAME then Failed(TooLong)
      else if |input| - 5 < length then Failed(Truncated)
      else Got(Frame(input[0], input[5..][..length]), input[5..][length..])
  }

  /** Whether the session manager's n-th call succeeds. */
  type Calls = nat -> bool

  datatype Served = Served(effects: seq<Effect>, outcome: Outcome)

  /** Serving a connection from the bytes still unread. */
  function Serve(calls: Calls, input: seq<byte>, effects: seq<Effect>): Served
    decreases |input|
  {
    match ReadFrame(input)
    case Failed(outcome) => Served(effects, outcome)
    case Got(f, rest) =>
      match MeaningOf(f)
      case Stop(outcome) => Served(effects, outcome)
      case Skip => Serve(calls, rest, effects)
      case Do(e) => if calls(|effects|) then Serve(calls, rest, effects + [e]) else Served(effects, Refused)
  }

  /** Serving a list of frames: the effects, and why serving stopped if it did. */
  function Follow(calls: Calls, frames: seq<Frame>, effects: seq<Effect>): (seq<Effect>, Option<Outcome>) {
    if frames == [] then (effects, None)
    else match MeaningOf(frames[0])
      case Stop(outcome) => (effects, Some(outcome))
      case Skip => Follow(calls, frames[1..], effects)
      case Do(e) => if calls(|effects|) then Follow(calls, frames[1..], effects + [e]) else (effects, Some(Refused))
  }

  predicate Fits(f: Frame) {
    |f.payload| <= MAX_ATTACH_FRAME
  }

  lemma {:induction false} EncodedParts(f: Frame, rest: seq<byte>)
    ensures var input := Encode(f) + rest;
            && |input| == 5 + |f.payload| + |rest| && input[0] == f.kind
            && input[1..5] == Big32(|f.payload|) && input[5..] == f.payload + rest
  {
  }

  /** A frame is read back as written, with what follows it untouched, exactly when it fits. */
  lemma {:induction false} FrameIsReadBackIff(f: Frame, rest: seq<byte>)
    ensures ReadFrame(Encode(f) + rest) == Got(f, rest) <==> |f.payload| <= 262144
  {
    EncodedParts(f, rest);
    Big32Wraps(|f.payload|);
    var length, input := FromBig32(Big32(|f.payload|)), Encode(f) + rest;
    assert |f.payload| <= 262144 ==> length == |f.payload|;
    if |f.payload| <= 262144 {
      assert (f.payload + rest)[..|f.payload|] == f.payload;
      assert (f.payload + rest)[|f.payload|..] == rest;
    } else if length <= 262144 && length <= |input| - 5 {
      assert |input[5..][..length]| == length < |f.payload|;
    }
  }

  lemma {:induction false} ServeFollows(calls: Calls, frames: seq<Frame>, rest: seq<byte>, effects: seq<Effect>)
    requires forall i :: 0 <= i < |frames| ==> Fits(frames[i])
    ensures var (after, stopped) := Follow(calls, frames, effects);
            Serve(calls, EncodeAll(frames) + rest, effects)
            == if stopped.Some? then Served(after, stopped.value) else Serve(calls, rest, after)
    decreases |frames|
  {
    if frames == [] {
      assert EncodeAll(frames) + rest == rest;
    } else {
      var f, tail := frames[0], frames[1..];
      ConcatAssociates(Encode(f), EncodeAll(tail), rest);
      FrameIsReadBackIff(f, EncodeAll(tail) + rest);
      match MeaningOf(f) {
        case Do(e) => ServeFollows(calls, tail, rest, effects + [e]);
        case Skip => ServeFollows(calls, tail, rest, effects);
        case Stop(_) =>
      }
    }
  }

  /** Whatever the interleaving, the daemon serves the finished frames, in the order finished. */
  lemma InterleavedFramesAreServed(calls: Calls, programs: seq<seq<Frame>>, actions: seq<Action>, rest: seq<byte>)
    requires CanRun(Writers(programs, Free, [], []), actions)
    requires RunAll(Writers(programs, Free, [], []), actions).holder.Free?
    requires forall f :: f in FramesOf(RunAll(Writers(programs, Free, [], []), actions).finished) ==> Fits(f)
    ensures var w := RunAll(Writers(programs, Free, [], []), actions);
            var (after, stopped) := Follow(calls, FramesOf(w.finished), []);
            Serve(calls, w.wire + rest, [])
            == if stopped.Some? then Served(after, stopped.value) else Serve(calls, rest, after)
  {
    WireHoldsWholeFrames(programs, actions);
    ServeFollows(calls, FramesOf(RunAll(Writers(programs, Free, [], []), actions).finished), rest, []);
  }

  /** Nothing after the first detach is looked at, and nothing before it is lost. */
  lemma NothingAfterDetach(calls: Calls, frames: seq<Frame>, rest: seq<byte>)
    requires forall i :: 0 <= i < |frames| ==> Fits(frames[i])
    ensures var (effects, stopped) := Follow(calls, frames, []);
            Serve(calls, EncodeAll(frames) + Encode(Frame(DETACH, [])) + rest, [])
            == Served(effects, if stopped.Some? then stopped.value else Detached)
  {
    var last := Frame(DETACH, []);
    ConcatAssociates(EncodeAll(frames), Encode(last), rest);
    ServeFollows(calls, frames, Encode(last) + rest, []);
    FrameIsReadBackIff(last, rest);
  }

  /** On the wire a frame is its kind, the length of its payload with the highest byte first, and the payload; a
      size is the columns and then the rows, each with the higher byte first. */
  lemma WireFormat(kind: byte, payload: seq<byte>, columns: int, rows: int)
    requires |payload| < 0x1_0000_0000
    ensures var w := Encode(Frame(kind, payload));
            && |w| == 5 + |payload| && w[0] == kind && w[5..] == payload
            && ((w[1] as int * 0x100 + w[2] as int) * 0x100 + w[3] as int) * 0x100 + w[4] as int == |payload|
    ensures var size := ResizeFrame(columns, rows).payload;
            && |size| == 4
            && size[0] as int * 0x100 + size[1] as int == columns % 0x1_0000
            && size[2] as int * 0x100 + size[3] as int == rows % 0x1_0000
    ensures [INPUT, RESIZE, DETACH, FOCUS, NOTIFY] == Ascii("irdfn")
  {
    var n := |payload|;
    var h := Big32(n);
    assert Encode(Frame(kind, payload)) == [kind] + h + payload;
    Big32Wraps(n);
    assert ((h[0] as int * 0x100 + h[1] as int) * 0x100 + h[2] as int) * 0x100 + h[3] as int == FromBig32(h);
    Big16Wraps(columns);
    Big16Wraps(rows);
  }

  /** Asking for notifications to be muted, or not, is what the daemon does; a focus report is accepted and
      changes nothing. */
  lemma FlagsRoundTrip(on: bool)
    ensures MeaningOf(FlagFrame(NOTIFY, on)) == Do(Mute(on))
    ensures MeaningOf(FlagFrame(FOCUS, on)) == Skip
  {
  }

  /** A size comes back as its two low halves: exactly, when both fit in 16 bits. */
  lemma ResizeRoundTrip(columns: int, rows: int)
    ensures MeaningOf(ResizeFrame(columns, rows)) == Do(Resize(columns % 0x1_0000, rows % 0x1_0000))
  {
    Big16Wraps(columns);
    Big16Wraps(rows);
    var payload := ResizeFrame(columns, rows).payload;
    assert payload[0..2] == Big16(columns) && payload[2..4] == Big16(rows);
  }

  /** Two lists of frames that fit and encode alike are the same list. */
  lemma {:induction false} EncodingIsUnambiguous(one: seq<Frame>, other: seq<Frame>)
    requires forall i :: 0 <= i < |one| ==> Fits(one[i])
    requires forall i :: 0 <= i < |other| ==> Fits(other[i])
    requires EncodeAll(one) == EncodeAll(other)
    ensures one == other
    decreases |one|
  {
    if one != [] && other != [] {
      FrameIsReadBackIff(one[0], EncodeAll(one[1..]));
      FrameIsReadBackIff(other[0], EncodeAll(other[1..]));
      EncodingIsUnambiguous(one[1..], other[1..]);
      assert one == [one[0]] + one[1..] && other == [other[0]] + other[1..];
    }
  }

  /** The daemon's end of a connection. */
  class Connection {
    const data: seq<byte>
    var at: nat

    constructor (data: seq<byte>)
      ensures this.data == data && at == 0
    {
      this.data, at := data, 0;
    }

    /** io.ReadFull */
    method ReadFull(n: nat) returns (ok: bool, bytes: seq<byte>)
      requires at <= |data|
      modifies this
      ensures at <= |data| && ok == (n <= |data| - old(at))
      ensures ok ==> bytes == data[old(at)..][..n] && data[at..] == data[old(at)..][n..]
    {
      ok := n <= |data| - at;
      if ok {
        bytes := data[at..at + n];
        at := at + n;
      } else {
        bytes := data[at..];
        at := |data|;
      }
    }
  }

  /** readAttachFrames */
  method ReadAttachFrames(calls: Calls, connection: Connection) returns (effects: seq<Effect>, outcome: Outcome)
    requires connection.at <= |connection.data|
    modifies connection
    ensures Served(effects, outcome) == Serve(calls, old(connection.data[connection.at..]), [])
  {
    effects := [];
    while true
      invariant connection.at <= |connection.data|
      invariant Serve(calls, connection.data[connection.at..], effects)
             == Serve(calls, old(connection.data[connection.at..]), [])
      decreases |connection.data| - connection.at
    {
      ghost var input := connection.data[connection.at..];
      var ok, header := connection.ReadFull(5);
      if !ok {
        return effects, Truncated;
      }
      assert header[1..] == input[1..5] && connection.data[connection.at..] == input[5..];
      var length := FromBig32(header[1..]);
      if length > MAX_ATTACH_FRAME {
        return effects, TooLong;
      }
      var payload;
      ok, payload := connection.ReadFull(length);
      if !ok {
        return effects, Truncated;
      }
      assert ReadFrame(input) == Got(Frame(header[0], payload), connection.data[connection.at..]);
      match MeaningOf(Frame(header[0], payload)) {
        case Stop(why) =>
          return effects, why;
        case Skip =>
        case Do(effect) =>
          if !calls(|effects|) {
            return effects, Refused;
          }
          effects := effects + [effect];
      }
    }
  }
}
