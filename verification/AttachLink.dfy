/** Keyboard to session: the reader's frames, written to the connection and served by the daemon. */
module AttachLink {
  import opened Sequences
  import Keyboard
  import KeyboardRuns
  import Frames

  /** The size left for the session when a switcher call repaints; a call that has nothing to do, such
      as a move with the switcher closed, repaints nothing. */
  type Repaint = Option<(int, int)>

  /** The frames behind one entry of the reader's log. */
  function FramesFor(item: Keyboard.Sent, repaint: Repaint): seq<Frames.Frame> {
    match item
    case InputFrame(payload) => [Frames.Frame(Frames.INPUT, payload)]
    case Did(Focus(gained)) => [Frames.FlagFrame(Frames.FOCUS, gained)]
    case Did(Mute(muted)) => [Frames.FlagFrame(Frames.NOTIFY, muted)]
    case Did(Detach) => [Frames.Frame(Frames.DETACH, [])]
    case Did(e) =>
      if KeyboardRuns.ForMenu(e) && repaint.Some?
      then [Frames.ResizeFrame(repaint.value.0, repaint.value.1)] else []
  }

  /** After these the client may send a detach frame and close the connection itself; choosing a
      session in the switcher, by its number or not, is one of them. */
  predicate MayLeave(item: Keyboard.Sent) {
    item.Did? && match item.event
      case Detach => true
      case Switch(_, _) => true
      case NewSession => true
      case MenuChoose => true
      case MenuSelect(_) => true
      case _ => false
  }

  function WireFrames(sent: seq<Keyboard.Sent>, repaints: nat -> Repaint): seq<Frames.Frame>
    decreases |sent|
  {
    if sent == [] then []
    else
      var n := |sent| - 1;
      WireFrames(sent[..n], repaints) + FramesFor(sent[n], repaints(n))
  }

  /** Everything written to the session. */
  function Written(effects: seq<Frames.Effect>): seq<byte>
    decreases |effects|
  {
    if effects == [] then []
    else
      var n := |effects| - 1;
      Written(effects[..n]) + match effects[n] case WriteRaw(payload) => payload case _ => []
  }

  ghost predicate Sendable(sent: seq<Keyboard.Sent>) {
    forall k :: 0 <= k < |sent| ==>
      !MayLeave(sent[k]) && (sent[k].InputFrame? ==> |sent[k].payload| <= Frames.MAX_ATTACH_FRAME)
  }

  lemma {:induction false} FollowSnoc(
    calls: Frames.Calls, frames: seq<Frames.Frame>, f: Frames.Frame, effects: seq<Frames.Effect>)
    requires Frames.Follow(calls, frames, effects).1 == None
    ensures var after := Frames.Follow(calls, frames, effects).0;
            Frames.Follow(calls, frames + [f], effects) == Frames.Follow(calls, [f], after)
    decreases |frames|
  {
    if frames == [] {
      assert frames + [f] == [f];
    } else {
      assert (frames + [f])[1..] == frames[1..] + [f];
      match Frames.MeaningOf(frames[0]) {
        case Do(e) => FollowSnoc(calls, frames[1..], f, effects + [e]);
        case Skip => FollowSnoc(calls, frames[1..], f, effects);
      }
    }
  }

  lemma FollowOne(calls: Frames.Calls, f: Frames.Frame, effects: seq<Frames.Effect>)
    requires forall n :: calls(n)
    ensures var (after, stopped) := Frames.Follow(calls, [f], effects);
            var meaning := Frames.MeaningOf(f);
            && stopped == (if meaning.Stop? then Some(meaning.outcome) else None)
            && after == (if meaning.Do? then effects + [meaning.effect] else effects)
  {
    assert [f][1..] == [];
  }

  lemma WrittenSnoc(effects: seq<Frames.Effect>, e: Frames.Effect)
    ensures Written(effects + [e]) == Written(effects) + (if e.WriteRaw? then e.payload else [])
  {
    assert (effects + [e])[..|effects|] == effects;
  }

  /** Serving one more entry writes just the session bytes that entry stands for. */
  lemma ItemIsServed(calls: Frames.Calls, item: Keyboard.Sent, repaint: Repaint, effects: seq<Frames.Effect>)
    requires (forall n :: calls(n)) && Sendable([item])
    ensures var frames := FramesFor(item, repaint);
            var (after, stopped) := Frames.Follow(calls, frames, effects);
            && |frames| <= 1 && (forall f :: f in frames ==> Frames.Fits(f))
            && stopped == None
            && Written(after) == Written(effects) + if item.InputFrame? then item.payload else []
  {
    assert [item][0] == item;
    var frames := FramesFor(item, repaint);
    if repaint.Some? {
      Frames.ResizeRoundTrip(repaint.value.0, repaint.value.1);
    }
    if frames != [] {
      FollowOne(calls, frames[0], effects);
      match Frames.MeaningOf(frames[0]) {
        case Do(e) => WrittenSnoc(effects, e);
        case Skip =>
      }
    }
  }

  lemma SessionBytesOfItem(init: seq<Keyboard.Sent>, item: Keyboard.Sent)
    ensures Keyboard.SessionBytes(Keyboard.Expand(init + [item]))
         == Keyboard.SessionBytes(Keyboard.Expand(init)) + if item.InputFrame? then item.payload else []
  {
    assert (init + [item])[..|init|] == init;
    match item {
      case InputFrame(payload) => Keyboard.SessionBytesTyped(Keyboard.Expand(init), payload);
      case Did(e) => Keyboard.SessionBytesSnoc(Keyboard.Expand(init), e);
    }
  }

  lemma {:induction false} FollowAppend(calls: Frames.Calls, frames: seq<Frames.Frame>, last: seq<Frames.Frame>)
    requires Frames.Follow(calls, frames, []).1 == None && |last| <= 1
    ensures Frames.Follow(calls, frames + last, []) == Frames.Follow(calls, last, Frames.Follow(calls, frames, []).0)
  {
    if last == [] {
      assert frames + last == frames;
    } else {
      assert last == [last[0]];
      FollowSnoc(calls, frames, last[0], []);
    }
  }

  lemma {:induction false} LogIsServed(calls: Frames.Calls, sent: seq<Keyboard.Sent>, repaints: nat -> Repaint)
    requires (forall n :: calls(n)) && Sendable(sent)
    ensures var frames := WireFrames(sent, repaints);
            var (after, stopped) := Frames.Follow(calls, frames, []);
            && (forall f :: f in frames ==> Frames.Fits(f))
            && stopped == None
            && Written(after) == Keyboard.SessionBytes(Keyboard.Expand(sent))
    decreases |sent|
  {
    if sent != [] {
      var n := |sent| - 1;
      var init, item := sent[..n], sent[n];
      assert sent == init + [item];
      LogIsServed(calls, init, repaints);
      var frames, last := WireFrames(init, repaints), FramesFor(item, repaints(n));
      assert [item][0] == item && Sendable([item]);
      ItemIsServed(calls, item, repaints(n), Frames.Follow(calls, frames, []).0);
      FollowAppend(calls, frames, last);
      SessionBytesOfItem(init, item);
    }
  }

  /** As long as nothing ends the attach, what the daemon writes to the session is exactly the
      reader's session bytes, and reading goes on right after them. */
  lemma KeysArrive(calls: Frames.Calls, sent: seq<Keyboard.Sent>, repaints: nat -> Repaint, rest: seq<byte>)
    returns (after: seq<Frames.Effect>)
    requires (forall n :: calls(n)) && Sendable(sent)
    ensures Frames.Serve(calls, Frames.EncodeAll(WireFrames(sent, repaints)) + rest, [])
         == Frames.Serve(calls, rest, after)
    ensures Written(after) == Keyboard.SessionBytes(Keyboard.Expand(sent))
  {
    var frames := WireFrames(sent, repaints);
    LogIsServed(calls, sent, repaints);
    after := Frames.Follow(calls, frames, []).0;
    FramesAreServed(calls, frames, rest);
  }

  lemma FramesAreServed(calls: Frames.Calls, frames: seq<Frames.Frame>, rest: seq<byte>)
    requires (forall f :: f in frames ==> Frames.Fits(f)) && Frames.Follow(calls, frames, []).1 == None
    ensures Frames.Serve(calls, Frames.EncodeAll(frames) + rest, [])
         == Frames.Serve(calls, rest, Frames.Follow(calls, frames, []).0)
  {
    Frames.ServeFollows(calls, frames, rest, []);
  }

  // ---- End to end ----

  /** How much readAttachInput reads at a time. */
  const READ_SIZE: nat := 32 * 1024

  /** The log after each read, as the reader's consume leaves it: longer, and telling what has happened. */
  ghost predicate Logs(
    cfg: Keyboard.Config, lists: Keyboard.Listings, r: Keyboard.Reader, cuts: seq<seq<byte>>,
    logs: seq<seq<Keyboard.Sent>>)
  {
    && |logs| == |cuts| + 1 && logs[0] == []
    && (forall i :: 0 <= i < |cuts| ==> logs[i] <= logs[i + 1])
    && (forall i :: 0 <= i <= |cuts| ==>
          Keyboard.Expand(logs[i]) == KeyboardRuns.Reads(cfg, lists, r, cuts[..i]).trace)
  }

  lemma {:induction false} ReadsSnoc(
    cfg: Keyboard.Config, lists: Keyboard.Listings, r: Keyboard.Reader, cuts: seq<seq<byte>>, data: seq<byte>)
    ensures KeyboardRuns.Reads(cfg, lists, r, cuts + [data])
         == Keyboard.Read(cfg, lists, KeyboardRuns.Reads(cfg, lists, r, cuts), data)
    decreases |cuts|
  {
    if cuts == [] {
      assert cuts + [data] == [data] && [data][1..] == cuts;
    } else {
      assert (cuts + [data])[1..] == cuts[1..] + [data];
      ReadsSnoc(cfg, lists, Keyboard.Read(cfg, lists, r, cuts[0]), cuts[1..], data);
    }
  }

  /** No read makes a frame longer than itself and three bytes more, so no frame is too long. */
  lemma {:induction false} FramesFit(
    cfg: Keyboard.Config, lists: Keyboard.Listings, r: Keyboard.Reader, cuts: seq<seq<byte>>,
    logs: seq<seq<Keyboard.Sent>>, n: nat)
    requires Logs(cfg, lists, r, cuts, logs) && n <= |cuts|
    requires forall i :: 0 <= i < |cuts| ==> |cuts[i]| <= READ_SIZE
    ensures forall k :: 0 <= k < |logs[n]| && logs[n][k].InputFrame? ==> |logs[n][k].payload| <= READ_SIZE + 3
    decreases n
  {
    if n > 0 {
      FramesFit(cfg, lists, r, cuts, logs, n - 1);
      var before, sent := logs[n - 1], logs[n];
      var was, now := KeyboardRuns.Reads(cfg, lists, r, cuts[..n - 1]), KeyboardRuns.Reads(cfg, lists, r, cuts[..n]);
      assert cuts[..n] == cuts[..n - 1] + [cuts[n - 1]];
      ReadsSnoc(cfg, lists, r, cuts[..n - 1], cuts[n - 1]);
      Keyboard.FramesWithinRead(cfg, lists, before, sent, was, now, cuts[n - 1]);
    }
  }

  /** Every action in the log is in the trace. */
  lemma {:induction false} ActionShows(sent: seq<Keyboard.Sent>, k: nat) returns (i: nat)
    requires k < |sent| && sent[k].Did?
    ensures i < |Keyboard.Expand(sent)| && Keyboard.Expand(sent)[i] == sent[k].event
    decreases |sent|
  {
    var n := |sent| - 1;
    if k == n {
      i := |Keyboard.Expand(sent[..n])|;
    } else {
      i := ActionShows(sent[..n], k);
    }
  }

  /** A log that only tells of session bytes is made of input frames alone. */
  lemma TypedLogIsFrames(sent: seq<Keyboard.Sent>, text: seq<byte>, k: nat)
    requires Keyboard.Expand(sent) == Keyboard.Typed(text) && k < |sent|
    ensures sent[k].InputFrame?
  {
    if sent[k].Did? {
      var i := ActionShows(sent, k);
    }
  }

  lemma TypedLogIsSendable(sent: seq<Keyboard.Sent>, text: seq<byte>)
    requires Keyboard.Expand(sent) == Keyboard.Typed(text)
    requires forall k :: 0 <= k < |sent| && sent[k].InputFrame? ==> |sent[k].payload| <= READ_SIZE + 3
    ensures Sendable(sent)
  {
    forall k | 0 <= k < |sent| ensures sent[k].InputFrame? {
      TypedLogIsFrames(sent, text, k);
    }
  }

  /** End to end: text with its prefix bytes doubled, typed at a fresh client in reads of up to
      32 KiB, is what the session is given. */
  lemma QuotedTextArrives(
    calls: Frames.Calls, cfg: Keyboard.Config, lists: Keyboard.Listings, muted: bool, text: seq<byte>,
    cuts: seq<seq<byte>>, logs: seq<seq<Keyboard.Sent>>, repaints: nat -> Repaint, rest: seq<byte>)
    returns (after: seq<Frames.Effect>)
    requires forall n :: calls(n)
    requires KeyboardRuns.AllowedPrefix(cfg.prefix) && cfg.prefix != Keyboard.ESC
    requires KeyboardRuns.NoFocusReports(text) && Flatten(cuts) == KeyboardRuns.Quote(cfg.prefix, text)
    requires forall i :: 0 <= i < |cuts| ==> |cuts[i]| <= READ_SIZE
    requires Logs(cfg, lists, Keyboard.Fresh(muted), cuts, logs)
    ensures Frames.Serve(calls, Frames.EncodeAll(WireFrames(logs[|cuts|], repaints)) + rest, [])
         == Frames.Serve(calls, rest, after)
    ensures Written(after) == text
  {
    var start, sent := Keyboard.Fresh(muted), logs[|cuts|];
    KeyboardRuns.QuotedTextIsDelivered(cfg, lists, start, text, cuts);
    assert cuts[..|cuts|] == cuts && [] + Keyboard.Typed(text) == Keyboard.Typed(text);
    FramesFit(cfg, lists, start, cuts, logs, |cuts|);
    TypedLogIsSendable(sent, text);
    after := KeysArrive(calls, sent, repaints, rest);
    Keyboard.SessionBytesTyped([], text);
  }

  // ---- Actions ----

  /** What an action of the reader makes the daemon do: muting and unmuting arrive as such, detaching ends the
      attachment, and focus reports and a switcher that repaints nothing do nothing. */
  lemma {:induction false} ActionsArrive(
    calls: Frames.Calls, effects: seq<Frames.Effect>, muted: bool, gained: bool, size: (int, int))
    requires forall n :: calls(n)
    ensures Frames.Follow(calls, FramesFor(Keyboard.Did(Keyboard.Mute(muted)), None), effects)
         == (effects + [Frames.Mute(muted)], None)
    ensures Frames.Follow(calls, FramesFor(Keyboard.Did(Keyboard.Detach), None), effects)
         == (effects, Some(Frames.Detached))
    ensures Frames.Follow(calls, FramesFor(Keyboard.Did(Keyboard.Focus(gained)), None), effects) == (effects, None)
    ensures Frames.Follow(calls, FramesFor(Keyboard.Did(Keyboard.MenuClose), None), effects) == (effects, None)
    ensures Frames.Follow(calls, FramesFor(Keyboard.Did(Keyboard.MenuToggle), Some(size)), effects)
         == (effects + [Frames.Resize(size.0 % 0x1_0000, size.1 % 0x1_0000)], None)
  {
    FollowOne(calls, Frames.FlagFrame(Frames.NOTIFY, muted), effects);
    FollowOne(calls, Frames.Frame(Frames.DETACH, []), effects);
    FollowOne(calls, Frames.FlagFrame(Frames.FOCUS, gained), effects);
    FollowOne(calls, Frames.ResizeFrame(size.0, size.1), effects);
    Frames.ResizeRoundTrip(size.0, size.1);
  }
}
