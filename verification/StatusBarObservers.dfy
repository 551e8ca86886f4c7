/** What the status bar's two observers make of the child's output (internal/server/status_bar.go). */
module StatusBarObservers {
  import opened Sequences
  import opened StatusBar
  import Handoff

  /** A write is seen to undo the region exactly if one of the sequences that do is in it and the 32 bytes
      before it. */
  lemma {:induction false} UndoneIff(child: seq<byte>, data: seq<byte>)
    ensures Undone(child, data) <==>
            data != [] && exists r :: 0 <= r < |RESETS|
                                      && Occurs(Newest(child, 32) + data, [0x1b] + Ascii(RESETS[r]))
  {
    var seen := Newest(child, 32) + data;
    forall r | 0 <= r < |RESETS|
      ensures Index(seen, Reset(r)) >= 0 <==> Occurs(seen, [0x1b] + Ascii(RESETS[r]))
    {
      IndexFinds(seen, Reset(r));
    }
  }

  /** The write that completes a handoff command, followed by no other, asks for its session, unless one was asked
      for before: the first request stands. */
  lemma {:induction false} CompletedHandoffIsRequested(
    recorded: seq<byte>, child: seq<byte>, data: seq<byte>, before: seq<byte>, id: seq<byte>, after: seq<byte>)
    requires Handoff.ValidSessionID(id) && !Occurs(after, Handoff.PREFIX)
    requires child + data == before + Handoff.Printed(id) + after
    requires |before + Handoff.Printed(id)| > |child|
    ensures Requested(recorded, child, data) == if recorded == [] then id else recorded
  {
    SplitHandoffIsRead(child, data, before, id, after);
    assert data != [];
  }

  /** Output without a command in sight asks for nothing. */
  lemma {:induction false} NoHandoffNoRequest(child: seq<byte>, data: seq<byte>)
    requires !Occurs(Newest(child, 512) + data, Handoff.PREFIX)
    ensures Requested([], child, data) == []
  {
    LastIndexFinds(Newest(child, 512) + data, Handoff.PREFIX);
  }
}
