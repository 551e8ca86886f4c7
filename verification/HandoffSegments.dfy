/** How a replayed history is stripped, one stretch at a time (internal/server/attach_handoff.go).
    PREFIX has no BEL in it, so the loop never looks across one: each stretch of the history up to a
    BEL is stripped by itself. */
module HandoffSegments {
  import opened Sequences
  import opened Handoff
  import Base64

  // ---- Stripping, one stretch at a time ----

  function Strips(recognised: seq<byte> -> bool, data: seq<byte>): seq<byte> {
    StripFrom(recognised, [], data)
  }

  /** What was passed over before is only put in front. */
  lemma {:induction false} HeldIsKept(recognised: seq<byte> -> bool, held: seq<byte>, data: seq<byte>)
    ensures StripFrom(recognised, held, data) == held + Strips(recognised, data)
    decreases |data|
  {
    match NextCandidate(data) {
      case NoMore =>
        assert [] + data == data;
      case Candidate(start, end) =>
        var passed := start + |PREFIX|;
        if !recognised(data[start..end]) {
          HeldIsKept(recognised, held + data[..passed], data[passed..]);
          HeldIsKept(recognised, data[..passed], data[passed..]);
          assert [] + data[..passed] == data[..passed];
          ConcatAssociates(held, data[..passed], Strips(recognised, data[passed..]));
        } else {
          assert [] + data[..start] == data[..start];
          ConcatAssociates(held, data[..start], Strips(recognised, data[end..]));
        }
    }
  }

  /** One turn of the loop, with nothing held. */
  lemma StripsUnfolds(recognised: seq<byte> -> bool, data: seq<byte>, start: nat, end: nat,
                      piece: seq<byte>, passed: seq<byte>, ahead: seq<byte>, kept: seq<byte>, after: seq<byte>)
    requires NextCandidate(data) == Candidate(start, end) && piece == data[start..end]
    requires passed == data[..start + |PREFIX|] && ahead == data[start + |PREFIX|..]
    requires kept == data[..start] && after == data[end..]
    ensures Strips(recognised, data)
         == if recognised(piece) then kept + Strips(recognised, after) else passed + Strips(recognised, ahead)
  {
    assert [] + passed == passed && [] + kept == kept;
    if !recognised(piece) {
      HeldIsKept(recognised, passed, ahead);
    }
  }

  /** A stretch of output up to a BEL. */
  predicate Segment(seg: seq<byte>) {
    seg != [] && seg[|seg| - 1] == 0x07 && forall k :: 0 <= k < |seg| - 1 ==> seg[k] != 0x07
  }

  /** No prefix reaches across the end of a stretch. */
  lemma PrefixStaysInside(seg: seq<byte>, rest: seq<byte>, i: int)
    requires Segment(seg) && 0 <= i < |seg|
    ensures OccursAt(seg + rest, PREFIX, i) <==> OccursAt(seg, PREFIX, i)
    ensures OccursAt(seg, PREFIX, i) ==> i + |PREFIX| < |seg|
  {
    var data := seg + rest;
    if OccursAt(data, PREFIX, i) {
      PrefixNeedsEscape(data, i);
      assert data[|seg| - 1] == 0x07;
    }
    if i + |PREFIX| <= |seg| {
      assert data[i..i + |PREFIX|] == seg[i..i + |PREFIX|];
    }
  }

  lemma FirstPrefix(seg: seq<byte>, rest: seq<byte>)
    requires Segment(seg) && Index(seg, PREFIX) >= 0
    ensures Index(seg + rest, PREFIX) == Index(seg, PREFIX) < |seg| - |PREFIX|
  {
    var i, data := Index(seg, PREFIX), seg + rest;
    IndexFinds(seg, PREFIX);
    IndexFinds(data, PREFIX);
    PrefixStaysInside(seg, rest, i);
    var found := Index(data, PREFIX);
    if 0 <= found < i {
      PrefixStaysInside(seg, rest, found);
    }
  }

  lemma SegmentCandidate(seg: seq<byte>, rest: seq<byte>)
    requires Segment(seg) && Index(seg, PREFIX) >= 0
    ensures NextCandidate(seg + rest) == Candidate(Index(seg, PREFIX), |seg|)
  {
    var i, data := Index(seg, PREFIX), seg + rest;
    FirstPrefix(seg, rest);
    var text := data[i + |PREFIX|..];
    var bell := |seg| - 1 - i - |PREFIX|;
    assert text[bell] == seg[|seg| - 1];
    forall k | 0 <= k < bell ensures text[k] != 0x07 {
      assert text[k] == seg[i + |PREFIX| + k];
    }
    FirstBell(text, bell);
  }

  lemma PlainIndex(seg: seq<byte>, rest: seq<byte>)
    requires Segment(seg) && Index(seg, PREFIX) == -1
    ensures Index(seg + rest, PREFIX) == if Index(rest, PREFIX) < 0 then -1 else |seg| + Index(rest, PREFIX)
  {
    var data := seg + rest;
    IndexFinds(seg, PREFIX);
    IndexFinds(rest, PREFIX);
    IndexFinds(data, PREFIX);
    var found, inner := Index(data, PREFIX), Index(rest, PREFIX);
    if 0 <= found < |seg| {
      PrefixStaysInside(seg, rest, found);
    } else if found >= |seg| {
      OccursAtShift(seg, rest, PREFIX, found - |seg|);
    }
    if inner >= 0 {
      OccursAtShift(seg, rest, PREFIX, inner);
    }
  }

  /** A stretch without a prefix is kept as it is. */
  lemma PlainSegment(recognised: seq<byte> -> bool, seg: seq<byte>, rest: seq<byte>)
    requires Segment(seg) && Index(seg, PREFIX) == -1
    ensures Strips(recognised, seg + rest) == seg + Strips(recognised, rest)
  {
    PlainIndex(seg, rest);
    ShiftedCandidate(seg, rest, Index(rest, PREFIX));
    match NextCandidate(rest) {
      case NoMore =>
        assert [] + (seg + rest) == seg + rest && [] + rest == rest;
      case Candidate(start, end) => ShiftedStrips(recognised, seg, rest, start, end);
    }
  }

  lemma ShiftedStrips(recognised: seq<byte> -> bool, seg: seq<byte>, rest: seq<byte>, start: nat, end: nat)
    requires NextCandidate(rest) == Candidate(start, end)
    requires NextCandidate(seg + rest) == Candidate(|seg| + start, |seg| + end)
    ensures Strips(recognised, seg + rest) == seg + Strips(recognised, rest)
  {
    var data, text := seg + rest, start + |PREFIX|;
    assert data[|seg| + start..|seg| + end] == rest[start..end] && data[|seg| + end..] == rest[end..];
    assert data[..|seg| + text] == seg + rest[..text] && data[|seg| + text..] == rest[text..];
    assert data[..|seg| + start] == seg + rest[..start];
    ShiftedTurn(recognised, seg, rest, data, start, end,
      rest[start..end], rest[..text], rest[text..], rest[..start], rest[end..]);
  }

  lemma ShiftedCandidate(seg: seq<byte>, rest: seq<byte>, inner: int)
    requires inner == Index(rest, PREFIX) && Index(seg + rest, PREFIX) == if inner < 0 then -1 else |seg| + inner
    ensures var c := NextCandidate(rest);
            NextCandidate(seg + rest) == if c.NoMore? then NoMore else Candidate(|seg| + c.start, |seg| + c.end)
  {
    if inner >= 0 {
      assert (seg + rest)[|seg| + inner + |PREFIX|..] == rest[inner + |PREFIX|..];
    }
  }

  lemma ShiftedTurn(recognised: seq<byte> -> bool, seg: seq<byte>, rest: seq<byte>, data: seq<byte>,
                    start: nat, end: nat,
                    piece: seq<byte>, passed: seq<byte>, ahead: seq<byte>, kept: seq<byte>, after: seq<byte>)
    requires NextCandidate(rest) == Candidate(start, end)
    requires NextCandidate(data) == Candidate(|seg| + start, |seg| + end)
    requires piece == rest[start..end] == data[|seg| + start..|seg| + end]
    requires passed == rest[..start + |PREFIX|] && data[..|seg| + start + |PREFIX|] == seg + passed
    requires ahead == rest[start + |PREFIX|..] == data[|seg| + start + |PREFIX|..]
    requires kept == rest[..start] && data[..|seg| + start] == seg + kept
    requires after == rest[end..] == data[|seg| + end..]
    ensures Strips(recognised, data) == seg + Strips(recognised, rest)
  {
    StripsUnfolds(recognised, rest, start, end, piece, passed, ahead, kept, after);
    StripsUnfolds(recognised, data, |seg| + start, |seg| + end, piece, seg + passed, ahead, seg + kept, after);
    TurnsAgree(seg, recognised(piece), kept, Strips(recognised, after), passed, Strips(recognised, ahead));
  }

  lemma TurnsAgree(seg: seq<byte>, cut: bool, kept: seq<byte>, after: seq<byte>, passed: seq<byte>, ahead: seq<byte>)
    ensures (if cut then (seg + kept) + after else (seg + passed) + ahead)
         == seg + (if cut then kept + after else passed + ahead)
  {
    ConcatAssociates(seg, kept, after);
    ConcatAssociates(seg, passed, ahead);
  }

  /** The first and the last prefix of a stretch are one, or do not touch. */
  lemma FirstAndLast(seg: seq<byte>)
    requires Segment(seg) && Index(seg, PREFIX) >= 0
    ensures OccursAt(seg, PREFIX, Index(seg, PREFIX)) && OccursAt(seg, PREFIX, LastIndex(seg, PREFIX))
    ensures Index(seg, PREFIX) == LastIndex(seg, PREFIX) || Index(seg, PREFIX) + |PREFIX| <= LastIndex(seg, PREFIX)
    ensures LastIndex(seg, PREFIX) + |PREFIX| < |seg|
  {
    IndexFinds(seg, PREFIX);
    LastIndexFinds(seg, PREFIX);
    var i, last := Index(seg, PREFIX), LastIndex(seg, PREFIX);
    PrefixStaysInside(seg, [], last);
    PrefixNeedsEscape(seg, i);
    PrefixNeedsEscape(seg, last);
  }

  lemma PrefixInTail(seg: seq<byte>, passed: nat, tail: seq<byte>, k: int)
    requires passed <= |seg| && tail == seg[passed..] && 0 <= k
    ensures OccursAt(tail, PREFIX, k) <==> OccursAt(seg, PREFIX, passed + k)
  {
    assert seg == seg[..passed] + tail;
    OccursAtShift(seg[..passed], tail, PREFIX, k);
  }

  lemma TailIsSegment(seg: seq<byte>, passed: nat, tail: seq<byte>)
    requires Segment(seg) && passed < |seg| && tail == seg[passed..]
    ensures Segment(tail)
  {
    forall k | 0 <= k < |tail| - 1 ensures tail[k] != 0x07 {
      assert tail[k] == seg[passed + k];
    }
  }

  /** What follows the first prefix is a stretch again, with the same last prefix if there is another. */
  lemma AfterFirstPrefix(seg: seq<byte>, passed: nat, last: int, tail: seq<byte>)
    requires Segment(seg) && Index(seg, PREFIX) >= 0 && passed == Index(seg, PREFIX) + |PREFIX|
    requires last == LastIndex(seg, PREFIX) && passed <= |seg| && tail == seg[passed..]
    ensures Segment(tail)
    ensures last < passed ==> Index(tail, PREFIX) == LastIndex(tail, PREFIX) == -1
    ensures last >= passed ==> Index(tail, PREFIX) >= 0 && LastIndex(tail, PREFIX) == last - passed
  {
    FirstAndLast(seg);
    TailIsSegment(seg, passed, tail);
    LastIndexFinds(seg, PREFIX);
    IndexFinds(tail, PREFIX);
    LastIndexFinds(tail, PREFIX);
    if Index(tail, PREFIX) >= 0 {
      PrefixInTail(seg, passed, tail, Index(tail, PREFIX));
    }
    if LastIndex(tail, PREFIX) >= 0 {
      PrefixInTail(seg, passed, tail, LastIndex(tail, PREFIX));
    }
    if last >= passed {
      PrefixInTail(seg, passed, tail, last - passed);
    }
  }

  /** What stands between a prefix at `start` and the BEL that ends the stretch. */
  function CommandText(seg: seq<byte>, start: int): seq<byte> {
    if 0 <= start && start + |PREFIX| < |seg| then seg[start + |PREFIX|..|seg| - 1] else []
  }

  /** The last prefix of a stretch starts a valid command. */
  predicate EndsInCommand(seg: seq<byte>) {
    var last := LastIndex(seg, PREFIX);
    last >= 0 && last + |PREFIX| < |seg| && Identified(CommandText(seg, last)).Some?
  }

  lemma PieceLast(seg: seq<byte>, i: nat, piece: seq<byte>)
    requires Segment(seg) && i == Index(seg, PREFIX) && piece == seg[i..]
    ensures LastIndex(piece, PREFIX) == LastIndex(seg, PREFIX) - i
  {
    FirstAndLast(seg);
    LastIndexFinds(seg, PREFIX);
    LastIndexFinds(piece, PREFIX);
    PrefixInTail(seg, i, piece, LastIndex(seg, PREFIX) - i);
    if LastIndex(piece, PREFIX) >= 0 {
      PrefixInTail(seg, i, piece, LastIndex(piece, PREFIX));
    }
  }

  lemma PayloadIs(piece: seq<byte>, start: nat, text: seq<byte>)
    requires start == LastIndex(piece, PREFIX) && start + |PREFIX| <= |piece| && text == piece[start + |PREFIX|..]
    requires Segment(text)
    ensures Payload(piece) == Some(text[..|text| - 1])
  {
    FirstBell(text, |text| - 1);
  }

  lemma PieceHolds(seg: seq<byte>, i: nat, piece: seq<byte>)
    requires Segment(seg) && i == Index(seg, PREFIX) && piece == seg[i..]
    ensures Payload(piece) == Some(CommandText(seg, LastIndex(seg, PREFIX)))
  {
    var last := LastIndex(seg, PREFIX);
    FirstAndLast(seg);
    PieceLast(seg, i, piece);
    var text := seg[last + |PREFIX|..];
    assert text == piece[last - i + |PREFIX|..];
    TailIsSegment(seg, last + |PREFIX|, text);
    PayloadIs(piece, last - i, text);
    assert text[..|text| - 1] == CommandText(seg, last);
  }

  lemma PieceParses(seg: seq<byte>, i: nat, piece: seq<byte>)
    requires Segment(seg) && i == Index(seg, PREFIX) && piece == seg[i..]
    ensures IsHandoff(piece) <==> EndsInCommand(seg)
  {
    FirstAndLast(seg);
    PieceHolds(seg, i, piece);
  }

  /** A stretch without its part from `cut` on, if it ends in a command. */
  function Remains(seg: seq<byte>, cut: int): seq<byte> {
    if EndsInCommand(seg) && 0 <= cut <= |seg| then seg[..cut] else seg
  }

  /** The loop as written: a stretch that ends in a command loses everything from its first prefix. */
  lemma {:induction false} HandoffSegment(seg: seq<byte>, rest: seq<byte>)
    requires Segment(seg)
    ensures Strips(IsHandoff, seg + rest) == Remains(seg, Index(seg, PREFIX)) + Strips(IsHandoff, rest)
    decreases |seg|
  {
    var i := Index(seg, PREFIX);
    IndexFinds(seg, PREFIX);
    LastIndexFinds(seg, PREFIX);
    if i < 0 {
      PlainSegment(IsHandoff, seg, rest);
    } else {
      var passed := i + |PREFIX|;
      FirstAndLast(seg);
      var tail := seg[passed..];
      SegmentTurn(IsHandoff, seg, rest, i, tail);
      PieceParses(seg, i, seg[i..]);
      if !EndsInCommand(seg) {
        TailCommand(seg, passed, tail);
        HandoffSegment(tail, rest);
        KeepsWhole(seg, passed, Strips(IsHandoff, rest));
      }
    }
  }

  lemma KeepsWhole(seg: seq<byte>, passed: nat, after: seq<byte>)
    requires passed <= |seg|
    ensures seg[..passed] + (seg[passed..] + after) == seg + after
  {
  }

  /** One turn of the loop inside a stretch. */
  lemma SegmentTurn(recognised: seq<byte> -> bool, seg: seq<byte>, rest: seq<byte>, i: nat, tail: seq<byte>)
    requires Segment(seg) && i == Index(seg, PREFIX) && tail == seg[i + |PREFIX|..]
    ensures Strips(recognised, seg + rest)
         == if recognised(seg[i..]) then seg[..i] + Strips(recognised, rest)
            else seg[..i + |PREFIX|] + Strips(recognised, tail + rest)
  {
    var data, text := seg + rest, i + |PREFIX|;
    SegmentCandidate(seg, rest);
    assert data[i..|seg|] == seg[i..] && data[..text] == seg[..text] && data[text..] == tail + rest;
    assert data[..i] == seg[..i] && data[|seg|..] == rest;
    StripsUnfolds(recognised, data, i, |seg|, seg[i..], seg[..text], tail + rest, seg[..i], rest);
  }

  lemma TailText(seg: seq<byte>, passed: nat, tail: seq<byte>, last: int)
    requires passed <= last && last + |PREFIX| < |seg| && tail == seg[passed..]
    ensures CommandText(tail, last - passed) == CommandText(seg, last)
  {
  }

  lemma SameCommand(seg: seq<byte>, last: int, tail: seq<byte>, tailLast: int)
    requires 0 <= last == LastIndex(seg, PREFIX) && last + |PREFIX| < |seg|
    requires 0 <= tailLast == LastIndex(tail, PREFIX) && tailLast + |PREFIX| < |tail|
    requires CommandText(tail, tailLast) == CommandText(seg, last)
    ensures EndsInCommand(tail) <==> EndsInCommand(seg)
  {
  }

  /** A stretch's tail ends in a command if the stretch does, except when the command is the first. */
  lemma TailCommand(seg: seq<byte>, passed: nat, tail: seq<byte>)
    requires Segment(seg) && Index(seg, PREFIX) >= 0 && passed == Index(seg, PREFIX) + |PREFIX|
    requires passed < |seg| && tail == seg[passed..]
    ensures Segment(tail)
    ensures EndsInCommand(tail) <==> EndsInCommand(seg) && LastIndex(seg, PREFIX) >= passed
    ensures LastIndex(seg, PREFIX) >= passed ==> LastIndex(tail, PREFIX) == LastIndex(seg, PREFIX) - passed
  {
    var last := LastIndex(seg, PREFIX);
    AfterFirstPrefix(seg, passed, last, tail);
    if last >= passed {
      FirstAndLast(seg);
      TailText(seg, passed, tail, last);
      SameCommand(seg, last, tail, last - passed);
    }
  }

  // ---- Stripping commands and nothing else ----

  /** A prefix, the text of a command, and a BEL. */
  predicate OneCommand(piece: seq<byte>) {
    |PREFIX| < |piece| && Identified(piece[|PREFIX|..|piece| - 1]).Some?
  }

  /** A piece with a second prefix in it is not one command. */
  lemma SecondPrefixIsNoText(piece: seq<byte>, j: int)
    requires |PREFIX| <= j < |piece| - 1 && OccursAt(piece, PREFIX, j)
    ensures !OneCommand(piece)
  {
    PrefixNeedsEscape(piece, j);
    var text := piece[|PREFIX|..|piece| - 1];
    assert text[j - |PREFIX|] == 0x1b;
    if Base64.Decode(text).Some? {
      Base64.DecodableText(text, j - |PREFIX|);
    }
  }

  lemma OnlyPiece(seg: seq<byte>, i: nat, piece: seq<byte>)
    requires i == LastIndex(seg, PREFIX) && i + |PREFIX| < |seg| && piece == seg[i..]
    ensures OneCommand(piece) <==> EndsInCommand(seg)
  {
    assert piece[|PREFIX|..|piece| - 1] == CommandText(seg, i);
  }

  lemma PieceIsOneCommand(seg: seq<byte>, i: nat, piece: seq<byte>)
    requires Segment(seg) && i == Index(seg, PREFIX) && piece == seg[i..]
    ensures OneCommand(piece) <==> EndsInCommand(seg) && LastIndex(seg, PREFIX) == i
  {
    var last := LastIndex(seg, PREFIX);
    FirstAndLast(seg);
    if i == last {
      OnlyPiece(seg, i, piece);
    } else {
      PrefixInTail(seg, i, piece, last - i);
      SecondPrefixIsNoText(piece, last - i);
    }
  }

  /** Stripping commands alone: a stretch that ends in a command loses just that command. */
  lemma {:induction false} CommandSegment(seg: seq<byte>, rest: seq<byte>)
    requires Segment(seg)
    ensures Strips(OneCommand, seg + rest) == Remains(seg, LastIndex(seg, PREFIX)) + Strips(OneCommand, rest)
    decreases |seg|
  {
    var i := Index(seg, PREFIX);
    IndexFinds(seg, PREFIX);
    LastIndexFinds(seg, PREFIX);
    if i < 0 {
      PlainSegment(OneCommand, seg, rest);
    } else {
      var passed := i + |PREFIX|;
      FirstAndLast(seg);
      var tail := seg[passed..];
      SegmentTurn(OneCommand, seg, rest, i, tail);
      PieceIsOneCommand(seg, i, seg[i..]);
      if !OneCommand(seg[i..]) {
        TailCommand(seg, passed, tail);
        CommandSegment(tail, rest);
        TailRemains(seg, passed, tail, Strips(OneCommand, rest));
      }
    }
  }

  lemma KeptTail(seg: seq<byte>, passed: nat, tail: seq<byte>, last: nat, after: seq<byte>)
    requires passed <= last <= |seg| && tail == seg[passed..]
    ensures seg[..passed] + (tail[..last - passed] + after) == seg[..last] + after
  {
    assert seg[..passed] + tail[..last - passed] == seg[..last];
    ConcatAssociates(seg[..passed], tail[..last - passed], after);
  }

  lemma TailRemains(seg: seq<byte>, passed: nat, tail: seq<byte>, after: seq<byte>)
    requires passed <= |seg| && tail == seg[passed..]
    requires EndsInCommand(tail) <==> EndsInCommand(seg)
    requires EndsInCommand(seg) ==> LastIndex(tail, PREFIX) == LastIndex(seg, PREFIX) - passed >= 0
    ensures seg[..passed] + (Remains(tail, LastIndex(tail, PREFIX)) + after)
         == Remains(seg, LastIndex(seg, PREFIX)) + after
  {
    if EndsInCommand(seg) {
      KeptTail(seg, passed, tail, LastIndex(seg, PREFIX), after);
    } else {
      KeepsWhole(seg, passed, after);
    }
  }
}
