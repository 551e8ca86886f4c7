/** Exactly when what stripping leaves holds a prefix, or a whole command, again
    (internal/server/attach_handoff.go). */
module HandoffSeams {
  import opened Sequences
  import opened Handoff
  import opened HandoffSegments
  import HandoffHistories

  /** Where the k-th text begins, the output before it ends with the first c bytes of a prefix and
      the output from it on starts with the others. */
  predicate JoinsAt(texts: seq<seq<byte>>, k: int, c: int) {
    && 0 < k < |texts| && 0 < c < |PREFIX|
    && var before, after := Flatten(texts[..k]), Flatten(texts[k..]);
       && c <= |before| && before[|before| - c..] == PREFIX[..c]
       && |PREFIX| - c <= |after| && after[..|PREFIX| - c] == PREFIX[c..]
  }

  lemma SeamLater(texts: seq<seq<byte>>, rest: seq<seq<byte>>, k: int, c: int)
    requires texts != [] && rest == texts[1..] && JoinsAt(rest, k, c)
    ensures JoinsAt(texts, k + 1, c)
  {
    var first, before := texts[0], Flatten(rest[..k]);
    assert texts[..k + 1][1..] == rest[..k] && texts[k + 1..] == rest[k..];
    assert Flatten(texts[..k + 1]) == first + before;
    assert (first + before)[|first + before| - c..] == before[|before| - c..];
  }

  lemma SeamHere(texts: seq<seq<byte>>, first: seq<byte>, tail: seq<byte>, i: nat)
    requires texts != [] && first == texts[0] && tail == Flatten(texts[1..])
    requires OccursAt(first + tail, PREFIX, i) && i < |first| < i + |PREFIX|
    ensures JoinsAt(texts, 1, |first| - i)
  {
    var c, whole := |first| - i, first + tail;
    var own := whole[i..i + |PREFIX|];
    assert texts[..1] == [first];
    FlattenSnoc([], first);
    assert [] + [first] == [first] && Flatten<byte>([]) + first == first;
    assert first[|first| - c..] == own[..c];
    assert tail[..|PREFIX| - c] == own[c..];
    assert |tail| > 0 && texts[1..] != [];
  }

  lemma {:induction false} SeamOf(texts: seq<seq<byte>>, i: int) returns (k: int, c: int)
    requires OccursAt(Flatten(texts), PREFIX, i)
    requires forall n :: 0 <= n < |texts| ==> !Occurs(texts[n], PREFIX)
    ensures JoinsAt(texts, k, c)
    decreases |texts|
  {
    var first, rest := texts[0], texts[1..];
    var whole, tail := Flatten(texts), Flatten(rest);
    if i >= |first| {
      OccursAtShift(first, tail, PREFIX, i - |first|);
      k, c := SeamOf(rest, i - |first|);
      SeamLater(texts, rest, k, c);
      k := k + 1;
    } else {
      if i + |PREFIX| <= |first| {
        assert first[i..i + |PREFIX|] == whole[i..i + |PREFIX|];
        assert OccursAt(first, PREFIX, i);
      }
      SeamHere(texts, first, tail, i);
      k, c := 1, |first| - i;
    }
  }

  lemma JoinIsPrefix(texts: seq<seq<byte>>, k: int, c: int)
    requires JoinsAt(texts, k, c)
    ensures Occurs(Flatten(texts), PREFIX)
  {
    var before, after := Flatten(texts[..k]), Flatten(texts[k..]);
    assert texts == texts[..k] + texts[k..];
    FlattenConcat(texts[..k], texts[k..]);
    HalvesJoin(before, after, c);
  }

  lemma HalvesJoin(before: seq<byte>, after: seq<byte>, c: nat)
    requires c <= |before| && c <= |PREFIX| && before[|before| - c..] == PREFIX[..c]
    requires |PREFIX| - c <= |after| && after[..|PREFIX| - c] == PREFIX[c..]
    ensures Occurs(before + after, PREFIX)
  {
    var i, whole := |before| - c, before + after;
    assert whole[i..i + |PREFIX|] == before[i..] + after[..|PREFIX| - c];
    assert PREFIX[..c] + PREFIX[c..] == PREFIX;
    assert OccursAt(whole, PREFIX, i);
  }

  /** A stripped history of output and commands holds a prefix exactly where taking a command out
      joined the two halves of one. */
  lemma StrippedHoldsPrefixIff(texts: seq<seq<byte>>, ids: seq<seq<byte>>)
    requires |texts| == |ids| + 1
    requires forall n :: 0 <= n < |ids| ==> ValidSessionID(ids[n])
    requires forall n :: 0 <= n < |texts| ==> !Occurs(texts[n], PREFIX)
    ensures Occurs(Stripped(Replay(texts, ids)), PREFIX) <==> exists k, c :: JoinsAt(texts, k, c)
  {
    StrippingIsExact(texts, ids);
    if i :| OccursAt(Flatten(texts), PREFIX, i) {
      var k, c := SeamOf(texts, i);
    }
    if k, c :| JoinsAt(texts, k, c) {
      JoinIsPrefix(texts, k, c);
    }
  }

  /** So without such a seam the result holds no command, and stripping again changes nothing. */
  lemma StrippingOnceIsEnough(texts: seq<seq<byte>>, ids: seq<seq<byte>>)
    requires |texts| == |ids| + 1
    requires forall n :: 0 <= n < |ids| ==> ValidSessionID(ids[n])
    requires forall n :: 0 <= n < |texts| ==> !Occurs(texts[n], PREFIX)
    requires !(exists k, c :: JoinsAt(texts, k, c))
    ensures Parse(Stripped(Replay(texts, ids))) == None
    ensures Stripped(Stripped(Replay(texts, ids))) == Stripped(Replay(texts, ids))
  {
    var left := Stripped(Replay(texts, ids));
    StrippedHoldsPrefixIff(texts, ids);
    NoPrefixNothingStripped(left);
    LastIndexFinds(left, PREFIX);
  }

  // ---- Whole commands ----

  /** A command from j to the first BEL after it. */
  predicate CommandAt(data: seq<byte>, j: int, bell: int) {
    && OccursAt(data, PREFIX, j) && j + |PREFIX| <= bell < |data| && data[bell] == 0x07
    && (forall k :: j <= k < bell ==> data[k] != 0x07)
    && Identified(data[j + |PREFIX|..bell]).Some?
  }

  ghost predicate HoldsCommand(data: seq<byte>) {
    exists j, bell :: CommandAt(data, j, bell)
  }

  lemma CommandExtends(seg: seq<byte>, rest: seq<byte>, j: int, bell: int)
    requires CommandAt(seg, j, bell)
    ensures CommandAt(seg + rest, j, bell)
  {
    var data := seg + rest;
    assert data[j..j + |PREFIX|] == seg[j..j + |PREFIX|];
    assert data[j + |PREFIX|..bell] == seg[j + |PREFIX|..bell];
  }

  lemma {:induction false} CommandShifts(seg: seq<byte>, rest: seq<byte>, j: int, bell: int)
    requires 0 <= j
    ensures CommandAt(seg + rest, |seg| + j, |seg| + bell) <==> CommandAt(rest, j, bell)
  {
    var data := seg + rest;
    OccursAtShift(seg, rest, PREFIX, j);
    if j + |PREFIX| <= bell < |rest| {
      assert data[|seg| + j + |PREFIX|..|seg| + bell] == rest[j + |PREFIX|..bell];
      forall k | j <= k < bell ensures data[|seg| + k] == rest[k] {
      }
      if forall k :: |seg| + j <= k < |seg| + bell ==> data[k] != 0x07 {
        forall k | j <= k < bell ensures rest[k] != 0x07 {
          assert data[|seg| + k] != 0x07;
        }
      }
    }
  }

  lemma CommandInSegment(seg: seq<byte>, rest: seq<byte>, j: int, bell: int)
    requires Segment(seg) && CommandAt(seg + rest, j, bell) && bell < |seg|
    ensures EndsInCommand(seg)
  {
    var data := seg + rest;
    assert bell == |seg| - 1 by { assert data[bell] == seg[bell]; }
    PrefixStaysInside(seg, rest, j);
    assert data[j + |PREFIX|..bell] == CommandText(seg, j);
    HandoffHistories.CommandPrefixIsLast(seg, j);
  }

  lemma EndIsCommand(seg: seq<byte>)
    requires Segment(seg) && EndsInCommand(seg)
    ensures CommandAt(seg, LastIndex(seg, PREFIX), |seg| - 1)
  {
    var j := LastIndex(seg, PREFIX);
    LastIndexFinds(seg, PREFIX);
    assert seg[j + |PREFIX|..|seg| - 1] == CommandText(seg, j);
  }

  lemma {:induction false} CommandLands(seg: seq<byte>, rest: seq<byte>, j: int, bell: int)
    requires Segment(seg) && CommandAt(seg + rest, j, bell)
    ensures EndsInCommand(seg) || HoldsCommand(rest)
  {
    if bell < |seg| {
      CommandInSegment(seg, rest, j, bell);
    } else {
      HandoffHistories.StrayBegins(seg, rest, j, bell);
      CommandShifts(seg, rest, j - |seg|, bell - |seg|);
    }
  }

  lemma {:induction false} CommandStaysInFront(seg: seq<byte>, rest: seq<byte>)
    requires Segment(seg) && EndsInCommand(seg)
    ensures HoldsCommand(seg + rest)
  {
    EndIsCommand(seg);
    CommandExtends(seg, rest, LastIndex(seg, PREFIX), |seg| - 1);
  }

  lemma {:induction false} CommandStaysBehind(seg: seq<byte>, rest: seq<byte>, j: int, bell: int)
    requires CommandAt(rest, j, bell)
    ensures HoldsCommand(seg + rest)
  {
    CommandShifts(seg, rest, j, bell);
  }

  lemma {:induction false} CommandsSplit(seg: seq<byte>, rest: seq<byte>)
    requires Segment(seg)
    ensures HoldsCommand(seg + rest) <==> EndsInCommand(seg) || HoldsCommand(rest)
  {
    if j, bell :| CommandAt(seg + rest, j, bell) {
      CommandLands(seg, rest, j, bell);
    }
    if EndsInCommand(seg) {
      CommandStaysInFront(seg, rest);
    }
    if j, bell :| CommandAt(rest, j, bell) {
      CommandStaysBehind(seg, rest, j, bell);
    }
  }

  lemma RemainsIff(seg: seq<byte>)
    requires Segment(seg)
    ensures var kept := Remains(seg, Index(seg, PREFIX));
            |kept| <= |seg| && (kept == seg <==> !EndsInCommand(seg))
  {
    IndexFinds(seg, PREFIX);
    LastIndexFinds(seg, PREFIX);
    if EndsInCommand(seg) {
      FirstAndLast(seg);
    }
  }

  lemma NoBellNoCommand(data: seq<byte>)
    requires Index(data, SUFFIX) == -1
    ensures !HoldsCommand(data)
  {
    IndexFinds(data, SUFFIX);
    forall j, b ensures !CommandAt(data, j, b) {
      if 0 <= b < |data| {
        OccursAtElements(data, SUFFIX, b);
      }
    }
  }

  lemma SegmentAgainstWhole(seg: seq<byte>, rest: seq<byte>, left: seq<byte>)
    requires Segment(seg) && left == Strips(IsHandoff, rest) && |left| <= |rest|
    requires left == rest <==> !HoldsCommand(rest)
    ensures |Strips(IsHandoff, seg + rest)| <= |seg + rest|
    ensures Strips(IsHandoff, seg + rest) == seg + rest <==> !HoldsCommand(seg + rest)
  {
    HandoffSegment(seg, rest);
    RemainsIff(seg);
    CommandsSplit(seg, rest);
    HandoffHistories.EqualConcats(Remains(seg, Index(seg, PREFIX)), left, seg, rest);
  }

  lemma {:induction false} StrippedAgainstWhole(data: seq<byte>)
    ensures |Strips(IsHandoff, data)| <= |data|
    ensures Strips(IsHandoff, data) == data <==> !HoldsCommand(data)
    decreases |data|
  {
    var bell := Index(data, SUFFIX);
    if bell < 0 {
      HandoffHistories.NoBellNoChange(IsHandoff, data);
      NoBellNoCommand(data);
    } else {
      var seg, rest := data[..bell + 1], data[bell + 1..];
      FirstBell(data, bell);
      assert data == seg + rest && Segment(seg);
      StrippedAgainstWhole(rest);
      SegmentAgainstWhole(seg, rest, Strips(IsHandoff, rest));
    }
  }

  /** Any history at all is left alone exactly when it holds no command. */
  lemma StrippingChangesNothingIff(data: seq<byte>)
    ensures Stripped(data) == data <==> !(exists j, bell :: CommandAt(data, j, bell))
  {
    StrippedAgainstWhole(data);
  }

  /** A stripped history of output and commands is free of commands, and stripping it again changes
      nothing, exactly when the output with the commands taken out holds none: joined or not, what
      counts is whether a whole valid command has come about. */
  lemma StrippingAgainIff(texts: seq<seq<byte>>, ids: seq<seq<byte>>)
    requires |texts| == |ids| + 1
    requires forall n :: 0 <= n < |ids| ==> ValidSessionID(ids[n])
    requires forall n :: 0 <= n < |texts| ==> !Occurs(texts[n], PREFIX)
    ensures Stripped(Replay(texts, ids)) == Flatten(texts)
    ensures Stripped(Stripped(Replay(texts, ids))) == Stripped(Replay(texts, ids))
            <==> !(exists j, bell :: CommandAt(Flatten(texts), j, bell))
    ensures (exists j, bell :: CommandAt(Flatten(texts), j, bell)) ==> exists k, c :: JoinsAt(texts, k, c)
  {
    StrippingIsExact(texts, ids);
    StrippingChangesNothingIff(Flatten(texts));
    if j, bell :| CommandAt(Flatten(texts), j, bell) {
      var k, c := SeamOf(texts, j);
    }
  }
}
