/** Exactly which histories stripping takes commands and nothing else out of
    (internal/server/attach_handoff.go). */
module HandoffHistories {
  import opened Sequences
  import opened Handoff
  import opened HandoffSegments
  import Base64

  /** A prefix at i, and before the next BEL another, at j, that starts a command. */
  predicate Stray(data: seq<byte>, i: int, j: int, bell: int) {
    && OccursAt(data, PREFIX, i) && i < j && OccursAt(data, PREFIX, j)
    && j + |PREFIX| <= bell < |data| && data[bell] == 0x07
    && (forall k :: i <= k < bell ==> data[k] != 0x07)
    && Identified(data[j + |PREFIX|..bell]).Some?
  }

  ghost predicate HasStray(data: seq<byte>) {
    exists i, j, bell :: Stray(data, i, j, bell)
  }

  predicate SegmentHasStray(seg: seq<byte>) {
    EndsInCommand(seg) && 0 <= Index(seg, PREFIX) < LastIndex(seg, PREFIX)
  }

  /** A command's text holds no prefix, so what starts it is the last prefix before its BEL. */
  lemma CommandTextHasNoPrefix(seg: seq<byte>, j: int, k: int)
    requires 0 <= j && j + |PREFIX| <= k < |seg| - 1 && Identified(CommandText(seg, j)).Some?
    ensures seg[k] != 0x1b
  {
    var text := CommandText(seg, j);
    assert text[k - j - |PREFIX|] == seg[k];
    Base64.DecodableText(text, k - j - |PREFIX|);
  }

  lemma CommandPrefixIsLast(seg: seq<byte>, j: int)
    requires Segment(seg) && OccursAt(seg, PREFIX, j) && j + |PREFIX| <= |seg| - 1
    requires Identified(CommandText(seg, j)).Some?
    ensures LastIndex(seg, PREFIX) == j
  {
    var last := LastIndex(seg, PREFIX);
    LastIndexFinds(seg, PREFIX);
    if last > j {
      PrefixNeedsEscape(seg, last);
      PrefixNeedsEscape(seg, j);
      CommandTextHasNoPrefix(seg, j, last);
    }
  }

  lemma StrayInSegment(seg: seq<byte>, rest: seq<byte>)
    requires Segment(seg) && SegmentHasStray(seg)
    ensures HasStray(seg + rest)
  {
    var i, j := Index(seg, PREFIX), LastIndex(seg, PREFIX);
    IndexFinds(seg, PREFIX);
    LastIndexFinds(seg, PREFIX);
    assert seg[j + |PREFIX|..|seg| - 1] == CommandText(seg, j);
    StrayExtends(seg, rest, i, j, |seg| - 1);
  }

  lemma StrayExtends(seg: seq<byte>, rest: seq<byte>, i: int, j: int, bell: int)
    requires Stray(seg, i, j, bell)
    ensures Stray(seg + rest, i, j, bell)
  {
    var data := seg + rest;
    assert data[i..i + |PREFIX|] == seg[i..i + |PREFIX|] && data[j..j + |PREFIX|] == seg[j..j + |PREFIX|];
    assert data[j + |PREFIX|..bell] == seg[j + |PREFIX|..bell];
  }

  lemma StrayInRest(seg: seq<byte>, rest: seq<byte>, i: int, j: int, bell: int)
    requires 0 <= i
    ensures Stray(seg + rest, |seg| + i, |seg| + j, |seg| + bell) <==> Stray(rest, i, j, bell)
  {
    var data := seg + rest;
    OccursAtShift(seg, rest, PREFIX, i);
    if i < j && j + |PREFIX| <= bell < |rest| {
      OccursAtShift(seg, rest, PREFIX, j);
      assert data[|seg| + j + |PREFIX|..|seg| + bell] == rest[j + |PREFIX|..bell];
      forall k | i <= k < bell ensures data[|seg| + k] == rest[k] {
      }
      if forall k :: |seg| + i <= k < |seg| + bell ==> data[k] != 0x07 {
        forall k | i <= k < bell ensures rest[k] != 0x07 {
          assert data[|seg| + k] != 0x07;
        }
      }
    }
  }

  lemma StrayLandsInside(seg: seq<byte>, rest: seq<byte>, i: int, j: int, bell: int)
    requires Segment(seg) && Stray(seg + rest, i, j, bell) && bell < |seg|
    ensures SegmentHasStray(seg)
  {
    var data := seg + rest;
    assert bell == |seg| - 1 by { assert data[bell] == seg[bell]; }
    PrefixStaysInside(seg, rest, i);
    PrefixStaysInside(seg, rest, j);
    assert data[j + |PREFIX|..bell] == CommandText(seg, j);
    CommandPrefixIsLast(seg, j);
    IndexFinds(seg, PREFIX);
  }

  lemma StrayBegins(seg: seq<byte>, rest: seq<byte>, i: int, bell: int)
    requires Segment(seg) && 0 <= i && |seg| <= bell < |seg + rest|
    requires forall k :: i <= k < bell ==> (seg + rest)[k] != 0x07
    ensures |seg| <= i
  {
    assert (seg + rest)[|seg| - 1] == 0x07;
  }

  lemma {:induction false} StrayLandsBeyond(
    seg: seq<byte>, rest: seq<byte>, whole: seq<byte>, i: int, j: int, bell: int, k: int, m: int, end: int)
    requires whole == seg + rest && Stray(whole, i, j, bell) && 0 <= k
    requires i == |seg| + k && j == |seg| + m && bell == |seg| + end
    ensures HasStray(rest)
  {
    StrayInRest(seg, rest, k, m, end);
  }

  lemma {:induction false} StrayLands(seg: seq<byte>, rest: seq<byte>, i: int, j: int, bell: int)
    requires Segment(seg) && Stray(seg + rest, i, j, bell)
    ensures SegmentHasStray(seg) || HasStray(rest)
  {
    if bell < |seg| {
      StrayLandsInside(seg, rest, i, j, bell);
    } else {
      StrayBegins(seg, rest, i, bell);
      StrayLandsBeyond(seg, rest, seg + rest, i, j, bell, i - |seg|, j - |seg|, bell - |seg|);
    }
  }

  lemma StraySplits(seg: seq<byte>, rest: seq<byte>)
    requires Segment(seg)
    ensures HasStray(seg + rest) <==> SegmentHasStray(seg) || HasStray(rest)
  {
    if i, j, bell :| Stray(seg + rest, i, j, bell) {
      StrayLands(seg, rest, i, j, bell);
    }
    if SegmentHasStray(seg) {
      StrayInSegment(seg, rest);
    }
    if i, j, bell :| Stray(rest, i, j, bell) {
      StrayInRest(seg, rest, i, j, bell);
    }
  }

  lemma NoBellNoChange(recognised: seq<byte> -> bool, data: seq<byte>)
    requires Index(data, SUFFIX) == -1
    ensures Strips(recognised, data) == data && !HasStray(data)
  {
    IndexFinds(data, SUFFIX);
    forall k | 0 <= k < |data| ensures data[k] != 0x07 {
      OccursAtElements(data, SUFFIX, k);
      assert !OccursAt(data, SUFFIX, k);
    }
    var start := Index(data, PREFIX);
    if start >= 0 {
      var text := data[start + |PREFIX|..];
      FirstBell(text, Index(text, SUFFIX));
      assert Index(text, SUFFIX) == -1;
    }
    assert [] + data == data;
  }

  lemma EqualConcats(a: seq<byte>, b: seq<byte>, c: seq<byte>, d: seq<byte>)
    requires |a| <= |c| && |b| <= |d|
    ensures a + b == c + d <==> a == c && b == d
  {
    if a + b == c + d {
      assert |a + b| == |c + d|;
      assert a == (a + b)[..|a|] && b == (a + b)[|a|..];
      assert c == (c + d)[..|c|] && d == (c + d)[|c|..];
    }
  }

  lemma {:induction false} StrippingAgainstCommands(data: seq<byte>)
    ensures |Strips(IsHandoff, data)| <= |Strips(OneCommand, data)|
    ensures Strips(IsHandoff, data) == Strips(OneCommand, data) <==> !HasStray(data)
    decreases |data|
  {
    var bell := Index(data, SUFFIX);
    if bell < 0 {
      NoBellNoChange(IsHandoff, data);
      NoBellNoChange(OneCommand, data);
    } else {
      var seg, rest := data[..bell + 1], data[bell + 1..];
      FirstBell(data, bell);
      assert data == seg + rest && Segment(seg);
      HandoffSegment(seg, rest);
      CommandSegment(seg, rest);
      StrippingAgainstCommands(rest);
      StraySplits(seg, rest);
      IndexFinds(seg, PREFIX);
      LastIndexFinds(seg, PREFIX);
      EqualConcats(Remains(seg, Index(seg, PREFIX)), Strips(IsHandoff, rest),
                   Remains(seg, LastIndex(seg, PREFIX)), Strips(OneCommand, rest));
    }
  }

  /** For any history: stripping takes out commands and nothing but commands exactly when no prefix
      is followed, before any BEL, by the prefix of a command. */
  lemma OnlyCommandsAreCutIff(data: seq<byte>)
    ensures Stripped(data) == StripFrom(OneCommand, [], data)
            <==> !(exists i, j, bell :: Stray(data, i, j, bell))
  {
    StrippingAgainstCommands(data);
  }
}
