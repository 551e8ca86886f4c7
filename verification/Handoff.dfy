/** The private OSC command that hands a terminal to another session
    (internal/server/attach_handoff.go). */
module Handoff {
  import opened Sequences
  import Base64

  // ESC ] 1337;FalknAttach=
  const PREFIX: seq<byte> :=
    [0x1b, 0x5d, 0x31, 0x33, 0x33, 0x37, 0x3b, 0x46, 0x61, 0x6c, 0x6b, 0x6e,
     0x41, 0x74, 0x74, 0x61, 0x63, 0x68, 0x3d]
  const SUFFIX: seq<byte> := [0x07]
  const MAX_SESSION_ID_BYTES: nat := 256
  const FALKN_DASH: seq<byte> := [0x66, 0x61, 0x6c, 0x6b, 0x6e, 0x2d]

  predicate IDCharacter(c: byte) {
    0x61 <= c <= 0x7a || 0x41 <= c <= 0x5a || 0x30 <= c <= 0x39 || c == 0x2d || c == 0x5f || c == 0x2e
  }

  predicate ValidSessionID(id: seq<byte>) {
    && |FALKN_DASH| < |id| <= MAX_SESSION_ID_BYTES
    && FALKN_DASH <= id
    && forall k :: 0 <= k < |id| ==> IDCharacter(id[k])
  }

  function Command(text: seq<byte>): seq<byte> {
    PREFIX + text + SUFFIX
  }

  /** What WriteAttachHandoff prints for a valid ID. */
  function Printed(id: seq<byte>): seq<byte> {
    Command(Base64.Encode(id))
  }

  function WriteAttachHandoff(id: seq<byte>): (r: Option<seq<byte>>)
    ensures r.Some? <==> ValidSessionID(id)
    ensures r.Some? ==> |r.value| <= 362
  {
    if ValidSessionID(id) then Some(Printed(id)) else None
  }

  /** The text up to the first BEL. */
  function UptoBell(text: seq<byte>): Option<seq<byte>> {
    var end := Index(text, SUFFIX);
    if end < 0 then None else Some(text[..end])
  }

  /** The text between the last prefix and the first BEL after it. */
  function Payload(data: seq<byte>): Option<seq<byte>> {
    var start := LastIndex(data, PREFIX);
    if start < 0 then None else UptoBell(data[start + |PREFIX|..])
  }

  function Identified(text: seq<byte>): (r: Option<seq<byte>>)
    ensures r.Some? ==> ValidSessionID(r.value) && Base64.Decode(text) == r
  {
    var id := Base64.Decode(text);
    if id.Some? && ValidSessionID(id.value) then id else None
  }

  /** attachHandoffSessionID */
  function Parse(data: seq<byte>): (r: Option<seq<byte>>)
    ensures r.Some? ==> ValidSessionID(r.value)
  {
    var text := Payload(data);
    if text.Some? then Identified(text.value) else None
  }

  predicate IsHandoff(data: seq<byte>) {
    Parse(data).Some?
  }

  // ---- Printing and parsing ----

  predicate Plain(text: seq<byte>) {
    forall k :: 0 <= k < |text| ==> text[k] != 0x1b && text[k] != 0x07
  }

  lemma EncodedIsPlain(id: seq<byte>)
    ensures Plain(Base64.Encode(id))
    ensures ValidSessionID(id) ==> Identified(Base64.Encode(id)) == Some(id)
  {
    Base64.RoundTrip(id);
  }

  /** ESC appears only at the front of a command and BEL only at its end. */
  lemma CommandShape(text: seq<byte>)
    requires Plain(text)
    ensures var p := Command(text);
            && |p| == |PREFIX| + |text| + 1 && p[0] == 0x1b
            && (forall k :: 0 < k < |p| ==> p[k] != 0x1b)
            && (forall k :: 0 <= k < |p| - 1 ==> p[k] != 0x07)
            && p[|p| - 1] == 0x07
            && p[|PREFIX|..|p| - 1] == text
  {
    var p := Command(text);
    forall k | 0 < k < |p| ensures p[k] != 0x1b && (k < |p| - 1 ==> p[k] != 0x07) {
      if |PREFIX| <= k < |p| - 1 {
        assert p[k] == text[k - |PREFIX|];
      }
    }
  }

  lemma PrefixNeedsEscape(hay: seq<byte>, i: int)
    requires OccursAt(hay, PREFIX, i)
    ensures hay[i] == 0x1b
    ensures forall k :: i < k < i + |PREFIX| ==> hay[k] != 0x1b && hay[k] != 0x07
  {
    OccursAtElements(hay, PREFIX, i);
    forall k | i < k < i + |PREFIX| ensures hay[k] != 0x1b && hay[k] != 0x07 {
      assert hay[i + (k - i)] == PREFIX[k - i];
    }
  }

  /** Within output around a command, a prefix lies in the output before it, is the command's
      own, or lies in the output after it. */
  lemma PrefixesAround(before: seq<byte>, text: seq<byte>, after: seq<byte>, i: int)
    requires Plain(text) && OccursAt(before + Command(text) + after, PREFIX, i)
    ensures i == |before| || OccursAt(before, PREFIX, i)
         || OccursAt(after, PREFIX, i - |before| - |Command(text)|)
  {
    var p := Command(text);
    var hay := before + p + after;
    CommandShape(text);
    PrefixNeedsEscape(hay, i);
    if i < |before| {
      assert hay[|before|] == p[0];
      assert i + |PREFIX| <= |before|;
      assert hay[i..i + |PREFIX|] == before[i..i + |PREFIX|];
    } else if i < |before| + |p| {
      assert hay[i] == p[i - |before|];
    } else {
      OccursAtShift(before + p, after, PREFIX, i - |before| - |p|);
    }
  }

  lemma OwnPrefix(before: seq<byte>, text: seq<byte>, after: seq<byte>)
    ensures OccursAt(before + Command(text) + after, PREFIX, |before|)
  {
    var hay := before + Command(text) + after;
    assert hay[|before|..|before| + |PREFIX|] == PREFIX;
  }

  lemma FirstBell(text: seq<byte>, bell: int)
    ensures Index(text, SUFFIX) == bell && bell != -1 <==>
            0 <= bell < |text| && text[bell] == 0x07 && forall k :: 0 <= k < bell ==> text[k] != 0x07
  {
    IndexFinds(text, SUFFIX);
    forall k | 0 <= k < |text| ensures OccursAt(text, SUFFIX, k) <==> text[k] == 0x07 {
      OccursAtElements(text, SUFFIX, k);
    }
  }

  /** The command's terminator is the first BEL after its prefix. */
  lemma OwnBell(text: seq<byte>, after: seq<byte>)
    requires Plain(text)
    ensures Index(text + SUFFIX + after, SUFFIX) == |text|
  {
    var rest := text + SUFFIX + after;
    forall k | 0 <= k < |text| ensures rest[k] != 0x07 {
      assert rest[k] == text[k];
    }
    FirstBell(rest, |text|);
  }

  lemma OwnStart(before: seq<byte>, text: seq<byte>, after: seq<byte>)
    requires Plain(text) && !Occurs(after, PREFIX)
    ensures LastIndex(before + Command(text) + after, PREFIX) == |before|
  {
    var hay := before + Command(text) + after;
    OwnPrefix(before, text, after);
    LastIndexFinds(hay, PREFIX);
    PrefixesAround(before, text, after, LastIndex(hay, PREFIX));
  }

  lemma PayloadOfCommand(before: seq<byte>, text: seq<byte>, after: seq<byte>)
    requires Plain(text) && !Occurs(after, PREFIX)
    ensures Payload(before + Command(text) + after) == Some(text)
  {
    var hay := before + Command(text) + after;
    OwnStart(before, text, after);
    assert hay[|before| + |PREFIX|..] == text + SUFFIX + after;
    OwnBell(text, after);
    assert (text + SUFFIX + after)[..|text|] == text;
  }

  /** A printed command is read back with its ID, after any output and before any output that
      starts no further handoff. */
  lemma ParseUndoesPrint(before: seq<byte>, id: seq<byte>, after: seq<byte>)
    requires ValidSessionID(id) && !Occurs(after, PREFIX)
    ensures Parse(before + Printed(id) + after) == Some(id)
  {
    EncodedIsPlain(id);
    PayloadOfCommand(before, Base64.Encode(id), after);
  }

  lemma ParsePrinted(id: seq<byte>)
    requires ValidSessionID(id)
    ensures Parse(Printed(id)) == Some(id)
  {
    EncodedIsPlain(id);
    PayloadOfWhole(Base64.Encode(id));
  }

  lemma PayloadOfWhole(text: seq<byte>)
    requires Plain(text)
    ensures Payload(Command(text)) == Some(text)
  {
    PayloadOfCommand([], text, []);
    assert [] + Command(text) + [] == Command(text);
  }

  // ---- Stripping replayed history ----

  datatype Candidate = NoMore | Candidate(start: nat, end: nat)

  /** The first prefix and the first BEL after it, when there are both. */
  function NextCandidate(data: seq<byte>): (c: Candidate)
    ensures c.Candidate? ==> c.start + |PREFIX| < c.end <= |data|
  {
    var start := Index(data, PREFIX);
    if start < 0 then NoMore
    else
      var bell := Index(data[start + |PREFIX|..], SUFFIX);
      if bell < 0 then NoMore else Candidate(start, start + |PREFIX| + bell + 1)
  }

  /** `held + data` without the recognised candidates of `data`; `held` was already passed over. */
  function StripFrom(recognised: seq<byte> -> bool, held: seq<byte>, data: seq<byte>): seq<byte>
    decreases |data|
  {
    match NextCandidate(data)
    case NoMore => held + data
    case Candidate(start, end) =>
      if !recognised(data[start..end]) then
        StripFrom(recognised, held + data[..start + |PREFIX|], data[start + |PREFIX|..])
      else
        held + data[..start] + StripFrom(recognised, [], data[end..])
  }

  function Stripped(data: seq<byte>): seq<byte> {
    StripFrom(IsHandoff, [], data)
  }

  method StripAttachHandoffs(data: seq<byte>) returns (r: seq<byte>)
    ensures r == Stripped(data)
  {
    r := Strip(IsHandoff, data);
  }

  /** The next prefix in data[searchFrom..] and the BEL that ends it. */
  method FindCandidate(data: seq<byte>, searchFrom: nat) returns (found: bool, start: nat, end: nat)
    requires searchFrom <= |data|
    ensures found ==> searchFrom <= start && start + |PREFIX| < end <= |data|
    ensures found ==> NextCandidate(data[searchFrom..]) == Candidate(start - searchFrom, end - searchFrom)
    ensures !found ==> NextCandidate(data[searchFrom..]) == NoMore
  {
    found, start, end := false, 0, 0;
    var relativeStart := Index(data[searchFrom..], PREFIX);
    if relativeStart < 0 {
      return;
    }
    start := searchFrom + relativeStart;
    var encodedStart := start + |PREFIX|;
    assert data[encodedStart..] == data[searchFrom..][relativeStart + |PREFIX|..];
    var relativeEnd := Index(data[encodedStart..], SUFFIX);
    if relativeEnd < 0 {
      return;
    }
    found := true;
    end := encodedStart + relativeEnd + |SUFFIX|;
  }

  /** What is still to come out of data[cursor..], with searchFrom as far as has been looked. */
  ghost predicate Pending(
    recognised: seq<byte> -> bool, data: seq<byte>, cursor: nat, searchFrom: nat, left: seq<byte>)
  {
    && cursor <= searchFrom <= |data|
    && left == StripFrom(recognised, data[cursor..searchFrom], data[searchFrom..])
  }

  /** One turn of stripAttachHandoffs's loop. */
  method StripTurn(
    recognised: seq<byte> -> bool, data: seq<byte>, cursor: nat, searchFrom: nat, stripped: seq<byte>,
    ghost left: seq<byte>)
    returns (more: bool, removed: bool, cursor': nat, searchFrom': nat, stripped': seq<byte>, ghost left': seq<byte>)
    requires Pending(recognised, data, cursor, searchFrom, left)
    ensures Pending(recognised, data, cursor', searchFrom', left') && stripped' + left' == stripped + left
    ensures if more then searchFrom < searchFrom' else cursor' == cursor && left' == data[cursor..]
    ensures !removed ==> cursor' == cursor && stripped' == stripped
  {
    more, removed, cursor', searchFrom', stripped', left' := false, false, cursor, searchFrom, stripped, left;
    var found, start, end := FindCandidate(data, searchFrom);
    if !found {
      StripEnd(recognised, data[cursor..searchFrom], data[searchFrom..]);
      assert data[cursor..searchFrom] + data[searchFrom..] == data[cursor..];
      return;
    }
    more := true;
    StripStep(recognised, data, cursor, searchFrom, start, end);
    if !recognised(data[start..end]) {
      searchFrom' := start + |PREFIX|;
      return;
    }
    left' := StripFrom(recognised, data[end..end], data[end..]);
    ConcatAssociates(stripped, data[cursor..start], left');
    removed, cursor', searchFrom', stripped' := true, end, end, stripped + data[cursor..start];
  }

  /** The loop of stripAttachHandoffs. */
  method Strip(recognised: seq<byte> -> bool, data: seq<byte>) returns (r: seq<byte>)
    ensures r == StripFrom(recognised, [], data)
  {
    var cursor: nat, searchFrom: nat, more := 0, 0, true;
    var found, stripped := false, [];
    ghost var whole := StripFrom(recognised, [], data);
    ghost var left := whole;
    assert data[0..0] == [] && data[0..] == data;
    while more && searchFrom < |data|
      invariant Pending(recognised, data, cursor, searchFrom, left)
      invariant whole == stripped + left
      invariant !found ==> cursor == 0 && stripped == []
      invariant !more ==> left == data[cursor..]
      decreases more, |data| - searchFrom
    {
      var removed;
      more, removed, cursor, searchFrom, stripped, left :=
        StripTurn(recognised, data, cursor, searchFrom, stripped, left);
      found := found || removed;
    }
    if more {
      StripEnd(recognised, data[cursor..searchFrom], data[searchFrom..]);
      assert data[cursor..searchFrom] + data[searchFrom..] == data[cursor..];
    }
    if !found {
      return data;
    }
    r := stripped + data[cursor..];
  }

  lemma StripStep(recognised: seq<byte> -> bool, data: seq<byte>, cursor: nat, from: nat, start: nat, end: nat)
    requires cursor <= from <= start && start + |PREFIX| < end <= |data|
    requires NextCandidate(data[from..]) == Candidate(start - from, end - from)
    ensures StripFrom(recognised, data[cursor..from], data[from..]) ==
            var text := start + |PREFIX|;
            if !recognised(data[start..end]) then StripFrom(recognised, data[cursor..text], data[text..])
            else data[cursor..start] + StripFrom(recognised, data[end..end], data[end..])
  {
    var text := start + |PREFIX|;
    Slices(data, cursor, from, start, end);
    StripUnfold(recognised, data[cursor..from], data[from..], start - from, end - from,
      data[start..end], data[cursor..text], data[text..], data[cursor..start], data[end..end], data[end..]);
  }

  /** One unfolding of StripFrom, with the slices it takes named. */
  lemma StripUnfold(
      recognised: seq<byte> -> bool, held: seq<byte>, rest: seq<byte>, start: nat, end: nat,
      piece: seq<byte>, passed: seq<byte>, ahead: seq<byte>, kept: seq<byte>, none: seq<byte>, after: seq<byte>)
    requires NextCandidate(rest) == Candidate(start, end)
    requires piece == rest[start..end]
    requires passed == held + rest[..start + |PREFIX|] && ahead == rest[start + |PREFIX|..]
    requires kept == held + rest[..start] && none == [] && after == rest[end..]
    ensures StripFrom(recognised, held, rest) ==
            if !recognised(piece) then StripFrom(recognised, passed, ahead)
            else kept + StripFrom(recognised, none, after)
  {
  }

  lemma Slices(data: seq<byte>, cursor: nat, from: nat, start: nat, end: nat)
    requires cursor <= from <= start && start + |PREFIX| < end <= |data|
    ensures var held, rest, text := data[cursor..from], data[from..], start + |PREFIX|;
            && rest[start - from..end - from] == data[start..end]
            && held + rest[..text - from] == data[cursor..text] && rest[text - from..] == data[text..]
            && held + rest[..start - from] == data[cursor..start] && rest[end - from..] == data[end..]
            && data[end..end] == []
  {
  }

  lemma StripEnd(recognised: seq<byte> -> bool, held: seq<byte>, rest: seq<byte>)
    requires NextCandidate(rest).NoMore? || rest == []
    ensures StripFrom(recognised, held, rest) == held + rest
  {
  }

  lemma CommandIsNext(before: seq<byte>, text: seq<byte>, rest: seq<byte>)
    requires Plain(text) && !Occurs(before, PREFIX)
    ensures NextCandidate(before + Command(text) + rest) == Candidate(|before|, |before| + |Command(text)|)
  {
    var data := before + Command(text) + rest;
    OwnPrefix(before, text, rest);
    IndexFinds(data, PREFIX);
    PrefixesAround(before, text, rest, Index(data, PREFIX));
    assert data[|before| + |PREFIX|..] == text + SUFFIX + rest;
    OwnBell(text, rest);
  }

  /** Output without a prefix, then a recognised command: the command goes and the rest is
      stripped in turn. */
  lemma StripFirst(recognised: seq<byte> -> bool, before: seq<byte>, text: seq<byte>, rest: seq<byte>)
    requires Plain(text) && recognised(Command(text)) && !Occurs(before, PREFIX)
    ensures StripFrom(recognised, [], before + Command(text) + rest) == before + StripFrom(recognised, [], rest)
  {
    var p := Command(text);
    var data := before + p + rest;
    CommandIsNext(before, text, rest);
    var passed := |before| + |PREFIX|;
    CommandShape(text);
    StripUnfold(recognised, [], data, |before|, |before| + |p|,
      p, data[..passed], data[passed..], before, [], rest);
  }

  lemma StripPrinted(before: seq<byte>, id: seq<byte>, rest: seq<byte>)
    requires ValidSessionID(id) && !Occurs(before, PREFIX)
    ensures Stripped(before + Printed(id) + rest) == before + Stripped(rest)
  {
    EncodedIsPlain(id);
    ParsePrinted(id);
    StripFirst(IsHandoff, before, Base64.Encode(id), rest);
  }

  lemma NoPrefixNothingStripped(text: seq<byte>)
    requires !Occurs(text, PREFIX)
    ensures Stripped(text) == text
  {
    IndexFinds(text, PREFIX);
  }

  function Replay(texts: seq<seq<byte>>, ids: seq<seq<byte>>): seq<byte>
    requires |texts| == |ids| + 1
    decreases |ids|
  {
    if ids == [] then texts[0] else texts[0] + Printed(ids[0]) + Replay(texts[1..], ids[1..])
  }

  /** A history of ordinary output with printed commands in between is replayed as exactly that
      output. */
  lemma {:induction false} StrippingIsExact(texts: seq<seq<byte>>, ids: seq<seq<byte>>)
    requires |texts| == |ids| + 1
    requires forall k :: 0 <= k < |ids| ==> ValidSessionID(ids[k])
    requires forall k :: 0 <= k < |texts| ==> !Occurs(texts[k], PREFIX)
    ensures Stripped(Replay(texts, ids)) == Flatten(texts)
    decreases |ids|
  {
    if ids == [] {
      NoPrefixNothingStripped(texts[0]);
      assert Flatten(texts[1..]) == [];
    } else {
      StripPrinted(texts[0], ids[0], Replay(texts[1..], ids[1..]));
      StrippingIsExact(texts[1..], ids[1..]);
    }
  }

  /** A piece that starts with the prefix, ends with the first BEL after it, and parses. */
  ghost predicate IsCut(recognised: seq<byte> -> bool, piece: seq<byte>) {
    && |PREFIX| < |piece| && PREFIX <= piece && piece[|piece| - 1] == 0x07
    && (forall k :: |PREFIX| <= k < |piece| - 1 ==> piece[k] != 0x07)
    && recognised(piece)
  }

  /** kept[0] cut[0] kept[1] ... cut[n-1] kept[n] */
  function Interleaved(kept: seq<seq<byte>>, cuts: seq<seq<byte>>): seq<byte>
    requires |kept| == |cuts| + 1
    decreases |cuts|
  {
    if cuts == [] then kept[0] else kept[0] + cuts[0] + Interleaved(kept[1..], cuts[1..])
  }

  lemma CandidateIsCut(recognised: seq<byte> -> bool, data: seq<byte>)
    requires NextCandidate(data).Candidate?
    requires var c := NextCandidate(data); recognised(data[c.start..c.end])
    ensures var c := NextCandidate(data); IsCut(recognised, data[c.start..c.end])
  {
    var c := NextCandidate(data);
    var piece, text := data[c.start..c.end], data[c.start + |PREFIX|..];
    IndexFinds(data, PREFIX);
    FirstBell(text, Index(text, SUFFIX));
    assert piece[..|PREFIX|] == data[c.start..c.start + |PREFIX|];
    forall k | |PREFIX| <= k < |piece| ensures piece[k] == text[k - |PREFIX|] { }
  }

  lemma {:induction false} CutsOf(recognised: seq<byte> -> bool, held: seq<byte>, data: seq<byte>)
      returns (kept: seq<seq<byte>>, cuts: seq<seq<byte>>)
    ensures |kept| == |cuts| + 1 && Interleaved(kept, cuts) == held + data
    ensures forall k :: 0 <= k < |cuts| ==> IsCut(recognised, cuts[k])
    ensures StripFrom(recognised, held, data) == Flatten(kept)
    decreases |data|
  {
    match NextCandidate(data)
    case NoMore =>
      kept, cuts := [held + data], [];
      FlattenSnoc([], held + data);
    case Candidate(start, end) =>
      var piece, text := data[start..end], start + |PREFIX|;
      var passed, ahead := held + data[..text], data[text..];
      StripUnfold(recognised, held, data, start, end, piece, passed, ahead, held + data[..start], [], data[end..]);
      if !recognised(piece) {
        kept, cuts := CutsOf(recognised, passed, ahead);
        ConcatAssociates(held, data[..text], ahead);
        assert data[..text] + ahead == data;
      } else {
        var restKept, restCuts := CutsOf(recognised, [], data[end..]);
        CandidateIsCut(recognised, data);
        kept, cuts := OneMoreCut(held, data, start, end, restKept, restCuts);
      }
  }

  lemma OneMoreCut(held: seq<byte>, data: seq<byte>, start: nat, end: nat,
                   restKept: seq<seq<byte>>, restCuts: seq<seq<byte>>)
      returns (kept: seq<seq<byte>>, cuts: seq<seq<byte>>)
    requires start <= end <= |data| && |restKept| == |restCuts| + 1
    requires Interleaved(restKept, restCuts) == data[end..]
    ensures kept == [held + data[..start]] + restKept && cuts == [data[start..end]] + restCuts
    ensures Interleaved(kept, cuts) == held + data
    ensures Flatten(kept) == held + data[..start] + Flatten(restKept)
  {
    kept, cuts := [held + data[..start]] + restKept, [data[start..end]] + restCuts;
    assert kept[1..] == restKept && cuts[1..] == restCuts;
    assert held + data[..start] + data[start..end] + data[end..] == held + data;
  }

  /** For any input at all, stripping takes out separate pieces that start with the prefix, end
      with the first BEL after it and parse, and keeps every other byte in order. */
  lemma StrippingCutsCommands(data: seq<byte>) returns (kept: seq<seq<byte>>, cuts: seq<seq<byte>>)
    ensures |kept| == |cuts| + 1 && Interleaved(kept, cuts) == data && Stripped(data) == Flatten(kept)
    ensures forall k :: 0 <= k < |cuts| ==> IsCut(IsHandoff, cuts[k])
  {
    kept, cuts := CutsOf(IsHandoff, [], data);
  }

  /** A removed piece is one command and nothing else exactly when it holds no second prefix.
      Otherwise the text between its first and its last prefix is lost with it. */
  lemma CutIsOneCommand(piece: seq<byte>)
    requires IsCut(IsHandoff, piece)
    ensures Identified(piece[|PREFIX|..|piece| - 1]).Some? <==> forall i :: 0 < i ==> !OccursAt(piece, PREFIX, i)
  {
    var text := piece[|PREFIX|..];
    assert OccursAt(piece, PREFIX, 0);
    var start := LastIndex(piece, PREFIX);
    LastIndexFinds(piece, PREFIX);
    if start == 0 {
      FirstBell(text, |text| - 1);
      assert text[..|text| - 1] == piece[|PREFIX|..|piece| - 1];
    } else {
      SecondPrefixSpoilsText(piece, start);
    }
  }

  lemma SecondPrefixSpoilsText(piece: seq<byte>, start: int)
    requires OccursAt(piece, PREFIX, 0) && OccursAt(piece, PREFIX, start) && start > 0
    requires |PREFIX| < |piece| && piece[|piece| - 1] == 0x07
    ensures Base64.Decode(piece[|PREFIX|..|piece| - 1]).None?
  {
    PrefixNeedsEscape(piece, 0);
    PrefixNeedsEscape(piece, start);
    var text := piece[|PREFIX|..|piece| - 1];
    assert text[start - |PREFIX|] == piece[start] == 0x1b;
    if Base64.Decode(text).Some? {
      Base64.DecodableText(text, start - |PREFIX|);
    }
  }

  /** A prefix, text without BEL, and a command make one candidate. */
  lemma StrayCandidate(stray: seq<byte>, text: seq<byte>)
    requires Plain(text) && forall k :: 0 <= k < |stray| ==> stray[k] != 0x07
    ensures var data := PREFIX + stray + Command(text);
            NextCandidate(data) == Candidate(0, |data|)
  {
    var p := Command(text);
    var data := PREFIX + stray + p;
    CommandShape(text);
    assert OccursAt(data, PREFIX, 0) by { assert data[0..|PREFIX|] == PREFIX; }
    IndexFinds(data, PREFIX);
    var rest := stray + p;
    assert data[|PREFIX|..] == rest;
    forall k | 0 <= k < |rest| - 1 ensures rest[k] != 0x07 {
      assert rest[k] == if k < |stray| then stray[k] else p[k - |stray|];
    }
    FirstBell(rest, |rest| - 1);
  }

  /** Not only commands are removed: a stray prefix takes everything up to the next command
      with it. */
  lemma StrayPrefixSwallowsText(stray: seq<byte>, id: seq<byte>)
    requires ValidSessionID(id) && forall k :: 0 <= k < |stray| ==> stray[k] != 0x07
    ensures Stripped(PREFIX + stray + Printed(id)) == []
  {
    var data := PREFIX + stray + Printed(id);
    EncodedIsPlain(id);
    StrayCandidate(stray, Base64.Encode(id));
    ParseUndoesPrint(PREFIX + stray, id, []);
    assert data[0..|data|] == data == data + [];
    assert data[|data|..] == [] && data[..0] == [];
    NoPrefixNothingStripped([]);
  }

  lemma JoinedHalves(c: seq<byte>, inner: seq<byte>, k: nat)
    requires ValidSessionID(inner) && 0 < k < |PREFIX| && k <= |c|
    requires forall i :: 0 < i < |c| ==> c[i] != 0x1b
    ensures Stripped(c[..k] + Printed(inner) + c[k..]) == c
  {
    var tail := c[k..];
    forall i ensures !OccursAt(tail, PREFIX, i) {
      if OccursAt(tail, PREFIX, i) {
        PrefixNeedsEscape(tail, i);
      }
    }
    NoPrefixNothingStripped(tail);
    StripPrinted(c[..k], inner, tail);
    assert c[..k] + tail == c;
  }

  /** Nor is the result always free of commands: removing one can join the halves of another. */
  lemma StrippingCanFormACommand(outer: seq<byte>, inner: seq<byte>, k: nat)
    requires ValidSessionID(outer) && ValidSessionID(inner) && 0 < k < |PREFIX|
    ensures var c := Printed(outer);
            k < |c| && Stripped(c[..k] + Printed(inner) + c[k..]) == c && Parse(c) == Some(outer)
  {
    EncodedIsPlain(outer);
    CommandShape(Base64.Encode(outer));
    JoinedHalves(Printed(outer), inner, k);
    ParsePrinted(outer);
  }
}
