/** Exactly which text a doubled prefix delivers, however it is cut into reads. */
module KeyboardQuoting {
  import opened Sequences
  import opened Keyboard
  import opened KeyboardRuns
  import opened KeyboardConservation

  // ---- One byte at a time ----

  function Singles(data: seq<byte>): seq<seq<byte>> {
    if data == [] then [] else [[data[0]]] + Singles(data[1..])
  }

  lemma {:induction false} SinglesFlatten(data: seq<byte>)
    ensures Flatten(Singles(data)) == data
  {
    if data != [] {
      SinglesFlatten(data[1..]);
      assert Singles(data)[1..] == Singles(data[1..]);
      assert data == [data[0]] + data[1..];
    }
  }

  lemma ReadOne(cfg: Config, lists: Listings, r: Reader, b: byte)
    ensures Read(cfg, lists, r, [b]) == Step(cfg, lists, r, b)
  {
    if r.running {
      var (q, n) := Turn(cfg, lists, r, [b]);
      assert !FocusReport([b]) && n == 1 && [b][1..] == [];
      assert Read(cfg, lists, r, [b]) == Read(cfg, lists, q, []);
    }
  }

  /** Read a byte at a time, no focus report is ever seen. */
  lemma {:induction false} SinglesAreFeed(cfg: Config, lists: Listings, r: Reader, data: seq<byte>)
    ensures Reads(cfg, lists, r, Singles(data)) == Feed(cfg, lists, r, data)
    decreases |data|
  {
    if data != [] {
      ReadOne(cfg, lists, r, data[0]);
      assert Singles(data)[0] == [data[0]] && Singles(data)[1..] == Singles(data[1..]);
      SinglesAreFeed(cfg, lists, Step(cfg, lists, r, data[0]), data[1..]);
    }
  }

  // ---- Prefixes other than escape ----

  lemma {:induction false} QuoteConcat(prefix: byte, a: seq<byte>, b: seq<byte>)
    ensures Quote(prefix, a + b) == Quote(prefix, a) + Quote(prefix, b)
  {
    if a == [] {
      assert a + b == b;
    } else {
      assert (a + b)[1..] == a[1..] + b;
      QuoteConcat(prefix, a[1..], b);
      ConcatAssociates(if a[0] == prefix then [prefix, prefix] else [a[0]], Quote(prefix, a[1..]), Quote(prefix, b));
    }
  }

  lemma QuotedReportIsThere(prefix: byte, data: seq<byte>)
    requires AllowedPrefix(prefix) && prefix != ESC && FocusReport(data)
    ensures FocusReport(Quote(prefix, data))
  {
    var tail := data[1..];
    assert Quote(prefix, data) == [data[0]] + Quote(prefix, tail);
    assert Quote(prefix, tail) == [tail[0]] + Quote(prefix, tail[1..]);
    assert Quote(prefix, tail[1..]) == [tail[1]] + Quote(prefix, tail[1..][1..]);
  }

  lemma ReportIsMet(cfg: Config, lists: Listings, r: Reader, data: seq<byte>, i: nat)
    requires AllowedPrefix(cfg.prefix) && cfg.prefix != ESC && AtRest(r)
    requires i < |data| && FocusReport(data[i..])
    ensures var n := |Quote(cfg.prefix, data[..i])|; var quoted := Quote(cfg.prefix, data);
            n < |quoted| && FocusReportAt(cfg, lists, r, quoted, n)
  {
    var before, after := Quote(cfg.prefix, data[..i]), Quote(cfg.prefix, data[i..]);
    assert data == data[..i] + data[i..];
    QuoteConcat(cfg.prefix, data[..i], data[i..]);
    QuotedReportIsThere(cfg.prefix, data[i..]);
    assert (before + after)[..|before|] == before && (before + after)[|before|..] == after;
    QuotedIsTyped(cfg, lists, r, data[..i]);
  }

  /** All ways of cutting the quoted text deliver it. */
  ghost predicate Delivered(cfg: Config, lists: Listings, r: Reader, data: seq<byte>) {
    forall chunks :: Flatten(chunks) == Quote(cfg.prefix, data) ==>
      Reads(cfg, lists, r, chunks) == EmitBytes(r, data)
  }

  lemma DeliveredIff(cfg: Config, lists: Listings, r: Reader, data: seq<byte>)
    requires AllowedPrefix(cfg.prefix) && cfg.prefix != ESC && AtRest(r)
    ensures Delivered(cfg, lists, r, data) <==> NoFocusReports(data)
  {
    if NoFocusReports(data) {
      forall chunks | Flatten(chunks) == Quote(cfg.prefix, data)
        ensures Reads(cfg, lists, r, chunks) == EmitBytes(r, data)
      {
        QuotedTextIsDelivered(cfg, lists, r, data, chunks);
      }
    } else {
      var i :| 0 <= i < |data| && FocusReport(data[i..]);
      ReportIsMet(cfg, lists, r, data, i);
      QuotedIsTyped(cfg, lists, r, data);
      SplittingIsInvisibleIff(cfg, lists, r, Quote(cfg.prefix, data));
    }
  }

  // ---- Escape as the prefix ----

  lemma {:induction false} QuoteIsLongerIff(prefix: byte, data: seq<byte>)
    ensures |Quote(prefix, data)| >= |data|
    ensures |Quote(prefix, data)| == |data| <==> prefix !in data
    ensures prefix !in data ==> Quote(prefix, data) == data
  {
    if data != [] {
      QuoteIsLongerIff(prefix, data[1..]);
      assert data == [data[0]] + data[1..];
    }
  }

  /** Text without the prefix is typed as it is. */
  lemma {:induction false} PlainIsTyped(cfg: Config, lists: Listings, r: Reader, data: seq<byte>)
    requires cfg.prefix !in data && AtRest(r)
    ensures Feed(cfg, lists, r, data) == EmitBytes(r, data)
    decreases |data|
  {
    if data == [] {
      assert r.trace + Typed(data) == r.trace;
    } else {
      var b := data[0];
      var q := EmitBytes(r, [b]);
      assert Step(cfg, lists, r, b) == q;
      PlainIsTyped(cfg, lists, q, data[1..]);
      assert data == [b] + data[1..];
      TypedConcat([b], data[1..]);
      ConcatAssociates(r.trace, Typed([b]), Typed(data[1..]));
    }
  }

  /** With escape as the prefix no byte counts as the second of two. */
  lemma {:induction false} NothingDoubles(cfg: Config, lists: Listings, r: Reader, data: seq<byte>)
    requires cfg.prefix == ESC
    ensures Undoubled(cfg, lists, r, data) == data
    decreases |data|
  {
    if data != [] {
      NothingDoubles(cfg, lists, Step(cfg, lists, r, data[0]), data[1..]);
      assert data == [data[0]] + data[1..];
    }
  }

  lemma FiredLast(r: Reader, q: Reader, end: Reader)
    requires Fired(r, q) && r.trace <= q.trace <= end.trace
    ensures |r.trace| <= |q.trace| - 1 < |end.trace| && !end.trace[|q.trace| - 1].SessionByte?
  {
  }

  /** Feeding bytes to any step function, and whether none of them makes anything fire. */
  function FedBy(step: (Reader, byte) -> Reader, r: Reader, data: seq<byte>): Reader
    decreases |data|
  {
    if data == [] then r else FedBy(step, step(r, data[0]), data[1..])
  }

  predicate SilentBy(step: (Reader, byte) -> Reader, r: Reader, data: seq<byte>)
    decreases |data|
  {
    data == [] || (var q := step(r, data[0]); !Fired(r, q) && SilentBy(step, q, data[1..]))
  }

  ghost predicate Grows(step: (Reader, byte) -> Reader) {
    forall r: Reader, b: byte :: r.trace <= step(r, b).trace
  }

  lemma {:induction false} FedGrows(step: (Reader, byte) -> Reader, r: Reader, data: seq<byte>)
    requires Grows(step)
    ensures r.trace <= FedBy(step, r, data).trace
    decreases |data|
  {
    if data != [] {
      FedGrows(step, step(r, data[0]), data[1..]);
    }
  }

  /** If anything fires, it is in the trace. */
  lemma {:induction false} FiringShows(step: (Reader, byte) -> Reader, r: Reader, data: seq<byte>) returns (k: nat)
    requires Grows(step) && !SilentBy(step, r, data)
    ensures |r.trace| <= k < |FedBy(step, r, data).trace| && !FedBy(step, r, data).trace[k].SessionByte?
    decreases |data|
  {
    var q, rest := step(r, data[0]), data[1..];
    FedGrows(step, q, rest);
    if Fired(r, q) {
      FiredLast(r, q, FedBy(step, q, rest));
      k := |q.trace| - 1;
    } else {
      k := FiringShows(step, q, rest);
    }
  }

  lemma {:induction false} FeedIsFedBy(
    cfg: Config, lists: Listings, step: (Reader, byte) -> Reader, r: Reader, data: seq<byte>)
    requires forall q, b :: step(q, b) == Step(cfg, lists, q, b)
    ensures FedBy(step, r, data) == Feed(cfg, lists, r, data)
    ensures SilentBy(step, r, data) <==> FiresNothing(cfg, lists, r, data)
    decreases |data|
  {
    if data != [] {
      FeedIsFedBy(cfg, lists, step, step(r, data[0]), data[1..]);
    }
  }

  lemma UnquietFeedShows(cfg: Config, lists: Listings, r: Reader, data: seq<byte>) returns (k: nat)
    requires !FiresNothing(cfg, lists, r, data)
    ensures |r.trace| <= k < |Feed(cfg, lists, r, data).trace|
    ensures !Feed(cfg, lists, r, data).trace[k].SessionByte?
  {
    var step := (q: Reader, b: byte) => Step(cfg, lists, q, b);
    forall q: Reader, b: byte ensures q.trace <= step(q, b).trace {
      StepReportsNoFocus(cfg, lists, q, b);
    }
    FeedIsFedBy(cfg, lists, step, r, data);
    k := FiringShows(step, r, data);
  }

  lemma QuotedEscapeIsNotTyped(cfg: Config, lists: Listings, r: Reader, data: seq<byte>)
    requires cfg.prefix == ESC && AtRest(r) && ESC in data
    ensures Feed(cfg, lists, r, Quote(ESC, data)) != EmitBytes(r, data)
  {
    var quoted, end := Quote(ESC, data), EmitBytes(r, data);
    if FiresNothing(cfg, lists, r, quoted) {
      UnclaimedKeysAreKept(cfg, lists, r, quoted);
      NothingDoubles(cfg, lists, r, quoted);
      SessionBytesTyped(r.trace, data);
      QuoteIsLongerIff(ESC, data);
      assert |Accounted(cfg, end)| == |SessionBytes(r.trace)| + |data|;
      assert |Accounted(cfg, r)| == |SessionBytes(r.trace)|;
    } else {
      var k := UnquietFeedShows(cfg, lists, r, quoted);
    }
  }

  lemma EscapeDeliveredIff(cfg: Config, lists: Listings, r: Reader, data: seq<byte>)
    requires cfg.prefix == ESC && AtRest(r)
    ensures Delivered(cfg, lists, r, data) <==> ESC !in data
  {
    var quoted := Quote(ESC, data);
    if ESC in data {
      SinglesFlatten(quoted);
      SinglesAreFeed(cfg, lists, r, quoted);
      QuotedEscapeIsNotTyped(cfg, lists, r, data);
    } else {
      QuoteIsLongerIff(ESC, data);
      forall chunks | Flatten(chunks) == quoted ensures Reads(cfg, lists, r, chunks) == EmitBytes(r, data) {
        PlainTextMeetsNoFocusReport(cfg, lists, r, quoted);
        ReadsAreFeed(cfg, lists, r, chunks);
        PlainIsTyped(cfg, lists, r, data);
      }
    }
  }

  /** Doubling the prefix delivers text through reads of any size exactly when the text has no focus
      report in it; and, if the prefix is escape, exactly when it has no escape in it at all. */
  lemma QuotingDeliversIff(cfg: Config, lists: Listings, r: Reader, data: seq<byte>)
    requires AllowedPrefix(cfg.prefix) && AtRest(r)
    ensures Delivered(cfg, lists, r, data)
            <==> if cfg.prefix == ESC then ESC !in data else NoFocusReports(data)
  {
    if cfg.prefix == ESC {
      EscapeDeliveredIff(cfg, lists, r, data);
    } else {
      DeliveredIff(cfg, lists, r, data);
    }
  }
}
