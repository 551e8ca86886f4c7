/** The alternate-screen journal (internal/session/screen_history.go). */
module ScreenHistory {
  import opened Sequences

  datatype Line = Line(text: string)

  type Lines = seq<Line>

  const MAXIMUM_TERMINAL_HISTORY_LINES: nat := 2000

  // ---- Merging ----

  /** The last n of `left` are the first n of `right`. */
  predicate Meets(left: Lines, right: Lines, n: nat) {
    n <= |left| && n <= |right| && left[|left| - n..] == right[..n]
  }

  /** The longest overlap of at most `upto` lines. */
  function LongestUpto(left: Lines, right: Lines, upto: nat): (n: nat)
    requires upto <= |left| && upto <= |right|
    ensures n <= upto
  {
    if upto == 0 || Meets(left, right, upto) then upto else LongestUpto(left, right, upto - 1)
  }

  function LongestOverlap(left: Lines, right: Lines): (n: nat)
    ensures n <= |left| && n <= |right|
  {
    LongestUpto(left, right, if |left| < |right| then |left| else |right|)
  }

  lemma {:induction false} LongestUptoFinds(left: Lines, right: Lines, upto: nat)
    requires upto <= |left| && upto <= |right|
    ensures Meets(left, right, LongestUpto(left, right, upto))
    ensures forall n :: LongestUpto(left, right, upto) < n <= upto ==> !Meets(left, right, n)
  {
    if upto > 0 && !Meets(left, right, upto) {
      LongestUptoFinds(left, right, upto - 1);
    }
  }

  lemma LongestOverlapIsLongest(left: Lines, right: Lines)
    ensures Meets(left, right, LongestOverlap(left, right))
    ensures forall n: nat :: Meets(left, right, n) ==> n <= LongestOverlap(left, right)
  {
    LongestUptoFinds(left, right, if |left| < |right| then |left| else |right|);
  }

  lemma MeetsElements(left: Lines, right: Lines, n: nat)
    requires n <= |left| && n <= |right|
    ensures Meets(left, right, n) <==> forall k :: 0 <= k < n ==> left[|left| - n + k] == right[k]
  {
    if Meets(left, right, n) {
      forall k | 0 <= k < n ensures left[|left| - n + k] == right[k] {
        assert left[|left| - n..][k] == right[..n][k];
      }
    }
  }

  predicate Contains(lines: Lines, candidate: Lines) {
    Index(lines, candidate) != -1
  }

  lemma ContainsIff(lines: Lines, candidate: Lines)
    ensures Contains(lines, candidate) <==> Occurs(lines, candidate)
  {
    IndexFinds(lines, candidate);
  }

  /** appendWithLineOverlap */
  function Merged(existing: Lines, addition: Lines): Lines {
    if existing == [] then addition
    else if addition == [] || Contains(existing, addition) then existing
    else existing + addition[LongestOverlap(existing, addition)..]
  }

  /** m keeps `existing` as its beginning and shows `addition` as one block. */
  ghost predicate Joins(m: Lines, existing: Lines, addition: Lines) {
    existing <= m && Occurs(m, addition)
  }

  lemma OverlapJoins(existing: Lines, addition: Lines, n: nat)
    requires Meets(existing, addition, n)
    ensures Joins(existing + addition[n..], existing, addition)
  {
    var before, m := existing[..|existing| - n], existing + addition[n..];
    assert addition == addition[..n] + addition[n..];
    assert m == before + addition;
    assert OccursAt(m, addition, |before|);
  }

  lemma MergedJoins(existing: Lines, addition: Lines)
    ensures Joins(Merged(existing, addition), existing, addition)
  {
    ContainsIff(existing, addition);
    if existing == [] || addition == [] {
      assert OccursAt(Merged(existing, addition), addition, 0);
    } else if !Contains(existing, addition) {
      LongestOverlapIsLongest(existing, addition);
      OverlapJoins(existing, addition, LongestOverlap(existing, addition));
    }
  }

  lemma OccursInPrefix(m: Lines, existing: Lines, addition: Lines, i: nat)
    requires existing <= m && OccursAt(m, addition, i) && i + |addition| <= |existing|
    ensures Contains(existing, addition)
  {
    assert existing[i..i + |addition|] == m[i..i + |addition|];
    assert OccursAt(existing, addition, i);
    ContainsIff(existing, addition);
  }

  lemma OverlapAt(m: Lines, existing: Lines, addition: Lines, i: nat)
    requires existing <= m && OccursAt(m, addition, i) && i <= |existing| <= i + |addition|
    ensures Meets(existing, addition, |existing| - i)
    ensures m[..i + |addition|] == existing + addition[|existing| - i..]
  {
    var k := |existing| - i;
    assert existing[i..] == m[i..i + |addition|][..k];
    assert m[..i + |addition|] == existing + m[i..i + |addition|][k..];
  }

  lemma JoinedAt(m: Lines, existing: Lines, addition: Lines, i: nat)
    requires existing <= m && OccursAt(m, addition, i)
    requires existing != [] && addition != [] && !Contains(existing, addition)
    ensures |m| >= |Merged(existing, addition)|
    ensures |m| == |Merged(existing, addition)| ==> m == Merged(existing, addition)
  {
    LongestOverlapIsLongest(existing, addition);
    if i + |addition| <= |existing| {
      OccursInPrefix(m, existing, addition, i);
    } else if i <= |existing| {
      OverlapAt(m, existing, addition, i);
      assert |existing| - i <= LongestOverlap(existing, addition);
      if |m| == |Merged(existing, addition)| {
        assert m[..i + |addition|] == m;
      }
    }
  }

  /** The merge is the shortest sequence that joins the two, and the only one of its length. */
  lemma MergeIsOptimal(existing: Lines, addition: Lines, m: Lines)
    requires Joins(m, existing, addition)
    ensures Joins(Merged(existing, addition), existing, addition)
    ensures |m| >= |Merged(existing, addition)|
    ensures |m| == |Merged(existing, addition)| ==> m == Merged(existing, addition)
  {
    MergedJoins(existing, addition);
    var i :| OccursAt(m, addition, i);
    if existing != [] && addition != [] && !Contains(existing, addition) {
      JoinedAt(m, existing, addition, i);
    }
  }

  // ---- The journal ----

  datatype Journal = Journal(history: Lines, last: Lines)

  function Committed(history: Lines, lines: Lines): Lines {
    if lines == [] then history else Newest(Merged(history, lines), MAXIMUM_TERMINAL_HISTORY_LINES)
  }

  /** captureTerminalHistoryLocked, with the alternate screen active. */
  function Captured(j: Journal, next: Lines): Journal {
    if next == [] then j
    else if j.last == [] then j.(last := next)
    else if Contains(j.history + j.last, next) then j
    else Advanced(j, next)
  }

  /** The screen has moved on: the rows that scrolled off are committed. */
  function Advanced(j: Journal, next: Lines): Journal {
    var overlap := LongestOverlap(j.last, next);
    if overlap > 0 then Journal(Committed(j.history, j.last[..|j.last| - overlap]), next)
    else j.(last := next)
  }

  lemma AdvancedBy(j: Journal, next: Lines, overlap: nat, gone: Lines)
    requires overlap == LongestOverlap(j.last, next) > 0 && gone == j.last[..|j.last| - overlap]
    ensures Advanced(j, next) == Journal(Committed(j.history, gone), next)
  {
  }

  lemma AdvancedFlat(j: Journal, next: Lines)
    requires LongestOverlap(j.last, next) == 0
    ensures Advanced(j, next) == j.(last := next)
  {
  }

  function Rendered(j: Journal): Lines {
    Merged(j.history, j.last)
  }

  function CapturedAll(j: Journal, screens: seq<Lines>): Journal
    decreases |screens|
  {
    if screens == [] then j
    else Captured(CapturedAll(j, screens[..|screens| - 1]), screens[|screens| - 1])
  }

  /** The screens that show something. */
  function NonBlank(screens: seq<Lines>): seq<Lines>
    decreases |screens|
  {
    if screens == [] then []
    else
      var n := |screens| - 1;
      var before := NonBlank(screens[..n]);
      if screens[n] == [] then before else before + [screens[n]]
  }

  /** A blank capture, as when a program clears its screen before it leaves or redraws, is as good as
      none: from any journal and over any run, only the screens that show something matter. */
  lemma {:induction false} BlankCapturesAreNothing(j: Journal, screens: seq<Lines>)
    ensures CapturedAll(j, screens) == CapturedAll(j, NonBlank(screens))
    decreases |screens|
  {
    if screens != [] {
      var n := |screens| - 1;
      BlankCapturesAreNothing(j, screens[..n]);
      var before := NonBlank(screens[..n]);
      assert (before + [screens[n]])[..|before|] == before;
    }
  }

  /** Capturing the same screen again changes nothing, from any journal at all. */
  lemma CaptureIsIdempotent(j: Journal, next: Lines)
    ensures Captured(Captured(j, next), next) == Captured(j, next)
  {
    var k := Captured(j, next);
    if k.last == next {
      assert OccursAt(k.history + k.last, next, |k.history|);
      ContainsIff(k.history + k.last, next);
    }
  }

  /** Over any run the journal keeps to its bound, and shows the live screen as one block. */
  lemma {:induction false} JournalIsBounded(screens: seq<Lines>)
    ensures var j := CapturedAll(Journal([], []), screens);
            |j.history| <= 2000 && Joins(Rendered(j), j.history, j.last)
    decreases |screens|
  {
    var j := CapturedAll(Journal([], []), screens);
    if screens != [] {
      JournalIsBounded(screens[..|screens| - 1]);
    }
    MergedJoins(j.history, j.last);
  }

  lemma MergedExtends(existing: Lines, addition: Lines) returns (more: Lines)
    ensures Merged(existing, addition) == existing + more
  {
    MergedJoins(existing, addition);
    more := Merged(existing, addition)[|existing|..];
  }

  lemma CaptureAppends(j: Journal, next: Lines) returns (more: Lines)
    requires |j.history| <= 2000
    ensures Captured(j, next).history == Newest(j.history + more, 2000)
  {
    more := [];
    assert j.history + [] == j.history;
    if next != [] && j.last != [] && !Contains(j.history + j.last, next) {
      var overlap := LongestOverlap(j.last, next);
      if overlap > 0 {
        AdvancedBy(j, next, overlap, j.last[..|j.last| - overlap]);
        more := MergedExtends(j.history, j.last[..|j.last| - overlap]);
      }
    }
  }

  /** History is append-only: whatever is captured, scrolled, redrawn, blank or seen before, lines are only
      added after those there are, and only the oldest ever go, once there are more than 2000. */
  lemma {:induction false} HistoryIsAppendOnly(j: Journal, screens: seq<Lines>) returns (more: Lines)
    requires |j.history| <= 2000
    ensures CapturedAll(j, screens).history == Newest(j.history + more, 2000)
    decreases |screens|
  {
    if screens == [] {
      assert j.history + [] == j.history;
      return [];
    }
    var n := |screens| - 1;
    var sooner := HistoryIsAppendOnly(j, screens[..n]);
    var later := CaptureAppends(CapturedAll(j, screens[..n]), screens[n]);
    more := sooner + later;
    NewestAdvances(j.history + sooner, later, 2000);
    ConcatAssociates(j.history, sooner, later);
  }

  /** The live screen is the one just captured exactly unless that was blank, or shows again what the
      journal has elsewhere: then it is one client's own view, and the journal stays as it was. */
  lemma LiveScreenIff(j: Journal, next: Lines)
    requires j.last != []
    ensures Captured(j, next).last == next <==> next == j.last || (next != [] && !Occurs(j.history + j.last, next))
    ensures Captured(j, next).last != next ==> Captured(j, next) == j
  {
    ContainsIff(j.history + j.last, next);
    if next == j.last {
      assert OccursAt(j.history + j.last, next, |j.history|);
    }
  }

  // ---- Scrolling ----

  predicate AllDistinct(lines: Lines) {
    forall i, j :: 0 <= i < j < |lines| ==> lines[i] != lines[j]
  }

  /** The journal has seen lines first up to end, and its screen starts at line top. */
  predicate Follows(lines: Lines, first: nat, top: nat, end: nat, j: Journal) {
    && first <= top < end <= |lines|
    && j.history == Newest(lines[first..top], MAXIMUM_TERMINAL_HISTORY_LINES)
    && j.last == lines[top..end]
  }

  /** The oldest line still kept. */
  function Oldest(first: nat, top: nat): (r: nat)
    requires first <= top
    ensures first <= r <= top
  {
    if top - first <= MAXIMUM_TERMINAL_HISTORY_LINES then first else top - MAXIMUM_TERMINAL_HISTORY_LINES
  }

  lemma SlicesMeetOnly(lines: Lines, a: nat, b: nat, c: nat, d: nat, n: nat)
    requires AllDistinct(lines) && a <= b <= |lines| && c < d <= |lines| && 0 < n
    requires Meets(lines[a..b], lines[c..d], n)
    ensures b - n == c
  {
    MeetsElements(lines[a..b], lines[c..d], n);
    assert lines[a..b][b - a - n + 0] == lines[b - n];
    assert lines[c..d][0] == lines[c];
  }

  lemma SliceNotBefore(lines: Lines, a: nat, b: nat, c: nat, d: nat)
    requires AllDistinct(lines) && a <= b < d <= |lines| && c < d
    ensures !Contains(lines[a..b], lines[c..d])
  {
    var hay, needle := lines[a..b], lines[c..d];
    ContainsIff(hay, needle);
    var k := |needle| - 1;
    forall i ensures !OccursAt(hay, needle, i) {
      if 0 <= i && i + |needle| <= |hay| {
        assert hay[i + k] == lines[a + i + k] && needle[k] == lines[d - 1];
        OccursAtElements(hay, needle, i);
      }
    }
  }

  /** Adjacent stretches merge into one. */
  lemma SlicesMerge(lines: Lines, a: nat, b: nat, c: nat)
    requires AllDistinct(lines) && a <= b < c <= |lines|
    ensures Merged(lines[a..b], lines[b..c]) == lines[a..c]
  {
    var left, right := lines[a..b], lines[b..c];
    assert left + right == lines[a..c];
    if left != [] {
      SliceNotBefore(lines, a, b, b, c);
      LongestOverlapIsLongest(left, right);
      var n := LongestOverlap(left, right);
      if n > 0 {
        SlicesMeetOnly(lines, a, b, b, c, n);
      }
      assert right[0..] == right;
    }
  }

  lemma SliceOfSlice(lines: Lines, from: nat, end: nat, a: nat, b: nat)
    requires from <= a <= b <= end <= |lines|
    ensures lines[from..end][a - from..b - from] == lines[a..b]
  {
    var whole := lines[from..end];
    forall k | 0 <= k < b - a ensures whole[a - from..b - from][k] == lines[a..b][k] {
      assert whole[a - from + k] == lines[a + k];
    }
  }

  lemma KnownIsKept(lines: Lines, first: nat, top: nat, end: nat, j: Journal)
    requires Follows(lines, first, top, end, j)
    ensures j.history + j.last == lines[Oldest(first, top)..end]
  {
    var kept := Oldest(first, top);
    assert j.history == lines[kept..top];
    assert lines[kept..top] + lines[top..end] == lines[kept..end];
  }

  /** Looking back at lines still kept leaves the journal alone. */
  lemma BackwardWindow(lines: Lines, first: nat, top: nat, end: nat, j: Journal, a: nat, b: nat)
    requires Follows(lines, first, top, end, j) && Oldest(first, top) <= a < b <= end
    ensures Captured(j, lines[a..b]) == j
  {
    var kept := Oldest(first, top);
    var known := j.history + j.last;
    KnownIsKept(lines, first, top, end, j);
    SliceOfSlice(lines, kept, end, a, b);
    assert OccursAt(known, lines[a..b], a - kept);
    ContainsIff(known, lines[a..b]);
  }

  /** The overlap of two windows is what both show. */
  lemma OverlapIsShared(lines: Lines, top: nat, end: nat, a: nat, b: nat)
    requires AllDistinct(lines) && top <= a < end < b <= |lines|
    ensures LongestOverlap(lines[top..end], lines[a..b]) == end - a
  {
    var last, next := lines[top..end], lines[a..b];
    LongestOverlapIsLongest(last, next);
    assert last[|last| - (end - a)..] == lines[a..end];
    assert next[..end - a] == lines[a..end];
    assert Meets(last, next, end - a);
    SlicesMeetOnly(lines, top, end, a, b, LongestOverlap(last, next));
  }

  lemma CommitsSlice(lines: Lines, first: nat, top: nat, a: nat, history: Lines)
    requires AllDistinct(lines) && first <= top <= a <= |lines|
    requires history == Newest(lines[first..top], MAXIMUM_TERMINAL_HISTORY_LINES)
    ensures Committed(history, lines[top..a]) == Newest(lines[first..a], MAXIMUM_TERMINAL_HISTORY_LINES)
  {
    var kept := Oldest(first, top);
    assert history == lines[kept..top];
    if top < a {
      SlicesMerge(lines, kept, top, a);
      NewestOfSlice(lines, first, top, a);
    }
  }

  lemma CapturedMovesOn(j: Journal, next: Lines, known: Lines, overlap: nat, gone: Lines)
    requires next != [] && j.last != [] && known == j.history + j.last && !Contains(known, next)
    requires LongestOverlap(j.last, next) == overlap > 0 && gone == j.last[..|j.last| - overlap]
    ensures Captured(j, next) == Journal(Committed(j.history, gone), next)
  {
  }

  /** A window that moves on commits exactly the lines that left it. */
  lemma ForwardWindow(lines: Lines, first: nat, top: nat, end: nat, j: Journal, a: nat, b: nat)
    requires AllDistinct(lines) && Follows(lines, first, top, end, j) && top <= a < end < b <= |lines|
    ensures Follows(lines, first, a, b, Captured(j, lines[a..b]))
  {
    var kept, next := Oldest(first, top), lines[a..b];
    KnownIsKept(lines, first, top, end, j);
    SliceNotBefore(lines, kept, end, a, b);
    OverlapIsShared(lines, top, end, a, b);
    SliceOfSlice(lines, top, end, top, a);
    CapturedMovesOn(j, next, lines[kept..end], end - a, lines[top..a]);
    CommitsSlice(lines, first, top, a, j.history);
  }

  lemma NewestOfSlice(lines: Lines, first: nat, top: nat, a: nat)
    requires first <= top <= a <= |lines|
    ensures Newest(lines[Oldest(first, top)..a], MAXIMUM_TERMINAL_HISTORY_LINES)
         == Newest(lines[first..a], MAXIMUM_TERMINAL_HISTORY_LINES)
  {
  }

  datatype Window = Window(top: nat, end: nat)

  /** From what is shown, each window either lies in what is still kept, or moves on past its end
      without leaving a gap. */
  predicate Scrolls(lines: Lines, first: nat, top: nat, end: nat, windows: seq<Window>)
    requires first <= top
    decreases |windows|
  {
    windows != [] ==>
      var w := windows[0];
      && w.top < w.end <= |lines|
      && if w.end <= end then Oldest(first, top) <= w.top && Scrolls(lines, first, top, end, windows[1..])
         else top <= w.top < end && Scrolls(lines, first, w.top, w.end, windows[1..])
  }

  /** The furthest line any window has shown. */
  function Furthest(end: nat, windows: seq<Window>): nat
    decreases |windows|
  {
    if windows == [] then end
    else Furthest(if windows[0].end <= end then end else windows[0].end, windows[1..])
  }

  function CapturedFrom(j: Journal, lines: Lines, windows: seq<Window>): Journal
    requires forall i :: 0 <= i < |windows| ==> windows[i].top <= windows[i].end <= |lines|
    decreases |windows|
  {
    if windows == [] then j
    else CapturedFrom(Captured(j, lines[windows[0].top..windows[0].end]), lines, windows[1..])
  }

  /** What the windows show. */
  function Shown(lines: Lines, windows: seq<Window>): seq<Lines>
    requires forall i :: 0 <= i < |windows| ==> windows[i].top <= windows[i].end <= |lines|
  {
    seq(|windows|, i requires 0 <= i < |windows| => lines[windows[i].top..windows[i].end])
  }

  lemma {:induction false} CapturedFromSnoc(j: Journal, lines: Lines, windows: seq<Window>, w: Window)
    requires forall i :: 0 <= i < |windows| ==> windows[i].top <= windows[i].end <= |lines|
    requires w.top <= w.end <= |lines|
    ensures CapturedFrom(j, lines, windows + [w]) == Captured(CapturedFrom(j, lines, windows), lines[w.top..w.end])
    decreases |windows|
  {
    var all := windows + [w];
    if windows == [] {
      assert all[0] == w && all[1..] == [];
      assert CapturedFrom(j, lines, all) == CapturedFrom(Captured(j, lines[w.top..w.end]), lines, all[1..]);
    } else {
      var k := Captured(j, lines[windows[0].top..windows[0].end]);
      assert all[0] == windows[0] && all[1..] == windows[1..] + [w];
      assert CapturedFrom(j, lines, all) == CapturedFrom(k, lines, all[1..]);
      CapturedFromSnoc(k, lines, windows[1..], w);
    }
  }

  lemma {:induction false} CapturedFromIsAll(j: Journal, lines: Lines, windows: seq<Window>)
    requires forall i :: 0 <= i < |windows| ==> windows[i].top <= windows[i].end <= |lines|
    ensures CapturedFrom(j, lines, windows) == CapturedAll(j, Shown(lines, windows))
    decreases |windows|
  {
    if windows != [] {
      var n := |windows| - 1;
      var init, last := windows[..n], windows[n];
      CapturedFromIsAll(j, lines, init);
      assert windows == init + [last];
      CapturedFromSnoc(j, lines, init, last);
      assert Shown(lines, windows)[..n] == Shown(lines, init);
    }
  }

  /** The screens captured are those the windows show, with blank ones anywhere in between. */
  predicate Shows(lines: Lines, windows: seq<Window>, screens: seq<Lines>) {
    && (forall i :: 0 <= i < |windows| ==> windows[i].top <= windows[i].end <= |lines|)
    && NonBlank(screens) == Shown(lines, windows)
  }

  lemma ShownIsCaptured(j: Journal, lines: Lines, windows: seq<Window>, screens: seq<Lines>)
    requires Shows(lines, windows, screens)
    ensures CapturedAll(j, screens) == CapturedFrom(j, lines, windows)
  {
    BlankCapturesAreNothing(j, screens);
    CapturedFromIsAll(j, lines, windows);
  }

  lemma {:induction false} ScrollsFits(lines: Lines, first: nat, top: nat, end: nat, windows: seq<Window>)
    requires first <= top && Scrolls(lines, first, top, end, windows)
    ensures forall i :: 0 <= i < |windows| ==> windows[i].top <= windows[i].end <= |lines|
    decreases |windows|
  {
    if windows != [] {
      var w := windows[0];
      if w.end <= end {
        ScrollsFits(lines, first, top, end, windows[1..]);
      } else {
        ScrollsFits(lines, first, w.top, w.end, windows[1..]);
      }
    }
  }

  lemma {:induction false} ScrollingFollows(
    lines: Lines, first: nat, top: nat, end: nat, j: Journal, windows: seq<Window>)
    returns (at: nat)
    requires AllDistinct(lines) && Follows(lines, first, top, end, j) && Scrolls(lines, first, top, end, windows)
    requires forall i :: 0 <= i < |windows| ==> windows[i].top <= windows[i].end <= |lines|
    ensures Follows(lines, first, at, Furthest(end, windows), CapturedFrom(j, lines, windows))
    decreases |windows|
  {
    if windows == [] {
      return top;
    }
    var w, rest := windows[0], windows[1..];
    var k := Captured(j, lines[w.top..w.end]);
    assert CapturedFrom(j, lines, windows) == CapturedFrom(k, lines, rest);
    if w.end <= end {
      BackwardWindow(lines, first, top, end, j, w.top, w.end);
      at := ScrollingFollows(lines, first, top, end, k, rest);
    } else {
      ForwardWindow(lines, first, top, end, j, w.top, w.end);
      at := ScrollingFollows(lines, first, w.top, w.end, k, rest);
    }
  }

  /** Lines first to end are rendered, once and in order, cut only at the front by the bound. */
  predicate Reconstructs(lines: Lines, first: nat, end: nat, j: Journal) {
    && |j.history| <= MAXIMUM_TERMINAL_HISTORY_LINES && first <= end <= |lines|
    && Rendered(j) == Newest(lines[first..end], MAXIMUM_TERMINAL_HISTORY_LINES + |j.last|)
  }

  lemma FollowedIsRendered(lines: Lines, first: nat, top: nat, end: nat, j: Journal)
    requires AllDistinct(lines) && Follows(lines, first, top, end, j)
    ensures Reconstructs(lines, first, end, j)
  {
    var kept := Oldest(first, top);
    KeptIsNewest(lines, first, top, end);
    SlicesMerge(lines, kept, top, end);
    assert j.history == lines[kept..top];
  }

  lemma KeptIsNewest(lines: Lines, first: nat, top: nat, end: nat)
    requires first <= top < end <= |lines|
    ensures lines[Oldest(first, top)..end] == Newest(lines[first..end], MAXIMUM_TERMINAL_HISTORY_LINES + (end - top))
  {
    SliceOfSlice(lines, first, end, Oldest(first, top), end);
  }

  /** A stream of distinct lines seen through windows that scroll on without a gap, or look back at
      what is kept, with blank screens anywhere in between, is rendered whole and in order: every line
      shown so far, once, cut only at the front by the journal's bound. */
  lemma {:induction false} ScrollingIsReconstructed(
    lines: Lines, start: Window, windows: seq<Window>, screens: seq<Lines>)
    requires AllDistinct(lines) && start.top < start.end <= |lines|
    requires Scrolls(lines, start.top, start.top, start.end, windows)
    requires Shows(lines, [start] + windows, screens)
    ensures start.end <= Furthest(start.end, windows)
    ensures Reconstructs(lines, start.top, Furthest(start.end, windows), CapturedAll(Journal([], []), screens))
  {
    ScrollsFits(lines, start.top, start.top, start.end, windows);
    ShownIsCaptured(Journal([], []), lines, [start] + windows, screens);
    FirstWindow(lines, start, windows);
    var j := Journal([], lines[start.top..start.end]);
    var at := ScrolledFrom(lines, start, windows, j);
    FurthestGrows(start.end, windows);
    FollowedIsRendered(lines, start.top, at, Furthest(start.end, windows), CapturedFrom(j, lines, windows));
  }

  lemma ScrolledFrom(lines: Lines, start: Window, windows: seq<Window>, j: Journal) returns (at: nat)
    requires AllDistinct(lines) && start.top < start.end <= |lines| && j == Journal([], lines[start.top..start.end])
    requires Scrolls(lines, start.top, start.top, start.end, windows)
    requires forall i :: 0 <= i < |windows| ==> windows[i].top <= windows[i].end <= |lines|
    ensures Follows(lines, start.top, at, Furthest(start.end, windows), CapturedFrom(j, lines, windows))
  {
    assert lines[start.top..start.top] == [];
    assert Follows(lines, start.top, start.top, start.end, j);
    at := ScrollingFollows(lines, start.top, start.top, start.end, j, windows);
  }

  lemma FirstWindow(lines: Lines, start: Window, windows: seq<Window>)
    requires start.top < start.end <= |lines|
    requires forall i :: 0 <= i < |windows| ==> windows[i].top <= windows[i].end <= |lines|
    ensures CapturedFrom(Journal([], []), lines, [start] + windows)
         == CapturedFrom(Journal([], lines[start.top..start.end]), lines, windows)
  {
    var all := [start] + windows;
    assert all[0] == start && all[1..] == windows;
    assert lines[start.top..start.end] != [];
  }

  lemma {:induction false} FurthestGrows(end: nat, windows: seq<Window>)
    ensures end <= Furthest(end, windows)
    decreases |windows|
  {
    if windows != [] {
      FurthestGrows(if windows[0].end <= end then end else windows[0].end, windows[1..]);
    }
  }

  /** With a repeated line the promise fails: one of two equal lines is lost. */
  lemma RepeatedLineIsLost(p: Line, q: Line)
    requires p != q
    ensures Rendered(CapturedAll(Journal([], []), [[p, p], [p, q]])) == [p, q]
  {
    var empty, before, after := Journal([], []), [p, p], [p, q];
    var first: seq<Lines>, both: seq<Lines> := [before], [before, after];
    assert both[..1] == first && first[..0] == [];
    assert CapturedAll(empty, first) == Journal([], before);
    SecondScreen(p, q, before, after);
    TailsMeetOnce([p], after);
    assert [p] + after[1..] == after;
  }

  lemma SecondScreen(p: Line, q: Line, before: Lines, after: Lines)
    requires p != q && before == [p, p] && after == [p, q]
    ensures Captured(Journal([], before), after) == Journal([p], after)
  {
    TailsMeetOnce(before, after);
    assert [] + before == before && before[..1] == [p] && Merged([], [p]) == [p];
  }

  lemma TailsMeetOnce(left: Lines, right: Lines)
    requires 1 <= |left| <= 2 && |right| == 2 && right[0] != right[1]
    requires forall i :: 0 <= i < |left| ==> left[i] == right[0]
    ensures !Contains(left, right) && LongestOverlap(left, right) == 1
  {
    ContainsIff(left, right);
    forall i ensures !OccursAt(left, right, i) {
      if 0 <= i && i + 2 <= |left| {
        OccursAtElements(left, right, i);
        assert left[i + 1] != right[1];
      }
    }
    LongestOverlapIsLongest(left, right);
    assert left[|left| - 1..] == right[..1];
    assert Meets(left, right, 1);
    if |left| == 2 {
      assert left[0..][1] != right[..2][1];
    }
  }

  // ---- The journal as it is written ----

  /** The inner loop of containsLineSequence. */
  method MatchesAt(lines: Lines, candidate: Lines, start: nat) returns (matched: bool)
    requires start + |candidate| <= |lines|
    ensures matched == OccursAt(lines, candidate, start)
  {
    matched := true;
    var offset := 0;
    while offset < |candidate| && matched
      invariant offset <= |candidate|
      invariant matched ==> forall k :: 0 <= k < offset ==> lines[start + k] == candidate[k]
      invariant !matched ==> exists k :: 0 <= k < |candidate| && lines[start + k] != candidate[k]
    {
      if lines[start + offset] != candidate[offset] {
        matched := false;
      }
      offset := offset + 1;
    }
    OccursAtElements(lines, candidate, start);
  }

  method ContainsLineSequence(lines: Lines, candidate: Lines) returns (found: bool)
    ensures found == Contains(lines, candidate)
  {
    ContainsIff(lines, candidate);
    if |candidate| == 0 {
      assert OccursAt(lines, candidate, 0);
      return true;
    }
    if |candidate| > |lines| {
      return false;
    }
    for start := 0 to |lines| - |candidate| + 1
      invariant forall i :: 0 <= i < start ==> !OccursAt(lines, candidate, i)
    {
      var matched := MatchesAt(lines, candidate, start);
      if matched {
        return true;
      }
    }
    return false;
  }

  /** The inner loop of longestSuffixPrefix. */
  method MeetsBy(left: Lines, right: Lines, length: nat) returns (matched: bool)
    requires length <= |left| && length <= |right|
    ensures matched == Meets(left, right, length)
  {
    matched := true;
    var offset := 0;
    while offset < length && matched
      invariant offset <= length
      invariant matched ==> forall k :: 0 <= k < offset ==> left[|left| - length + k] == right[k]
      invariant !matched ==> exists k :: 0 <= k < length && left[|left| - length + k] != right[k]
    {
      if left[|left| - length + offset] != right[offset] {
        matched := false;
      }
      offset := offset + 1;
    }
    MeetsElements(left, right, length);
  }

  method LongestSuffixPrefix(left: Lines, right: Lines) returns (length: nat)
    ensures length == LongestOverlap(left, right)
  {
    length := if |left| < |right| then |left| else |right|;
    while length > 0
      invariant length <= |left| && length <= |right|
      invariant LongestUpto(left, right, length) == LongestOverlap(left, right)
    {
      var matched := MeetsBy(left, right, length);
      if matched {
        return;
      }
      length := length - 1;
    }
  }

  method CommonLinePrefix(left: Lines, right: Lines) returns (n: nat)
    ensures n <= |left| && n <= |right| && left[..n] == right[..n]
    ensures n < |left| && n < |right| ==> left[n] != right[n]
  {
    n := 0;
    while n < |left| && n < |right| && left[n] == right[n]
      invariant n <= |left| && n <= |right| && left[..n] == right[..n]
    {
      n := n + 1;
    }
  }

  method AppendWithLineOverlap(existing: Lines, addition: Lines) returns (result: Lines)
    ensures result == Merged(existing, addition)
  {
    if |existing| == 0 {
      return addition;
    }
    if |addition| == 0 {
      return existing;
    }
    var contained := ContainsLineSequence(existing, addition);
    if contained {
      return existing;
    }
    var overlap := LongestSuffixPrefix(existing, addition);
    return existing + addition[overlap..];
  }

  /** trimEmptyTerminalRows: only blank rows are cut, and none is left at either end. */
  method TrimEmptyTerminalRows(lines: Lines) returns (trimmed: Lines, start: nat, end: nat)
    ensures start <= end <= |lines| && trimmed == lines[start..end]
    ensures forall i :: 0 <= i < start || end <= i < |lines| ==> lines[i].text == ""
    ensures trimmed != [] ==> trimmed[0].text != "" && trimmed[|trimmed| - 1].text != ""
  {
    start := 0;
    while start < |lines| && lines[start].text == ""
      invariant start <= |lines| && forall i :: 0 <= i < start ==> lines[i].text == ""
    {
      start := start + 1;
    }
    end := |lines|;
    while end > start && lines[end - 1].text == ""
      invariant start <= end <= |lines| && forall i :: end <= i < |lines| ==> lines[i].text == ""
    {
      end := end - 1;
    }
    trimmed := lines[start..end];
  }

  class ScreenJournal {
    var terminalHistory: Lines
    var lastTerminalScreen: Lines

    function State(): Journal
      reads this
    {
      Journal(terminalHistory, lastTerminalScreen)
    }

    constructor ()
      ensures State() == Journal([], [])
    {
      terminalHistory, lastTerminalScreen := [], [];
    }

    method AppendTerminalHistory(lines: Lines)
      modifies this`terminalHistory
      ensures terminalHistory == Committed(old(terminalHistory), lines)
    {
      if |lines| == 0 {
        return;
      }
      terminalHistory := AppendWithLineOverlap(terminalHistory, lines);
      if |terminalHistory| > MAXIMUM_TERMINAL_HISTORY_LINES {
        terminalHistory := terminalHistory[|terminalHistory| - MAXIMUM_TERMINAL_HISTORY_LINES..];
      }
    }

    /** `next` is the active alternate screen, trimmed; the normal screen is never captured. */
    method Capture(altActive: bool, next: Lines)
      modifies this
      ensures State() == if altActive then Captured(old(State()), next) else old(State())
    {
      if !altActive {
        return;
      }
      if |next| == 0 {
        return;
      }
      if |lastTerminalScreen| == 0 {
        lastTerminalScreen := next;
        return;
      }
      var contained := ContainsLineSequence(terminalHistory + lastTerminalScreen, next);
      if contained {
        return;
      }
      Advance(next);
    }

    method Advance(next: Lines)
      modifies this
      ensures State() == Advanced(old(State()), next)
    {
      var overlap := LongestSuffixPrefix(lastTerminalScreen, next);
      if overlap > 0 {
        var gone := lastTerminalScreen[..|lastTerminalScreen| - overlap];
        AdvancedBy(State(), next, overlap, gone);
        AppendTerminalHistory(gone);
        lastTerminalScreen := next;
        return;
      }
      AdvancedFlat(State(), next);
      var common := CommonLinePrefix(lastTerminalScreen, next);
      if common > 0 {
        lastTerminalScreen := next;
        return;
      }
      lastTerminalScreen := next;
    }

    /** renderedTerminalLinesLocked, given the trimmed active screen. */
    method RenderedTerminalLines(altActive: bool, screen: Lines) returns (lines: Lines)
      modifies this
      ensures State() == if altActive then Captured(old(State()), screen) else old(State())
      ensures lines == if altActive then Rendered(State()) else Merged(Rendered(State()), screen)
    {
      if altActive {
        Capture(true, screen);
        lines := AppendWithLineOverlap(terminalHistory, lastTerminalScreen);
        return;
      }
      if |terminalHistory| == 0 && |lastTerminalScreen| == 0 {
        return screen;
      }
      var joined := AppendWithLineOverlap(terminalHistory, lastTerminalScreen);
      lines := AppendWithLineOverlap(joined, screen);
    }
  }
}
