/** Exactly when the screen journal keeps every line, equal lines or not
    (internal/session/screen_history.go). */
module ScreenLoss {
  import opened Sequences
  import opened ScreenHistory

  /** Merging the two takes nothing away: they neither hold nor overlap one another. */
  predicate Whole(existing: Lines, addition: Lines) {
    existing == [] || addition == [] || (!Contains(existing, addition) && LongestOverlap(existing, addition) == 0)
  }

  lemma MergedIsWholeIff(existing: Lines, addition: Lines)
    ensures |Merged(existing, addition)| <= |existing| + |addition|
    ensures |Merged(existing, addition)| == |existing| + |addition| <==> Whole(existing, addition)
    ensures Whole(existing, addition) <==> Merged(existing, addition) == existing + addition
  {
    if existing != [] && addition != [] && !Contains(existing, addition) {
      assert addition[0..] == addition;
    }
  }

  lemma CommittedIsBounded(history: Lines, lines: Lines)
    ensures |Committed(history, lines)| <= |history| + |lines|
  {
    MergedIsWholeIff(history, lines);
  }

  /** Within the bound, committing keeps every line exactly when the merge is whole. */
  lemma CommittedIsWholeIff(history: Lines, lines: Lines)
    requires |history| + |lines| <= MAXIMUM_TERMINAL_HISTORY_LINES
    ensures |Committed(history, lines)| == |history| + |lines| <==> Whole(history, lines)
    ensures Whole(history, lines) ==> Committed(history, lines) == history + lines
  {
    MergedIsWholeIff(history, lines);
    assert history + [] == history;
  }

  // ---- One capture ----

  /** `next` is `last` scrolled on by k rows, with something new below. */
  predicate Shifted(last: Lines, next: Lines, k: nat) {
    k < |last| && |last| - k < |next| && next[..|last| - k] == last[k..]
  }

  lemma ShiftOverlaps(last: Lines, next: Lines, k: nat)
    requires Shifted(last, next, k)
    ensures LongestOverlap(last, next) >= |last| - k > 0
  {
    LongestOverlapIsLongest(last, next);
    assert last[|last| - (|last| - k)..] == last[k..];
    assert Meets(last, next, |last| - k);
  }

  /** The guards that have to hold for a scroll by k rows to lose no line. */
  predicate KeepsShift(history: Lines, last: Lines, next: Lines, k: nat)
    requires k <= |last|
  {
    && !Contains(history + last, next) && LongestOverlap(last, next) == |last| - k
    && Whole(history, last[..k]) && Whole(history + last[..k], next)
  }

  lemma ShiftIsCounted(history: Lines, last: Lines, next: Lines, k: nat, overlap: nat)
    requires Shifted(last, next, k) && |history| + k <= MAXIMUM_TERMINAL_HISTORY_LINES
    requires overlap == LongestOverlap(last, next) && !Contains(history + last, next)
    ensures var rendered := Rendered(Captured(Journal(history, last), next));
            |rendered| == |history| + k + |next| ==> KeepsShift(history, last, next, k)
  {
    ShiftOverlaps(last, next, k);
    var gone := last[..|last| - overlap];
    AdvancedBy(Journal(history, last), next, overlap, gone);
    assert Captured(Journal(history, last), next) == Journal(Committed(history, gone), next);
    CommittedIsBounded(history, gone);
    MergedIsWholeIff(Committed(history, gone), next);
    if |Merged(Committed(history, gone), next)| == |history| + k + |next| {
      FullIsWhole(history, gone, next, k);
      assert gone == last[..k];
    }
  }

  /** Merges that keep every line are whole, and nothing more can have gone than k lines. */
  lemma FullIsWhole(history: Lines, gone: Lines, next: Lines, k: nat)
    requires |gone| <= k && |history| + k <= MAXIMUM_TERMINAL_HISTORY_LINES
    requires |Merged(Committed(history, gone), next)| == |history| + k + |next|
    ensures |gone| == k && Whole(history, gone) && Whole(history + gone, next)
  {
    CommittedIsBounded(history, gone);
    MergedIsWholeIff(Committed(history, gone), next);
    CommittedIsWholeIff(history, gone);
  }

  lemma ShiftedParts(history: Lines, last: Lines, next: Lines, k: nat)
    requires Shifted(last, next, k)
    ensures history + last + next[|last| - k..] == history + last[..k] + next
  {
    assert last == last[..k] + last[k..] && next == last[k..] + next[|last| - k..];
  }

  lemma KeptShift(history: Lines, last: Lines, next: Lines, k: nat)
    requires Shifted(last, next, k) && |history| + k <= MAXIMUM_TERMINAL_HISTORY_LINES
    requires KeepsShift(history, last, next, k)
    ensures Rendered(Captured(Journal(history, last), next)) == history + last[..k] + next
  {
    ShiftOverlaps(last, next, k);
    CommittedIsWholeIff(history, last[..k]);
    MergedIsWholeIff(history + last[..k], next);
    assert Captured(Journal(history, last), next) == Journal(history + last[..k], next);
  }

  /** A scroll is rendered with every line, old and new, exactly when the screen's text is not in
      the journal already, overlaps the last screen no further than it scrolled, and merges whole. */
  lemma ShiftIsKeptIff(history: Lines, last: Lines, next: Lines, k: nat)
    requires Shifted(last, next, k) && |history| + k <= MAXIMUM_TERMINAL_HISTORY_LINES
    ensures Rendered(Captured(Journal(history, last), next)) == history + last + next[|last| - k..]
            <==> KeepsShift(history, last, next, k)
  {
    ShiftedParts(history, last, next, k);
    if Contains(history + last, next) {
      MergedIsWholeIff(history, last);
      assert |Rendered(Journal(history, last))| < |history + last[..k] + next|;
    } else {
      ShiftIsCounted(history, last, next, k, LongestOverlap(last, next));
      if KeepsShift(history, last, next, k) {
        KeptShift(history, last, next, k);
      }
    }
  }

  // ---- A run ----

  /** The windows move on, or stay: no top and no end goes back. */
  predicate Forward(lines: Lines, top: nat, end: nat, windows: seq<Window>)
    decreases |windows|
  {
    windows != [] ==>
      var w := windows[0];
      && top <= w.top < w.end <= |lines| && end <= w.end
      && Forward(lines, w.top, w.end, windows[1..])
  }

  /** The guards for a window that is taken in. */
  predicate TakenWhole(lines: Lines, first: nat, top: nat, end: nat, w: Window)
    requires first <= top <= end <= |lines| && top <= w.top <= w.end <= |lines|
  {
    && w.top < end && LongestOverlap(lines[top..end], lines[w.top..w.end]) == end - w.top
    && Whole(lines[first..top], lines[top..w.top])
  }

  /** A window that shows again lines taken in already. */
  predicate LooksBack(first: nat, end: nat, w: Window) {
    first <= w.top && w.end <= end
  }

  /** The runs the theorem is about: each window looks back, or moves on from the last one taken in;
      and once one has failed to keep its lines, the rest move on. Forward runs are among them. */
  predicate Admits(lines: Lines, first: nat, top: nat, end: nat, windows: seq<Window>)
    requires first <= top <= end <= |lines|
    decreases |windows|
  {
    windows != [] ==>
      var w, rest := windows[0], windows[1..];
      && w.top < w.end <= |lines|
      && if LooksBack(first, end, w) then Admits(lines, first, top, end, rest)
         else
           && top <= w.top && end <= w.end
           && if Contains(lines[first..end], lines[w.top..w.end]) then Admits(lines, first, top, end, rest)
              else if TakenWhole(lines, first, top, end, w) then Admits(lines, first, w.top, w.end, rest)
              else Forward(lines, w.top, w.end, rest)
  }

  lemma {:induction false} ForwardIsAdmitted(lines: Lines, first: nat, top: nat, end: nat, windows: seq<Window>)
    requires first <= top <= end <= |lines| && Forward(lines, top, end, windows)
    ensures Admits(lines, first, top, end, windows)
    decreases |windows|
  {
    if windows != [] {
      var w, rest := windows[0], windows[1..];
      ForwardSkips(lines, top, end, windows);
      ForwardIsAdmitted(lines, first, top, end, rest);
      ForwardIsAdmitted(lines, first, w.top, w.end, rest);
    }
  }

  /** Whether a run keeps every line, told from the stream alone. The last window taken in shows
      lines top to end of those from `first` on. A window that looks back, or whose text is there
      already, is passed over; any other has to start within the last one taken, overlap it no further
      than it truly does, and push out lines that merge whole. In the end nothing may be left passed
      over that goes beyond the last one taken. */
  predicate Keeps(lines: Lines, first: nat, top: nat, end: nat, last: nat, windows: seq<Window>)
    requires first <= top <= end <= |lines| && Admits(lines, first, top, end, windows)
    decreases |windows|
  {
    if windows == [] then end == last && Whole(lines[first..top], lines[top..end])
    else
      var w, rest := windows[0], windows[1..];
      if LooksBack(first, end, w) || Contains(lines[first..end], lines[w.top..w.end]) then
        Keeps(lines, first, top, end, last, rest)
      else
        TakenWhole(lines, first, top, end, w) && Keeps(lines, first, w.top, w.end, last, rest)
  }

  /** Passing a window over leaves the rest a forward run. */
  lemma ForwardSkips(lines: Lines, top: nat, end: nat, windows: seq<Window>)
    requires windows != [] && Forward(lines, top, end, windows)
    ensures Forward(lines, top, end, windows[1..])
  {
  }

  /** The journal holds lines first to end, unmerged, with the screen from top on. */
  predicate Holds(lines: Lines, first: nat, top: nat, end: nat, j: Journal) {
    && first <= top < end <= |lines|
    && j.history == lines[first..top] && j.last == lines[top..end]
  }

  /** The journal's screen is lines top to end, but there is no room in it for all lines before. */
  predicate Short(lines: Lines, first: nat, top: nat, end: nat, j: Journal) {
    && first <= top < end <= |lines|
    && j.last == lines[top..end] && |j.history| < top - first
  }

  lemma WindowsOverlap(lines: Lines, top: nat, end: nat, w: Window)
    requires top <= w.top < w.end <= |lines| && top < end <= w.end
    ensures LongestOverlap(lines[top..end], lines[w.top..w.end]) >= end - w.top
  {
    var last, next := lines[top..end], lines[w.top..w.end];
    LongestOverlapIsLongest(last, next);
    if w.top < end {
      assert last[|last| - (end - w.top)..] == lines[w.top..end] == next[..end - w.top];
      assert Meets(last, next, end - w.top);
    }
  }

  /** What a capture leaves in the history is never more than room allows, and less if anything
      overlaps further than the windows do or merges. */
  lemma AdvanceIsCounted(lines: Lines, top: nat, end: nat, w: Window, j: Journal)
    requires top <= w.top < w.end <= |lines| && top < end <= w.end && j.last == lines[top..end]
    ensures var k, overlap := Advanced(j, lines[w.top..w.end]), LongestOverlap(j.last, lines[w.top..w.end]);
            && k.last == lines[w.top..w.end] && overlap >= end - w.top
            && |k.history| <= |j.history| + (if overlap > 0 then end - top - overlap else 0)
  {
    WindowsOverlap(lines, top, end, w);
    var next := lines[w.top..w.end];
    var overlap := LongestOverlap(j.last, next);
    if overlap > 0 {
      var gone := j.last[..|j.last| - overlap];
      AdvancedBy(j, next, overlap, gone);
      CommittedIsBounded(j.history, gone);
    }
  }

  lemma AdvanceStaysShort(lines: Lines, first: nat, top: nat, end: nat, j: Journal, w: Window)
    requires Short(lines, first, top, end, j) && top <= w.top < w.end <= |lines| && end <= w.end
    ensures Short(lines, first, w.top, w.end, Advanced(j, lines[w.top..w.end]))
  {
    AdvanceIsCounted(lines, top, end, w, j);
  }

  lemma ShortIsSeen(lines: Lines, first: nat, top: nat, end: nat, j: Journal)
    requires Short(lines, first, top, end, j)
    ensures |Rendered(j)| < end - first
  {
    MergedIsWholeIff(j.history, j.last);
  }

  /** What was lost stays lost. */
  lemma {:induction false} ShortStays(
    lines: Lines, first: nat, top: nat, end: nat, last: nat, j: Journal, windows: seq<Window>)
    requires Short(lines, first, top, end, j) && Forward(lines, top, end, windows)
    requires forall i :: 0 <= i < |windows| ==> windows[i].top <= windows[i].end <= |lines|
    requires end <= last && Furthest(end, windows) <= last
    ensures |Rendered(CapturedFrom(j, lines, windows))| < last - first
    decreases |windows|
  {
    if windows == [] {
      ShortIsSeen(lines, first, top, end, j);
    } else {
      var w, rest := windows[0], windows[1..];
      var next := lines[w.top..w.end];
      CapturedTurn(j, lines, windows, next);
      FurthestGrows(w.end, rest);
      if Contains(j.history + j.last, next) {
        ForwardSkips(lines, top, end, windows);
        FurthestIsMonotone(end, w.end, rest);
        ShortStays(lines, first, top, end, last, j, rest);
      } else {
        AdvanceStaysShort(lines, first, top, end, j, w);
        ShortStays(lines, first, w.top, w.end, last, Advanced(j, next), rest);
      }
    }
  }

  lemma CapturedTurn(j: Journal, lines: Lines, windows: seq<Window>, next: Lines)
    requires forall i :: 0 <= i < |windows| ==> windows[i].top <= windows[i].end <= |lines|
    requires windows != [] && next == lines[windows[0].top..windows[0].end] && next != [] && j.last != []
    ensures CapturedFrom(j, lines, windows)
         == CapturedFrom(if Contains(j.history + j.last, next) then j else Advanced(j, next), lines, windows[1..])
  {
  }

  lemma {:induction false} FurthestIsMonotone(a: nat, b: nat, windows: seq<Window>)
    requires a <= b
    ensures Furthest(a, windows) <= Furthest(b, windows)
    decreases |windows|
  {
    if windows != [] {
      var end := windows[0].end;
      FurthestIsMonotone(if end <= a then a else end, if end <= b then b else end, windows[1..]);
    }
  }

  /** A window taken in keeps every line exactly when its guards hold. */
  lemma AdvanceHoldsIff(lines: Lines, first: nat, top: nat, end: nat, j: Journal, w: Window)
    requires Holds(lines, first, top, end, j)
    requires top <= w.top < w.end <= |lines| && end <= w.end && w.top - first <= MAXIMUM_TERMINAL_HISTORY_LINES
    ensures var k := Advanced(j, lines[w.top..w.end]);
            if TakenWhole(lines, first, top, end, w) then Holds(lines, first, w.top, w.end, k)
            else Short(lines, first, w.top, w.end, k)
  {
    AdvanceIsCounted(lines, top, end, w, j);
    if w.top < end && LongestOverlap(j.last, lines[w.top..w.end]) == end - w.top {
      TrueOverlap(lines, first, top, end, j, w);
    }
  }

  lemma TrueOverlap(lines: Lines, first: nat, top: nat, end: nat, j: Journal, w: Window)
    requires Holds(lines, first, top, end, j)
    requires top <= w.top < end <= w.end <= |lines| && w.top - first <= MAXIMUM_TERMINAL_HISTORY_LINES
    requires LongestOverlap(j.last, lines[w.top..w.end]) == end - w.top
    ensures var k := Advanced(j, lines[w.top..w.end]);
            if Whole(j.history, lines[top..w.top]) then k.history == lines[first..w.top]
            else |k.history| < w.top - first
  {
    var gone, next := lines[top..w.top], lines[w.top..w.end];
    assert j.last[..|j.last| - (end - w.top)] == gone;
    AdvancedBy(j, next, end - w.top, gone);
    CommittedSlice(lines, first, top, w.top, j.history, gone);
  }

  lemma CommittedSlice(lines: Lines, first: nat, top: nat, a: nat, history: Lines, gone: Lines)
    requires first <= top <= a <= |lines| && a - first <= MAXIMUM_TERMINAL_HISTORY_LINES
    requires history == lines[first..top] && gone == lines[top..a]
    ensures if Whole(history, gone) then Committed(history, gone) == lines[first..a]
            else |Committed(history, gone)| < a - first
  {
    SlicesJoin(lines, first, top, a);
    CommittedIsBounded(history, gone);
    CommittedIsWholeIff(history, gone);
  }

  lemma SlicesJoin(lines: Lines, first: nat, top: nat, a: nat)
    requires first <= top <= a <= |lines|
    ensures lines[first..top] + lines[top..a] == lines[first..a]
  {
  }

  /** The text of lines shown again is in the journal. */
  lemma LookedAtIsThere(lines: Lines, first: nat, end: nat, w: Window)
    requires first <= end <= |lines| && w.top < w.end && LooksBack(first, end, w)
    ensures Contains(lines[first..end], lines[w.top..w.end])
  {
    SliceOfSlice(lines, first, end, w.top, w.end);
    assert OccursAt(lines[first..end], lines[w.top..w.end], w.top - first);
    ContainsIff(lines[first..end], lines[w.top..w.end]);
  }

  predicate PassedOver(lines: Lines, first: nat, end: nat, w: Window)
    requires first <= end <= |lines| && w.top <= w.end <= |lines|
  {
    LooksBack(first, end, w) || Contains(lines[first..end], lines[w.top..w.end])
  }

  /** A window passed over changes neither the journal nor what is asked of the rest. */
  lemma TurnSkips(lines: Lines, first: nat, top: nat, end: nat, last: nat, j: Journal, windows: seq<Window>)
    requires Holds(lines, first, top, end, j) && Admits(lines, first, top, end, windows) && windows != []
    requires forall i :: 0 <= i < |windows| ==> windows[i].top <= windows[i].end <= |lines|
    requires PassedOver(lines, first, end, windows[0])
    ensures CapturedFrom(j, lines, windows) == CapturedFrom(j, lines, windows[1..])
    ensures Admits(lines, first, top, end, windows[1..])
    ensures Keeps(lines, first, top, end, last, windows) <==> Keeps(lines, first, top, end, last, windows[1..])
  {
    assert j.history + j.last == lines[first..end];
    if LooksBack(first, end, windows[0]) {
      LookedAtIsThere(lines, first, end, windows[0]);
    }
    CapturedTurn(j, lines, windows, lines[windows[0].top..windows[0].end]);
  }

  /** Any other window is taken in. */
  lemma TurnTakes(lines: Lines, first: nat, top: nat, end: nat, last: nat, j: Journal, windows: seq<Window>)
    requires Holds(lines, first, top, end, j) && Admits(lines, first, top, end, windows) && windows != []
    requires forall i :: 0 <= i < |windows| ==> windows[i].top <= windows[i].end <= |lines|
    requires !PassedOver(lines, first, end, windows[0])
    ensures var w, rest := windows[0], windows[1..];
            && top <= w.top && end <= w.end
            && CapturedFrom(j, lines, windows) == CapturedFrom(Advanced(j, lines[w.top..w.end]), lines, rest)
            && (if TakenWhole(lines, first, top, end, w) then Admits(lines, first, w.top, w.end, rest)
                else Forward(lines, w.top, w.end, rest))
            && (Keeps(lines, first, top, end, last, windows) <==>
                TakenWhole(lines, first, top, end, w) && Keeps(lines, first, w.top, w.end, last, rest))
  {
    assert j.history + j.last == lines[first..end];
    CapturedTurn(j, lines, windows, lines[windows[0].top..windows[0].end]);
  }

  /** What is asked of a run besides its order: windows in the stream, within the bound and up to last. */
  ghost predicate InReach(lines: Lines, first: nat, end: nat, last: nat, windows: seq<Window>) {
    && (forall i :: 0 <= i < |windows| ==> windows[i].top <= windows[i].end <= |lines|)
    && (forall i :: 0 <= i < |windows| ==> windows[i].top - first <= MAXIMUM_TERMINAL_HISTORY_LINES)
    && end <= last <= |lines| && Furthest(end, windows) <= last
  }

  lemma TailInReach(lines: Lines, first: nat, end: nat, last: nat, windows: seq<Window>)
    requires InReach(lines, first, end, last, windows) && windows != []
    ensures InReach(lines, first, end, last, windows[1..])
    ensures end <= windows[0].end ==> InReach(lines, first, windows[0].end, last, windows[1..])
  {
    if end <= windows[0].end {
      FurthestGrows(windows[0].end, windows[1..]);
      FurthestIsMonotone(end, windows[0].end, windows[1..]);
    }
  }

  /** From a journal that holds every line so far: the run renders them all exactly when it keeps. */
  lemma {:induction false} RunKeepsIff(
    lines: Lines, first: nat, top: nat, end: nat, last: nat, all: Lines, j: Journal, windows: seq<Window>)
    requires Holds(lines, first, top, end, j) && Admits(lines, first, top, end, windows)
    requires InReach(lines, first, end, last, windows) && all == lines[first..last]
    ensures Rendered(CapturedFrom(j, lines, windows)) == all <==> Keeps(lines, first, top, end, last, windows)
    decreases |windows|
  {
    if windows == [] {
      NothingMoreIff(lines, first, top, end, last, all, j);
    } else {
      var w, rest := windows[0], windows[1..];
      TailInReach(lines, first, end, last, windows);
      if PassedOver(lines, first, end, w) {
        TurnSkips(lines, first, top, end, last, j, windows);
        RunKeepsIff(lines, first, top, end, last, all, j, rest);
      } else {
        TurnTakes(lines, first, top, end, last, j, windows);
        AdvanceHoldsIff(lines, first, top, end, j, w);
        var k := Advanced(j, lines[w.top..w.end]);
        if TakenWhole(lines, first, top, end, w) {
          RunKeepsIff(lines, first, w.top, w.end, last, all, k, rest);
        } else {
          ShortStays(lines, first, w.top, w.end, last, k, rest);
        }
      }
    }
  }

  lemma NothingMoreIff(lines: Lines, first: nat, top: nat, end: nat, last: nat, all: Lines, j: Journal)
    requires Holds(lines, first, top, end, j) && end <= last <= |lines| && all == lines[first..last]
    ensures Rendered(j) == all <==> end == last && Whole(lines[first..top], lines[top..end])
  {
    MergedIsWholeIff(j.history, j.last);
    assert j.history + j.last == lines[first..end];
  }

  /** The stream of lines a run of windows has shown, with blank screens anywhere in between, is rendered
      whole and in order exactly when the run keeps every line; repeated lines and blank ones are no
      matter in themselves. The windows move on or look back, and reach no further than the journal's
      bound, past which it forgets lines on purpose. */
  lemma ScrollingIsReconstructedIff(lines: Lines, start: Window, windows: seq<Window>, screens: seq<Lines>)
    requires start.top < start.end <= |lines| && Admits(lines, start.top, start.top, start.end, windows)
    requires Shows(lines, [start] + windows, screens)
    requires forall i :: 0 <= i < |windows| ==> windows[i].top - start.top <= MAXIMUM_TERMINAL_HISTORY_LINES
    ensures start.end <= Furthest(start.end, windows) <= |lines|
    ensures Rendered(CapturedAll(Journal([], []), screens)) == lines[start.top..Furthest(start.end, windows)]
            <==> Keeps(lines, start.top, start.top, start.end, Furthest(start.end, windows), windows)
  {
    var j := Journal([], lines[start.top..start.end]);
    var all := [start] + windows;
    forall i | 0 <= i < |windows| ensures windows[i] == all[i + 1] {
    }
    ShownIsCaptured(Journal([], []), lines, all, screens);
    FirstWindow(lines, start, windows);
    assert lines[start.top..start.top] == [];
    FurthestGrows(start.end, windows);
    FurthestFits(lines, start.end, windows);
    var last := Furthest(start.end, windows);
    RunKeepsIff(lines, start.top, start.top, start.end, last, lines[start.top..last], j, windows);
  }

  lemma {:induction false} FurthestFits(lines: Lines, end: nat, windows: seq<Window>)
    requires end <= |lines| && forall i :: 0 <= i < |windows| ==> windows[i].end <= |lines|
    ensures Furthest(end, windows) <= |lines|
    decreases |windows|
  {
    if windows != [] {
      FurthestFits(lines, if windows[0].end <= end then end else windows[0].end, windows[1..]);
    }
  }
}
