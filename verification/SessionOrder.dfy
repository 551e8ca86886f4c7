/** The switcher's session order and everything that walks it (internal/server/attach_client.go,
    internal/server/attach_input.go, internal/server/status_bar_content.go). */
module SessionOrder {
  import opened Sequences
  import Footer

  datatype Record = Record(
    id: string, createdAt: int, status: string, archived: bool, title: string, agentID: string, attention: string,
    attachedClients: nat, notificationsMuted: bool, permissionMode: string)

  // ---- The order ----

  predicate Less(a: string, b: string)
    decreases |a|
  {
    b != [] && (a == [] || a[0] < b[0] || (a[0] == b[0] && Less(a[1..], b[1..])))
  }

  lemma {:induction false} LessIsTotalOrder(a: string, b: string, c: string)
    ensures !Less(a, a)
    ensures a != b ==> Less(a, b) || Less(b, a)
    ensures Less(a, b) && Less(b, c) ==> Less(a, c)
    decreases |a|
  {
    if a != [] {
      LessIsTotalOrder(a[1..], if b == [] then [] else b[1..], if c == [] then [] else c[1..]);
      if b != [] && a[0] == b[0] && a[1..] == b[1..] {
        assert a == [a[0]] + a[1..] && b == [b[0]] + b[1..];
      }
    }
  }

  /** Text is ordered by its first difference, and what is left of one when the other ends comes first. */
  lemma {:induction false} LessIff(a: string, b: string)
    ensures Less(a, b) <==>
            exists k :: 0 <= k <= |a| && k < |b| && a[..k] == b[..k] && (k == |a| || a[k] < b[k])
    decreases |a|
  {
    if a == [] || b == [] || a[0] != b[0] {
      assert b != [] ==> a[..0] == b[..0];
      forall k | 0 < k <= |a| && k < |b| ensures a[..k] != b[..k] {
        assert a[..k][0] != b[..k][0];
      }
    } else {
      LessIff(a[1..], b[1..]);
      forall k | 0 <= k < |a| && k + 1 < |b| ensures a[..k + 1] == b[..k + 1] <==> a[1..][..k] == b[1..][..k] {
        assert a[..k + 1] == [a[0]] + a[1..][..k] && b[..k + 1] == [b[0]] + b[1..][..k];
      }
      if k :| 0 <= k <= |a| && k < |b| && a[..k] == b[..k] && (k == |a| || a[k] < b[k]) {
        assert k > 0;
        assert a[..k - 1 + 1] == b[..k - 1 + 1];
      }
    }
  }

  /** sessionComesBefore */
  predicate Before(left: Record, right: Record) {
    if left.createdAt == right.createdAt then Less(left.id, right.id) else left.createdAt < right.createdAt
  }

  lemma BeforeIsTotalOrder(a: Record, b: Record, c: Record)
    ensures !Before(a, a)
    ensures a.id != b.id ==> Before(a, b) || Before(b, a)
    ensures Before(a, b) && Before(b, c) ==> Before(a, c)
  {
    LessIsTotalOrder(a.id, b.id, c.id);
  }

  // ---- Switchable sessions ----

  predicate Switchable(r: Record) {
    r.status == "running" && !r.archived
  }

  function Running(records: seq<Record>): seq<Record>
    decreases |records|
  {
    if records == [] then []
    else
      var n := |records| - 1;
      Running(records[..n]) + if Switchable(records[n]) then [records[n]] else []
  }

  function Inserted(x: Record, s: seq<Record>): seq<Record> {
    if s == [] || Before(x, s[0]) then [x] + s else [s[0]] + Inserted(x, s[1..])
  }

  function Sorted(s: seq<Record>): seq<Record> {
    if s == [] then [] else Inserted(s[0], Sorted(s[1..]))
  }

  function SwitchableSessions(records: seq<Record>): seq<Record> {
    Sorted(Running(records))
  }

  predicate InOrder(s: seq<Record>) {
    forall i, j :: 0 <= i < j < |s| ==> Before(s[i], s[j])
  }

  predicate DistinctIDs(s: seq<Record>) {
    forall i, j :: 0 <= i < j < |s| ==> s[i].id != s[j].id
  }

  lemma {:induction false} InsertedPermutes(x: Record, s: seq<Record>)
    ensures multiset(Inserted(x, s)) == multiset(s) + multiset{x}
  {
    if s != [] && !Before(x, s[0]) {
      InsertedPermutes(x, s[1..]);
      assert s == [s[0]] + s[1..];
    }
  }

  lemma {:induction false} InsertedInOrder(x: Record, s: seq<Record>)
    requires InOrder(s) && forall r :: r in s ==> r.id != x.id
    ensures InOrder(Inserted(x, s))
  {
    if s == [] {
    } else if Before(x, s[0]) {
      forall k | 0 <= k < |s| ensures Before(x, s[k]) {
        BeforeIsTotalOrder(x, s[0], s[k]);
      }
    } else {
      var rest := Inserted(x, s[1..]);
      InsertedInOrder(x, s[1..]);
      InsertedPermutes(x, s[1..]);
      BeforeIsTotalOrder(x, s[0], x);
      forall k | 0 <= k < |rest| ensures Before(s[0], rest[k]) {
        assert rest[k] in multiset(rest);
        assert rest[k] == x || rest[k] in s[1..];
      }
    }
  }

  lemma {:induction false} SortedIsSorted(s: seq<Record>)
    requires DistinctIDs(s)
    ensures InOrder(Sorted(s)) && multiset(Sorted(s)) == multiset(s)
  {
    if s != [] {
      SortedIsSorted(s[1..]);
      assert s == [s[0]] + s[1..];
      InsertedPermutes(s[0], Sorted(s[1..]));
      forall r | r in Sorted(s[1..]) ensures r.id != s[0].id {
        assert r in multiset(Sorted(s[1..]));
        assert r in s[1..];
      }
      InsertedInOrder(s[0], Sorted(s[1..]));
    }
  }

  lemma SameFirst(a: seq<Record>, b: seq<Record>)
    requires InOrder(a) && InOrder(b) && multiset(a) == multiset(b) && a != []
    ensures b != [] && a[0] == b[0]
  {
    assert a[0] in multiset(b) && |multiset(a)| == |multiset(b)|;
    assert b[0] in multiset(a);
    var k :| 0 <= k < |b| && b[k] == a[0];
    var m :| 0 <= m < |a| && a[m] == b[0];
    BeforeIsTotalOrder(a[0], b[0], a[0]);
  }

  /** There is only one way to put records in order, whatever sorts them. */
  lemma {:induction false} OrderIsUnique(a: seq<Record>, b: seq<Record>)
    requires InOrder(a) && InOrder(b) && multiset(a) == multiset(b)
    ensures a == b
    decreases |a|
  {
    if a == [] {
      assert |multiset(b)| == 0;
    } else {
      SameFirst(a, b);
      assert a == [a[0]] + a[1..] && b == [b[0]] + b[1..];
      assert multiset(a[1..]) == multiset(a) - multiset{a[0]};
      assert multiset(b[1..]) == multiset(b) - multiset{b[0]};
      OrderIsUnique(a[1..], b[1..]);
    }
  }

  lemma {:induction false} RunningKeeps(records: seq<Record>, r: Record)
    ensures multiset(Running(records))[r] == if Switchable(r) then multiset(records)[r] else 0
    decreases |records|
  {
    if records != [] {
      var n := |records| - 1;
      RunningKeeps(records[..n], r);
      assert records == records[..n] + [records[n]];
    }
  }

  lemma {:induction false} RunningMembers(records: seq<Record>, r: Record)
    ensures r in Running(records) <==> r in records && Switchable(r)
    decreases |records|
  {
    if records != [] {
      var n := |records| - 1;
      RunningMembers(records[..n], r);
      assert records == records[..n] + [records[n]];
    }
  }

  lemma {:induction false} RunningDistinct(records: seq<Record>)
    requires DistinctIDs(records)
    ensures DistinctIDs(Running(records)) && forall r :: r in Running(records) <==> r in records && Switchable(r)
    decreases |records|
  {
    forall r ensures r in Running(records) <==> r in records && Switchable(r) {
      RunningMembers(records, r);
    }
    if records != [] {
      var n := |records| - 1;
      RunningDistinct(records[..n]);
      OneMoreDistinct(Running(records[..n]), records, n);
    }
  }

  lemma OneMoreDistinct(running: seq<Record>, records: seq<Record>, n: nat)
    requires DistinctIDs(running) && DistinctIDs(records) && n < |records|
    requires forall r :: r in running ==> r in records[..n]
    ensures DistinctIDs(running + [records[n]])
  {
    forall i | 0 <= i < |running| ensures running[i].id != records[n].id {
      assert running[i] in records[..n];
    }
  }

  /** The switcher's list is the running, unarchived records in order: and nothing else is. */
  lemma SwitchableSessionsIff(records: seq<Record>, s: seq<Record>)
    requires DistinctIDs(records)
    ensures s == SwitchableSessions(records) <==>
            && InOrder(s)
            && forall r :: multiset(s)[r] == if r.status == "running" && !r.archived then multiset(records)[r] else 0
  {
    var sorted := SwitchableSessions(records);
    RunningDistinct(records);
    SortedIsSorted(Running(records));
    forall r ensures multiset(sorted)[r] == if Switchable(r) then multiset(records)[r] else 0 {
      RunningKeeps(records, r);
    }
    if InOrder(s) && forall r :: multiset(s)[r] == if Switchable(r) then multiset(records)[r] else 0 {
      forall r ensures multiset(s)[r] == multiset(sorted)[r] {
      }
      assert multiset(s) == multiset(sorted);
      OrderIsUnique(s, sorted);
    }
  }

  /** Whatever order the daemon lists sessions in, the switcher's list is the same. */
  lemma ListingOrderDoesNotMatter(records: seq<Record>, other: seq<Record>)
    requires DistinctIDs(records) && DistinctIDs(other) && multiset(records) == multiset(other)
    ensures SwitchableSessions(records) == SwitchableSessions(other)
  {
    SwitchableSessionsIff(records, SwitchableSessions(records));
    SwitchableSessionsIff(other, SwitchableSessions(records));
  }

  lemma SortedMembers(s: seq<Record>, r: Record)
    requires DistinctIDs(s)
    ensures r in Sorted(s) <==> r in s
  {
    SortedIsSorted(s);
    assert r in s <==> r in multiset(s);
    assert r in Sorted(s) <==> r in multiset(Sorted(s));
  }

  lemma InOrderIsDistinct(records: seq<Record>, s: seq<Record>)
    requires DistinctIDs(records) && InOrder(s) && forall r :: r in s ==> r in records
    ensures DistinctIDs(s)
  {
    forall i, j | 0 <= i < j < |s| ensures s[i].id != s[j].id {
      BeforeIsTotalOrder(s[i], s[j], s[i]);
      assert s[i] in records && s[j] in records;
      if s[i].id == s[j].id {
        SameIDSameRecord(records, s[i], s[j]);
      }
    }
  }

  lemma SwitchableOnceEach(records: seq<Record>)
    requires DistinctIDs(records)
    ensures var s := SwitchableSessions(records);
            InOrder(s) && DistinctIDs(s) && forall r :: r in s <==> r in records && Switchable(r)
  {
    RunningDistinct(records);
    SortedIsSorted(Running(records));
    forall r ensures r in SwitchableSessions(records) <==> r in records && Switchable(r) {
      SortedMembers(Running(records), r);
    }
    InOrderIsDistinct(records, SwitchableSessions(records));
  }

  lemma SameIDSameRecord(records: seq<Record>, a: Record, b: Record)
    requires DistinctIDs(records) && a in records && b in records && a.id == b.id
    ensures a == b
  {
  }

  method SwitchableSessionsOf(records: seq<Record>) returns (running: seq<Record>)
    ensures running == SwitchableSessions(records)
  {
    running := [];
    var i := 0;
    while i < |records|
      invariant i <= |records| && running == Running(records[..i])
    {
      assert records[..i + 1][..i] == records[..i];
      if records[i].status == "running" && !records[i].archived {
        running := running + [records[i]];
      }
      i := i + 1;
    }
    assert records[..i] == records;
    running := Sorted(running);
  }

  // ---- Stepping ----

  datatype Request = Request(step: int, index: int)

  function Position(running: seq<Record>, id: string): (k: int)
    ensures k == -1 || (0 <= k < |running| && running[k].id == id)
    ensures k == -1 <==> forall i :: 0 <= i < |running| ==> running[i].id != id
    ensures forall i :: 0 <= i < k ==> running[i].id != id
  {
    if running == [] then -1
    else if running[0].id == id then 0
    else
      var k := Position(running[1..], id);
      assert forall i :: 1 <= i < |running| ==> running[i] == running[1..][i - 1];
      if k == -1 then -1 else k + 1
  }

  /** Where a switch lands, on the circle of running sessions; "" for nowhere. */
  function Target(running: seq<Record>, currentID: string, request: Request): string {
    if running == [] then ""
    else if request.step == 0 then
      if 1 <= request.index <= |running| then running[request.index - 1].id else ""
    else
      var at := Position(running, currentID);
      var start := if at >= 0 then at else if request.step < 0 then 0 else |running| - 1;
      running[(start + request.step) % |running|].id
  }

  /** Go's remainder, which takes the sign of the dividend. */
  function Remainder(a: int, b: int): int
    requires b > 0
  {
    if a >= 0 then a % b else -((-a) % b)
  }

  lemma WrappedRemainder(a: int, b: int)
    requires b > 0
    ensures var r := Remainder(a, b); (if r < 0 then r + b else r) == a % b
  {
    if a < 0 {
      var q, r := (-a) / b, (-a) % b;
      assert -a == q * b + r;
      if r == 0 {
        ModuloIs(a, b, -q, 0);
      } else {
        ModuloIs(a, b, -q - 1, b - r);
      }
    }
  }

  lemma ModuloIs(a: int, b: int, q: int, r: int)
    requires b > 0 && a == q * b + r && 0 <= r < b
    ensures a % b == r
  {
    assert (a / b - q) * b == r - a % b;
    MultipleIsFar(a / b - q, b);
  }

  lemma MultipleIsFar(d: int, b: int)
    requires b > 0
    ensures d >= 1 ==> d * b >= b
    ensures d <= -1 ==> d * b <= -b
  {
    if d >= 1 {
      assert (d - 1) * b >= 0;
    } else if d <= -1 {
      assert (-d - 1) * b >= 0;
    }
  }

  method SelectSwitchTarget(running: seq<Record>, currentID: string, request: Request) returns (target: string)
    ensures target == Target(running, currentID, request)
  {
    if |running| == 0 {
      return "";
    }
    if request.step == 0 {
      if request.index < 1 || request.index > |running| {
        return "";
      }
      return running[request.index - 1].id;
    }
    var current, index := -1, 0;
    while index < |running| && current < 0
      invariant index <= |running|
      invariant current < 0 ==> current == -1 && forall i :: 0 <= i < index ==> running[i].id != currentID
      invariant current >= 0 ==> current == Position(running, currentID)
    {
      if running[index].id == currentID {
        current := index;
      }
      index := index + 1;
    }
    if current < 0 {
      current := |running| - 1;
      if request.step < 0 {
        current := 0;
      }
    }
    WrappedRemainder(current + request.step, |running|);
    var next := Remainder(current + request.step, |running|);
    if next < 0 {
      next := next + |running|;
    }
    return running[next].id;
  }

  /** The session reached after n equal steps. */
  function Walked(running: seq<Record>, id: string, step: int, n: nat): string {
    if n == 0 then id else Target(running, Walked(running, id, step, n - 1), Request(step, 0))
  }

  lemma PositionIs(running: seq<Record>, k: nat)
    requires DistinctIDs(running) && k < |running|
    ensures Position(running, running[k].id) == k
  {
  }

  /** The place on a circle of m that lies a past its start, for a less than twice around. */
  function Around(a: int, m: nat): int {
    if a < 0 then a + m else if a < m then a else a - m
  }

  lemma StepLandsOn(running: seq<Record>, k: nat, step: int)
    requires DistinctIDs(running) && k < |running| && (step == 1 || step == -1)
    ensures 0 <= Around(k + step, |running|) < |running|
    ensures Target(running, running[k].id, Request(step, 0)) == running[Around(k + step, |running|)].id
  {
    var m := |running|;
    PositionIs(running, k);
    ModuloIs(k + step, m, if k + step < 0 then -1 else if k + step < m then 0 else 1, Around(k + step, m));
  }

  lemma NextPlace(a: nat, m: nat)
    requires 0 < a < 2 * m
    ensures Around(Around(a - 1, m) + 1, m) == Around(a, m)
  {
  }

  lemma WalkedOneMore(running: seq<Record>, id: string, m: nat, n: nat, at: nat, next: nat)
    requires DistinctIDs(running) && m == |running| && at < m && next < m && next == Around(at + 1, m)
    requires Walked(running, id, 1, n) == running[at].id
    ensures Walked(running, id, 1, n + 1) == running[next].id
  {
    StepLandsOn(running, at, 1);
  }

  lemma {:induction false} WalkedForward(running: seq<Record>, id: string, k: nat, m: nat, n: nat)
    requires DistinctIDs(running) && k < m == |running| && n <= m && id == running[k].id
    ensures 0 <= Around(k + n, m) < m && Walked(running, id, 1, n) == running[Around(k + n, m)].id
  {
    if n > 0 {
      WalkedForward(running, id, k, m, n - 1);
      NextPlace(k + n, m);
      WalkedOneMore(running, id, m, n - 1, Around(k + n - 1, m), Around(k + n, m));
    }
  }

  lemma NoneTwice(running: seq<Record>, k: nat, n: nat, p: nat)
    requires DistinctIDs(running) && k < |running| && n < p < |running|
    ensures Walked(running, running[k].id, 1, n) != Walked(running, running[k].id, 1, p)
  {
    WalkedForward(running, running[k].id, k, |running|, n);
    WalkedForward(running, running[k].id, k, |running|, p);
    var x, y := Around(k + n, |running|), Around(k + p, |running|);
    assert x != y;
    assert running[x].id != running[y].id;
  }

  lemma Reaches(running: seq<Record>, k: nat, j: nat) returns (n: nat)
    requires DistinctIDs(running) && k < |running| && j < |running|
    ensures n < |running| && Walked(running, running[k].id, 1, n) == running[j].id
  {
    n := Around(j - k, |running|);
    WalkedForward(running, running[k].id, k, |running|, n);
  }

  ghost predicate VisitsOnceEach(running: seq<Record>, id: string) {
    && (forall j :: 0 <= j < |running| ==>
          exists n :: 0 <= n < |running| && Walked(running, id, 1, n) == running[j].id)
    && (forall n, p :: 0 <= n < p < |running| ==> Walked(running, id, 1, n) != Walked(running, id, 1, p))
  }

  lemma ForwardVisits(running: seq<Record>, id: string, k: nat)
    requires DistinctIDs(running) && k < |running| && id == running[k].id
    ensures VisitsOnceEach(running, id)
  {
    forall j | 0 <= j < |running| ensures exists n :: 0 <= n < |running| && Walked(running, id, 1, n) == running[j].id {
      var n := Reaches(running, k, j);
    }
    forall n, p | 0 <= n < p < |running| ensures Walked(running, id, 1, n) != Walked(running, id, 1, p) {
      NoneTwice(running, k, n, p);
    }
  }

  lemma ForwardReturns(running: seq<Record>, k: nat)
    requires DistinctIDs(running) && k < |running|
    ensures Walked(running, running[k].id, 1, |running|) == running[k].id
  {
    WalkedForward(running, running[k].id, k, |running|, |running|);
  }

  /** Stepping forward visits every running session once and then comes back. */
  lemma ForwardVisitsEach(running: seq<Record>, k: nat)
    requires DistinctIDs(running) && k < |running|
    ensures VisitsOnceEach(running, running[k].id)
    ensures Walked(running, running[k].id, 1, |running|) == running[k].id
  {
    ForwardVisits(running, running[k].id, k);
    ForwardReturns(running, k);
  }

  /** A step one way and a step the other cancel. */
  lemma StepsCancel(running: seq<Record>, k: nat, step: int)
    requires DistinctIDs(running) && k < |running| && (step == 1 || step == -1)
    ensures var there := Target(running, running[k].id, Request(step, 0));
            Target(running, there, Request(-step, 0)) == running[k].id
  {
    StepLandsOn(running, k, step);
    StepLandsOn(running, Around(k + step, |running|), -step);
  }

  /** From a session that is no longer in the list, stepping forward starts over at the oldest one and stepping
      back at the newest. */
  lemma UnlistedStartsAtTheEnds(running: seq<Record>, id: string)
    requires running != [] && forall r :: r in running ==> r.id != id
    ensures Target(running, id, Request(1, 0)) == running[0].id
    ensures Target(running, id, Request(-1, 0)) == running[|running| - 1].id
  {
    ModuloIs(|running|, |running|, 1, 0);
    ModuloIs(-1, |running|, -1, |running| - 1);
  }

  /** A switch lands on a running, unarchived session, or nowhere; and nowhere only when there is
      none, or none with that number. */
  lemma SwitchesLandOnRunning(records: seq<Record>, currentID: string, request: Request)
    requires DistinctIDs(records) && forall r :: r in records ==> r.id != ""
    ensures var running := SwitchableSessions(records);
            var target := Target(running, currentID, request);
            && (target != "" ==>
                  exists r :: r in records && r.status == "running" && !r.archived && r.id == target)
            && (target == "" <==> running == [] || (request.step == 0 && !(1 <= request.index <= |running|)))
  {
    SwitchableOnceEach(records);
    var running := SwitchableSessions(records);
    if running != [] && (request.step != 0 || 1 <= request.index <= |running|) {
      var target := Target(running, currentID, request);
      var k :| 0 <= k < |running| && running[k].id == target;
      assert running[k] in running;
    }
  }

  // ---- The footer's number ----

  predicate Other(r: Record, sessionID: string) {
    r.id != sessionID && r.status == "running"
  }

  function Others(sessionID: string): Record -> bool {
    (r: Record) => Other(r, sessionID)
  }

  function OthersWith(sessionID: string, attention: string): Record -> bool {
    (r: Record) => Other(r, sessionID) && r.attention == attention
  }

  function Count(records: seq<Record>, p: Record -> bool): nat
    decreases |records|
  {
    if records == [] then 0
    else
      var n := |records| - 1;
      Count(records[..n], p) + if p(records[n]) then 1 else 0
  }

  function NumberOf(records: seq<Record>, sessionID: string): (n: nat) {
    Position(SwitchableSessions(records), sessionID) + 1
  }

  /** What a content says about the other sessions. */
  predicate Tallies(content: Footer.Content, records: seq<Record>, sessionID: string) {
    && content.otherSessions == Count(records, Others(sessionID))
    && content.othersNeedingInput == Count(records, OthersWith(sessionID, "needs_input"))
    && content.othersFailed == Count(records, OthersWith(sessionID, "failed"))
  }

  predicate Describes(content: Footer.Content, r: Record) {
    && content.title == r.title && content.agent == r.agentID && content.permissionMode == r.permissionMode
    && content.attachedClients == r.attachedClients && content.notificationsMuted == r.notificationsMuted
  }

  /** What a content says about the session it is for; nothing, if that is not listed. */
  predicate SameSession(one: Footer.Content, other: Footer.Content) {
    && one.title == other.title && one.agent == other.agent && one.permissionMode == other.permissionMode
    && one.attachedClients == other.attachedClients && one.notificationsMuted == other.notificationsMuted
  }

  const NO_CONTENT := Footer.Content("", "", "", 0, false, false, 0, 0, 0, "", false, 0, 0)

  /** The content says what the records say, about this session and about the others. */
  ghost predicate IsContentFor(content: Footer.Content, sessionID: string, records: seq<Record>) {
    && content.sessionCount == |SwitchableSessions(records)|
    && content.sessionNumber == NumberOf(records, sessionID)
    && Tallies(content, records, sessionID)
    && (forall r :: r in records && r.id == sessionID ==> Describes(content, r))
    && ((forall r :: r in records ==> r.id != sessionID) ==> SameSession(content, NO_CONTENT))
  }

  /** footerContentFor's first loop. */
  method NumberIn(switchable: seq<Record>, sessionID: string) returns (number: nat)
    ensures number == Position(switchable, sessionID) + 1
  {
    number := 0;
    var index := 0;
    while index < |switchable| && number == 0
      invariant index <= |switchable|
      invariant number == 0 ==> forall i :: 0 <= i < index ==> switchable[i].id != sessionID
      invariant number > 0 ==> number == Position(switchable, sessionID) + 1
    {
      if switchable[index].id == sessionID {
        number := index + 1;
      }
      index := index + 1;
    }
  }

  method FooterContentFor(sessionID: string, records: seq<Record>) returns (content: Footer.Content)
    requires DistinctIDs(records)
    ensures IsContentFor(content, sessionID, records)
  {
    var switchable := SwitchableSessionsOf(records);
    var number := NumberIn(switchable, sessionID);
    content := NO_CONTENT.(sessionCount := |switchable|, sessionNumber := number);
    var i := 0;
    while i < |records|
      invariant i <= |records|
      invariant content.sessionCount == |switchable| && content.sessionNumber == number
      invariant Tallies(content, records[..i], sessionID)
      invariant forall k :: 0 <= k < i && records[k].id == sessionID ==> Describes(content, records[k])
      invariant (forall k :: 0 <= k < i ==> records[k].id != sessionID) ==> SameSession(content, NO_CONTENT)
    {
      content := Tallied(content, sessionID, records, i);
      i := i + 1;
    }
    assert records[..i] == records;
  }

  /** One record of footerContentFor's loop. */
  method Tallied(before: Footer.Content, sessionID: string, records: seq<Record>, i: nat)
    returns (content: Footer.Content)
    requires i < |records| && DistinctIDs(records) && Tallies(before, records[..i], sessionID)
    ensures content.sessionCount == before.sessionCount && content.sessionNumber == before.sessionNumber
    ensures Tallies(content, records[..i + 1], sessionID)
    ensures if records[i].id == sessionID then Describes(content, records[i]) else SameSession(content, before)
  {
    content := before;
    var record := records[i];
    assert records[..i + 1][..i] == records[..i];
    if record.id == sessionID {
      content := content.(title := record.title, agent := record.agentID, permissionMode := record.permissionMode,
                          attachedClients := record.attachedClients, notificationsMuted := record.notificationsMuted);
      return;
    }
    if record.status != "running" {
      return;
    }
    content := content.(otherSessions := content.otherSessions + 1);
    if record.attention == "needs_input" {
      content := content.(othersNeedingInput := content.othersNeedingInput + 1);
    } else if record.attention == "failed" {
      content := content.(othersFailed := content.othersFailed + 1);
    }
  }

  lemma {:induction false} CountSplits(
    records: seq<Record>, whole: Record -> bool, one: Record -> bool, other: Record -> bool)
    requires forall r :: one(r) || other(r) ==> whole(r)
    requires forall r :: !(one(r) && other(r))
    ensures Count(records, one) + Count(records, other) <= Count(records, whole)
    ensures (forall r :: whole(r) ==> one(r) || other(r))
            ==> Count(records, one) + Count(records, other) == Count(records, whole)
    decreases |records|
  {
    if records != [] {
      CountSplits(records[..|records| - 1], whole, one, other);
    }
  }

  lemma {:induction false} CountOne(records: seq<Record>, sessionID: string, p: Record -> bool)
    requires DistinctIDs(records) && forall r :: p(r) <==> r.id == sessionID && r.status == "running"
    ensures Count(records, p)
         == if exists r :: r in records && r.id == sessionID && r.status == "running" then 1 else 0
    decreases |records|
  {
    if records != [] {
      var n := |records| - 1;
      CountOne(records[..n], sessionID, p);
      assert records == records[..n] + [records[n]];
      if r :| r in records[..n] && p(r) {
        var k :| 0 <= k < n && records[k] == r;
        assert records[k].id != records[n].id;
      }
    }
  }

  /** What the footer says of its own session is what that session's record says; nothing, once it is gone. */
  lemma FooterTellsOfItsSession(content: Footer.Content, sessionID: string, records: seq<Record>)
    requires IsContentFor(content, sessionID, records)
    ensures forall r :: r in records && r.id == sessionID ==>
              && content.title == r.title && content.agent == r.agentID && content.permissionMode == r.permissionMode
              && content.attachedClients == r.attachedClients && content.notificationsMuted == r.notificationsMuted
    ensures (forall r :: r in records ==> r.id != sessionID) ==>
              && content.title == content.agent == content.permissionMode == "" && content.attachedClients == 0
              && !content.notificationsMuted && content.sessionNumber == 0
  {
    RunningMembersOnly(records, sessionID);
  }

  lemma {:induction false} RunningMembersOnly(records: seq<Record>, sessionID: string)
    ensures (forall r :: r in records ==> r.id != sessionID) ==> NumberOf(records, sessionID) == 0
  {
    var sorted := SwitchableSessions(records);
    forall k | 0 <= k < |sorted| && sorted[k].id == sessionID ensures exists r :: r in records && r.id == sessionID {
      SortedKeepsMembers(Running(records), sorted[k]);
      RunningMembers(records, sorted[k]);
    }
  }

  lemma {:induction false} InsertedMembers(x: Record, s: seq<Record>, r: Record)
    ensures r in Inserted(x, s) ==> r == x || r in s
  {
    if s != [] && !Before(x, s[0]) {
      InsertedMembers(x, s[1..], r);
    }
  }

  lemma {:induction false} SortedKeepsMembers(s: seq<Record>, r: Record)
    ensures r in Sorted(s) ==> r in s
  {
    if s != [] {
      InsertedMembers(s[0], Sorted(s[1..]), r);
      SortedKeepsMembers(s[1..], r);
    }
  }

  /** The others are all that run, but for this one. */
  lemma OthersAreTheRest(content: Footer.Content, sessionID: string, records: seq<Record>)
    requires DistinctIDs(records) && IsContentFor(content, sessionID, records)
    ensures content.otherSessions
            + (if exists r :: r in records && r.id == sessionID && r.status == "running" then 1 else 0)
         == Count(records, (r: Record) => r.status == "running")
    ensures content.othersNeedingInput + content.othersFailed <= content.otherSessions
  {
    var running := (r: Record) => r.status == "running";
    var itself := (r: Record) => r.id == sessionID && r.status == "running";
    CountSplits(records, running, Others(sessionID), itself);
    CountOne(records, sessionID, itself);
    CountSplits(records, Others(sessionID), OthersWith(sessionID, "needs_input"), OthersWith(sessionID, "failed"));
    CountAgrees(records, running, (r: Record) => r.status == "running");
  }

  lemma {:induction false} CountAgrees(records: seq<Record>, p: Record -> bool, q: Record -> bool)
    requires forall r :: p(r) <==> q(r)
    ensures Count(records, p) == Count(records, q)
    decreases |records|
  {
    if records != [] {
      CountAgrees(records[..|records| - 1], p, q);
    }
  }

  /** The number the footer shows is the digit that selects this session, and no other digit does;
      there is no number exactly when the session cannot be switched to. */
  lemma FooterNumberSelects(records: seq<Record>, sessionID: string, currentID: string, index: int)
    requires DistinctIDs(records) && sessionID != ""
    ensures var running := SwitchableSessions(records);
            && (NumberOf(records, sessionID) > 0 <==> exists r :: r in records && Switchable(r) && r.id == sessionID)
            && (Target(running, currentID, Request(0, index)) == sessionID
                <==> NumberOf(records, sessionID) > 0 && index == NumberOf(records, sessionID))
  {
    SwitchableOnceEach(records);
    var running := SwitchableSessions(records);
    if NumberOf(records, sessionID) > 0 {
      assert running[NumberOf(records, sessionID) - 1] in running;
    }
    forall r | r in records && Switchable(r) && r.id == sessionID ensures NumberOf(records, sessionID) > 0 {
      assert r in running;
    }
  }

  // ---- Where an ended session leaves its terminal ----

  /** The nearest running session before the ended one, or else the nearest after. */
  ghost predicate NearestTo(records: seq<Record>, current: Record, r: Record) {
    && r in records && Switchable(r)
    && if exists o :: o in records && Switchable(o) && Before(o, current)
       then Before(r, current)
            && forall o :: o in records && Switchable(o) && Before(o, current) ==> o == r || Before(o, r)
       else forall o :: o in records && Switchable(o) ==> o == r || Before(r, o)
  }

  /** What the fallback should be: "" for staying. */
  ghost predicate IsFallback(records: seq<Record>, currentID: string, target: string) {
    if forall o :: o in records ==> !Switchable(o) then target == ""
    else if forall o :: o in records ==> o.id != currentID then
      exists r :: r in records && Switchable(r) && r.id == target
                  && forall o :: o in records && Switchable(o) ==> o == r || Before(o, r)
    else forall current :: current in records && current.id == currentID ==>
      if current.status == "running" then target == ""
      else exists r :: NearestTo(records, current, r) && r.id == target
  }

  lemma LastBeforeIsNearest(records: seq<Record>, running: seq<Record>, current: Record, n: nat)
    requires DistinctIDs(records) && running == SwitchableSessions(records) && n <= |running|
    requires current in records && current.status != "running" && running != []
    requires forall k :: 0 <= k < n ==> Before(running[k], current)
    requires n < |running| ==> !Before(running[n], current)
    ensures NearestTo(records, current, running[if n == 0 then 0 else n - 1])
  {
    SwitchableOnceEach(records);
    var r := running[if n == 0 then 0 else n - 1];
    assert r in running;
    forall o | o in records && Switchable(o)
      ensures Before(o, current) ==> n > 0 && (o == r || Before(o, r))
      ensures n == 0 ==> o == r || Before(r, o)
    {
      var k :| 0 <= k < |running| && running[k] == o;
      if n <= k && n < |running| {
        SameIDSameRecord(records, o, o);
        BeforeIsTotalOrder(running[n], running[k], current);
      }
    }
  }

  method SelectEndedSessionFallback(records: seq<Record>, currentID: string) returns (target: string)
    requires DistinctIDs(records) && forall r :: r in records ==> r.id != ""
    ensures IsFallback(records, currentID, target)
  {
    var current, index := None, 0;
    while index < |records| && current.None?
      invariant index <= |records|
      invariant current.None? ==> forall i :: 0 <= i < index ==> records[i].id != currentID
      invariant current.Some? ==> current.value in records && current.value.id == currentID
    {
      if records[index].id == currentID {
        current := Some(records[index]);
      }
      index := index + 1;
    }
    var running := SwitchableSessionsOf(records);
    SwitchableOnceEach(records);
    if |running| == 0 {
      return "";
    }
    assert running[0] in running;
    if current.None? {
      LastIsGreatest(records, running);
      return running[|running| - 1].id;
    }
    if current.value.status == "running" {
      return "";
    }
    target := NearestRunning(records, running, current.value);
  }

  lemma LastIsGreatest(records: seq<Record>, running: seq<Record>)
    requires DistinctIDs(records) && running == SwitchableSessions(records) && running != []
    ensures var r := running[|running| - 1];
            && r in records && Switchable(r)
            && forall o :: o in records && Switchable(o) ==> o == r || Before(o, r)
  {
    SwitchableOnceEach(records);
    assert running[|running| - 1] in running;
  }

  method NearestRunning(records: seq<Record>, running: seq<Record>, current: Record) returns (target: string)
    requires DistinctIDs(records) && running == SwitchableSessions(records) && running != []
    requires forall r :: r in records ==> r.id != ""
    requires current in records && current.status != "running"
    ensures exists r :: NearestTo(records, current, r) && r.id == target
  {
    SwitchableOnceEach(records);
    var previous, i := "", 0;
    while i < |running|
      invariant i <= |running|
      invariant forall k :: 0 <= k < i ==> Before(running[k], current)
      invariant previous == if i == 0 then "" else running[i - 1].id
    {
      if !Before(running[i], current) {
        LastBeforeIsNearest(records, running, current, i);
        assert i > 0 ==> running[i - 1] in running;
        if previous != "" {
          return previous;
        }
        return running[i].id;
      }
      previous := running[i].id;
      i := i + 1;
    }
    LastBeforeIsNearest(records, running, current, i);
    return previous;
  }
}
