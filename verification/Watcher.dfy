/** The notification watcher (internal/notifications/watcher.go): what one poll does to each
    session's record, and what that means over a whole run. */
module Watcher {
  import opened Sequences

  datatype Attention = Quiet | NeedsInput | Completed | Failed

  datatype SessionState = SessionState(attention: Attention, fingerprint: string, activity: int, awaitingWork: bool)

  const UNSEEN := SessionState(Quiet, "", 0, false)

  const FAST_COMPLETION_GRACE: int := 4_000_000_000  // nanoseconds
  const REGISTRATION_RETENTION: int := 30 * 24 * 3600 * 1_000_000_000

  datatype Registration = Registration(enabled: Option<set<Attention>>, updatedAt: int)

  /** What the relay says to one delivery. */
  datatype Reply = Delivered | ForgotDevice | Undelivered

  /** Everything a poll learns about one session. The second marker reading and the replies are
      only used if it comes to a delivery. */
  datatype Sight = Sight(
    attention: Attention, fingerprint: string, activity: int, now: int, followed: bool, attachedClients: nat,
    muted: bool, recentlyViewed: bool, latestActivity: int, replies: nat -> Reply)

  /** The record of an episode that needs no further report. */
  function Seen(s: Sight): SessionState {
    SessionState(s.attention, s.fingerprint, s.activity, false)
  }

  function Rearmed(activity: int, fingerprint: string): SessionState {
    SessionState(Quiet, fingerprint, activity, true)
  }

  predicate ReadyAfterFastCompletion(previous: SessionState, s: Sight) {
    && previous.awaitingWork && s.attention != Quiet
    && s.fingerprint != previous.fingerprint
    && s.now - previous.activity >= FAST_COMPLETION_GRACE
  }

  datatype Verdict = Keep | Store(state: SessionState) | Announce(state: SessionState)

  /** What to do about a session, once it is known not to be waiting for its agent to start work. */
  function JudgeEpisode(previous: SessionState, s: Sight): Verdict {
    if s.attention == Quiet then
      if previous.attention != Quiet then Store(SessionState(Quiet, s.fingerprint, s.activity, false)) else Keep
    else if previous.attention != Quiet then Keep
    else if !s.followed then Store(Seen(s))
    else if s.attachedClients > 0 || s.muted || s.recentlyViewed then Keep
    else if s.latestActivity > s.activity then Store(Rearmed(s.latestActivity, previous.fingerprint))
    else Announce(Seen(s))
  }

  function Judge(baseline: bool, previous: SessionState, s: Sight): Verdict {
    if baseline then Store(Seen(s))
    else if s.activity > previous.activity then Store(Rearmed(s.activity, previous.fingerprint))
    else if !previous.awaitingWork then JudgeEpisode(previous, s)
    else if s.attention == Quiet then Store(previous.(awaitingWork := false, fingerprint := s.fingerprint))
    else if !ReadyAfterFastCompletion(previous, s) then Keep
    else JudgeEpisode(UNSEEN.(activity := s.activity), s)
  }

  predicate Eligible(r: Registration, s: Sight) {
    && (r.enabled.Some? ==> s.attention in r.enabled.value)
    && (r.updatedAt == 0 || s.now - r.updatedAt * 1_000_000_000 <= REGISTRATION_RETENTION)
  }

  predicate AllDelivered(registrations: seq<Registration>, s: Sight) {
    forall i :: 0 <= i < |registrations| && Eligible(registrations[i], s) ==> s.replies(i) != Undelivered
  }

  /** Which registrations a delivery is attempted for, in order. */
  function Tried(registrations: seq<Registration>, s: Sight): (r: seq<nat>)
    decreases |registrations|
  {
    if registrations == [] then []
    else
      var n := |registrations| - 1;
      Tried(registrations[..n], s) + if Eligible(registrations[n], s) then [n] else []
  }

  /** The record to store, if any. */
  function Stored(registrations: seq<Registration>, baseline: bool, previous: SessionState, s: Sight)
    : Option<SessionState>
  {
    match Judge(baseline, previous, s)
    case Keep => None
    case Store(state) => Some(state)
    case Announce(state) => if AllDelivered(registrations, s) then Some(state) else None
  }

  /** A session's record after a poll that read its transcript. */
  function Next(registrations: seq<Registration>, baseline: bool, previous: SessionState, s: Sight): SessionState {
    var stored := Stored(registrations, baseline, previous, s);
    if stored.Some? then stored.value else previous
  }

  // ---- One session over a run of polls ----

  datatype Look = Look(registrations: seq<Registration>, sight: Sight)

  function After(state: SessionState, looks: seq<Look>): SessionState
    decreases |looks|
  {
    if looks == [] then state
    else
      var n := |looks| - 1;
      Next(looks[n].registrations, false, After(state, looks[..n]), looks[n].sight)
  }

  /** Look i attempts delivery. */
  predicate Announces(state: SessionState, looks: seq<Look>, i: nat)
    requires i < |looks|
  {
    Judge(false, After(state, looks[..i]), looks[i].sight).Announce?
  }

  predicate Reported(state: SessionState) {
    state.attention != Quiet && !state.awaitingWork
  }

  /** Nothing seen in looks i to j ends an episode recorded at the given marker. */
  ghost predicate NothingNew(looks: seq<Look>, i: nat, j: nat, activity: int) {
    && i <= j <= |looks|
    && forall k :: i <= k < j ==> looks[k].sight.attention != Quiet && looks[k].sight.activity <= activity
  }

  lemma AfterOne(state: SessionState, looks: seq<Look>, i: nat)
    requires i < |looks|
    ensures After(state, looks[..i + 1])
         == Next(looks[i].registrations, false, After(state, looks[..i]), looks[i].sight)
  {
    assert looks[..i + 1][..i] == looks[..i];
  }

  lemma ReportedIsKept(registrations: seq<Registration>, state: SessionState, s: Sight)
    requires Reported(state) && s.attention != Quiet && s.activity <= state.activity
    ensures Next(registrations, false, state, s) == state
  {
  }

  lemma {:induction false} ReportedStays(state: SessionState, looks: seq<Look>, i: nat, j: nat)
    requires i <= j <= |looks| && Reported(After(state, looks[..i]))
    requires NothingNew(looks, i, j, After(state, looks[..i]).activity)
    ensures After(state, looks[..j]) == After(state, looks[..i])
    decreases j
  {
    if i < j {
      ReportedStays(state, looks, i, j - 1);
      AfterOne(state, looks, j - 1);
      ReportedIsKept(looks[j - 1].registrations, After(state, looks[..j - 1]), looks[j - 1].sight);
    }
  }

  /** A recorded episode is never announced again, whatever redraws, reclassifications, follow,
      mute or attach changes the polls see, until one sees it gone or sees newer input. */
  lemma RecordedEpisodeIsSilent(state: SessionState, looks: seq<Look>, i: nat, j: nat)
    requires i <= j < |looks| && Reported(After(state, looks[..i])) && Announces(state, looks, j)
    ensures exists k :: i <= k < j && (looks[k].sight.attention == Quiet
                                       || looks[k].sight.activity > After(state, looks[..i]).activity)
  {
    if NothingNew(looks, i, j, After(state, looks[..i]).activity) {
      ReportedStays(state, looks, i, j);
    }
  }

  /** Between two announcements, the first fully delivered, some poll saw the episode end or saw
      input newer than the first announcement. */
  lemma OneAnnouncementPerEpisode(state: SessionState, looks: seq<Look>, i: nat, j: nat)
    requires i < j < |looks| && Announces(state, looks, i) && Announces(state, looks, j)
    requires AllDelivered(looks[i].registrations, looks[i].sight)
    ensures exists k :: i < k < j && (looks[k].sight.attention == Quiet
                                      || looks[k].sight.activity > looks[i].sight.activity)
  {
    AfterOne(state, looks, i);
    RecordedEpisodeIsSilent(state, looks, i + 1, j);
  }

  /** Input that arrived while a delivery was being decided. */
  predicate LateInput(previous: SessionState, s: Sight) {
    && s.activity <= previous.activity && s.attention != Quiet && s.latestActivity > s.activity
    && s.followed && s.attachedClients == 0 && !s.muted && !s.recentlyViewed
    && if previous.awaitingWork then ReadyAfterFastCompletion(previous, s) else previous.attention == Quiet
  }

  /** The exact condition for an announcement, from a record and one look. */
  lemma AnnouncedIff(previous: SessionState, s: Sight)
    ensures Judge(false, previous, s).Announce? <==>
            && s.attention != Quiet && s.activity <= previous.activity && s.latestActivity <= s.activity
            && s.followed && s.attachedClients == 0 && !s.muted && !s.recentlyViewed
            && (previous.attention == Quiet || previous.awaitingWork)
            && (previous.awaitingWork ==> s.fingerprint != previous.fingerprint
                                          && s.now - previous.activity >= 4_000_000_000)
  {
  }

  /** Late input keeps the screen it must differ from exactly when the session was not already
      waiting for work: a record waiting for work forgets it. */
  lemma LateInputKeepsFingerprintIff(registrations: seq<Registration>, previous: SessionState, s: Sight)
    requires LateInput(previous, s)
    ensures Next(registrations, false, previous, s).awaitingWork
    ensures Next(registrations, false, previous, s).fingerprint == previous.fingerprint
            <==> !previous.awaitingWork || previous.fingerprint == ""
  {
  }

  /** Look k saw the session quiet, settled its episode, or re-armed it late. */
  predicate Disturbs(state: SessionState, looks: seq<Look>, k: nat)
    requires k < |looks|
  {
    || looks[k].sight.attention == Quiet || LateInput(After(state, looks[..k]), looks[k].sight)
    || Reported(After(state, looks[..k + 1]))
  }

  ghost predicate Undisturbed(state: SessionState, looks: seq<Look>, j: nat) {
    j <= |looks| && forall k :: 0 <= k < j ==> !Disturbs(state, looks, k)
  }

  lemma WaitsOn(registrations: seq<Registration>, previous: SessionState, s: Sight)
    requires previous.awaitingWork && s.attention != Quiet && !LateInput(previous, s)
    requires !Reported(Next(registrations, false, previous, s))
    ensures var next := Next(registrations, false, previous, s);
            && next.awaitingWork && next.fingerprint == previous.fingerprint
            && next.activity == if s.activity > previous.activity then s.activity else previous.activity
  {
  }

  lemma {:induction false} StillWaiting(state: SessionState, looks: seq<Look>, j: nat)
    requires state.awaitingWork && Undisturbed(state, looks, j)
    ensures var now := After(state, looks[..j]);
            && now.awaitingWork && now.fingerprint == state.fingerprint && now.activity >= state.activity
            && forall k :: 0 <= k < j ==> looks[k].sight.activity <= now.activity
    decreases j
  {
    if j > 0 {
      StillWaiting(state, looks, j - 1);
      assert !Disturbs(state, looks, j - 1);
      AfterOne(state, looks, j - 1);
      WaitsOn(looks[j - 1].registrations, After(state, looks[..j - 1]), looks[j - 1].sight);
    }
  }

  /** From a record waiting for work, an announcement comes with a screen that differs from the
      recorded one, four seconds or more after all input seen, unless meanwhile a poll saw the
      session quiet, settled the episode, or met late input. */
  lemma AnnouncementNeedsFreshScreen(state: SessionState, looks: seq<Look>, j: nat)
    requires state.awaitingWork && j < |looks| && Undisturbed(state, looks, j) && Announces(state, looks, j)
    ensures looks[j].sight.fingerprint != state.fingerprint
    ensures looks[j].sight.now - state.activity >= FAST_COMPLETION_GRACE
    ensures forall k :: 0 <= k <= j ==> looks[j].sight.now - looks[k].sight.activity >= FAST_COMPLETION_GRACE
  {
    StillWaiting(state, looks, j);
    AnnouncedIff(After(state, looks[..j]), looks[j].sight);
  }

  // ---- A screen unchanged since the input ----

  /** The record a poll that sees new input leaves; late input of a session already waiting for work
      forgets the recorded screen. */
  lemma InputRearms(registrations: seq<Registration>, previous: SessionState, met: Sight)
    ensures met.activity > previous.activity ==>
              Next(registrations, false, previous, met) == Rearmed(met.activity, previous.fingerprint)
    ensures LateInput(previous, met) ==>
              Next(registrations, false, previous, met)
              == Rearmed(met.latestActivity, if previous.awaitingWork then "" else previous.fingerprint)
  {
  }

  /** Every look shows the same screen, still asking for someone, and no input newer than a marker. */
  ghost predicate Unchanged(looks: seq<Look>, fingerprint: string, activity: int) {
    forall k :: 0 <= k < |looks| ==>
      var s := looks[k].sight;
      s.fingerprint == fingerprint && s.attention != Quiet && s.activity <= activity && s.latestActivity <= s.activity
  }

  /** Nothing is announced by any further looks at the unchanged screen. */
  ghost predicate StaysSilent(state: SessionState, fingerprint: string) {
    forall looks :: Unchanged(looks, fingerprint, state.activity) ==>
      forall j :: 0 <= j < |looks| ==> !Announces(state, looks, j)
  }

  lemma RecordedScreenIsKept(registrations: seq<Registration>, state: SessionState, s: Sight)
    requires state.awaitingWork && s.fingerprint == state.fingerprint && s.attention != Quiet
    requires s.activity <= state.activity
    ensures Judge(false, state, s) == Keep
  {
  }

  lemma {:induction false} RecordedScreenIsSilent(state: SessionState, looks: seq<Look>, j: nat)
    requires state.awaitingWork && Unchanged(looks, state.fingerprint, state.activity) && j <= |looks|
    ensures After(state, looks[..j]) == state
    decreases j
  {
    if j > 0 {
      RecordedScreenIsSilent(state, looks, j - 1);
      AfterOne(state, looks, j - 1);
      RecordedScreenIsKept(looks[j - 1].registrations, state, looks[j - 1].sight);
    }
  }

  /** A session waiting for work is never announced for a screen that does not change, exactly when
      that is the screen on record. */
  lemma UnchangedScreenIsSilentIff(state: SessionState, fingerprint: string)
    requires state.awaitingWork
    ensures StaysSilent(state, fingerprint) <==> fingerprint == state.fingerprint
  {
    if fingerprint == state.fingerprint {
      forall looks: seq<Look>, j | Unchanged(looks, fingerprint, state.activity) && 0 <= j < |looks|
        ensures !Announces(state, looks, j)
      {
        RecordedScreenIsSilent(state, looks, j);
        RecordedScreenIsKept(looks[j].registrations, state, looks[j].sight);
      }
    } else {
      var s := Sight(NeedsInput, fingerprint, state.activity, state.activity + FAST_COMPLETION_GRACE, true, 0,
                     false, false, state.activity, n => Delivered);
      var looks := [Look([], s)];
      assert looks[0].sight == s && looks[..0] == [];
      assert Unchanged(looks, fingerprint, state.activity) && Announces(state, looks, 0);
    }
  }

  /** So once a poll has seen input, the screen there was at the input is never announced unchanged,
      exactly when it is the one last recorded before the input. */
  lemma ScreenAtInputIsSilentIff(registrations: seq<Registration>, previous: SessionState, met: Sight)
    requires met.activity > previous.activity
    ensures StaysSilent(Next(registrations, false, previous, met), met.fingerprint)
            <==> met.fingerprint == previous.fingerprint
  {
    InputRearms(registrations, previous, met);
    UnchangedScreenIsSilentIff(Next(registrations, false, previous, met), met.fingerprint);
  }

  /** The same for input that arrives while a delivery is being decided; and if the session was
      waiting for work already, there is no screen on record to be the same as. */
  lemma ScreenAtLateInputIsSilentIff(registrations: seq<Registration>, previous: SessionState, met: Sight)
    requires LateInput(previous, met)
    ensures StaysSilent(Next(registrations, false, previous, met), met.fingerprint)
            <==> met.fingerprint == if previous.awaitingWork then "" else previous.fingerprint
  {
    InputRearms(registrations, previous, met);
    UnchangedScreenIsSilentIff(Next(registrations, false, previous, met), met.fingerprint);
  }

  /** And not only by some look: by the first one, four seconds on, that could announce at all. */
  lemma AnnouncedAfterLateInputIff(
    registrations: seq<Registration>, previous: SessionState, met: Sight, later: Sight)
    requires LateInput(previous, met) && later == met.(activity := met.latestActivity, now := later.now)
    requires later.now - met.latestActivity >= FAST_COMPLETION_GRACE
    ensures Judge(false, Next(registrations, false, previous, met), later).Announce?
            <==> met.fingerprint != if previous.awaitingWork then "" else previous.fingerprint
  {
    InputRearms(registrations, previous, met);
    AnnouncedIff(Next(registrations, false, previous, met), later);
  }

  lemma AnnouncedAfterInputIff(
    registrations: seq<Registration>, previous: SessionState, met: Sight, later: Sight)
    requires met.activity > previous.activity && later == met.(now := later.now)
    requires met.attention != Quiet && met.latestActivity <= met.activity
    requires met.followed && met.attachedClients == 0 && !met.muted && !met.recentlyViewed
    requires later.now - met.activity >= FAST_COMPLETION_GRACE
    ensures Judge(false, Next(registrations, false, previous, met), later).Announce?
            <==> met.fingerprint != previous.fingerprint
  {
    InputRearms(registrations, previous, met);
    AnnouncedIff(Next(registrations, false, previous, met), later);
  }

  /** A sight of a screen asking for input, of a session nobody is looking at; times in seconds. */
  function Asking(fingerprint: string, activity: int, now: int, latestActivity: int, replies: nat -> Reply): Sight {
    Sight(NeedsInput, fingerprint, activity * 1_000_000_000, now * 1_000_000_000, true, 0, false, false,
          latestActivity * 1_000_000_000, replies)
  }

  /** Late input while waiting for work: the unchanged screen it met is announced afterwards. */
  lemma LateInputLosesTheScreen(registrations: seq<Registration>, replies: nat -> Reply)
    ensures var met, later := Asking("b", 0, 4, 5, replies), Asking("b", 5, 9, 5, replies);
            var looks, state := [Look(registrations, met), Look(registrations, later)], Rearmed(0, "a");
            LateInput(state, met) && !Announces(state, looks, 0) && Announces(state, looks, 1)
  {
    TwoLooks(registrations, Rearmed(0, "a"), Asking("b", 0, 4, 5, replies), Asking("b", 5, 9, 5, replies));
  }

  /** Late input of a session not waiting: the screen on record is an older one, and the same happens. */
  lemma LateInputMeetsAnotherScreen(registrations: seq<Registration>, replies: nat -> Reply)
    ensures var met, later := Asking("b", 0, 4, 5, replies), Asking("b", 5, 9, 5, replies);
            var looks := [Look(registrations, met), Look(registrations, later)];
            var state := SessionState(Quiet, "a", 0, false);
            LateInput(state, met) && !Announces(state, looks, 0) && Announces(state, looks, 1)
  {
    TwoLooks(registrations, SessionState(Quiet, "a", 0, false), Asking("b", 0, 4, 5, replies),
             Asking("b", 5, 9, 5, replies));
  }

  /** No late input at all: an episode recorded with one screen is redrawn, answered, and announced
      for the redrawn screen. */
  lemma RedrawnScreenIsAnnounced(registrations: seq<Registration>, replies: nat -> Reply)
    ensures var redrawn, met := Asking("y", 0, 1, 0, replies), Asking("y", 2, 3, 2, replies);
            var later := Asking("y", 2, 6, 2, replies);
            var looks := [Look(registrations, redrawn), Look(registrations, met), Look(registrations, later)];
            var state := SessionState(NeedsInput, "x", 0, false);
            After(state, looks[..1]) == state && !Announces(state, looks, 1) && Announces(state, looks, 2)
  {
    var redrawn, met := Asking("y", 0, 1, 0, replies), Asking("y", 2, 3, 2, replies);
    var later := Asking("y", 2, 6, 2, replies);
    var looks := [Look(registrations, redrawn), Look(registrations, met), Look(registrations, later)];
    var state := SessionState(NeedsInput, "x", 0, false);
    assert looks[..0] == [];
    AfterOne(state, looks, 0);
    AfterOne(state, looks, 1);
  }

  lemma TwoLooks(registrations: seq<Registration>, state: SessionState, met: Sight, later: Sight)
    ensures var looks := [Look(registrations, met), Look(registrations, later)];
            && (Announces(state, looks, 0) <==> Judge(false, state, met).Announce?)
            && (Announces(state, looks, 1) <==> Judge(false, Next(registrations, false, state, met), later).Announce?)
  {
    var looks := [Look(registrations, met), Look(registrations, later)];
    assert looks[..0] == [];
    AfterOne(state, looks, 0);
  }

  // ---- A whole poll ----

  /** One listed session, and what was learnt about it if its transcript could be read. */
  datatype Entry = Entry(id: string, sight: Option<Sight>)

  datatype Attempt = Attempt(id: string, device: nat)

  datatype Book = Book(sessions: map<string, SessionState>, changed: bool, attempts: seq<Attempt>)

  function Lookup(sessions: map<string, SessionState>, id: string): SessionState {
    if id in sessions then sessions[id] else UNSEEN
  }

  function AttemptsFor(id: string, tried: seq<nat>): (r: seq<Attempt>)
    ensures |r| == |tried|
  {
    seq(|tried|, i requires 0 <= i < |tried| => Attempt(id, tried[i]))
  }

  /** The body of poll's loop over sessions. */
  function Visit(registrations: seq<Registration>, baseline: bool, entry: Entry, b: Book): Book {
    if entry.sight.None? then b
    else
      var s, previous := entry.sight.value, Lookup(b.sessions, entry.id);
      var stored := Stored(registrations, baseline, previous, s);
      Book(if stored.Some? then b.sessions[entry.id := stored.value] else b.sessions,
           b.changed || stored.Some?,
           if Judge(baseline, previous, s).Announce?
           then b.attempts + AttemptsFor(entry.id, Tried(registrations, s)) else b.attempts)
  }

  function VisitAll(registrations: seq<Registration>, baseline: bool, list: seq<Entry>, b: Book): Book
    decreases |list|
  {
    if list == [] then b
    else
      var n := |list| - 1;
      Visit(registrations, baseline, list[n], VisitAll(registrations, baseline, list[..n], b))
  }

  function Listed(list: seq<Entry>): set<string> {
    set i | 0 <= i < |list| :: list[i].id
  }

  /** Dropping the records of sessions no longer listed. */
  function Pruned(b: Book, seen: set<string>): Book {
    b.(sessions := map id | id in b.sessions && id in seen :: b.sessions[id],
       changed := b.changed || exists id :: id in b.sessions && id !in seen)
  }

  function Polled(registrations: seq<Registration>, baseline: bool, list: seq<Entry>,
                  sessions: map<string, SessionState>, attempts: seq<Attempt>): Book {
    Pruned(VisitAll(registrations, baseline, list, Book(sessions, false, attempts)), Listed(list))
  }

  predicate Distinct(list: seq<Entry>) {
    forall i, j :: 0 <= i < j < |list| ==> list[i].id != list[j].id
  }

  function AttemptsOn(attempts: seq<Attempt>, id: string): seq<nat>
    decreases |attempts|
  {
    if attempts == [] then []
    else
      var last := attempts[|attempts| - 1];
      AttemptsOn(attempts[..|attempts| - 1], id) + if last.id == id then [last.device] else []
  }

  lemma {:induction false} AttemptsOnConcat(attempts: seq<Attempt>, other: string, tried: seq<nat>, id: string)
    ensures AttemptsOn(attempts + AttemptsFor(other, tried), id)
         == AttemptsOn(attempts, id) + if id == other then tried else []
    decreases |tried|
  {
    var whole := attempts + AttemptsFor(other, tried);
    if tried == [] {
      assert whole == attempts;
    } else {
      var n := |tried| - 1;
      AttemptsOnConcat(attempts, other, tried[..n], id);
      assert whole[..|whole| - 1] == attempts + AttemptsFor(other, tried[..n]);
      assert tried == tried[..n] + [tried[n]];
    }
  }

  lemma VisitIsLocal(registrations: seq<Registration>, baseline: bool, entry: Entry, b: Book, id: string)
    ensures var v := Visit(registrations, baseline, entry, b);
            if entry.id == id && entry.sight.Some? then
              var s, previous := entry.sight.value, Lookup(b.sessions, id);
              && Lookup(v.sessions, id) == Next(registrations, baseline, previous, s)
              && AttemptsOn(v.attempts, id) == AttemptsOn(b.attempts, id)
                 + if Judge(baseline, previous, s).Announce? then Tried(registrations, s) else []
            else
              && Lookup(v.sessions, id) == Lookup(b.sessions, id)
              && (id in v.sessions <==> id in b.sessions)
              && AttemptsOn(v.attempts, id) == AttemptsOn(b.attempts, id)
  {
    if entry.sight.Some? {
      AttemptsOnConcat(b.attempts, entry.id, Tried(registrations, entry.sight.value), id);
    }
  }

  lemma {:induction false} UnlistedIsUntouched(
    registrations: seq<Registration>, baseline: bool, list: seq<Entry>, b: Book, id: string)
    requires forall i :: 0 <= i < |list| ==> list[i].id != id
    ensures var v := VisitAll(registrations, baseline, list, b);
            Lookup(v.sessions, id) == Lookup(b.sessions, id) && AttemptsOn(v.attempts, id) == AttemptsOn(b.attempts, id)
    decreases |list|
  {
    if list != [] {
      var n := |list| - 1;
      UnlistedIsUntouched(registrations, baseline, list[..n], b, id);
      VisitIsLocal(registrations, baseline, list[n], VisitAll(registrations, baseline, list[..n], b), id);
    }
  }

  lemma {:induction false} ListedIsJudged(
    registrations: seq<Registration>, baseline: bool, list: seq<Entry>, b: Book, k: nat)
    requires Distinct(list) && k < |list| && list[k].sight.Some?
    ensures var id, s := list[k].id, list[k].sight.value;
            var v, previous := VisitAll(registrations, baseline, list, b), Lookup(b.sessions, id);
            && Lookup(v.sessions, id) == Next(registrations, baseline, previous, s)
            && AttemptsOn(v.attempts, id) == AttemptsOn(b.attempts, id)
               + if Judge(baseline, previous, s).Announce? then Tried(registrations, s) else []
    decreases |list|
  {
    var n := |list| - 1;
    var before := VisitAll(registrations, baseline, list[..n], b);
    VisitIsLocal(registrations, baseline, list[n], before, list[k].id);
    if k == n {
      UnlistedIsUntouched(registrations, baseline, list[..n], b, list[k].id);
    } else {
      ListedIsJudged(registrations, baseline, list[..n], b, k);
    }
  }

  /** What a poll should do for one listed session, by itself. */
  predicate JudgedAlone(
    registrations: seq<Registration>, baseline: bool, entry: Entry, was: Book, now: Book)
  {
    var previous := Lookup(was.sessions, entry.id);
    var before, after := AttemptsOn(was.attempts, entry.id), AttemptsOn(now.attempts, entry.id);
    match entry.sight
    case None => Lookup(now.sessions, entry.id) == previous && after == before
    case Some(s) =>
      && Lookup(now.sessions, entry.id) == Next(registrations, baseline, previous, s)
      && after == before + if Judge(baseline, previous, s).Announce? then Tried(registrations, s) else []
  }

  /** Sessions do not affect one another: a listed session's record and deliveries are those of the
      one-session run; the records of unlisted sessions are dropped, and nothing is sent for them. */
  lemma SessionsAreIndependent(
    registrations: seq<Registration>, baseline: bool, list: seq<Entry>, sessions: map<string, SessionState>,
    attempts: seq<Attempt>)
    requires Distinct(list)
    ensures var p := Polled(registrations, baseline, list, sessions, attempts);
            && (forall id :: id !in Listed(list) ==>
                  id !in p.sessions && AttemptsOn(p.attempts, id) == AttemptsOn(attempts, id))
            && (forall k :: 0 <= k < |list| ==>
                  JudgedAlone(registrations, baseline, list[k], Book(sessions, false, attempts), p))
  {
    var start := Book(sessions, false, attempts);
    var p := Polled(registrations, baseline, list, sessions, attempts);
    forall id | id !in Listed(list)
      ensures id !in p.sessions && AttemptsOn(p.attempts, id) == AttemptsOn(attempts, id)
    {
      UnlistedIsUntouched(registrations, baseline, list, start, id);
    }
    forall k | 0 <= k < |list| ensures JudgedAlone(registrations, baseline, list[k], start, p) {
      assert list[k].id in Listed(list);
      if list[k].sight.Some? {
        ListedIsJudged(registrations, baseline, list, start, k);
      } else {
        UnreadIsUntouched(registrations, baseline, list, start, k);
      }
    }
  }

  lemma {:induction false} UnreadIsUntouched(
    registrations: seq<Registration>, baseline: bool, list: seq<Entry>, b: Book, k: nat)
    requires Distinct(list) && k < |list| && list[k].sight.None?
    ensures var id, v := list[k].id, VisitAll(registrations, baseline, list, b);
            Lookup(v.sessions, id) == Lookup(b.sessions, id) && AttemptsOn(v.attempts, id) == AttemptsOn(b.attempts, id)
    decreases |list|
  {
    var n := |list| - 1;
    var before := VisitAll(registrations, baseline, list[..n], b);
    VisitIsLocal(registrations, baseline, list[n], before, list[k].id);
    if k == n {
      UnlistedIsUntouched(registrations, baseline, list[..n], b, list[k].id);
    } else {
      UnreadIsUntouched(registrations, baseline, list[..n], b, k);
    }
  }

  // ---- A run of the watcher ----

  /** One turn of Watch's loop: nobody is registered, or the daemon or the configuration cannot be
      read, or a poll whose result can or cannot be saved. */
  datatype Round =
    | Unconfigured | Unreachable
    | Polling(registrations: seq<Registration>, list: seq<Entry>, canSave: bool)

  datatype Watching = Watching(sessions: map<string, SessionState>, baseline: bool, attempts: seq<Attempt>)

  function Turn(w: Watching, round: Round): Watching {
    match round
    case Unconfigured => w.(baseline := false)
    case Unreachable => w
    case Polling(registrations, list, canSave) =>
      if registrations == [] then w.(baseline := false)
      else
        var p := Polled(registrations, w.baseline, list, w.sessions, w.attempts);
        if p.changed && !canSave then w.(attempts := p.attempts) else Watching(p.sessions, false, p.attempts)
  }

  function Turns(w: Watching, rounds: seq<Round>): Watching
    decreases |rounds|
  {
    if rounds == [] then w else Turns(Turn(w, rounds[0]), rounds[1..])
  }

  /** The round keeps the session listed and shows no end of its episode, nor newer input. */
  ghost predicate Uneventful(round: Round, id: string, activity: int) {
    round.Polling? ==>
      && Distinct(round.list) && id in Listed(round.list)
      && forall k :: 0 <= k < |round.list| && round.list[k].id == id && round.list[k].sight.Some? ==>
           round.list[k].sight.value.attention != Quiet && round.list[k].sight.value.activity <= activity
  }

  lemma UneventfulRound(w: Watching, round: Round, id: string)
    requires !w.baseline && Reported(Lookup(w.sessions, id))
    requires Uneventful(round, id, Lookup(w.sessions, id).activity)
    ensures var v := Turn(w, round);
            && !v.baseline && Lookup(v.sessions, id) == Lookup(w.sessions, id)
            && AttemptsOn(v.attempts, id) == AttemptsOn(w.attempts, id)
  {
    if round.Polling? && round.registrations != [] {
      SessionsAreIndependent(round.registrations, w.baseline, round.list, w.sessions, w.attempts);
      var k :| 0 <= k < |round.list| && round.list[k].id == id;
      assert JudgedAlone(round.registrations, w.baseline, round.list[k], Book(w.sessions, false, w.attempts),
                         Polled(round.registrations, w.baseline, round.list, w.sessions, w.attempts));
    }
  }

  /** Over a whole run, saved or not: a recorded episode stays recorded and nothing is sent for it. */
  lemma {:induction false} UneventfulRunIsSilent(w: Watching, rounds: seq<Round>, id: string)
    requires !w.baseline && Reported(Lookup(w.sessions, id))
    requires forall r :: r in rounds ==> Uneventful(r, id, Lookup(w.sessions, id).activity)
    ensures var v := Turns(w, rounds);
            && Lookup(v.sessions, id) == Lookup(w.sessions, id)
            && AttemptsOn(v.attempts, id) == AttemptsOn(w.attempts, id)
    decreases |rounds|
  {
    if rounds != [] {
      UneventfulRound(w, rounds[0], id);
      UneventfulRunIsSilent(Turn(w, rounds[0]), rounds[1..], id);
    }
  }

  predicate ReadsTranscript(round: Round, id: string) {
    && round.Polling? && round.registrations != []
    && exists k :: 0 <= k < |round.list| && round.list[k].id == id && round.list[k].sight.Some?
  }

  /** A round that does not read a listed session's transcript keeps its record. */
  lemma UnreadKeepsRecord(w: Watching, round: Round, id: string)
    requires !ReadsTranscript(round, id)
    requires round.Polling? ==> Distinct(round.list) && id in Listed(round.list)
    ensures Lookup(Turn(w, round).sessions, id) == Lookup(w.sessions, id)
    ensures AttemptsOn(Turn(w, round).attempts, id) == AttemptsOn(w.attempts, id)
  {
    if round.Polling? && round.registrations != [] {
      SessionsAreIndependent(round.registrations, w.baseline, round.list, w.sessions, w.attempts);
      var k :| 0 <= k < |round.list| && round.list[k].id == id;
      assert JudgedAlone(round.registrations, w.baseline, round.list[k], Book(w.sessions, false, w.attempts),
                         Polled(round.registrations, w.baseline, round.list, w.sessions, w.attempts));
    }
  }

  lemma BaselineRecords(w: Watching, round: Round, id: string, activity: int)
    requires w.baseline && ReadsTranscript(round, id) && !Turn(w, round).baseline
    requires Uneventful(round, id, activity)
    ensures var state := Lookup(Turn(w, round).sessions, id);
            Reported(state) && state.activity <= activity
    ensures exists k :: 0 <= k < |round.list| && round.list[k].id == id && round.list[k].sight.Some?
              && Lookup(Turn(w, round).sessions, id) == Seen(round.list[k].sight.value)
    ensures AttemptsOn(Turn(w, round).attempts, id) == AttemptsOn(w.attempts, id)
  {
    SessionsAreIndependent(round.registrations, w.baseline, round.list, w.sessions, w.attempts);
    var k :| 0 <= k < |round.list| && round.list[k].id == id && round.list[k].sight.Some?;
    assert JudgedAlone(round.registrations, w.baseline, round.list[k], Book(w.sessions, false, w.attempts),
                       Polled(round.registrations, w.baseline, round.list, w.sessions, w.attempts));
  }

  /** A sight of a new screen, asking for someone, with no newer input. */
  function Ripe(state: SessionState): Sight {
    Sight(NeedsInput, state.fingerprint + "x", state.activity, state.activity + FAST_COMPLETION_GRACE, true, 0,
          false, false, state.activity, n => Delivered)
  }

  lemma RipeIsAnnounced(state: SessionState)
    requires !Reported(state)
    ensures Judge(false, state, Ripe(state)).Announce? && Tried([Registration(None, 0)], Ripe(state)) == [0]
  {
    assert |state.fingerprint + "x"| == |state.fingerprint| + 1;
    AnnouncedIff(state, Ripe(state));
    var everyone := [Registration(None, 0)];
    assert everyone[..0] == [] && Tried(everyone[..0], Ripe(state)) == [];
  }

  /** A session with no settled episode on record, seen or unseen, is announced by some round that
      shows no newer input. */
  lemma UnreportedIsAnnounced(w: Watching, id: string) returns (round: Round)
    requires !w.baseline && !Reported(Lookup(w.sessions, id))
    ensures Uneventful(round, id, Lookup(w.sessions, id).activity)
    ensures AttemptsOn(Turns(w, [round]).attempts, id) == AttemptsOn(w.attempts, id) + [0]
  {
    var s, everyone := Ripe(Lookup(w.sessions, id)), [Registration(None, 0)];
    var list := [Entry(id, Some(s))];
    round := Polling(everyone, list, true);
    RipeIsAnnounced(Lookup(w.sessions, id));
    SessionsAreIndependent(everyone, w.baseline, list, w.sessions, w.attempts);
    var p := Polled(everyone, w.baseline, list, w.sessions, w.attempts);
    assert JudgedAlone(everyone, w.baseline, list[0], Book(w.sessions, false, w.attempts), p);
    assert list[0].id in Listed(list);
    assert [round][1..] == [] && Turns(w, [round]) == Turns(Turn(w, round), []);
  }

  /** No run of rounds that show no end of the episode on record, nor newer input, sends anything. */
  ghost predicate NeverSends(w: Watching, id: string) {
    forall rounds :: (forall r :: r in rounds ==> Uneventful(r, id, Lookup(w.sessions, id).activity)) ==>
      AttemptsOn(Turns(w, rounds).attempts, id) == AttemptsOn(w.attempts, id)
  }

  lemma NeverSendsIff(w: Watching, id: string)
    requires !w.baseline
    ensures NeverSends(w, id) <==> Reported(Lookup(w.sessions, id))
  {
    if Reported(Lookup(w.sessions, id)) {
      forall rounds | forall r :: r in rounds ==> Uneventful(r, id, Lookup(w.sessions, id).activity)
        ensures AttemptsOn(Turns(w, rounds).attempts, id) == AttemptsOn(w.attempts, id)
      {
        UneventfulRunIsSilent(w, rounds, id);
      }
    } else {
      var round := UnreportedIsAnnounced(w, id);
      assert forall r :: r in [round] ==> Uneventful(r, id, Lookup(w.sessions, id).activity);
    }
  }

  /** What is on screen when a watcher starts is never announced, by the round that ends its baseline
      or after, exactly when that round read the session's transcript or the saved record says it is
      reported already. A first round with nobody registered does not read it. */
  lemma ScreenAtStartIsHistoryIff(w: Watching, round: Round, id: string, activity: int)
    requires w.baseline && !Turn(w, round).baseline && Uneventful(round, id, activity)
    ensures AttemptsOn(Turn(w, round).attempts, id) == AttemptsOn(w.attempts, id)
    ensures NeverSends(Turn(w, round), id) <==> ReadsTranscript(round, id) || Reported(Lookup(w.sessions, id))
  {
    NeverSendsIff(Turn(w, round), id);
    if ReadsTranscript(round, id) {
      BaselineRecords(w, round, id, activity);
    } else {
      UnreadKeepsRecord(w, round, id);
    }
  }

  // ---- The watcher as it is written ----

  /** The saved state, and every delivery attempted so far. */
  class Watch {
    var sessions: map<string, SessionState>
    var baseline: bool
    var attempts: seq<Attempt>

    function State(): Watching
      reads this
    {
      Watching(sessions, baseline, attempts)
    }

    constructor (sessions: map<string, SessionState>)
      ensures State() == Watching(sessions, true, [])
    {
      this.sessions, baseline, attempts := sessions, true, [];
    }

    method Deliver(id: string, registrations: seq<Registration>, s: Sight) returns (allDelivered: bool)
      modifies this`attempts
      ensures allDelivered == AllDelivered(registrations, s)
      ensures attempts == old(attempts) + AttemptsFor(id, Tried(registrations, s))
    {
      allDelivered := true;
      var i := 0;
      assert attempts == old(attempts) + AttemptsFor(id, Tried(registrations[..0], s));
      while i < |registrations|
        invariant i <= |registrations|
        invariant allDelivered == AllDelivered(registrations[..i], s)
        invariant attempts == old(attempts) + AttemptsFor(id, Tried(registrations[..i], s))
      {
        assert registrations[..i + 1][..i] == registrations[..i];
        if Eligible(registrations[i], s) {
          attempts := attempts + [Attempt(id, i)];
          if s.replies(i) == Undelivered {
            allDelivered := false;
          }
        }
        i := i + 1;
      }
      assert registrations[..i] == registrations;
    }

    /** One session of poll's loop. */
    method PollSession(registrations: seq<Registration>, id: string, s: Sight, recorded: SessionState)
      returns (stored: Option<SessionState>)
      modifies this`attempts
      ensures stored == Stored(registrations, baseline, recorded, s)
      ensures attempts == old(attempts) + if Judge(baseline, recorded, s).Announce?
                                          then AttemptsFor(id, Tried(registrations, s)) else []
    {
      var previous := recorded;
      if baseline {
        return Some(Seen(s));
      }
      if s.activity > previous.activity {
        return Some(Rearmed(s.activity, previous.fingerprint));
      }
      if previous.awaitingWork {
        if s.attention == Quiet {
          previous := previous.(awaitingWork := false);
          previous := previous.(fingerprint := s.fingerprint);
          return Some(previous);
        }
        if !ReadyAfterFastCompletion(previous, s) {
          return None;
        }
        previous := UNSEEN.(activity := s.activity);
      }
      if s.attention == Quiet {
        if previous.attention != s.attention {
          return Some(SessionState(Quiet, s.fingerprint, s.activity, false));
        }
        return None;
      }
      if previous.attention != Quiet {
        return None;
      }
      if !s.followed {
        return Some(Seen(s));
      }
      if s.attachedClients > 0 || s.muted || s.recentlyViewed {
        return None;
      }
      if s.latestActivity > s.activity {
        return Some(Rearmed(s.latestActivity, previous.fingerprint));
      }
      var allDelivered := Deliver(id, registrations, s);
      return if allDelivered then Some(Seen(s)) else None;
    }

    /** poll's loop over the listed sessions. */
    method PollSessions(registrations: seq<Registration>, list: seq<Entry>)
      returns (state: map<string, SessionState>, changed: bool, seen: set<string>)
      modifies this`attempts
      ensures seen == Listed(list)
      ensures Book(state, changed, attempts)
           == VisitAll(registrations, baseline, list, Book(sessions, false, old(attempts)))
    {
      state, changed, seen := sessions, false, {};
      var i := 0;
      assert list[..0] == [];
      while i < |list|
        invariant i <= |list| && seen == Listed(list[..i])
        invariant Book(state, changed, attempts)
               == VisitAll(registrations, baseline, list[..i], Book(sessions, false, old(attempts)))
      {
        assert list[..i + 1][..i] == list[..i];
        ListedSnoc(list[..i], list[i]);
        assert list[..i] + [list[i]] == list[..i + 1];
        seen := seen + {list[i].id};
        if list[i].sight.Some? {
          var previous := if list[i].id in state then state[list[i].id] else UNSEEN;
          var stored := PollSession(registrations, list[i].id, list[i].sight.value, previous);
          if stored.Some? {
            state := state[list[i].id := stored.value];
            changed := true;
          }
        }
        i := i + 1;
      }
      assert list[..i] == list;
    }

    method Prune(sessions: map<string, SessionState>, seen: set<string>)
      returns (kept: map<string, SessionState>, dropped: bool)
      ensures kept == map id | id in sessions && id in seen :: sessions[id]
      ensures dropped <==> exists id :: id in sessions && id !in seen
    {
      kept, dropped := sessions, false;
      var rest := sessions.Keys;
      while rest != {}
        invariant rest <= sessions.Keys
        invariant kept == map id | id in sessions && (id in seen || id in rest) :: sessions[id]
        invariant dropped <==> exists id :: id in sessions && id !in seen && id !in rest
      {
        var id :| id in rest;
        rest := rest - {id};
        if id !in seen {
          kept := kept - {id};
          dropped := true;
        }
      }
    }

    method Poll(registrations: seq<Registration>, list: seq<Entry>, canSave: bool) returns (ok: bool)
      modifies this`sessions, this`attempts
      ensures State().(baseline := baseline && !ok) == Turn(old(State()), Polling(registrations, list, canSave))
    {
      if |registrations| == 0 {
        return true;
      }
      var state, changed, seen := PollSessions(registrations, list);
      var kept, dropped := Prune(state, seen);
      changed := changed || dropped;
      assert Book(kept, changed, attempts) == Polled(registrations, baseline, list, old(sessions), old(attempts));
      if changed {
        if !canSave {
          return false;
        }
        sessions := kept;
      } else {
        assert kept == sessions by {
          VisitUnchanged(registrations, baseline, list, Book(sessions, false, old(attempts)));
        }
      }
      return true;
    }

    /** One turn of Watch's loop. */
    method Round(round: Round)
      modifies this
      ensures State() == Turn(old(State()), round)
    {
      match round {
        case Unreachable =>
        case Unconfigured =>
          baseline := false;
        case Polling(registrations, list, canSave) =>
          var ok := Poll(registrations, list, canSave);
          if ok {
            baseline := false;
          }
      }
    }
  }

  lemma ListedSnoc(list: seq<Entry>, entry: Entry)
    ensures Listed(list + [entry]) == Listed(list) + {entry.id}
  {
    var whole := list + [entry];
    forall id ensures id in Listed(whole) <==> id in Listed(list) + {entry.id} {
      if id in Listed(list) {
        var i :| 0 <= i < |list| && list[i].id == id;
        assert whole[i].id == id;
      }
      assert whole[|list|].id == entry.id;
    }
  }

  /** The loop leaves the records alone unless it says it changed them. */
  lemma {:induction false} VisitUnchanged(registrations: seq<Registration>, baseline: bool, list: seq<Entry>, b: Book)
    ensures var v := VisitAll(registrations, baseline, list, b);
            (b.changed ==> v.changed) && (!v.changed ==> v.sessions == b.sessions)
    decreases |list|
  {
    if list != [] {
      VisitUnchanged(registrations, baseline, list[..|list| - 1], b);
    }
  }
}
