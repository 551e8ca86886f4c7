/** Which deliveries are attempted, and for how long: a push that fails is tried again until it is
    delivered, and an episode nobody needs to hear of is recorded without one
    (internal/notifications/watcher.go, internal/notifications/config.go). */
module WatcherDeliveries {
  import opened Sequences
  import opened Watcher

  // ---- Who is tried ----

  /** A device is tried, once, exactly when it wants this kind of event or wants all, and has introduced
      itself within thirty days, or ever if it does not say when; devices are tried in order. */
  lemma {:induction false} TriedIff(registrations: seq<Registration>, s: Sight)
    ensures var tried := Tried(registrations, s);
            && (forall i: nat :: i in tried <==>
                  && i < |registrations|
                  && (registrations[i].enabled == None || s.attention in registrations[i].enabled.value)
                  && (registrations[i].updatedAt == 0
                      || s.now <= (registrations[i].updatedAt + 2_592_000) * 1_000_000_000))
            && (forall a, b :: 0 <= a < b < |tried| ==> tried[a] < tried[b])
    decreases |registrations|
  {
    if registrations != [] {
      var n := |registrations| - 1;
      var before := Tried(registrations[..n], s);
      TriedIff(registrations[..n], s);
      forall k | 0 <= k < |before| ensures before[k] < n {
        assert before[k] in before;
      }
    }
  }

  /** Nobody who was tried failed to get the push; a device the relay no longer knows counts as served. */
  ghost predicate Served(registrations: seq<Registration>, s: Sight) {
    forall i :: i in Tried(registrations, s) ==> s.replies(i) == Delivered || s.replies(i) == ForgotDevice
  }

  lemma {:induction false} ServedIffAllDelivered(registrations: seq<Registration>, s: Sight)
    ensures Served(registrations, s) <==> AllDelivered(registrations, s)
  {
    TriedIff(registrations, s);
  }

  // ---- What one look leaves ----

  /** The session asks for someone, showed no newer input, and is not on record as reported; if it is
      waiting for work, its screen is new and the four seconds are over. */
  predicate Open(previous: SessionState, s: Sight) {
    && s.attention != Quiet && s.activity <= previous.activity
    && if previous.awaitingWork then ReadyAfterFastCompletion(previous, s) else previous.attention == Quiet
  }

  /** Somebody is looking, or does not want to be told. */
  predicate Withheld(s: Sight) {
    s.attachedClients > 0 || s.muted || s.recentlyViewed
  }

  /** An open episode is recorded as reported exactly when nobody follows the session, or somebody could
      be told and everybody tried was; otherwise, short of late input, the record stays open. */
  lemma {:induction false} RecordedIff(registrations: seq<Registration>, previous: SessionState, s: Sight)
    requires Open(previous, s)
    ensures var next := Next(registrations, false, previous, s);
            && (Reported(next) <==>
                  !s.followed || (!Withheld(s) && s.latestActivity <= s.activity && Served(registrations, s)))
            && (Reported(next) ==> next == SessionState(s.attention, s.fingerprint, s.activity, false))
            && (!Reported(next) && !LateInput(previous, s) ==> next == previous)
  {
    ServedIffAllDelivered(registrations, s);
  }

  /** Taking up a session later does not replay what was on its screen before. */
  lemma {:induction false} AdoptedLaterIsSilent(previous: SessionState, first: Look, looks: seq<Look>, j: nat)
    requires Open(previous, first.sight) && !first.sight.followed && j < |looks|
    requires NothingNew(looks, 0, j, first.sight.activity)
    ensures !Announces(Next(first.registrations, false, previous, first.sight), looks, j)
  {
    var state := Next(first.registrations, false, previous, first.sight);
    RecordedIff(first.registrations, previous, first.sight);
    assert looks[..0] == [];
    if Announces(state, looks, j) {
      RecordedEpisodeIsSilent(state, looks, 0, j);
    }
  }

  /** Nothing stands in the way of telling somebody. */
  predicate Tellable(s: Sight) {
    s.attention != Quiet && s.followed && !Withheld(s) && s.latestActivity <= s.activity
  }

  /** A session the watcher has no record of is announced as soon as somebody could be told, exactly unless
      there has been input in it, which has to be followed by work first. */
  lemma {:induction false} UnseenIsAnnouncedIff(sessions: map<string, SessionState>, id: string, s: Sight)
    requires id !in sessions && Tellable(s)
    ensures Judge(false, Lookup(sessions, id), s).Announce? <==> s.activity <= 0
  {
    AnnouncedIff(Lookup(sessions, id), s);
  }

  /** Records waiting for work are of no episode, and stay so over any looks. */
  lemma {:induction false} WaitingIsQuiet(state: SessionState, looks: seq<Look>)
    requires state.awaitingWork ==> state.attention == Quiet
    ensures After(state, looks).awaitingWork ==> After(state, looks).attention == Quiet
    decreases |looks|
  {
    if looks != [] {
      WaitingIsQuiet(state, looks[..|looks| - 1]);
    }
  }

  /** Once a poll has seen the session quiet, the next time it asks it is announced, and at once. */
  lemma {:induction false} EndedEpisodeIsAnnouncedAnew(state: SessionState, quiet: Look, asking: Look)
    requires state.awaitingWork ==> state.attention == Quiet
    requires quiet.sight.attention == Quiet && quiet.sight.activity <= state.activity
    requires Tellable(asking.sight) && asking.sight.activity <= quiet.sight.activity
    ensures Announces(state, [quiet, asking], 1)
  {
    TwoLooks(quiet.registrations, state, quiet.sight, asking.sight);
    var looks := [quiet, asking];
    assert looks[..1] == [quiet] && [quiet][..0] == [];
    AfterOne(state, looks, 0);
  }

  /** The screen of a session seen quiet, after an episode or while waiting for work, is the one on record: input
      that finds it unchanged is followed by no announcement of it, and by one of any other. */
  lemma {:induction false} QuietScreenIsRemembered(state: SessionState, quiet: Look, met: Look)
    requires quiet.sight.attention == Quiet && quiet.sight.activity <= state.activity
    requires state.awaitingWork || state.attention != Quiet
    requires met.sight.activity > state.activity
    ensures StaysSilent(After(state, [quiet, met]), met.sight.fingerprint)
            <==> met.sight.fingerprint == quiet.sight.fingerprint
  {
    var looks := [quiet, met];
    var after := Next(quiet.registrations, false, state, quiet.sight);
    assert looks[..1] == [quiet] && looks[..0] == [] && looks[..2] == looks;
    AfterOne(state, looks, 0);
    AfterOne(state, looks, 1);
    assert after.fingerprint == quiet.sight.fingerprint && after.activity <= state.activity;
    ScreenAtInputIsSilentIff(met.registrations, after, met.sight);
  }

  // ---- What is saved ----

  /** A poll whose result cannot be saved leaves every record as it was, those of sessions gone from the list
      among them; and has to be saved exactly if it stored something or dropped a record. */
  lemma {:induction false} UnsavedChangesNothing(
    w: Watching, registrations: seq<Registration>, list: seq<Entry>, id: string)
    ensures Turn(w, Polling(registrations, list, false)).sessions == w.sessions
    ensures registrations != [] && id in w.sessions && id !in Listed(list) ==>
              Polled(registrations, w.baseline, list, w.sessions, w.attempts).changed
  {
    var start := Book(w.sessions, false, w.attempts);
    var v := VisitAll(registrations, w.baseline, list, start);
    VisitUnchanged(registrations, w.baseline, list, start);
    if id in w.sessions && id !in Listed(list) {
      KeysStay(registrations, w.baseline, list, start, id);
    }
    if registrations != [] && !Pruned(v, Listed(list)).changed {
      assert Pruned(v, Listed(list)).sessions == v.sessions;
    }
  }

  lemma {:induction false} KeysStay(
    registrations: seq<Registration>, baseline: bool, list: seq<Entry>, b: Book, id: string)
    requires id in b.sessions
    ensures id in VisitAll(registrations, baseline, list, b).sessions
    decreases |list|
  {
    if list != [] {
      KeysStay(registrations, baseline, list[..|list| - 1], b, id);
    }
  }

  // ---- A push that fails is tried again ----

  /** What the list shows of a session. */
  function Shown(list: seq<Entry>, id: string): Option<Sight> {
    if list == [] then None
    else if list[0].id == id then list[0].sight
    else Shown(list[1..], id)
  }

  lemma {:induction false} ShownIs(list: seq<Entry>, id: string) returns (k: nat)
    requires Shown(list, id).Some?
    ensures k < |list| && list[k].id == id && list[k].sight == Shown(list, id)
  {
    if list[0].id == id {
      k := 0;
    } else {
      k := ShownIs(list[1..], id);
      k := k + 1;
    }
  }

  /** t is s again at some later time, with other answers from the relay. */
  ghost predicate Again(s: Sight, t: Sight) {
    t == s.(now := t.now, replies := t.replies) && s.now <= t.now
  }

  /** The round polls and shows the session just as in s. */
  ghost predicate ShowsAgain(round: Round, id: string, s: Sight) {
    && round.Polling? && round.registrations != [] && Distinct(round.list)
    && Shown(round.list, id).Some? && Again(s, Shown(round.list, id).value)
  }

  /** Everybody tried was served, and the record of that was saved. */
  ghost predicate Settles(round: Round, id: string)
    requires round.Polling? && Shown(round.list, id).Some?
  {
    Served(round.registrations, Shown(round.list, id).value) && round.canSave
  }

  ghost predicate AllShowAgain(rounds: seq<Round>, id: string, s: Sight) {
    forall i :: 0 <= i < |rounds| ==> ShowsAgain(rounds[i], id, s)
  }

  /** The devices tried by each round up to the first that settles. */
  ghost function TriedUntilSettled(rounds: seq<Round>, id: string): seq<nat>
    requires forall i :: 0 <= i < |rounds| ==> rounds[i].Polling? && Shown(rounds[i].list, id).Some?
  {
    if rounds == [] then []
    else
      var tried := Tried(rounds[0].registrations, Shown(rounds[0].list, id).value);
      if Settles(rounds[0], id) then tried else tried + TriedUntilSettled(rounds[1..], id)
  }

  lemma {:induction false} StillAnnounced(previous: SessionState, s: Sight, t: Sight)
    requires Judge(false, previous, s).Announce? && Again(s, t)
    ensures Judge(false, previous, t).Announce? && Open(previous, t) && Tellable(t)
  {
    AnnouncedIff(previous, s);
    AnnouncedIff(previous, t);
  }

  /** One round that shows the session as before: it is tried, and recorded if that settles it. */
  lemma {:induction false} RoundTries(w: Watching, round: Round, id: string, s: Sight)
    requires !w.baseline && ShowsAgain(round, id, s) && Judge(false, Lookup(w.sessions, id), s).Announce?
    ensures var v, t := Turn(w, round), Shown(round.list, id).value;
            && !v.baseline
            && AttemptsOn(v.attempts, id) == AttemptsOn(w.attempts, id) + Tried(round.registrations, t)
            && Lookup(v.sessions, id) == if Settles(round, id) then Seen(t) else Lookup(w.sessions, id)
  {
    var t := Shown(round.list, id).value;
    var k := ShownIs(round.list, id);
    var p := Polled(round.registrations, w.baseline, round.list, w.sessions, w.attempts);
    SessionsAreIndependent(round.registrations, w.baseline, round.list, w.sessions, w.attempts);
    assert JudgedAlone(round.registrations, w.baseline, round.list[k], Book(w.sessions, false, w.attempts), p);
    StillAnnounced(Lookup(w.sessions, id), s, t);
    RecordedIff(round.registrations, Lookup(w.sessions, id), t);
    if Served(round.registrations, t) {
      ServedIffAllDelivered(round.registrations, t);
      RecordIsAChange(round.registrations, w.baseline, round.list, Book(w.sessions, false, w.attempts), k);
    }
  }

  /** A poll that has a record to store says that it changed something. */
  lemma {:induction false} RecordIsAChange(
    registrations: seq<Registration>, baseline: bool, list: seq<Entry>, b: Book, k: nat)
    requires Distinct(list) && k < |list| && list[k].sight.Some?
    requires Stored(registrations, baseline, Lookup(b.sessions, list[k].id), list[k].sight.value).Some?
    ensures VisitAll(registrations, baseline, list, b).changed
    decreases |list|
  {
    var n := |list| - 1;
    if k == n {
      UnlistedIsUntouched(registrations, baseline, list[..n], b, list[k].id);
    } else {
      RecordIsAChange(registrations, baseline, list[..n], b, k);
    }
  }

  /** A round that shows a settled episode as before is silent. */
  lemma {:induction false} RoundIsSilent(w: Watching, round: Round, id: string, s: Sight)
    requires !w.baseline && ShowsAgain(round, id, s) && s.attention != Quiet
    requires Reported(Lookup(w.sessions, id)) && s.activity <= Lookup(w.sessions, id).activity
    ensures var v := Turn(w, round);
            && !v.baseline && Lookup(v.sessions, id) == Lookup(w.sessions, id)
            && AttemptsOn(v.attempts, id) == AttemptsOn(w.attempts, id)
  {
    var k := ShownIs(round.list, id);
    assert round.list[k].id in Listed(round.list);
    UneventfulRound(w, round, id);
  }

  lemma {:induction false} SettledIsSilent(w: Watching, rounds: seq<Round>, id: string, s: Sight)
    requires !w.baseline && AllShowAgain(rounds, id, s) && s.attention != Quiet
    requires Reported(Lookup(w.sessions, id)) && s.activity <= Lookup(w.sessions, id).activity
    ensures var v := Turns(w, rounds);
            && Lookup(v.sessions, id) == Lookup(w.sessions, id)
            && AttemptsOn(v.attempts, id) == AttemptsOn(w.attempts, id)
    decreases |rounds|
  {
    if rounds != [] {
      RoundIsSilent(w, rounds[0], id, s);
      SettledIsSilent(Turn(w, rounds[0]), rounds[1..], id, s);
    }
  }

  /** While a session is to be announced and nothing about it changes but the time and the relay's answers:
      every round tries everybody who may be told, up to and including the first round that reaches all of
      them and can be saved, and none after it. Until then the record is left as it was. */
  lemma {:induction false} FailedPushIsTriedAgain(w: Watching, rounds: seq<Round>, id: string, s: Sight)
    requires !w.baseline && AllShowAgain(rounds, id, s) && Judge(false, Lookup(w.sessions, id), s).Announce?
    ensures var v := Turns(w, rounds);
            && AttemptsOn(v.attempts, id) == AttemptsOn(w.attempts, id) + TriedUntilSettled(rounds, id)
            && (Reported(Lookup(v.sessions, id)) <==> exists i :: 0 <= i < |rounds| && Settles(rounds[i], id))
            && (!Reported(Lookup(v.sessions, id)) ==> Lookup(v.sessions, id) == Lookup(w.sessions, id))
    decreases |rounds|
  {
    var previous := Lookup(w.sessions, id);
    AnnouncedIff(previous, s);
    if rounds == [] {
      assert AttemptsOn(w.attempts, id) + [] == AttemptsOn(w.attempts, id);
    } else {
      var round, rest := rounds[0], rounds[1..];
      var v := Turn(w, round);
      RoundTries(w, round, id, s);
      if Settles(round, id) {
        SettledIsSilent(v, rest, id, s);
      } else {
        FailedPushIsTriedAgain(v, rest, id, s);
        ConcatAssociates(AttemptsOn(w.attempts, id), Tried(round.registrations, Shown(round.list, id).value),
                         TriedUntilSettled(rest, id));
      }
    }
  }
}
