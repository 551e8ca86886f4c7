/** A live session's output side, as the object the daemon updates under outputMu
    (internal/session/manager.go, internal/session/shell.go). */
module LiveSession {
  import opened Sequences
  import opened Subscriber
  import opened Ring
  import FanOut

  /** What handing one chunk to every subscriber leaves registered, and with which queues. */
  function FannedOut(queues: map<nat, Queue>, chunk: Chunk): map<nat, Queue> {
    map id | id in queues && Accepts(queues[id], chunk) :: Enqueued(queues[id], chunk)
  }

  /** A queue after its turn: the chunk accepted, or the subscriber dropped. */
  function Offered(q: Queue, chunk: Chunk): Queue {
    if Accepts(q, chunk) then Enqueued(q, chunk) else q.(closed := true)
  }

  class Session {
    const transcript: ByteRing
    ghost var recorded: seq<byte>  // everything written to the transcript so far
    var outputSequence: nat
    var subscribers: map<nat, OutputSubscriber>
    ghost var members: set<OutputSubscriber>  // every subscriber registered so far
    var nextSubscriber: nat
    var attachedClients: nat
    var focusedClients: nat
    var notificationsMuted: bool

    ghost predicate Linked()
      reads this`subscribers, this`members, this`nextSubscriber
    {
      forall i :: i in subscribers ==> i < nextSubscriber && subscribers[i].key == i && subscribers[i] in members
    }

    /** Counts kept on the record agree with the registered subscribers. */
    ghost predicate Counted()
      reads this`subscribers, this`attachedClients, this`focusedClients, this`notificationsMuted
    {
      attachedClients == |subscribers| && focusedClients == FanOut.FocusedFor(notificationsMuted, attachedClients)
    }

    /** The transcript holds the newest of what was recorded. */
    ghost predicate Recording()
      reads this`recorded, transcript, transcript.data
    {
      && transcript.Valid() && transcript.capacity == MAX_TRANSCRIPT_BYTES
      && transcript.Contents() == Newest(recorded, MAX_TRANSCRIPT_BYTES)
    }

    ghost predicate Valid()
      reads this, transcript, transcript.data
    {
      Recording() && Linked() && Counted()
    }

    constructor ()
      ensures Valid() && fresh(transcript) && fresh(transcript.data)
      ensures subscribers == map[] && members == {} && recorded == [] && !notificationsMuted
    {
      transcript := new ByteRing(MAX_TRANSCRIPT_BYTES);
      recorded := [];
      outputSequence, subscribers, members, nextSubscriber := 0, map[], {}, 0;
      attachedClients, focusedClients, notificationsMuted := 0, 0, false;
    }

    method UpdateNotificationSuppression()
      modifies this`attachedClients, this`focusedClients
      ensures attachedClients == |subscribers|
      ensures focusedClients == FanOut.FocusedFor(notificationsMuted, attachedClients)
    {
      attachedClients := |subscribers|;
      focusedClients := attachedClients;
      if notificationsMuted && focusedClients == 0 {
        focusedClients := 1;
      }
    }

    /** Deleting a subscriber from the map and closing it. */
    method Remove(id: nat)
      requires Linked() && id in subscribers
      modifies this`subscribers, subscribers[id]
      ensures Linked() && subscribers == old(subscribers) - {id}
      ensures old(subscribers)[id].State() == old(subscribers[id].State()).(closed := true)
    {
      var subscriber := subscribers[id];
      subscribers := subscribers - {id};
      subscriber.Close();
    }

    /** Hand a chunk to one subscriber, dropping it if the chunk does not fit. */
    method OfferOne(id: nat, chunk: Chunk) returns (dropped: bool)
      requires Linked() && id in subscribers
      modifies this`subscribers, subscribers[id]
      ensures Linked() && dropped == !Accepts(old(subscribers[id].State()), chunk)
      ensures subscribers == if dropped then old(subscribers) - {id} else old(subscribers)
      ensures old(subscribers)[id].State() == Offered(old(subscribers[id].State()), chunk)
    {
      var ok := subscribers[id].Enqueue(chunk);
      if !ok {
        Remove(id);
      }
      return !ok;
    }

    /** Hand a chunk to every subscriber, dropping those it does not fit. */
    method Offer(chunk: Chunk) returns (attachmentsChanged: bool)
      requires Linked()
      modifies this`subscribers, members
      ensures Linked() && subscribers.Keys <= old(subscribers.Keys)
      ensures forall id :: id in old(subscribers) ==>
                && old(subscribers)[id].State() == Offered(old(subscribers[id].State()), chunk)
                && (id in subscribers <==> Accepts(old(subscribers[id].State()), chunk))
      ensures forall id :: id in subscribers ==> subscribers[id] == old(subscribers)[id]
      ensures !attachmentsChanged ==> subscribers == old(subscribers)
    {
      ghost var was := subscribers;
      attachmentsChanged := false;
      var rest := subscribers.Keys;
      while rest != {}
        invariant Linked() && rest <= subscribers.Keys <= was.Keys
        invariant forall id :: id in subscribers ==> subscribers[id] == was[id]
        invariant forall id :: id in rest ==> was[id].State() == old(was[id].State())
        invariant forall id :: id in was && id !in rest ==>
                    && was[id].State() == Offered(old(was[id].State()), chunk)
                    && (id in subscribers <==> Accepts(old(was[id].State()), chunk))
        invariant !attachmentsChanged ==> subscribers == was
      {
        var id :| id in rest;
        rest := rest - {id};
        var dropped := OfferOne(id, chunk);
        attachmentsChanged := attachmentsChanged || dropped;
      }
    }

    method Record(chunk: Chunk)
      requires Recording()
      modifies this`recorded, this`outputSequence, transcript, transcript.data
      ensures Recording() && (transcript.data == old(transcript.data) || fresh(transcript.data))
      ensures recorded == old(recorded) + chunk
      ensures outputSequence == old(outputSequence) + 1
      ensures forall m :: m in members ==> m.State() == old(m.State())
    {
      NewestAdvances(recorded, chunk, MAX_TRANSCRIPT_BYTES);
      transcript.Write(chunk);
      recorded := recorded + chunk;
      outputSequence := outputSequence + 1;
    }

    method FanOutChunk(chunk: Chunk)
      requires Linked() && Counted()
      modifies this`subscribers, this`attachedClients, this`focusedClients, members
      ensures Linked() && Counted() && subscribers.Keys <= old(subscribers.Keys)
      ensures forall id :: id in old(subscribers) ==>
                && old(subscribers)[id].State() == Offered(old(subscribers[id].State()), chunk)
                && (id in subscribers <==> Accepts(old(subscribers[id].State()), chunk))
      ensures forall id :: id in subscribers ==> subscribers[id] == old(subscribers)[id]
    {
      var attachmentsChanged := Offer(chunk);
      if attachmentsChanged {
        UpdateNotificationSuppression();
      }
    }

    /** The locked section of readOutput. */
    method HandleOutput(chunk: Chunk)
      requires Valid()
      modifies this`subscribers, this`attachedClients, this`focusedClients, this`outputSequence, this`recorded
      modifies transcript, transcript.data, members
      ensures Valid()
      ensures transcript.data == old(transcript.data) || fresh(transcript.data)
      ensures recorded == old(recorded) + chunk
      ensures outputSequence == old(outputSequence) + 1
      ensures subscribers.Keys <= old(subscribers.Keys)
      ensures forall id :: id in old(subscribers) ==>
                && old(subscribers)[id].State() == Offered(old(subscribers[id].State()), chunk)
                && (id in subscribers <==> Accepts(old(subscribers[id].State()), chunk))
      ensures forall id :: id in subscribers ==> subscribers[id] == old(subscribers)[id]
    {
      Record(chunk);
      FanOutChunk(chunk);
    }

    /** Attach, from taking outputMu on: the history and the id the detach closure keeps. */
    method Attach() returns (history: seq<byte>, id: nat, subscriber: OutputSubscriber)
      requires Valid()
      modifies this
      ensures Valid() && notificationsMuted == old(notificationsMuted) && recorded == old(recorded)
      ensures history == if |recorded| <= 2097152 then recorded else recorded[|recorded| - 2097152..]
      ensures id == old(nextSubscriber) && id !in old(subscribers) && nextSubscriber == id + 1
      ensures fresh(subscriber) && subscriber.State() == EMPTY_QUEUE
      ensures subscribers == old(subscribers)[id := subscriber]
      ensures attachedClients == old(attachedClients) + 1
    {
      history := transcript.Bytes();
      id := nextSubscriber;
      nextSubscriber := nextSubscriber + 1;
      subscriber := new OutputSubscriber(id);
      members := members + {subscriber};
      subscribers := subscribers[id := subscriber];
      UpdateNotificationSuppression();
    }

    method RemoveIfThere(id: nat)
      requires Linked()
      modifies this`subscribers, members
      ensures Linked() && subscribers == old(subscribers) - {id}
      ensures forall i :: i in subscribers ==> subscribers[i].State() == old(subscribers[i].State())
      ensures id in old(subscribers) ==>
                old(subscribers)[id].State() == old(subscribers[id].State()).(closed := true)
    {
      if id in subscribers {
        Remove(id);
      }
    }

    /** The body of the detach closure. */
    method Detach(id: nat)
      requires Valid()
      modifies this`subscribers, this`attachedClients, this`focusedClients, members
      ensures Valid() && subscribers == old(subscribers) - {id}
      ensures forall i :: i in subscribers ==> subscribers[i].State() == old(subscribers[i].State())
      ensures id in old(subscribers) ==>
                old(subscribers)[id].State() == old(subscribers[id].State()).(closed := true)
      ensures id !in old(subscribers) ==> attachedClients == old(attachedClients)
    {
      RemoveIfThere(id);
      UpdateNotificationSuppression();
    }

    method RemoveAll()
      requires Linked()
      modifies this`subscribers, members
      ensures Linked() && subscribers == map[]
      ensures forall id :: id in old(subscribers) ==>
                old(subscribers)[id].State() == old(subscribers[id].State()).(closed := true)
    {
      ghost var was := subscribers;
      var rest := subscribers.Keys;
      while rest != {}
        invariant Linked() && subscribers.Keys == rest <= was.Keys
        invariant forall id :: id in rest ==> subscribers[id] == was[id]
        invariant forall id :: id in rest ==> was[id].State() == old(was[id].State())
        invariant forall id :: id in was && id !in rest ==> was[id].State() == old(was[id].State()).(closed := true)
      {
        var id :| id in rest;
        rest := rest - {id};
        Remove(id);
      }
    }

    method CloseSubscribers()
      requires Valid()
      modifies this`subscribers, this`attachedClients, this`focusedClients, members
      ensures Valid() && subscribers == map[] && attachedClients == 0
      ensures forall id :: id in old(subscribers) ==>
                old(subscribers)[id].State() == old(subscribers[id].State()).(closed := true)
    {
      RemoveAll();
      UpdateNotificationSuppression();
    }

    method SetNotificationsMuted(muted: bool)
      requires Valid()
      modifies this`notificationsMuted, this`attachedClients, this`focusedClients
      ensures Valid() && notificationsMuted == muted
    {
      notificationsMuted := muted;
      UpdateNotificationSuppression();
    }
  }

  // ---- The object's section and the protocol's steps agree ----

  function RegisteredQueues(s: FanOut.State): map<nat, Queue>
    requires s.registered <= s.clients.Keys
  {
    map id | id in s.registered :: s.clients[id].queue
  }

  /** What the registered queues will be when the section under way has ended. */
  ghost function Outcome(s: FanOut.State): map<nat, Queue>
    requires FanOut.CoreOk(s) && s.holder.Reading?
  {
    map id | id in s.registered && s.holder.dropping != Some(id)
             && (id in s.holder.pending ==> Accepts(s.clients[id].queue, s.holder.chunk))
      :: if id in s.holder.pending then Enqueued(s.clients[id].queue, s.holder.chunk) else s.clients[id].queue
  }

  lemma StepKeepsOutcome(s: FanOut.State, step: FanOut.Step)
    requires FanOut.Inv(s) && s.holder.Reading? && FanOut.Enabled(s, step)
    requires step.EnqueueOne? || step.DropOne?
    ensures FanOut.Inv(FanOut.Apply(s, step)) && FanOut.Apply(s, step).holder.Reading?
    ensures Outcome(FanOut.Apply(s, step)) == Outcome(s)
  {
    FanOut.StepKeepsInv(s, step);
    if step.EnqueueOne? { OfferKeepsOutcome(s, step.id); } else { DropKeepsOutcome(s); }
  }

  lemma OfferKeepsOutcome(s: FanOut.State, id: nat)
    requires FanOut.CoreOk(s) && FanOut.Enabled(s, FanOut.EnqueueOne(id))
    requires FanOut.CoreOk(FanOut.Offered(s, id))
    ensures Outcome(FanOut.Offered(s, id)) == Outcome(s)
  {
  }

  lemma DropKeepsOutcome(s: FanOut.State)
    requires FanOut.CoreOk(s) && FanOut.Enabled(s, FanOut.DropOne)
    requires FanOut.CoreOk(FanOut.Apply(s, FanOut.DropOne))
    ensures Outcome(FanOut.Apply(s, FanOut.DropOne)) == Outcome(s)
  {
  }

  /** In whatever order the map is walked, the lock section as a whole does what HandleOutput
      promises: the registered queues afterwards are the fanned-out queues. */
  lemma {:induction false} SectionFansOut(s: FanOut.State, steps: seq<FanOut.Step>)
    requires FanOut.Inv(s) && s.holder.Reading? && FanOut.Executable(s, steps)
    requires forall i :: 0 <= i < |steps| ==> steps[i].EnqueueOne? || steps[i].DropOne?
    requires FanOut.Enabled(FanOut.Execute(s, steps), FanOut.EndRead)
    ensures FanOut.Inv(FanOut.Execute(s, steps))
    ensures RegisteredQueues(FanOut.Execute(s, steps)) == Outcome(s)
    decreases |steps|
  {
    if steps == [] {
      assert RegisteredQueues(s) == Outcome(s);
    } else {
      StepKeepsOutcome(s, steps[0]);
      SectionFansOut(FanOut.Apply(s, steps[0]), steps[1..]);
    }
  }

  lemma OutputSectionRefines(s: FanOut.State, chunk: Chunk, steps: seq<FanOut.Step>)
    requires FanOut.Inv(s) && s.holder.Free?
    requires FanOut.Executable(FanOut.Apply(s, FanOut.BeginRead(chunk)), steps)
    requires forall i :: 0 <= i < |steps| ==> steps[i].EnqueueOne? || steps[i].DropOne?
    requires FanOut.Enabled(FanOut.Execute(FanOut.Apply(s, FanOut.BeginRead(chunk)), steps), FanOut.EndRead)
    ensures var t := FanOut.Apply(FanOut.Execute(FanOut.Apply(s, FanOut.BeginRead(chunk)), steps), FanOut.EndRead);
            t.registered <= t.clients.Keys && RegisteredQueues(t) == FannedOut(RegisteredQueues(s), chunk)
  {
    var begun := FanOut.Apply(s, FanOut.BeginRead(chunk));
    FanOut.StepKeepsInv(s, FanOut.BeginRead(chunk));
    SectionFansOut(begun, steps);
    BegunOutcome(s, chunk);
  }

  lemma BegunOutcome(s: FanOut.State, chunk: Chunk)
    requires FanOut.CoreOk(s) && s.holder.Free?
    requires FanOut.CoreOk(FanOut.Apply(s, FanOut.BeginRead(chunk)))
    ensures Outcome(FanOut.Apply(s, FanOut.BeginRead(chunk))) == FannedOut(RegisteredQueues(s), chunk)
  {
  }

  // ---- The section with everything else going on ----

  /** Still inside the output section that hands out the chunk. */
  predicate Handing(s: FanOut.State, chunk: Chunk) {
    s.holder.Reading? && s.holder.chunk == chunk
  }

  lemma StepStaysInside(s: FanOut.State, step: FanOut.Step, chunk: Chunk)
    requires Handing(s, chunk) && FanOut.Enabled(s, step) && !step.EndRead?
    ensures var t := FanOut.Apply(s, step);
            && Handing(t, chunk) && t.holder.pending <= s.holder.pending
            && s.clients.Keys == t.clients.Keys
            && (forall id :: id in s.holder.pending && step != FanOut.EnqueueOne(id) ==> id in t.holder.pending)
  {
  }

  /** Once a client has had its turn, only its own drop, if that is due, takes it off. */
  lemma SettledStays(s: FanOut.State, step: FanOut.Step, chunk: Chunk, id: nat)
    requires Handing(s, chunk) && id !in s.holder.pending && FanOut.Enabled(s, step) && !step.EndRead?
    ensures var t := FanOut.Apply(s, step);
            && Handing(t, chunk) && id !in t.holder.pending
            && (id in t.registered && t.holder.dropping != Some(id)
                <==> id in s.registered && s.holder.dropping != Some(id))
  {
  }

  lemma {:induction false} SettledToTheEnd(s: FanOut.State, steps: seq<FanOut.Step>, chunk: Chunk, id: nat)
    requires Handing(s, chunk) && id !in s.holder.pending && FanOut.Executable(s, steps)
    requires forall i :: 0 <= i < |steps| ==> !steps[i].EndRead?
    requires FanOut.Enabled(FanOut.Execute(s, steps), FanOut.EndRead)
    ensures id in FanOut.Execute(s, steps).registered <==> id in s.registered && s.holder.dropping != Some(id)
    decreases |steps|
  {
    if steps != [] {
      SettledStays(s, steps[0], chunk, id);
      SettledToTheEnd(FanOut.Apply(s, steps[0]), steps[1..], chunk, id);
    }
  }

  lemma TurnSettles(s: FanOut.State, chunk: Chunk, id: nat)
    requires FanOut.Inv(s) && Handing(s, chunk) && FanOut.Enabled(s, FanOut.EnqueueOne(id))
    ensures var t, q := FanOut.Apply(s, FanOut.EnqueueOne(id)), s.clients[id].queue;
            && Handing(t, chunk) && id !in t.holder.pending && id in t.clients
            && (id in t.registered && t.holder.dropping != Some(id) <==> Accepts(q, chunk))
            && t.clients[id].queue == Enqueued(q, chunk)
  {
  }

  /** Right after the steps `before` from s, id's turn comes: it decides whether it is registered
      in `end`, and queues the chunk if so. */
  ghost predicate Decides(s: FanOut.State, before: seq<FanOut.Step>, chunk: Chunk, id: nat, end: FanOut.State) {
    && FanOut.Executable(s, before)
    && var at := FanOut.Execute(s, before);
       && FanOut.Enabled(at, FanOut.EnqueueOne(id))
       && (id in end.registered <==> Accepts(at.clients[id].queue, chunk))
       && FanOut.Apply(at, FanOut.EnqueueOne(id)).clients[id].queue == Enqueued(at.clients[id].queue, chunk)
  }

  lemma DecidesNow(s: FanOut.State, rest: seq<FanOut.Step>, chunk: Chunk, id: nat)
    requires FanOut.Inv(s) && Handing(s, chunk) && FanOut.Enabled(s, FanOut.EnqueueOne(id))
    requires FanOut.Executable(FanOut.Apply(s, FanOut.EnqueueOne(id)), rest)
    requires forall i :: 0 <= i < |rest| ==> !rest[i].EndRead?
    requires FanOut.Enabled(FanOut.Execute(FanOut.Apply(s, FanOut.EnqueueOne(id)), rest), FanOut.EndRead)
    ensures Decides(s, [], chunk, id, FanOut.Execute(FanOut.Apply(s, FanOut.EnqueueOne(id)), rest))
  {
    TurnSettles(s, chunk, id);
    SettledToTheEnd(FanOut.Apply(s, FanOut.EnqueueOne(id)), rest, chunk, id);
  }

  lemma DecidesLater(s: FanOut.State, step: FanOut.Step, sooner: seq<FanOut.Step>, before: seq<FanOut.Step>,
                     chunk: Chunk, id: nat, end: FanOut.State)
    requires FanOut.Enabled(s, step) && Decides(FanOut.Apply(s, step), sooner, chunk, id, end)
    requires before == [step] + sooner
    ensures Decides(s, before, chunk, id, end)
  {
    assert before[0] == step && before[1..] == sooner;
    assert FanOut.Execute(s, before) == FanOut.Execute(FanOut.Apply(s, step), sooner);
  }

  /** With deliveries, exit notices and other clients' turns in between, in any order: every client
      registered when a section begins has its turn, and the chunk is queued for it, and it stays
      registered, exactly when its queue at that very moment takes the chunk. */
  lemma {:induction false} EachTurnDecides(s: FanOut.State, steps: seq<FanOut.Step>, chunk: Chunk, id: nat)
    returns (before: seq<FanOut.Step>, after: seq<FanOut.Step>)
    requires FanOut.Inv(s) && Handing(s, chunk) && id in s.holder.pending && FanOut.Executable(s, steps)
    requires forall i :: 0 <= i < |steps| ==> !steps[i].EndRead?
    requires FanOut.Enabled(FanOut.Execute(s, steps), FanOut.EndRead)
    ensures steps == before + [FanOut.EnqueueOne(id)] + after
    ensures Decides(s, before, chunk, id, FanOut.Execute(s, steps))
    decreases |steps|
  {
    var step, rest := steps[0], steps[1..];
    if step == FanOut.EnqueueOne(id) {
      DecidesNow(s, rest, chunk, id);
      before, after := [], rest;
      SplitsAt([], step, rest, steps);
    } else {
      StepStaysInside(s, step, chunk);
      FanOut.StepKeepsInv(s, step);
      var sooner;
      sooner, after := EachTurnDecides(FanOut.Apply(s, step), rest, chunk, id);
      before := [step] + sooner;
      SplitsLater(step, rest, sooner, FanOut.EnqueueOne(id), after, steps);
      DecidesLater(s, step, sooner, before, chunk, id, FanOut.Execute(s, steps));
    }
  }

  lemma SplitsAt<T>(before: seq<T>, x: T, after: seq<T>, whole: seq<T>)
    requires before == [] && whole != [] && whole[0] == x && after == whole[1..]
    ensures whole == before + [x] + after
  {
  }

  lemma SplitsLater<T>(first: T, rest: seq<T>, sooner: seq<T>, x: T, after: seq<T>, whole: seq<T>)
    requires whole != [] && whole[0] == first && rest == whole[1..] && rest == sooner + [x] + after
    ensures whole == ([first] + sooner) + [x] + after
  {
  }
}
