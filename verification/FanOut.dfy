/** The attach fan-out protocol as a state machine: one step per lock section or channel
    operation of the PTY reader, the attaching and detaching clients, each subscriber's
    delivery goroutine, and the goroutine that waits for the process to exit. */
module FanOut {
  import opened Sequences
  import opened Subscriber

  /** Program counter of a subscriber's `run` goroutine. */
  datatype Runner =
    | Ready                    // about to dequeue
    | Sending(chunk: Chunk)    // dequeued, offering the chunk to the client
    | Accounting(size: nat)    // handed over, about to subtract it from queuedBytes
    | Waiting                  // found the queue empty, selecting on wake and done
    | Returned

  /** A client and its subscriber. `start`, `logged` and `upto` record where in the output
      the client attached and how far its queue has been fed. */
  datatype Client = Client(
    queue: Queue, runner: Runner,
    history: seq<byte>, received: seq<Chunk>,
    start: nat, logged: nat, upto: nat)

  /** Who holds outputMu, and how far its section has come. */
  datatype Holder =
    | Free
    | Reading(chunk: Chunk, pending: set<nat>, dropping: Option<nat>, changed: bool)
    | Closing(pending: set<nat>)

  datatype State = State(
    ring: seq<byte>,          // transcript
    log: seq<byte>,           // everything ever written to the transcript
    chunks: seq<Chunk>,       // every chunk read from the PTY
    clients: map<nat, Client>,
    registered: set<nat>,     // keys of session.subscribers
    next: nat,
    holder: Holder,
    attached: nat, focused: nat, muted: bool)

  function Init(): State {
    State([], [], [], map[], {}, 0, Free, 0, 0, false)
  }

  /** What a delivery goroutine does next. */
  datatype Move = Dequeue | Send | Account | Wake | Quit

  datatype Step =
    | BeginRead(chunk: Chunk) | EnqueueOne(id: nat) | DropOne | EndRead
    | ExitNotice(text: seq<byte>)
    | Attach | Detach(id: nat) | SetMuted(muted: bool)
    | BeginClose | CloseOne(id: nat) | EndClose
    | Run(id: nat, move: Move)

  predicate CanMove(c: Client, move: Move) {
    match move
    case Dequeue => c.runner.Ready?
    case Send => c.runner.Sending?
    case Account => c.runner.Accounting?
    case Wake => c.runner.Waiting? && c.queue.wake
    case Quit => c.queue.closed && (c.runner.Waiting? || c.runner.Sending?)
  }

  function Moved(c: Client, move: Move): Client
    requires CanMove(c, move)
  {
    match move
    case Dequeue =>
      if c.queue.chunks == [] then c.(runner := Waiting)
      else c.(queue := Dequeued(c.queue), runner := Sending(c.queue.chunks[0]))
    case Send =>
      c.(received := c.received + [c.runner.chunk], runner := Accounting(|c.runner.chunk|))
    case Account =>
      c.(queue := c.queue.(queuedBytes := c.queue.queuedBytes - c.runner.size), runner := Ready)
    case Wake =>
      c.(queue := c.queue.(wake := false), runner := Ready)
    case Quit =>
      c.(runner := Returned)
  }

  predicate Enabled(s: State, step: Step) {
    match step
    case EnqueueOne(id) => s.holder.Reading? && s.holder.dropping.None? && id in s.holder.pending && id in s.clients
    case DropOne => s.holder.Reading? && s.holder.dropping.Some? && s.holder.dropping.value in s.clients
    case EndRead => s.holder.Reading? && s.holder.dropping.None? && s.holder.pending == {}
    case ExitNotice(_) => true
    case Detach(id) => s.holder.Free? && id in s.clients
    case CloseOne(id) => s.holder.Closing? && id in s.holder.pending && id in s.clients
    case EndClose => s.holder.Closing? && s.holder.pending == {}
    case Run(id, move) => id in s.clients && CanMove(s.clients[id], move)
    case _ => s.holder.Free?
  }

  function Put(s: State, id: nat, c: Client): State {
    s.(clients := s.clients[id := c])
  }

  /** updateNotificationSuppressionLocked */
  function Suppressed(s: State): State {
    var n := |s.registered|;
    s.(attached := n, focused := if s.muted && n == 0 then 1 else n)
  }

  function Unregister(s: State, id: nat): State
    requires id in s.clients
  {
    var c := s.clients[id];
    Put(s, id, c.(queue := c.queue.(closed := true))).(registered := s.registered - {id})
  }

  function Logged(s: State, text: seq<byte>): State {
    s.(ring := Newest(s.ring + text, MAX_TRANSCRIPT_BYTES), log := s.log + text)
  }

  function Offered(s: State, id: nat): State
    requires Enabled(s, EnqueueOne(id))
  {
    var c := s.clients[id];
    var rest := s.holder.pending - {id};
    if Accepts(c.queue, s.holder.chunk) then
      Put(s, id, c.(queue := Enqueued(c.queue, s.holder.chunk), upto := c.upto + 1))
        .(holder := s.holder.(pending := rest))
    else
      s.(holder := s.holder.(pending := rest, dropping := Some(id)))
  }

  function Joined(s: State): State {
    var c := Client(EMPTY_QUEUE, Ready, s.ring, [], |s.chunks|, |s.log|, |s.chunks|);
    Put(s, s.next, c).(registered := s.registered + {s.next}, next := s.next + 1)
  }

  function Apply(s: State, step: Step): State
    requires Enabled(s, step)
  {
    match step
    case BeginRead(chunk) =>
      Logged(s, chunk).(chunks := s.chunks + [chunk], holder := Reading(chunk, s.registered, None, false))
    case EnqueueOne(id) => Offered(s, id)
    case DropOne => Unregister(s, s.holder.dropping.value).(holder := s.holder.(dropping := None, changed := true))
    case EndRead => (if s.holder.changed then Suppressed(s) else s).(holder := Free)
    case ExitNotice(text) => Logged(s, text)
    case Attach => Suppressed(Joined(s))
    case Detach(id) => Suppressed(if id in s.registered then Unregister(s, id) else s)
    case SetMuted(muted) => Suppressed(s.(muted := muted))
    case BeginClose => s.(holder := Closing(s.registered))
    case CloseOne(id) => Unregister(s, id).(holder := Closing(s.holder.pending - {id}))
    case EndClose => Suppressed(s).(holder := Free)
    case Run(id, move) => Put(s, id, Moved(s.clients[id], move))
  }

  /** The steps can be taken one after another from `s`. */
  ghost predicate Executable(s: State, steps: seq<Step>)
    decreases |steps|
  {
    steps != [] ==> Enabled(s, steps[0]) && Executable(Apply(s, steps[0]), steps[1..])
  }

  ghost function Execute(s: State, steps: seq<Step>): State
    requires Executable(s, steps)
    decreases |steps|
  {
    if steps == [] then s else Execute(Apply(s, steps[0]), steps[1..])
  }

  ghost predicate Reachable(s: State) {
    exists steps :: Executable(Init(), steps) && Execute(Init(), steps) == s
  }

  // ---- What every reachable state satisfies ----

  function InFlight(r: Runner): seq<Chunk> {
    if r.Sending? then [r.chunk] else []
  }

  /** Bytes taken off the queue but not yet subtracted from queuedBytes. */
  function Outstanding(r: Runner): nat {
    match r
    case Sending(chunk) => |chunk|
    case Accounting(size) => size
    case _ => 0
  }

  /** Everything the client has, is being handed, or has queued. */
  function Stream(c: Client): seq<Chunk> {
    c.received + InFlight(c.runner) + c.queue.chunks
  }

  ghost predicate DeliveryOk(s: State, c: Client) {
    && c.start <= c.upto <= |s.chunks|
    && c.logged <= |s.log|
    && c.history == Newest(s.log[..c.logged], MAX_TRANSCRIPT_BYTES)
    && (!c.runner.Returned? ==> Stream(c) == s.chunks[c.start..c.upto])
    && c.received <= s.chunks[c.start..c.upto]
  }

  ghost predicate QueueOk(c: Client) {
    && c.queue.queuedBytes <= MAX_TRANSCRIPT_BYTES
    && (!c.runner.Returned? ==> c.queue.queuedBytes == |Flatten(c.queue.chunks)| + Outstanding(c.runner))
    && (c.runner.Waiting? && c.queue.chunks != [] ==> c.queue.wake)
    && (c.runner.Returned? ==> c.queue.closed)
  }

  /** How far a registered client has been fed: everything read, except the chunk now being
      handed out when its turn has not come. */
  predicate AwaitsChunk(h: Holder, id: nat) {
    h.Reading? && (id in h.pending || h.dropping == Some(id))
  }

  function FedUpto(s: State, id: nat): int {
    if AwaitsChunk(s.holder, id) then |s.chunks| - 1 else |s.chunks|
  }

  ghost predicate RegistrationOk(s: State, id: nat, c: Client) {
    && (id in s.registered <==> !c.queue.closed)
    && (id in s.registered ==> c.upto == FedUpto(s, id))
  }

  function FocusedFor(muted: bool, attached: nat): nat {
    if muted && attached == 0 then 1 else attached
  }

  ghost predicate HolderOk(s: State) {
    match s.holder
    case Free => s.attached == |s.registered| && s.focused == FocusedFor(s.muted, s.attached)
    case Reading(chunk, pending, dropping, changed) =>
      && pending <= s.registered
      && s.chunks != [] && s.chunks[|s.chunks| - 1] == chunk
      && (dropping.Some? ==> dropping.value in s.registered && dropping.value !in pending)
      && (!changed ==> s.attached == |s.registered| && s.focused == FocusedFor(s.muted, s.attached))
    case Closing(pending) => pending == s.registered
  }

  ghost predicate ClientOk(s: State, id: nat)
    requires id in s.clients
  {
    DeliveryOk(s, s.clients[id]) && QueueOk(s.clients[id]) && RegistrationOk(s, id, s.clients[id])
  }

  ghost predicate CoreOk(s: State) {
    && s.ring == Newest(s.log, MAX_TRANSCRIPT_BYTES)
    && s.registered <= s.clients.Keys
    && HolderOk(s)
    && (forall id :: id in s.clients ==> id < s.next)
  }

  ghost predicate Inv(s: State) {
    CoreOk(s) && forall id :: id in s.clients ==> ClientOk(s, id)
  }

  /** A client a step does not touch stays in order: later output never disturbs what was
      delivered from earlier output. */
  lemma UntouchedClient(s: State, t: State, id: nat)
    requires id in s.clients && id in t.clients && s.clients[id] == t.clients[id]
    requires ClientOk(s, id)
    requires s.chunks <= t.chunks && s.log <= t.log
    requires id in s.registered <==> id in t.registered
    requires id in s.registered ==> FedUpto(s, id) == FedUpto(t, id)
    ensures ClientOk(t, id)
  {
    var c := s.clients[id];
    assert t.chunks[c.start..c.upto] == s.chunks[c.start..c.upto];
    assert t.log[..c.logged] == s.log[..c.logged];
  }

  /** t differs from s in nothing the other clients depend on. */
  ghost predicate TouchesOnly(s: State, t: State, id: nat) {
    && s.clients.Keys - {id} == t.clients.Keys - {id}
    && (forall i :: i in s.clients && i in t.clients && i != id ==> s.clients[i] == t.clients[i])
    && s.chunks == t.chunks && s.log == t.log
    && s.registered - {id} == t.registered - {id}
    && (forall i :: i in s.registered && i != id ==> AwaitsChunk(s.holder, i) == AwaitsChunk(t.holder, i))
  }

  /** When only `id` is touched, the other clients follow. */
  lemma OthersUntouched(s: State, t: State, id: nat)
    requires Inv(s) && TouchesOnly(s, t, id) && (id in t.clients ==> ClientOk(t, id))
    ensures forall i :: i in t.clients ==> ClientOk(t, i)
  {
    forall i | i in t.clients ensures ClientOk(t, i) {
      if i != id {
        assert i in t.clients.Keys - {id} && i in s.clients.Keys - {id};
        assert i in s.registered - {id} <==> i in t.registered - {id};
        UntouchedClient(s, t, i);
      }
    }
  }

  lemma OutputKeepsInv(s: State, step: Step)
    requires Inv(s) && Enabled(s, step) && (step.BeginRead? || step.ExitNotice?)
    ensures Inv(Apply(s, step))
  {
    var t := Apply(s, step);
    NewestAdvances(s.log, if step.BeginRead? then step.chunk else step.text, MAX_TRANSCRIPT_BYTES);
    forall id | id in t.clients ensures ClientOk(t, id) {
      assert ClientOk(s, id);
      UntouchedClient(s, t, id);
    }
  }

  lemma FedOneMore(s: State, c: Client, chunk: Chunk)
    requires DeliveryOk(s, c) && c.upto < |s.chunks| && s.chunks[c.upto] == chunk && !c.runner.Returned?
    ensures var d := c.(queue := Enqueued(c.queue, chunk), upto := c.upto + 1);
            Accepts(c.queue, chunk) ==> DeliveryOk(s, d)
  {
    assert s.chunks[c.start..c.upto + 1] == s.chunks[c.start..c.upto] + [chunk];
  }

  lemma OfferedClientOk(s: State, id: nat)
    requires Inv(s) && Enabled(s, EnqueueOne(id))
    ensures ClientOk(Offered(s, id), id)
  {
    var c, chunk, t := s.clients[id], s.holder.chunk, Offered(s, id);
    assert ClientOk(s, id);
    if Accepts(c.queue, chunk) {
      assert QueueOk(t.clients[id]) by { FlattenSnoc(c.queue.chunks, chunk); }
      FedOneMore(s, c, chunk);
    }
  }

  lemma EnqueueKeepsInv(s: State, id: nat)
    requires Inv(s) && Enabled(s, EnqueueOne(id))
    ensures Inv(Offered(s, id))
  {
    OfferedCoreOk(s, id);
    OfferedClientOk(s, id);
    OfferTouchesOnly(s, id);
    OthersUntouched(s, Offered(s, id), id);
  }

  lemma OfferTouchesOnly(s: State, id: nat)
    requires Enabled(s, EnqueueOne(id))
    ensures TouchesOnly(s, Offered(s, id), id)
  {
  }

  lemma OfferedCoreOk(s: State, id: nat)
    requires CoreOk(s) && Enabled(s, EnqueueOne(id))
    ensures CoreOk(Offered(s, id))
  {
  }

  lemma UnregisterKeepsClients(s: State, id: nat, t: State)
    requires Inv(s) && id in s.registered
    requires t.clients == Unregister(s, id).clients && t.registered == s.registered - {id}
    requires s.chunks == t.chunks && s.log == t.log
    requires forall i :: i in s.registered && i != id ==> AwaitsChunk(s.holder, i) == AwaitsChunk(t.holder, i)
    ensures forall i :: i in t.clients ==> ClientOk(t, i)
  {
    assert ClientOk(s, id);
    UnregisteredClientOk(s, id, t);
    assert TouchesOnly(s, t, id);
    OthersUntouched(s, t, id);
  }

  lemma UnregisteredClientOk(s: State, id: nat, t: State)
    requires id in s.clients && ClientOk(s, id)
    requires t.clients == Unregister(s, id).clients && t.registered == s.registered - {id}
    requires s.chunks == t.chunks && s.log == t.log
    ensures ClientOk(t, id)
  {
  }

  lemma DropKeepsInv(s: State)
    requires Inv(s) && Enabled(s, DropOne)
    ensures Inv(Apply(s, DropOne))
  {
    DropKeepsCore(s);
    UnregisterKeepsClients(s, s.holder.dropping.value, Apply(s, DropOne));
  }

  lemma DropKeepsCore(s: State)
    requires CoreOk(s) && Enabled(s, DropOne)
    ensures CoreOk(Apply(s, DropOne))
  {
  }

  lemma CloseKeepsInv(s: State, id: nat)
    requires Inv(s) && Enabled(s, CloseOne(id))
    ensures Inv(Apply(s, CloseOne(id)))
  {
    CloseKeepsCore(s, id);
    UnregisterKeepsClients(s, id, Apply(s, CloseOne(id)));
  }

  lemma CloseKeepsCore(s: State, id: nat)
    requires CoreOk(s) && Enabled(s, CloseOne(id))
    ensures CoreOk(Apply(s, CloseOne(id)))
  {
  }

  lemma DetachKeepsInv(s: State, id: nat)
    requires Inv(s) && Enabled(s, Detach(id))
    ensures Inv(Apply(s, Detach(id)))
  {
    var t := Apply(s, Detach(id));
    if id in s.registered {
      UnregisterKeepsClients(s, id, t);
    } else {
      assert ClientOk(s, id);
      UntouchedClient(s, t, id);
      OthersUntouched(s, t, id);
    }
  }

  lemma NewClientOk(s: State)
    requires Inv(s) && s.holder.Free?
    ensures ClientOk(Suppressed(Joined(s)), s.next)
  {
    assert s.log[..|s.log|] == s.log;
  }

  lemma AttachKeepsInv(s: State)
    requires Inv(s) && Enabled(s, Attach)
    ensures Inv(Suppressed(Joined(s)))
  {
    JoinedCoreOk(s);
    NewClientOk(s);
    AttachTouchesOnly(s);
    OthersUntouched(s, Suppressed(Joined(s)), s.next);
  }

  lemma AttachTouchesOnly(s: State)
    requires s.holder.Free?
    ensures TouchesOnly(s, Suppressed(Joined(s)), s.next)
  {
  }

  lemma JoinedCoreOk(s: State)
    requires CoreOk(s) && s.holder.Free?
    ensures CoreOk(Suppressed(Joined(s)))
  {
  }

  lemma LockStepKeepsCore(s: State, step: Step)
    requires CoreOk(s) && Enabled(s, step)
    requires step.EndRead? || step.SetMuted? || step.BeginClose? || step.EndClose?
    ensures CoreOk(Apply(s, step))
    ensures var t := Apply(s, step);
            && t.clients == s.clients && t.registered == s.registered
            && t.chunks == s.chunks && t.log == s.log
            && forall id :: id in s.registered ==> AwaitsChunk(s.holder, id) == AwaitsChunk(t.holder, id)
  {
  }

  lemma LockStepKeepsInv(s: State, step: Step)
    requires Inv(s) && Enabled(s, step)
    requires step.EndRead? || step.SetMuted? || step.BeginClose? || step.EndClose?
    ensures Inv(Apply(s, step))
  {
    var t := Apply(s, step);
    LockStepKeepsCore(s, step);
    forall id | id in t.clients ensures ClientOk(t, id) {
      assert ClientOk(s, id);
      UntouchedClient(s, t, id);
    }
  }

  /** The goroutine moves chunks between queue, hand and client without losing or reordering any. */
  lemma MoveKeepsStream(c: Client, move: Move)
    requires CanMove(c, move) && move != Quit
    ensures Stream(Moved(c, move)) == Stream(c)
    ensures c.received <= Moved(c, move).received <= Stream(c)
  {
    if move == Dequeue && c.queue.chunks != [] {
      assert c.queue.chunks == [c.queue.chunks[0]] + c.queue.chunks[1..];
    }
  }

  lemma MoveKeepsQueue(c: Client, move: Move)
    requires CanMove(c, move) && QueueOk(c)
    ensures QueueOk(Moved(c, move))
  {
  }

  lemma MovedClientOk(s: State, id: nat, move: Move)
    requires id in s.clients && ClientOk(s, id) && CanMove(s.clients[id], move)
    ensures ClientOk(Put(s, id, Moved(s.clients[id], move)), id)
  {
    var c := s.clients[id];
    MoveKeepsQueue(c, move);
    if move != Quit {
      MoveKeepsStream(c, move);
    }
  }

  lemma RunKeepsInv(s: State, id: nat, move: Move)
    requires Inv(s) && Enabled(s, Run(id, move))
    ensures Inv(Put(s, id, Moved(s.clients[id], move)))
  {
    var t := Put(s, id, Moved(s.clients[id], move));
    PutCoreOk(s, id, t.clients[id]);
    MovedClientOk(s, id, move);
    OthersUntouched(s, t, id);
  }

  lemma PutCoreOk(s: State, id: nat, c: Client)
    requires CoreOk(s) && id in s.clients
    ensures CoreOk(Put(s, id, c))
  {
  }

  lemma StepKeepsInv(s: State, step: Step)
    requires Inv(s) && Enabled(s, step)
    ensures Inv(Apply(s, step))
  {
    match step {
      case BeginRead(_) => OutputKeepsInv(s, step);
      case ExitNotice(_) => OutputKeepsInv(s, step);
      case EnqueueOne(id) => EnqueueKeepsInv(s, id);
      case DropOne => DropKeepsInv(s);
      case Detach(id) => DetachKeepsInv(s, id);
      case CloseOne(id) => CloseKeepsInv(s, id);
      case Attach => AttachKeepsInv(s);
      case Run(id, move) => RunKeepsInv(s, id, move);
      case _ => LockStepKeepsInv(s, step);
    }
  }

  lemma {:induction false} ExecutionKeepsInv(s: State, steps: seq<Step>)
    requires Inv(s) && Executable(s, steps)
    ensures Inv(Execute(s, steps))
    decreases |steps|
  {
    if steps != [] {
      StepKeepsInv(s, steps[0]);
      ExecutionKeepsInv(Apply(s, steps[0]), steps[1..]);
    }
  }

  lemma ReachableInv(s: State)
    requires Reachable(s)
    ensures Inv(s)
  {
    var steps :| Executable(Init(), steps) && Execute(Init(), steps) == s;
    ExecutionKeepsInv(Init(), steps);
  }

  // ---- What clients can rely on ----

  /** In every interleaving a client has exactly the newest history, followed by a gap-free,
      duplicate-free, in-order run of the chunks read since it attached; while it stays
      registered that run, with what is in flight and queued, is complete. */
  lemma HistoryThenEveryChunk(s: State, id: nat)
    requires Reachable(s) && id in s.clients
    ensures var c := s.clients[id];
            && c.start <= c.upto <= |s.chunks| && c.logged <= |s.log|
            && c.history == Newest(s.log[..c.logged], 2097152)
            && c.received <= s.chunks[c.start..c.upto]
            && (!c.runner.Returned? ==> Stream(c) == s.chunks[c.start..c.upto])
            && (id in s.registered && s.holder.Free? ==> Stream(c) == s.chunks[c.start..])
  {
    ReachableInv(s);
    assert ClientOk(s, id);
    assert s.chunks[s.clients[id].start..|s.chunks|] == s.chunks[s.clients[id].start..];
  }

  /** Where a client attached and the history it was given never change afterwards, and what it
      received is never taken back. */
  lemma {:induction false} AttachPointIsFixed(s: State, steps: seq<Step>, id: nat)
    requires Inv(s) && Executable(s, steps) && id in s.clients
    ensures id in Execute(s, steps).clients
    ensures var c, d := s.clients[id], Execute(s, steps).clients[id];
            d.start == c.start && d.logged == c.logged && d.history == c.history && c.received <= d.received
    decreases |steps|
  {
    if steps != [] {
      var t := Apply(s, steps[0]);
      StepKeepsInv(s, steps[0]);
      StepKeepsAttachPoint(s, steps[0], id);
      AttachPointIsFixed(t, steps[1..], id);
    }
  }

  lemma StepKeepsAttachPoint(s: State, step: Step, id: nat)
    requires CoreOk(s) && Enabled(s, step) && id in s.clients
    ensures id in Apply(s, step).clients
    ensures var c, d := s.clients[id], Apply(s, step).clients[id];
            d.start == c.start && d.logged == c.logged && d.history == c.history && c.received <= d.received
  {
    match step {
      case Run(i, move) =>
        if i == id && move != Quit { MoveKeepsStream(s.clients[id], move); }
      case EnqueueOne(i) =>
        assert i != id ==> Apply(s, step).clients[id] == s.clients[id];
      case Attach => assert s.next != id;
      case _ =>
    }
  }

  /** What the steps write to the transcript, and what they read from the PTY. */
  function Written(steps: seq<Step>): seq<byte> {
    if steps == [] then []
    else (match steps[0] case BeginRead(chunk) => chunk case ExitNotice(text) => text case _ => [])
         + Written(steps[1..])
  }

  function ChunksRead(steps: seq<Step>): seq<Chunk> {
    if steps == [] then []
    else (match steps[0] case BeginRead(chunk) => [chunk] case _ => []) + ChunksRead(steps[1..])
  }

  lemma StepWrites(s: State, step: Step)
    requires Enabled(s, step)
    ensures var t := Apply(s, step);
            && t.log == s.log + Written([step]) && t.chunks == s.chunks + ChunksRead([step])
           
  {
    assert [step][1..] == [];
  }

  lemma {:induction false} ExecutionWrites(s: State, steps: seq<Step>)
    requires Executable(s, steps)
    ensures var t := Execute(s, steps);
            t.log == s.log + Written(steps) && t.chunks == s.chunks + ChunksRead(steps)
    decreases |steps|
  {
    if steps == [] {
      assert s.log + [] == s.log && s.chunks + [] == s.chunks;
    } else {
      var step, rest := steps[0], steps[1..];
      StepWrites(s, step);
      assert [step][1..] == [];
      assert Written(steps) == Written([step]) + Written(rest);
      assert ChunksRead(steps) == ChunksRead([step]) + ChunksRead(rest);
      ExecutionWrites(Apply(s, step), rest);
      ConcatAssociates(s.log, Written([step]), Written(rest));
      ConcatAssociates(s.chunks, ChunksRead([step]), ChunksRead(rest));
    }
  }

  lemma NewClientsAttach(s: State, step: Step, id: nat)
    requires Enabled(s, step) && id !in s.clients && id in Apply(s, step).clients
    ensures step == Attach && Apply(s, step).clients[id] == Joined(s).clients[id]
    ensures var c := Joined(s).clients[id];
            c.history == s.ring && c.start == |s.chunks| && c.logged == |s.log|
  {
  }

  /** The client's history and starting point are those of everything written and read, from s on,
      by the steps before it attached. */
  predicate StartsAfter(s: State, before: seq<Step>, c: Client) {
    && c.history == Newest(s.log + Written(before), MAX_TRANSCRIPT_BYTES)
    && c.start == |s.chunks| + |ChunksRead(before)|
    && c.logged == |s.log| + |Written(before)|
  }

  lemma StartsLater(s: State, step: Step, before: seq<Step>, whole: seq<Step>, c: Client)
    requires Enabled(s, step) && StartsAfter(Apply(s, step), before, c) && whole == [step] + before
    ensures StartsAfter(s, whole, c)
  {
    StepWrites(s, step);
    assert whole[1..] == before && [step][1..] == [];
    assert Written(whole) == Written([step]) + Written(before);
    assert ChunksRead(whole) == ChunksRead([step]) + ChunksRead(before);
    ConcatAssociates(s.log, Written([step]), Written(before));
  }

  lemma StartsNow(s: State, step: Step, rest: seq<Step>, id: nat)
    requires Inv(s) && Enabled(s, step) && id !in s.clients && id in Apply(s, step).clients
    requires Executable(Apply(s, step), rest)
    ensures step == Attach && id in Execute(Apply(s, step), rest).clients
    ensures StartsAfter(s, [], Execute(Apply(s, step), rest).clients[id])
  {
    StepKeepsInv(s, step);
    NewClientsAttach(s, step, id);
    AttachPointIsFixed(Apply(s, step), rest, id);
    assert s.log + Written([]) == s.log;
  }

  lemma TakesOneMore<T>(s: seq<T>, k: nat)
    requires k + 1 <= |s|
    ensures s[..k + 1] == [s[0]] + s[1..][..k]
  {
  }

  /** Every client there is came by an attach step. */
  lemma {:induction false} AttachedAt(s: State, steps: seq<Step>, id: nat) returns (k: nat)
    requires Inv(s) && Executable(s, steps) && id !in s.clients && id in Execute(s, steps).clients
    ensures k < |steps| && steps[k] == Attach
    ensures StartsAfter(s, steps[..k], Execute(s, steps).clients[id])
    decreases |steps|
  {
    var step, rest := steps[0], steps[1..];
    var t := Apply(s, step);
    if id in t.clients {
      StartsNow(s, step, rest, id);
      k := 0;
      assert steps[..0] == [];
    } else {
      StepKeepsInv(s, step);
      k := AttachedAt(t, rest, id);
      TakesOneMore(steps, k);
      StartsLater(s, step, rest[..k], steps[..k + 1], Execute(t, rest).clients[id]);
      k := k + 1;
    }
  }

  /** In any run, exit notices and all: there is an attach step such that a client's history is the
      newest bytes written before it, and what it received is the first of the chunks read after it. */
  lemma LiveOutputContinuesHistory(steps: seq<Step>, id: nat) returns (k: nat)
    requires Executable(Init(), steps) && id in Execute(Init(), steps).clients
    ensures k < |steps| && steps[k] == Attach
    ensures var c := Execute(Init(), steps).clients[id];
            && c.history == Newest(Written(steps[..k]), 2097152)
            && c.received <= ChunksRead(steps[k..])
  {
    var start := Init();
    k := AttachedAt(start, steps, id);
    assert start.log + Written(steps[..k]) == Written(steps[..k]);
    var s := Execute(start, steps);
    ExecutionKeepsInv(start, steps);
    assert ClientOk(s, id);
    ExecutionWrites(start, steps);
    ReadsSplit(steps, k);
    assert [] + ChunksRead(steps) == ChunksRead(steps);
    var c := s.clients[id];
    ReceivedAfter(s.chunks, ChunksRead(steps[..k]), ChunksRead(steps[k..]), c.start, c.upto, c.received);
  }

  lemma ReceivedAfter(chunks: seq<Chunk>, before: seq<Chunk>, after: seq<Chunk>, start: nat, upto: nat,
                      received: seq<Chunk>)
    requires chunks == before + after && start == |before| && start <= upto <= |chunks|
    requires received <= chunks[start..upto]
    ensures received <= after
  {
    assert chunks[start..] == after;
    assert chunks[start..upto] <= chunks[start..];
  }

  lemma {:induction false} ReadsSplit(steps: seq<Step>, k: nat)
    requires k <= |steps|
    ensures ChunksRead(steps) == ChunksRead(steps[..k]) + ChunksRead(steps[k..])
    decreases k
  {
    if k == 0 {
      assert steps[..0] == [] && steps[0..] == steps;
    } else {
      var rest := steps[1..];
      ReadsSplit(rest, k - 1);
      assert steps[..k][1..] == rest[..k - 1] && steps[k..] == rest[k - 1..];
    }
  }

  lemma {:induction false} WrittenAgainstRead(steps: seq<Step>)
    ensures |Flatten(ChunksRead(steps))| <= |Written(steps)|
    ensures |Written(steps)| == |Flatten(ChunksRead(steps))|
            ==> forall i :: 0 <= i < |steps| && steps[i].ExitNotice? ==> steps[i].text == []
    ensures (forall i :: 0 <= i < |steps| && steps[i].ExitNotice? ==> steps[i].text == [])
            ==> Written(steps) == Flatten(ChunksRead(steps))
  {
    if steps != [] {
      var rest := steps[1..];
      WrittenAgainstRead(rest);
      if steps[0].BeginRead? {
        var chunk := steps[0].chunk;
        assert ([chunk] + ChunksRead(rest))[1..] == ChunksRead(rest);
        assert Flatten(ChunksRead(steps)) == chunk + Flatten(ChunksRead(rest));
      } else {
        assert ChunksRead(steps) == ChunksRead(rest);
      }
      forall i | 0 <= i < |rest| ensures rest[i] == steps[i + 1] {
      }
    }
  }

  /** The history a client is given is PTY output and nothing else, which its live output takes up
      byte for byte, exactly when no exit notice with text in it came before it attached. */
  lemma HistoryIsOutputIff(steps: seq<Step>, k: nat)
    requires k <= |steps|
    ensures Written(steps[..k]) == Flatten(ChunksRead(steps[..k]))
            <==> forall i :: 0 <= i < k && steps[i].ExitNotice? ==> steps[i].text == []
  {
    WrittenAgainstRead(steps[..k]);
  }

  /** Whenever no output section is under way, the published client count is the number of
      registered subscribers, and only registered subscribers are open. */
  lemma AttachedClientsIsExact(s: State)
    requires Reachable(s) && s.holder.Free?
    ensures s.attached == |s.registered|
    ensures s.focused == FocusedFor(s.muted, |s.registered|)
    ensures forall id :: id in s.clients ==> (id in s.registered <==> !s.clients[id].queue.closed)
  {
    ReachableInv(s);
    forall id | id in s.clients ensures id in s.registered <==> !s.clients[id].queue.closed {
      assert ClientOk(s, id);
    }
  }

  /** Detaching a client already dropped for lag, or closed at exit, changes nothing at all. */
  lemma DetachAfterDropIsNoOp(s: State, id: nat)
    requires Reachable(s) && Enabled(s, Detach(id)) && id !in s.registered
    ensures Apply(s, Detach(id)) == s
  {
    ReachableInv(s);
  }

  /** A registered client is dropped exactly when the bytes not yet handed over to it, plus those
      handed over but not yet accounted for, leave no room for the chunk in the window. */
  lemma DroppedIffBehind(s: State, id: nat)
    requires Reachable(s) && Enabled(s, EnqueueOne(id))
    ensures var c := s.clients[id];
            var behind := |Flatten(InFlight(c.runner) + c.queue.chunks)|
                          + (if c.runner.Accounting? then c.runner.size else 0);
            Apply(s, EnqueueOne(id)).holder.dropping == Some(id)
            <==> behind + |s.holder.chunk| > 2097152
  {
    ReachableInv(s);
    assert ClientOk(s, id);
    var c := s.clients[id];
    FlattenConcat(InFlight(c.runner), c.queue.chunks);
    if c.runner.Sending? {
      assert Flatten([c.runner.chunk]) == c.runner.chunk;
    }
  }

  /** Exact accounting and no lost wake-up, in every reachable state. */
  lemma QueueIsAccountedFor(s: State, id: nat)
    requires Reachable(s) && id in s.clients
    ensures var c := s.clients[id];
            && c.queue.queuedBytes <= 2097152
            && (!c.runner.Returned? ==> c.queue.queuedBytes == |Flatten(c.queue.chunks)| + Outstanding(c.runner))
            && (c.queue.chunks != [] && !c.queue.closed ==>
                  c.queue.wake || c.runner.Ready? || c.runner.Sending? || c.runner.Accounting?)
  {
    ReachableInv(s);
    assert ClientOk(s, id);
  }

  ghost predicate CanMoveAll(c: Client, moves: seq<Move>)
    decreases |moves|
  {
    moves != [] ==> CanMove(c, moves[0]) && CanMoveAll(Moved(c, moves[0]), moves[1..])
  }

  ghost function MovedAll(c: Client, moves: seq<Move>): Client
    requires CanMoveAll(c, moves)
    decreases |moves|
  {
    if moves == [] then c else MovedAll(Moved(c, moves[0]), moves[1..])
  }

  function TurnsLeft(c: Client): nat {
    4 * |c.queue.chunks| + match c.runner
      case Sending(_) => 3
      case Accounting(_) => 2
      case Ready => 1
      case Waiting => if c.queue.chunks == [] then 0 else 2
      case Returned => 0
  }

  /** A delivery goroutine whose client keeps receiving never gets stuck: by its own moves alone
      it hands over everything queued, in order, and brings the byte count back to zero. */
  lemma {:induction false} Drains(c: Client) returns (moves: seq<Move>)
    requires QueueOk(c) && !c.runner.Returned?
    ensures CanMoveAll(c, moves)
    ensures var d := MovedAll(c, moves);
            d.runner == Waiting && d.queue.chunks == [] && d.queue.queuedBytes == 0 && d.received == Stream(c)
    decreases TurnsLeft(c)
  {
    if c.runner.Waiting? && c.queue.chunks == [] {
      return [];
    }
    var move := match c.runner
      case Ready => Dequeue
      case Sending(_) => Send
      case Accounting(_) => Account
      case _ => Wake;
    MoveKeepsQueue(c, move);
    MoveKeepsStream(c, move);
    var rest := Drains(Moved(c, move));
    moves := [move] + rest;
    assert moves[1..] == rest;
  }

  /** So in every reachable state a registered client can still be given all output read since it
      attached; all but the last chunk of it while an output section has still to offer it that one. */
  lemma EveryChunkDeliverable(s: State, id: nat)
    requires Reachable(s) && id in s.registered
    ensures id in s.clients && s.clients[id].start <= FedUpto(s, id) <= |s.chunks|
    ensures exists moves ::
              && CanMoveAll(s.clients[id], moves)
              && MovedAll(s.clients[id], moves).received == s.chunks[s.clients[id].start..FedUpto(s, id)]
    ensures s.holder.Free? ==> FedUpto(s, id) == |s.chunks|
  {
    ReachableInv(s);
    assert ClientOk(s, id);
    HistoryThenEveryChunk(s, id);
    var moves := Drains(s.clients[id]);
  }

  // ---- After the process has exited ----

  /** Whatever was registered, nothing is once closeSubscribers has run. */
  lemma ClosingEmpties(s: State)
    requires Inv(s) && Enabled(s, EndClose)
    ensures Apply(s, EndClose).registered == {} && Apply(s, EndClose).holder.Free?
  {
  }

  lemma OnlyAttachRegisters(s: State, step: Step)
    requires Inv(s) && Enabled(s, step) && s.registered == {}
    ensures Apply(s, step).registered == {} <==> step != Attach
  {
  }

  /** After every number of these steps no client is registered. */
  ghost predicate StaysEmpty(s: State, steps: seq<Step>)
    requires Executable(s, steps)
    decreases |steps|
  {
    s.registered == {} && (steps != [] ==> StaysEmpty(Apply(s, steps[0]), steps[1..]))
  }

  /** Once the session's end has closed every client they all stay closed exactly when no attach step
      follows: an attach that found the session running can still come after. */
  lemma {:induction false} ClosedForGoodIff(s: State, steps: seq<Step>)
    requires Inv(s) && s.registered == {} && Executable(s, steps)
    ensures StaysEmpty(s, steps) <==> Attach !in steps
    decreases |steps|
  {
    if steps != [] {
      var step, rest := steps[0], steps[1..];
      assert steps == [step] + rest;
      OnlyAttachRegisters(s, step);
      StepKeepsInv(s, step);
      if step != Attach {
        ClosedForGoodIff(Apply(s, step), rest);
      } else {
        assert !StaysEmpty(Apply(s, step), rest);
      }
    }
  }

  /** And no client is registered exactly when every client there has been is closed. */
  lemma EmptyIffAllClosed(s: State)
    requires Reachable(s)
    ensures s.registered == {} <==> forall id :: id in s.clients ==> s.clients[id].queue.closed
  {
    ReachableInv(s);
    forall id | id in s.clients ensures id in s.registered <==> !s.clients[id].queue.closed {
      assert ClientOk(s, id);
    }
    if id :| id in s.registered {
      assert id in s.clients;
    }
  }

  /** The late attach is possible. */
  lemma AttachAfterClose()
    ensures var steps := [BeginClose, EndClose, Attach];
            Executable(Init(), steps) && Execute(Init(), steps).registered == {0}
  {
    var steps := [BeginClose, EndClose, Attach];
    var closing := Apply(Init(), BeginClose);
    var closed := Apply(closing, EndClose);
    assert steps[1..] == [EndClose, Attach] && steps[1..][1..] == [Attach] && [Attach][1..] == [];
    assert Execute(Init(), steps) == Execute(closing, [EndClose, Attach]);
    assert Execute(closing, [EndClose, Attach]) == Execute(closed, [Attach]);
    assert Execute(closed, [Attach]) == Execute(Apply(closed, Attach), []);
  }

  // ---- Detaching, and the counts others see ----

  lemma {:induction false} UnregisteredStays(s: State, step: Step, id: nat)
    requires CoreOk(s) && Enabled(s, step) && id in s.clients && id !in s.registered
    ensures id in Apply(s, step).clients && id !in Apply(s, step).registered
  {
    match step {
      case Attach => assert s.next != id;
      case _ =>
    }
  }

  lemma {:induction false} UnregisteredForGood(s: State, steps: seq<Step>, id: nat)
    requires Inv(s) && Executable(s, steps) && id in s.clients && id !in s.registered
    ensures id in Execute(s, steps).clients && id !in Execute(s, steps).registered
    decreases |steps|
  {
    if steps != [] {
      UnregisteredStays(s, steps[0], id);
      StepKeepsInv(s, steps[0]);
      UnregisteredForGood(Apply(s, steps[0]), steps[1..], id);
    }
  }

  /** Detaching takes exactly one client off, closes its queue, and is for good, whatever comes after. */
  lemma DetachIsForGood(s: State, id: nat, steps: seq<Step>)
    requires Reachable(s) && Enabled(s, Detach(id)) && Executable(Apply(s, Detach(id)), steps)
    ensures Apply(s, Detach(id)).registered == s.registered - {id}
    ensures var t := Execute(Apply(s, Detach(id)), steps);
            id in t.clients && id !in t.registered && t.clients[id].queue.closed
  {
    ReachableInv(s);
    StepKeepsInv(s, Detach(id));
    UnregisteredForGood(Apply(s, Detach(id)), steps, id);
    ExecutionKeepsInv(Apply(s, Detach(id)), steps);
    assert ClientOk(Execute(Apply(s, Detach(id)), steps), id);
  }

  /** What the last request to mute or unmute said, or `was` without one. */
  function MutedAfter(was: bool, steps: seq<Step>): bool
    decreases |steps|
  {
    if steps == [] then was else MutedAfter(if steps[0].SetMuted? then steps[0].muted else was, steps[1..])
  }

  lemma {:induction false} MuteIsKept(s: State, steps: seq<Step>)
    requires Executable(s, steps)
    ensures Execute(s, steps).muted == MutedAfter(s.muted, steps)
    decreases |steps|
  {
    if steps != [] {
      MuteIsKept(Apply(s, steps[0]), steps[1..]);
    }
  }

  /** Over any run, with the lock free: watchers that go by the compatibility count keep quiet exactly
      while some client is attached or the last request was to mute. */
  lemma SuppressedIff(steps: seq<Step>)
    requires Executable(Init(), steps) && Execute(Init(), steps).holder.Free?
    ensures var s := Execute(Init(), steps);
            && (s.focused > 0 <==> s.registered != {} || MutedAfter(false, steps))
            && (s.registered != {} ==> s.focused == |s.registered|)
  {
    var s := Execute(Init(), steps);
    MuteIsKept(Init(), steps);
    AttachedClientsIsExact(s);
  }

  // ---- Delivery goroutines at rest ----

  /** The goroutine of a closed client, whatever it is doing and whether anybody receives, can return by at most
      three moves of its own without another chunk sent. */
  lemma {:induction false} ClosedReturns(c: Client) returns (moves: seq<Move>)
    requires c.queue.closed && !c.runner.Returned?
    ensures CanMoveAll(c, moves) && |moves| <= 3 && Send !in moves
    ensures MovedAll(c, moves).runner == Returned
  {
    match c.runner {
      case Accounting(_) => moves := [Account, Dequeue, Quit];
      case Ready => moves := [Dequeue, Quit];
      case _ => moves := [Quit];
    }
    assert moves[1..] == [Quit] || moves[1..] == [] || moves[1..] == [Dequeue, Quit];
    assert [Dequeue, Quit][1..] == [Quit] && [Quit][1..] == [];
  }

  /** With nothing queued and the client open, a stale wake token is used up and the goroutine rests. */
  lemma {:induction false} IdleRests(c: Client)
    requires c.runner.Waiting? && c.queue.wake && c.queue.chunks == [] && !c.queue.closed
    ensures CanMoveAll(c, [Wake, Dequeue])
    ensures forall move :: !CanMove(MovedAll(c, [Wake, Dequeue]), move)
  {
    var woken := Moved(c, Wake);
    assert [Wake, Dequeue][1..] == [Dequeue] && [Dequeue][1..] == [];
    assert MovedAll(c, [Wake, Dequeue]) == MovedAll(woken, [Dequeue]);
    assert MovedAll(woken, [Dequeue]) == MovedAll(Moved(woken, Dequeue), []);
  }

  /** An exit notice needs no lock, so it can cut into an output section; what it says then comes after the chunk. */
  lemma {:induction false} NoticeCutsIn(chunk: Chunk, text: seq<byte>)
    ensures var steps := [BeginRead(chunk), ExitNotice(text), EndRead];
            Executable(Init(), steps) && Execute(Init(), steps).log == chunk + text
  {
    var steps := [BeginRead(chunk), ExitNotice(text), EndRead];
    var s := Apply(Init(), BeginRead(chunk));
    var t := Apply(s, ExitNotice(text));
    assert steps[1..] == [ExitNotice(text), EndRead] && steps[1..][1..] == [EndRead] && [EndRead][1..] == [];
    assert Executable(t, [EndRead]) && Execute(t, [EndRead]) == Execute(Apply(t, EndRead), []);
    assert Execute(s, [ExitNotice(text), EndRead]) == Execute(t, [EndRead]);
    assert [] + chunk == chunk;
  }
}
