/**
  The sending half of a connection: any number of threads call send_data, the network threads
  run write completions, and all of them go through ProcessSend under two mutexes. Every
  access to shared state and every lock operation is a step of its own, so a run is an
  arbitrary interleaving. The socket stays active.
 */
module SendPump {

  type Data = seq<bv8>

  datatype Item = Item(id: nat, data: Data)

  datatype Lock = Free | Held(owner: nat)

  /** Where a thread is. The comment names the lock it holds, s for send and d for discard. */
  datatype Pc =
    | Idle
    | WantPush(data: Data)            // send_data, about to lock
    | Pushing(data: Data)             // s
    | Pushed                          // s
    | Enter                           // ProcessSend, about to lock discard
    | Peeking                         // d
    | Peeked(empty: bool)             // d
    | WantSend(empty: bool)
    | Looking(empty: bool)            // s
    | Holding(item: Item)             // s, front popped
    | Retiring(item: Item)            // s d
    | Retired(item: Item)             // s d, pushed on the discard queue
    | Submitting(item: Item)          // s, about to call OnSend and async_write
    | Leaving                         // s
    | WantDrop                        // completion handler, about to lock discard
    | Dropping                        // d
    | Dropped                         // d, front popped

  datatype State = State(
    pcs: seq<Pc>, sendLock: Lock, discardLock: Lock,
    sendQueue: seq<Item>, discard: seq<nat>,
    pushed: seq<Data>,          // history: what was queued, in order
    encoded: seq<Item>,         // history: what OnSend made of each buffer, in order
    accepted: seq<nat>,         // history: the buffers whose write was started, in order
    outstanding: set<nat>,      // writes started and not completed
    completed: seq<nat>,        // history: writes completed, in order
    dropped: nat,               // buffers released from the discard queue
    refused: nat)               // times OnSend said no

  datatype Action =
    | Call(t: nat, data: Data)        // a thread calls send_data
    | Complete(t: nat, id: nat)       // a network thread starts the completion handler of a write
    | Submit(t: nat, accept: bool)    // OnSend answers
    | Move(t: nat)                    // the thread's next step

  predicate HoldsSend(pc: Pc) {
    || pc.Pushing? || pc.Pushed? || pc.Looking? || pc.Holding?
    || pc.Retiring? || pc.Retired? || pc.Submitting? || pc.Leaving?
  }

  predicate HoldsDiscard(pc: Pc) {
    pc.Peeking? || pc.Peeked? || pc.Retiring? || pc.Retired? || pc.Dropping? || pc.Dropped?
  }

  predicate WantsSend(pc: Pc) {
    pc.WantPush? || pc.WantSend?
  }

  predicate WantsDiscard(pc: Pc) {
    pc.Enter? || pc.Holding? || pc.WantDrop?
  }

  predicate Enabled(s: State, a: Action) {
    && a.t < |s.pcs|
    && var pc := s.pcs[a.t];
       match a
       case Call(_, _) => pc.Idle?
       case Complete(_, id) => pc.Idle? && id in s.outstanding
       case Submit(_, _) => pc.Submitting?
       case Move(_) =>
         && !pc.Idle? && !pc.Submitting?
         && (WantsSend(pc) ==> s.sendLock.Free?)
         && (WantsDiscard(pc) ==> s.discardLock.Free?)
         && (pc.Dropping? ==> |s.discard| > 0)
  }

  function At(s: State, t: nat, pc: Pc): State
    requires t < |s.pcs|
  {
    s.(pcs := s.pcs[t := pc])
  }

  /** Does the thread find something to send, with nothing on the discard queue when it looked? */
  predicate Pops(s: State, pc: Pc) {
    pc.Looking? && pc.empty && |s.sendQueue| > 0
  }

  function NextPc(s: State, pc: Pc): Pc
    requires !pc.Idle? && !pc.Submitting?
  {
    match pc
    case WantPush(data) => Pushing(data)
    case Pushing(_) => Pushed
    case Pushed => Enter
    case Enter => Peeking
    case Peeking => Peeked(|s.discard| == 0)
    case Peeked(empty) => WantSend(empty)
    case WantSend(empty) => Looking(empty)
    case Looking(_) => if Pops(s, pc) then Holding(s.sendQueue[0]) else Leaving
    case Holding(item) => Retiring(item)
    case Retiring(item) => Retired(item)
    case Retired(item) => Submitting(item)
    case Leaving => Idle
    case WantDrop => Dropping
    case Dropping => Dropped
    case Dropped => Enter
  }

  /** One step of a thread: its position, the locks it takes or gives back, the queue it touches. */
  function Moved(s: State, t: nat): State
    requires Enabled(s, Move(t))
  {
    var pc := s.pcs[t];
    s.(pcs := s.pcs[t := NextPc(s, pc)],
       sendLock := if WantsSend(pc) then Held(t) else if pc.Pushed? || pc.Leaving? then Free else s.sendLock,
       discardLock := if WantsDiscard(pc) then Held(t)
                      else if pc.Peeked? || pc.Retired? || pc.Dropped? then Free else s.discardLock,
       sendQueue := if pc.Pushing? then s.sendQueue + [Item(|s.pushed|, pc.data)]
                    else if Pops(s, pc) then s.sendQueue[1..] else s.sendQueue,
       pushed := if pc.Pushing? then s.pushed + [pc.data] else s.pushed,
       discard := if pc.Retiring? then s.discard + [pc.item.id]
                  else if pc.Dropping? then s.discard[1..] else s.discard,
       dropped := if pc.Dropping? then s.dropped + 1 else s.dropped)
  }

  function Next(code: Data -> Data, s: State, a: Action): State
    requires Enabled(s, a)
  {
    match a
    case Call(t, data) => At(s, t, WantPush(data))
    case Complete(t, id) => At(s, t, WantDrop).(outstanding := s.outstanding - {id}, completed := s.completed + [id])
    case Submit(t, accept) =>
      var item := s.pcs[t].item;
      var s' := At(s, t, Leaving).(encoded := s.encoded + [Item(item.id, code(item.data))]);
      if accept then s'.(accepted := s.accepted + [item.id], outstanding := s.outstanding + {item.id})
      else s'.(refused := s.refused + 1)
    case Move(t) => Moved(s, t)
  }

  function Start(threads: nat): State {
    State(seq(threads, i => Idle), Free, Free, [], [], [], [], [], {}, [], 0, 0)
  }

  // ---- Invariants --------------------------------------------------------------------------

  /** The mutexes exclude: a lock is held exactly by the thread whose position says so. */
  ghost predicate Locks(s: State) {
    && (forall t | 0 <= t < |s.pcs| :: HoldsSend(s.pcs[t]) <==> s.sendLock == Held(t))
    && (forall t | 0 <= t < |s.pcs| :: HoldsDiscard(s.pcs[t]) <==> s.discardLock == Held(t))
    && (s.sendLock.Held? ==> s.sendLock.owner < |s.pcs|)
    && (s.discardLock.Held? ==> s.discardLock.owner < |s.pcs|)
  }

  /** The buffer popped from the send queue and not yet given to OnSend. */
  function InHand(pc: Pc): seq<Item> {
    if pc.Holding? || pc.Retiring? || pc.Retired? || pc.Submitting? then [pc.item] else []
  }

  function Hand(s: State): seq<Item> {
    if s.sendLock.Held? && s.sendLock.owner < |s.pcs| then InHand(s.pcs[s.sendLock.owner]) else []
  }

  function Numbered(from: nat, data: seq<Data>): (r: seq<Item>)
    ensures |r| == |data|
  {
    seq(|data|, i requires 0 <= i < |data| => Item(from + i, data[i]))
  }

  function Coded(code: Data -> Data, data: seq<Data>): (r: seq<Item>)
    ensures |r| == |data|
  {
    seq(|data|, i requires 0 <= i < |data| => Item(i, code(data[i])))
  }

  /** Everything queued is encoded, in hand or still queued, in the order it was queued. */
  ghost predicate Ordered(code: Data -> Data, s: State) {
    && |s.encoded| <= |s.pushed|
    && s.encoded == Coded(code, s.pushed[..|s.encoded|])
    && Hand(s) + s.sendQueue == Numbered(|s.encoded|, s.pushed[|s.encoded|..])
  }

  predicate BeyondRetire(pc: Pc) {
    pc.Retired? || pc.Submitting?
  }

  /** One when a buffer is on the discard queue but OnSend has not been called for it. */
  function Pending(s: State): nat {
    if s.sendLock.Held? && s.sendLock.owner < |s.pcs| && BeyondRetire(s.pcs[s.sendLock.owner]) then 1 else 0
  }

  predicate AboutToDrop(pc: Pc) {
    pc.WantDrop? || pc.Dropping?
  }

  function Droppers(pcs: seq<Pc>): nat {
    if |pcs| == 0 then 0
    else Droppers(pcs[..|pcs| - 1]) + if AboutToDrop(pcs[|pcs| - 1]) then 1 else 0
  }

  function Range(from: nat, to: nat): (r: seq<nat>)
    requires from <= to
    ensures |r| == to - from
  {
    seq(to - from, i requires 0 <= i < to - from => from + i)
  }

  /** Every discarded buffer is accounted for by a write, a refusal or a thread on its way. */
  ghost predicate Accounted(s: State) {
    && s.dropped <= |s.encoded| + Pending(s)
    && s.discard == Range(s.dropped, |s.encoded| + Pending(s))
    && |s.encoded| == |s.accepted| + s.refused
    && |s.accepted| == |s.completed| + |s.outstanding|
    && |s.completed| == s.dropped + Droppers(s.pcs)
    && (forall id | id in s.outstanding :: id < |s.encoded|)
    && (forall i | 0 <= i < |s.accepted| :: s.accepted[i] < |s.encoded|)
    && (forall i, j | 0 <= i < j < |s.accepted| :: s.accepted[i] < s.accepted[j])
    && (s.refused == 0 ==> s.accepted == Range(0, |s.encoded|))
  }

  /** Threads that will still look at the send queue with a free path to it. */
  predicate WillLook(pc: Pc) {
    || pc.Pushed? || pc.Enter? || pc.Peeking? || pc.Dropped?
    || ((pc.Peeked? || pc.WantSend? || pc.Looking?) && pc.empty)
    || pc.Holding? || pc.Retiring?
  }

  /** No lost wake-up: whatever is queued has someone coming for it. */
  ghost predicate Served(s: State) {
    |s.sendQueue| > 0 ==> |s.discard| > 0 || exists t | 0 <= t < |s.pcs| :: WillLook(s.pcs[t])
  }

  ghost predicate Inv(code: Data -> Data, s: State) {
    Locks(s) && Ordered(code, s) && Accounted(s) && Served(s)
  }

  // ---- Preservation -----------------------------------------------------------------------------

  lemma StartInv(code: Data -> Data, threads: nat)
    ensures Inv(code, Start(threads))
  {
    NoDroppers(Start(threads).pcs);
  }

  lemma {:induction false} NoDroppers(pcs: seq<Pc>)
    requires forall t | 0 <= t < |pcs| :: !AboutToDrop(pcs[t])
    ensures Droppers(pcs) == 0
  {
    if |pcs| > 0 {
      NoDroppers(pcs[..|pcs| - 1]);
    }
  }

  lemma {:induction false} DroppersUpdate(pcs: seq<Pc>, t: nat, pc: Pc)
    requires t < |pcs|
    ensures Droppers(pcs[t := pc]) + (if AboutToDrop(pcs[t]) then 1 else 0)
         == Droppers(pcs) + (if AboutToDrop(pc) then 1 else 0)
  {
    var n := |pcs| - 1;
    if t < n {
      DroppersUpdate(pcs[..n], t, pc);
      assert pcs[t := pc][..n] == pcs[..n][t := pc];
    } else {
      assert pcs[t := pc][..n] == pcs[..n];
    }
  }

  lemma {:induction false} SomeDropper(pcs: seq<Pc>, t: nat)
    requires t < |pcs| && AboutToDrop(pcs[t])
    ensures Droppers(pcs) > 0
  {
    DroppersUpdate(pcs, t, Idle);
  }

  /** A lock changes hands only through the thread that moves. */
  predicate LockStep(before: Lock, after: Lock, t: nat) {
    after == before || (before.Free? && after == Held(t)) || (before == Held(t) && after.Free?)
  }

  lemma LocksFrame(s: State, s': State, t: nat)
    requires Locks(s) && t < |s.pcs| && |s'.pcs| == |s.pcs| && s'.pcs == s.pcs[t := s'.pcs[t]]
    requires LockStep(s.sendLock, s'.sendLock, t) && (HoldsSend(s'.pcs[t]) <==> s'.sendLock == Held(t))
    requires LockStep(s.discardLock, s'.discardLock, t) && (HoldsDiscard(s'.pcs[t]) <==> s'.discardLock == Held(t))
    ensures Locks(s')
  {
    hide HoldsSend, HoldsDiscard;
  }

  lemma LocksAt(s: State, t: nat)
    requires Locks(s) && t < |s.pcs|
    ensures HoldsSend(s.pcs[t]) <==> s.sendLock == Held(t)
    ensures HoldsDiscard(s.pcs[t]) <==> s.discardLock == Held(t)
  {
    hide HoldsSend, HoldsDiscard;
  }

  /** What a step does to the positions and the locks. */
  lemma StepShape(code: Data -> Data, s: State, a: Action)
    requires Enabled(s, a)
    requires HoldsSend(s.pcs[a.t]) <==> s.sendLock == Held(a.t)
    requires HoldsDiscard(s.pcs[a.t]) <==> s.discardLock == Held(a.t)
    ensures var t, s' := a.t, Next(code, s, a);
      && |s'.pcs| == |s.pcs| && s'.pcs == s.pcs[t := s'.pcs[t]]
      && LockStep(s.sendLock, s'.sendLock, t) && (HoldsSend(s'.pcs[t]) <==> s'.sendLock == Held(t))
      && LockStep(s.discardLock, s'.discardLock, t) && (HoldsDiscard(s'.pcs[t]) <==> s'.discardLock == Held(t))
  {}

  lemma NextLocks(code: Data -> Data, s: State, a: Action)
    requires Locks(s) && Enabled(s, a)
    ensures Locks(Next(code, s, a))
    ensures var t, s' := a.t, Next(code, s, a);
      |s'.pcs| == |s.pcs| && s'.pcs == s.pcs[t := s'.pcs[t]] && LockStep(s.sendLock, s'.sendLock, t)
  {
    hide Locks, Next, HoldsSend, HoldsDiscard, LockStep;
    LocksAt(s, a.t);
    StepShape(code, s, a);
    LocksFrame(s, Next(code, s, a), a.t);
  }

  /** A step of one thread changes what the owner of the send lock has in hand only if it is the owner. */
  lemma HandFrame(s: State, s': State, t: nat)
    requires Locks(s) && Locks(s') && t < |s.pcs| && |s'.pcs| == |s.pcs| && s'.pcs == s.pcs[t := s'.pcs[t]]
    requires LockStep(s.sendLock, s'.sendLock, t)
    requires InHand(s'.pcs[t]) == InHand(s.pcs[t])
    ensures Hand(s') == Hand(s)
  {
    hide HoldsDiscard;
    assert HoldsSend(s.pcs[t]) <==> s.sendLock == Held(t);
    assert HoldsSend(s'.pcs[t]) <==> s'.sendLock == Held(t);
  }

  lemma NumberedAppend(from: nat, data: seq<Data>, d: Data)
    ensures Numbered(from, data + [d]) == Numbered(from, data) + [Item(from + |data|, d)]
  {}

  lemma NumberedHead(from: nat, data: seq<Data>)
    requires |data| > 0
    ensures Numbered(from, data)[0] == Item(from, data[0])
    ensures Numbered(from, data)[1..] == Numbered(from + 1, data[1..])
  {}

  lemma CodedAppend(code: Data -> Data, data: seq<Data>, d: Data)
    ensures Coded(code, data + [d]) == Coded(code, data) + [Item(|data|, code(d))]
  {}

  lemma HandOfOwner(s: State, t: nat)
    requires Locks(s) && t < |s.pcs| && HoldsSend(s.pcs[t])
    ensures s.sendLock == Held(t) && Hand(s) == InHand(s.pcs[t])
    ensures Pending(s) == if BeyondRetire(s.pcs[t]) then 1 else 0
  {
    hide HoldsDiscard, HoldsSend;
  }

  lemma PushOrdered(code: Data -> Data, s: State, t: nat)
    requires Locks(s) && Ordered(code, s) && Enabled(s, Move(t)) && s.pcs[t].Pushing?
    ensures Ordered(code, Moved(s, t))
  {
    var s', n, d := Moved(s, t), |s.encoded|, s.pcs[t].data;
    NextLocks(code, s, Move(t));
    HandOfOwner(s, t);
    HandOfOwner(s', t);
    NumberedAppend(n, s.pushed[n..], d);
    assert s'.pushed[n..] == s.pushed[n..] + [d];
    assert s'.pushed[..n] == s.pushed[..n];
  }

  lemma PopOrdered(code: Data -> Data, s: State, t: nat)
    requires Locks(s) && Ordered(code, s) && Enabled(s, Move(t)) && s.pcs[t].Looking?
    ensures Ordered(code, Moved(s, t))
  {
    var s' := Moved(s, t);
    NextLocks(code, s, Move(t));
    HandOfOwner(s, t);
    HandOfOwner(s', t);
    assert Hand(s') + s'.sendQueue == s.sendQueue;
  }

  lemma SubmitOrdered(code: Data -> Data, s: State, t: nat, accept: bool)
    requires Locks(s) && Ordered(code, s) && Enabled(s, Submit(t, accept))
    ensures Ordered(code, Next(code, s, Submit(t, accept)))
    ensures |s.encoded| < |s.pushed| && s.pcs[t].item == Item(|s.encoded|, s.pushed[|s.encoded|])
  {
    var s', n := Next(code, s, Submit(t, accept)), |s.encoded|;
    NextLocks(code, s, Submit(t, accept));
    HandOfOwner(s, t);
    HandOfOwner(s', t);
    var rest := s.pushed[n..];
    assert |Hand(s) + s.sendQueue| > 0;
    NumberedHead(n, rest);
    assert (Hand(s) + s.sendQueue)[0] == s.pcs[t].item;
    assert (Hand(s) + s.sendQueue)[1..] == s.sendQueue;
    assert rest[1..] == s.pushed[n + 1..];
    CodedAppend(code, s.pushed[..n], s.pushed[n]);
    assert s.pushed[..n + 1] == s.pushed[..n] + [s.pushed[n]];
    assert Hand(s') + s'.sendQueue == s.sendQueue;
  }

  predicate MovesBuffers(s: State, a: Action)
    requires Enabled(s, a)
  {
    a.Submit? || (a.Move? && (s.pcs[a.t].Pushing? || s.pcs[a.t].Looking?))
  }

  lemma OtherStepsKeepOrder(code: Data -> Data, s: State, a: Action)
    requires Enabled(s, a) && !MovesBuffers(s, a)
    ensures var s' := Next(code, s, a);
      && s'.encoded == s.encoded && s'.pushed == s.pushed && s'.sendQueue == s.sendQueue
      && |s'.pcs| == |s.pcs| && InHand(s'.pcs[a.t]) == InHand(s.pcs[a.t])
  {}

  lemma NextOrdered(code: Data -> Data, s: State, a: Action)
    requires Locks(s) && Ordered(code, s) && Enabled(s, a)
    ensures Ordered(code, Next(code, s, a))
  {
    hide Locks, Next, Moved, InHand, Hand;
    var t := a.t;
    if a.Submit? {
      SubmitOrdered(code, s, t, a.accept);
    } else if a.Move? && s.pcs[t].Pushing? {
      PushOrdered(code, s, t);
      MoveIsNext(code, s, t);
    } else if a.Move? && s.pcs[t].Looking? {
      PopOrdered(code, s, t);
      MoveIsNext(code, s, t);
    } else {
      NextLocks(code, s, a);
      OtherStepsKeepOrder(code, s, a);
      HandFrame(s, Next(code, s, a), t);
    }
  }

  lemma MoveIsNext(code: Data -> Data, s: State, t: nat)
    requires Enabled(s, Move(t))
    ensures Next(code, s, Move(t)) == Moved(s, t)
  {
    hide Moved;
  }

  lemma PendingFrame(s: State, s': State, t: nat)
    requires Locks(s) && Locks(s') && t < |s.pcs| && |s'.pcs| == |s.pcs| && s'.pcs == s.pcs[t := s'.pcs[t]]
    requires LockStep(s.sendLock, s'.sendLock, t)
    requires BeyondRetire(s'.pcs[t]) == BeyondRetire(s.pcs[t])
    ensures Pending(s') == Pending(s)
  {
    hide HoldsDiscard;
    assert HoldsSend(s.pcs[t]) <==> s.sendLock == Held(t);
    assert HoldsSend(s'.pcs[t]) <==> s'.sendLock == Held(t);
  }

  lemma RangeAppend(from: nat, to: nat)
    requires from <= to
    ensures Range(from, to + 1) == Range(from, to) + [to]
  {}

  lemma RangeTail(from: nat, to: nat)
    requires from < to
    ensures Range(from, to)[1..] == Range(from + 1, to)
  {}

  lemma RetireAccounted(code: Data -> Data, s: State, t: nat)
    requires Locks(s) && Ordered(code, s) && Accounted(s) && Enabled(s, Move(t)) && s.pcs[t].Retiring?
    ensures Accounted(Moved(s, t))
  {
    var s', n := Moved(s, t), |s.encoded|;
    NextLocks(code, s, Move(t));
    HandOfOwner(s, t);
    HandOfOwner(s', t);
    DroppersUpdate(s.pcs, t, s'.pcs[t]);
    NumberedHead(n, s.pushed[n..]);
    assert (Hand(s) + s.sendQueue)[0] == s.pcs[t].item;
    RangeAppend(s.dropped, n);
  }

  lemma SubmitAccounted(code: Data -> Data, s: State, t: nat, accept: bool)
    requires Locks(s) && Ordered(code, s) && Accounted(s) && Enabled(s, Submit(t, accept))
    ensures Accounted(Next(code, s, Submit(t, accept)))
  {
    var s' := Next(code, s, Submit(t, accept));
    NextLocks(code, s, Submit(t, accept));
    SubmitOrdered(code, s, t, accept);
    HandOfOwner(s, t);
    HandOfOwner(s', t);
    DroppersUpdate(s.pcs, t, s'.pcs[t]);
    assert s.pcs[t].item.id !in s.outstanding;
    if s'.refused == 0 {
      RangeAppend(0, |s.encoded|);
    }
  }

  lemma DropIs(code: Data -> Data, s: State, t: nat)
    requires Enabled(s, Move(t)) && s.pcs[t].Dropping?
    ensures |s.discard| > 0
    ensures Moved(s, t) == At(s, t, Dropped).(discard := s.discard[1..], dropped := s.dropped + 1)
    ensures Next(code, s, Move(t)) == Moved(s, t)
  {}

  lemma DropAccounted(code: Data -> Data, s: State, t: nat)
    requires Locks(s) && Accounted(s) && Enabled(s, Move(t)) && s.pcs[t].Dropping?
    ensures Accounted(Moved(s, t))
  {
    hide Locks, Moved, Next, Enabled, Pending, Droppers, Range;
    EnabledThread(s, Move(t));
    var s' := Moved(s, t);
    DropIs(code, s, t);
    NextLocks(code, s, Move(t));
    PendingFrame(s, s', t);
    DroppersUpdate(s.pcs, t, s'.pcs[t]);
    RangeTail(s.dropped, |s.encoded| + Pending(s));
  }

  predicate MovesAccounts(s: State, a: Action)
    requires Enabled(s, a)
  {
    a.Submit? || (a.Move? && (s.pcs[a.t].Retiring? || s.pcs[a.t].Dropping?))
  }

  lemma OtherStepsKeepAccounts(code: Data -> Data, s: State, a: Action)
    requires Enabled(s, a) && !MovesAccounts(s, a)
    ensures var s' := Next(code, s, a);
      && s'.encoded == s.encoded && s'.accepted == s.accepted && s'.refused == s.refused
      && s'.discard == s.discard && s'.dropped == s.dropped
      && |s'.pcs| == |s.pcs| && BeyondRetire(s'.pcs[a.t]) == BeyondRetire(s.pcs[a.t])
      && s'.outstanding <= s.outstanding
      && |s'.completed| + |s'.outstanding| == |s.completed| + |s.outstanding|
      && |s'.completed| + (if AboutToDrop(s.pcs[a.t]) then 1 else 0)
         == |s.completed| + (if AboutToDrop(s'.pcs[a.t]) then 1 else 0)
  {
    hide Next, Moved, MovesAccounts;
    match a
    case Call(t, data) => CallIs(code, s, t, data);
    case Complete(t, id) =>
      CompleteIs(code, s, t, id);
      assert |s.outstanding - {id}| == |s.outstanding| - 1;
    case Submit(t, accept) =>
      SubmitMoves(s, a);
    case Move(t) =>
      MoveIsNext(code, s, t);
      MoveKeepsAccounts(s, t);
  }

  lemma SubmitMoves(s: State, a: Action)
    requires Enabled(s, a) && a.Submit?
    ensures MovesAccounts(s, a)
  {}

  lemma CallIs(code: Data -> Data, s: State, t: nat, data: Data)
    requires Enabled(s, Call(t, data))
    ensures s.pcs[t].Idle? && Next(code, s, Call(t, data)) == At(s, t, WantPush(data))
  {}

  lemma CompleteIs(code: Data -> Data, s: State, t: nat, id: nat)
    requires Enabled(s, Complete(t, id))
    ensures s.pcs[t].Idle? && id in s.outstanding
    ensures Next(code, s, Complete(t, id))
         == At(s, t, WantDrop).(outstanding := s.outstanding - {id}, completed := s.completed + [id])
  {}

  lemma MoveKeepsAccounts(s: State, t: nat)
    requires Enabled(s, Move(t)) && !MovesAccounts(s, Move(t))
    ensures var s' := Moved(s, t);
      && s'.encoded == s.encoded && s'.accepted == s.accepted && s'.refused == s.refused
      && s'.discard == s.discard && s'.dropped == s.dropped
      && |s'.pcs| == |s.pcs| && BeyondRetire(s'.pcs[t]) == BeyondRetire(s.pcs[t])
      && s'.outstanding == s.outstanding && s'.completed == s.completed
      && AboutToDrop(s.pcs[t]) == AboutToDrop(s'.pcs[t])
  {}

  lemma NextAccounted(code: Data -> Data, s: State, a: Action)
    requires Locks(s) && Ordered(code, s) && Accounted(s) && Enabled(s, a)
    ensures Accounted(Next(code, s, a))
  {
    hide Ordered, Range, Locks, Next, Moved, Pending, Droppers, AboutToDrop, BeyondRetire;
    var t := a.t;
    if a.Submit? {
      SubmitAccounted(code, s, t, a.accept);
    } else if a.Move? && s.pcs[t].Retiring? {
      RetireAccounted(code, s, t);
      MoveIsNext(code, s, t);
    } else if a.Move? && s.pcs[t].Dropping? {
      DropAccounted(code, s, t);
      MoveIsNext(code, s, t);
    } else {
      var s' := Next(code, s, a);
      NextLocks(code, s, a);
      OtherStepsKeepAccounts(code, s, a);
      PendingFrame(s, s', t);
      DroppersUpdate(s.pcs, t, s'.pcs[t]);
    }
  }

  lemma ServedStep(code: Data -> Data, s: State, a: Action)
    requires Enabled(s, a)
    ensures var t, s' := a.t, Next(code, s, a);
      && |s'.pcs| == |s.pcs| && s'.pcs == s.pcs[t := s'.pcs[t]]
      && (|s'.sendQueue| > 0 && |s'.discard| == 0 && !WillLook(s'.pcs[t]) ==>
            |s.sendQueue| > 0 && |s.discard| == 0 && !WillLook(s.pcs[t]))
  {}

  lemma NextServed(code: Data -> Data, s: State, a: Action)
    requires Served(s) && Enabled(s, a)
    ensures Served(Next(code, s, a))
  {
    hide Next, WillLook;
    var t, s' := a.t, Next(code, s, a);
    ServedStep(code, s, a);
    if |s'.sendQueue| > 0 && |s'.discard| == 0 && !WillLook(s'.pcs[t]) {
      var u :| 0 <= u < |s.pcs| && WillLook(s.pcs[u]);
      assert WillLook(s'.pcs[u]);
    }
  }

  lemma NextInv(code: Data -> Data, s: State, a: Action)
    requires Inv(code, s) && Enabled(s, a)
    ensures Inv(code, Next(code, s, a))
  {
    hide *;
    InvParts(code, s);
    NextLocks(code, s, a);
    NextOrdered(code, s, a);
    NextAccounted(code, s, a);
    NextServed(code, s, a);
    InvWhole(code, Next(code, s, a));
  }

  lemma InvParts(code: Data -> Data, s: State)
    requires Inv(code, s)
    ensures Locks(s) && Ordered(code, s) && Accounted(s) && Served(s)
  {}

  lemma InvWhole(code: Data -> Data, s: State)
    requires Locks(s) && Ordered(code, s) && Accounted(s) && Served(s)
    ensures Inv(code, s)
  {}

  // ---- Runs ------------------------------------------------------------------------------------

  predicate Run(code: Data -> Data, s: State, actions: seq<Action>)
    decreases |actions|
  {
    |actions| == 0 || (Enabled(s, actions[0]) && Run(code, Next(code, s, actions[0]), actions[1..]))
  }

  function Last(code: Data -> Data, s: State, actions: seq<Action>): State
    requires Run(code, s, actions)
    decreases |actions|
  {
    if |actions| == 0 then s else Last(code, Next(code, s, actions[0]), actions[1..])
  }

  lemma {:induction false} RunInv(code: Data -> Data, s: State, actions: seq<Action>)
    requires Inv(code, s) && Run(code, s, actions)
    ensures Inv(code, Last(code, s, actions))
    decreases |actions|
  {
    hide Inv, Next, Enabled;
    if |actions| > 0 {
      NextInv(code, s, actions[0]);
      RunInv(code, Next(code, s, actions[0]), actions[1..]);
    }
  }

  predicate Quiet(s: State) {
    forall t | 0 <= t < |s.pcs| :: s.pcs[t].Idle?
  }

  /** The invariant holds at the end of every run. */
  lemma ReachableInv(code: Data -> Data, threads: nat, actions: seq<Action>)
    requires Run(code, Start(threads), actions)
    ensures var s := Last(code, Start(threads), actions);
      Locks(s) && Ordered(code, s) && Accounted(s) && Served(s)
  {
    hide *;
    StartInv(code, threads);
    RunInv(code, Start(threads), actions);
    InvParts(code, Last(code, Start(threads), actions));
  }

  /** Nobody is inside, so nothing is half done. */
  lemma QuietHand(s: State)
    requires Locks(s) && Quiet(s)
    ensures Hand(s) == [] && Pending(s) == 0 && Droppers(s.pcs) == 0
  {
    hide HoldsDiscard;
    NoDroppers(s.pcs);
    if s.sendLock.Held? {
      LocksAt(s, s.sendLock.owner);
    }
  }

  ghost predicate InOrder(code: Data -> Data, s: State) {
    && |s.encoded| <= |s.pushed|
    && (forall i | 0 <= i < |s.encoded| :: s.encoded[i] == Item(i, code(s.pushed[i])))
    && (forall i, j | 0 <= i < j < |s.accepted| :: s.accepted[i] < s.accepted[j])
    && (s.refused == 0 ==> s.accepted == Range(0, |s.encoded|))
    && (Quiet(s) ==> |s.encoded| + |s.sendQueue| == |s.pushed|)
  }

  lemma OrderedIsInOrder(code: Data -> Data, s: State)
    requires Locks(s) && Ordered(code, s) && Accounted(s)
    ensures InOrder(code, s)
  {
    hide Locks, Range, Hand, Droppers, Pending;
    if Quiet(s) {
      QuietHand(s);
    }
  }

  /** In every run, each buffer is encoded once and in queue order, and no write is started twice. */
  lemma SentOnceInOrder(code: Data -> Data, threads: nat, actions: seq<Action>)
    requires Run(code, Start(threads), actions)
    ensures InOrder(code, Last(code, Start(threads), actions))
  {
    hide *;
    ReachableInv(code, threads, actions);
    OrderedIsInOrder(code, Last(code, Start(threads), actions));
  }

  lemma QueuedIsServed(s: State)
    requires Locks(s) && Accounted(s) && Served(s) && Quiet(s) && |s.sendQueue| > 0 && s.refused == 0
    ensures s.outstanding != {}
  {
    hide Locks, Droppers, Pending, Hand;
    QuietHand(s);
  }

  /** In every run without a refusal, a queued buffer is never forgotten. */
  lemma NeverStalls(code: Data -> Data, threads: nat, actions: seq<Action>)
    requires Run(code, Start(threads), actions)
    ensures var s := Last(code, Start(threads), actions);
      Quiet(s) && |s.sendQueue| > 0 && s.refused == 0 ==> s.outstanding != {}
  {
    hide *;
    ReachableInv(code, threads, actions);
    var s := Last(code, Start(threads), actions);
    if Quiet(s) && |s.sendQueue| > 0 && s.refused == 0 {
      QueuedIsServed(s);
    }
  }

  lemma LockOwners(s: State)
    requires Locks(s)
    ensures s.sendLock.Held? ==> s.sendLock.owner < |s.pcs|
    ensures s.discardLock.Held? ==> s.discardLock.owner < |s.pcs|
  {
    hide HoldsSend, HoldsDiscard;
  }

  lemma DropperHasBuffer(s: State, t: nat)
    requires Accounted(s) && t < |s.pcs| && s.pcs[t].Dropping?
    ensures |s.discard| > 0
  {
    hide Pending;
    SomeDropper(s.pcs, t);
  }

  /** Whoever holds the discard lock can go on; failing that, whoever holds the send lock; failing that, anyone. */
  lemma SomeoneCanMove(s: State) returns (a: Action)
    requires Locks(s) && Accounted(s) && !Quiet(s)
    ensures (a.Move? || a.Submit?) && Enabled(s, a)
  {
    hide Locks, Accounted;
    LockOwners(s);
    var u :| 0 <= u < |s.pcs| && !s.pcs[u].Idle?;
    var t := if s.discardLock.Held? then s.discardLock.owner
             else if s.sendLock.Held? then s.sendLock.owner else u;
    LocksAt(s, t);
    if s.pcs[t].Dropping? {
      DropperHasBuffer(s, t);
    }
    a := if s.pcs[t].Submitting? then Submit(t, true) else Move(t);
  }

  ghost predicate CanMove(s: State) {
    exists a: Action :: (a.Move? || a.Submit?) && Enabled(s, a)
  }

  /** The two mutexes never deadlock: while some thread is inside, some thread can move. */
  lemma NeverDeadlocks(code: Data -> Data, threads: nat, actions: seq<Action>)
    requires Run(code, Start(threads), actions)
    ensures Quiet(Last(code, Start(threads), actions)) || CanMove(Last(code, Start(threads), actions))
  {
    hide Run, Last, Locks, Accounted, Ordered, Served, Enabled, Quiet;
    ReachableInv(code, threads, actions);
    var s := Last(code, Start(threads), actions);
    if !Quiet(s) {
      var a := SomeoneCanMove(s);
    }
  }

  // ---- Refusals ----------------------------------------------------------------------------------

  /** The thread has seen an empty discard queue, or already has a buffer in hand. */
  predicate Confident(pc: Pc) {
    ((pc.Peeked? || pc.WantSend? || pc.Looking?) && pc.empty) || |InHand(pc)| > 0
  }

  predicate NoneConfident(s: State) {
    forall t | 0 <= t < |s.pcs| :: !Confident(s.pcs[t])
  }

  lemma RefusedStays(s: State)
    requires Accounted(s) && s.refused > 0
    ensures |s.discard| > 0
  {}

  lemma StalledStep(code: Data -> Data, s: State, a: Action)
    requires Enabled(s, a) && |s.discard| > 0 && !Confident(s.pcs[a.t])
    ensures var s' := Next(code, s, a);
      && |s'.pcs| == |s.pcs| && s'.pcs == s.pcs[a.t := s'.pcs[a.t]] && !Confident(s'.pcs[a.t])
      && s'.encoded == s.encoded && s'.accepted == s.accepted && s'.refused == s.refused
  {}

  /** Once OnSend has refused and no thread is past its look at the discard queue, nothing is ever sent again. */
  lemma {:induction false} RefusalStallsForever(code: Data -> Data, s: State, actions: seq<Action>)
    requires Inv(code, s) && s.refused > 0 && NoneConfident(s) && Run(code, s, actions)
    ensures Last(code, s, actions).encoded == s.encoded && Last(code, s, actions).accepted == s.accepted
    decreases |actions|
  {
    hide Ordered, Served, Locks, Enabled, Next, Confident;
    if |actions| > 0 {
      var a := actions[0];
      var s' := Next(code, s, a);
      assert a.t < |s.pcs| by { EnabledThread(s, a); }
      RefusedStays(s);
      StalledStep(code, s, a);
      NextInv(code, s, a);
      RefusalStallsForever(code, s', actions[1..]);
    }
  }

  lemma EnabledThread(s: State, a: Action)
    requires Enabled(s, a)
    ensures a.t < |s.pcs|
  {}

  // ---- Releasing buffers ---------------------------------------------------------------------------

  ghost predicate ReleasesFinishedOnly(s: State) {
    forall id | 0 <= id < s.dropped :: id in s.completed
  }

  lemma FifoReleases(s: State)
    requires Accounted(s) && s.completed == Range(0, |s.completed|)
    ensures ReleasesFinishedOnly(s)
  {
    hide Pending, Droppers;
    forall id | 0 <= id < s.dropped
      ensures id in s.completed
    {
      assert s.completed[id] == id;
    }
  }

  /** When writes complete in the order they were started, no released buffer is still being written. */
  lemma ReleasedAreFinished(code: Data -> Data, threads: nat, actions: seq<Action>)
    requires Run(code, Start(threads), actions)
    ensures var s := Last(code, Start(threads), actions);
      s.completed == Range(0, |s.completed|) ==> ReleasesFinishedOnly(s)
  {
    hide *;
    ReachableInv(code, threads, actions);
    var s := Last(code, Start(threads), actions);
    if s.completed == Range(0, |s.completed|) {
      FifoReleases(s);
    }
  }

  // ---- At most one write? ----------------------------------------------------------------------------

  predicate AtMostOneInside(s: State) {
    forall t, u | 0 <= t < u < |s.pcs| :: s.pcs[t].Idle? || s.pcs[u].Idle?
  }

  predicate AlwaysAtMostOneInside(code: Data -> Data, s: State, actions: seq<Action>)
    requires Run(code, s, actions)
    decreases |actions|
  {
    AtMostOneInside(s) &&
    (|actions| > 0 ==> AlwaysAtMostOneInside(code, Next(code, s, actions[0]), actions[1..]))
  }

  predicate Expecting(pc: Pc) {
    ((pc.Peeked? || pc.WantSend? || pc.Looking?) && pc.empty) || pc.Holding? || pc.Retiring?
  }

  ghost predicate OneWrite(s: State) {
    |s.discard| <= 1 && forall t | 0 <= t < |s.pcs| :: Expecting(s.pcs[t]) ==> |s.discard| == 0
  }

  lemma OneWriteStep(code: Data -> Data, s: State, a: Action)
    requires Enabled(s, a) && |s.discard| <= 1 && (Expecting(s.pcs[a.t]) ==> |s.discard| == 0)
    ensures var s' := Next(code, s, a);
      && |s'.pcs| == |s.pcs| && s'.pcs == s.pcs[a.t := s'.pcs[a.t]] && |s'.discard| <= 1
      && (Expecting(s'.pcs[a.t]) ==> |s'.discard| == 0)
      && (!s.pcs[a.t].Idle? || s'.discard == s.discard)
  {}

  lemma OneWriteKept(code: Data -> Data, s: State, a: Action)
    requires Enabled(s, a) && OneWrite(s) && AtMostOneInside(s) && AtMostOneInside(Next(code, s, a))
    ensures OneWrite(Next(code, s, a))
  {
    hide Next, Enabled, Expecting;
    var t, s' := a.t, Next(code, s, a);
    EnabledThread(s, a);
    OneWriteStep(code, s, a);
    forall u | 0 <= u < |s'.pcs| && Expecting(s'.pcs[u])
      ensures |s'.discard| == 0
    {
      if u != t {
        IdleIsCalm(s.pcs[u]);
        assert s'.pcs[u] == s.pcs[u];
        assert s.pcs[t].Idle?;
      }
    }
  }

  lemma IdleIsCalm(pc: Pc)
    ensures pc.Idle? ==> !Expecting(pc)
  {}

  lemma {:induction false} SerialRunKeepsOneWrite(code: Data -> Data, s: State, actions: seq<Action>)
    requires OneWrite(s) && Run(code, s, actions) && AlwaysAtMostOneInside(code, s, actions)
    ensures OneWrite(Last(code, s, actions))
    decreases |actions|
  {
    hide Next, Enabled, OneWrite, AtMostOneInside;
    if |actions| > 0 {
      OneWriteKept(code, s, actions[0]);
      SerialRunKeepsOneWrite(code, Next(code, s, actions[0]), actions[1..]);
    }
  }

  lemma OneWriteOutstanding(s: State)
    requires Accounted(s) && OneWrite(s)
    ensures |s.outstanding| <= 1
  {
    hide Expecting, Pending, Droppers;
  }

  lemma StartOneWrite(threads: nat)
    ensures OneWrite(Start(threads))
  {}

  /** If threads never overlap inside the pump, at most one write is outstanding. */
  lemma SerialRunsWriteOneAtATime(code: Data -> Data, threads: nat, actions: seq<Action>)
    requires Run(code, Start(threads), actions) && AlwaysAtMostOneInside(code, Start(threads), actions)
    ensures |Last(code, Start(threads), actions).outstanding| <= 1
  {
    hide *;
    ReachableInv(code, threads, actions);
    StartOneWrite(threads);
    SerialRunKeepsOneWrite(code, Start(threads), actions);
    OneWriteOutstanding(Last(code, Start(threads), actions));
  }

  // ---- Two runs that show the limits ------------------------------------------------------------

  lemma {:induction false} Extend(code: Data -> Data, s: State, actions: seq<Action>, a: Action)
    requires Run(code, s, actions) && Enabled(Last(code, s, actions), a)
    ensures Run(code, s, actions + [a])
    ensures Last(code, s, actions + [a]) == Next(code, Last(code, s, actions), a)
    decreases |actions|
  {
    hide Enabled, Next;
    if |actions| == 0 {
      assert Last(code, Next(code, s, a), []) == Next(code, s, a);
      assert (actions + [a])[1..] == [];
    } else {
      Extend(code, Next(code, s, actions[0]), actions[1..], a);
      assert (actions + [a])[1..] == actions[1..] + [a];
    }
  }

  predicate Unlocked(s: State) {
    s.sendLock.Free? && s.discardLock.Free?
  }

  function AfterPeek(s: State, t: nat, data: Data): State
    requires t < |s.pcs|
  {
    At(s, t, WantSend(|s.discard| == 0)).(
      sendQueue := s.sendQueue + [Item(|s.pushed|, data)], pushed := s.pushed + [data])
  }

  function AfterPush(s: State, t: nat, data: Data): State
    requires t < |s.pcs|
  {
    At(s, t, Enter).(sendQueue := s.sendQueue + [Item(|s.pushed|, data)], pushed := s.pushed + [data])
  }

  lemma Push(code: Data -> Data, s0: State, actions: seq<Action>, s: State, t: nat, data: Data)
      returns (more: seq<Action>)
    requires Run(code, s0, actions) && Last(code, s0, actions) == s
    requires t < |s.pcs| && s.pcs[t].Idle? && Unlocked(s)
    ensures Run(code, s0, more) && Last(code, s0, more) == AfterPush(s, t, data)
  {
    hide Run, Last;
    more := actions + [Call(t, data)];
    Extend(code, s0, actions, Call(t, data));
    assert Last(code, s0, more) == At(s, t, WantPush(data));
    more := Go(code, s0, more, t, At(s, t, Pushing(data)).(sendLock := Held(t)));
    more := Go(code, s0, more, t, AfterPush(s, t, data).(pcs := s.pcs[t := Pushed], sendLock := Held(t)));
    more := Go(code, s0, more, t, AfterPush(s, t, data));
  }

  lemma Peek(code: Data -> Data, s0: State, actions: seq<Action>, s: State, t: nat) returns (more: seq<Action>)
    requires Run(code, s0, actions) && Last(code, s0, actions) == s
    requires t < |s.pcs| && s.pcs[t].Enter? && Unlocked(s)
    ensures Run(code, s0, more) && Last(code, s0, more) == At(s, t, WantSend(|s.discard| == 0))
  {
    hide Run, Last;
    more := Go(code, s0, actions, t, At(s, t, Peeking).(discardLock := Held(t)));
    more := Go(code, s0, more, t, At(s, t, Peeked(|s.discard| == 0)).(discardLock := Held(t)));
    more := Go(code, s0, more, t, At(s, t, WantSend(|s.discard| == 0)));
  }

  /** send_data up to the point where the discard queue has been looked at. */
  lemma PushAndPeek(code: Data -> Data, s0: State, actions: seq<Action>, s: State, t: nat, data: Data)
      returns (more: seq<Action>)
    requires Run(code, s0, actions) && Last(code, s0, actions) == s
    requires t < |s.pcs| && s.pcs[t].Idle? && Unlocked(s)
    ensures Run(code, s0, more) && Last(code, s0, more) == AfterPeek(s, t, data)
  {
    hide Run, Last;
    more := Push(code, s0, actions, s, t, data);
    more := Peek(code, s0, more, AfterPush(s, t, data), t);
  }

  /** Lengthens a run by one step of a thread. */
  lemma Go(code: Data -> Data, s0: State, actions: seq<Action>, t: nat, next: State) returns (more: seq<Action>)
    requires Run(code, s0, actions) && Enabled(Last(code, s0, actions), Move(t))
    requires Moved(Last(code, s0, actions), t) == next
    ensures Run(code, s0, more) && Last(code, s0, more) == next
  {
    hide Run, Last, Moved, Enabled;
    more := actions + [Move(t)];
    Extend(code, s0, actions, Move(t));
    MoveIsNext(code, Last(code, s0, actions), t);
  }

  function AfterSend(code: Data -> Data, s: State, t: nat): State
    requires t < |s.pcs| && |s.sendQueue| > 0
  {
    var item := s.sendQueue[0];
    At(s, t, Idle).(
      sendQueue := s.sendQueue[1..], discard := s.discard + [item.id],
      encoded := s.encoded + [Item(item.id, code(item.data))],
      accepted := s.accepted + [item.id], outstanding := s.outstanding + {item.id})
  }

  /** The popped buffer is on the discard queue and the discard lock is free again. */
  function AfterRetire(s: State, t: nat): State
    requires t < |s.pcs| && |s.sendQueue| > 0
  {
    var item := s.sendQueue[0];
    At(s, t, Submitting(item)).(
      sendLock := Held(t), sendQueue := s.sendQueue[1..], discard := s.discard + [item.id])
  }

  lemma Retire(code: Data -> Data, s0: State, actions: seq<Action>, s: State, t: nat) returns (more: seq<Action>)
    requires Run(code, s0, actions) && Last(code, s0, actions) == s
    requires t < |s.pcs| && s.pcs[t] == WantSend(true) && Unlocked(s) && |s.sendQueue| > 0
    ensures Run(code, s0, more) && Last(code, s0, more) == AfterRetire(s, t)
  {
    hide Run, Last;
    var item, q := s.sendQueue[0], s.sendQueue[1..];
    more := Go(code, s0, actions, t, At(s, t, Looking(true)).(sendLock := Held(t)));
    more := Go(code, s0, more, t, At(s, t, Holding(item)).(sendLock := Held(t), sendQueue := q));
    more := Go(code, s0, more, t,
      At(s, t, Retiring(item)).(sendLock := Held(t), discardLock := Held(t), sendQueue := q));
    more := Go(code, s0, more, t,
      AfterRetire(s, t).(pcs := s.pcs[t := Retired(item)], discardLock := Held(t)));
    more := Go(code, s0, more, t, AfterRetire(s, t));
  }

  /** The rest of ProcessSend, for a thread that saw an empty discard queue. */
  lemma SendFront(code: Data -> Data, s0: State, actions: seq<Action>, s: State, t: nat) returns (more: seq<Action>)
    requires Run(code, s0, actions) && Last(code, s0, actions) == s
    requires t < |s.pcs| && s.pcs[t] == WantSend(true) && Unlocked(s) && |s.sendQueue| > 0
    ensures Run(code, s0, more) && Last(code, s0, more) == AfterSend(code, s, t)
  {
    hide Run, Last;
    more := Retire(code, s0, actions, s, t);
    Extend(code, s0, more, Submit(t, true));
    more := more + [Submit(t, true)];
    more := Go(code, s0, more, t, AfterSend(code, s, t));
  }

  /** All threads are out again, nothing has completed, and buffers 0 and 1 are both being written. */
  predicate Overlapping(s: State) {
    && |s.pcs| >= 2 && Quiet(s) && Unlocked(s)
    && s.outstanding == {0, 1} && s.discard == [0, 1] && s.completed == [] && s.dropped == 0
  }

  /** Two callers that both look before either writes: two writes are outstanding on one socket. */
  lemma TwoWritesCanOverlap(code: Data -> Data, threads: nat, x: Data, y: Data) returns (actions: seq<Action>)
    requires threads >= 2
    ensures Run(code, Start(threads), actions) && Overlapping(Last(code, Start(threads), actions))
  {
    hide Run, Last;
    var s0 := Start(threads);
    assert Run(code, s0, []) && Last(code, s0, []) == s0 by { EmptyRun(code, s0); }
    actions := PushAndPeek(code, s0, [], s0, 0, x);
    var s1 := AfterPeek(s0, 0, x);
    actions := PushAndPeek(code, s0, actions, s1, 1, y);
    var s2 := AfterPeek(s1, 1, y);
    actions := SendFront(code, s0, actions, s2, 0);
    var s3 := AfterSend(code, s2, 0);
    actions := SendFront(code, s0, actions, s3, 1);
  }

  lemma EmptyRun(code: Data -> Data, s: State)
    ensures Run(code, s, []) && Last(code, s, []) == s
  {}

  /** If the second of two overlapping writes completes first, the first one's buffer is released under it. */
  lemma LateWriteLosesItsBuffer(code: Data -> Data, threads: nat, x: Data, y: Data) returns (actions: seq<Action>)
    requires threads >= 2
    ensures Run(code, Start(threads), actions)
    ensures var s := Last(code, Start(threads), actions); 0 in s.outstanding && !ReleasesFinishedOnly(s)
  {
    hide Run, Last;
    actions := TwoWritesCanOverlap(code, threads, x, y);
    var s0 := Start(threads);
    var s := Last(code, s0, actions);
    Extend(code, s0, actions, Complete(0, 1));
    actions := actions + [Complete(0, 1)];
    var u := s.(outstanding := {0}, completed := [1]);
    assert s.outstanding - {1} == {0};
    assert Last(code, s0, actions) == At(u, 0, WantDrop);
    actions := Go(code, s0, actions, 0, At(u, 0, Dropping).(discardLock := Held(0)));
    actions := Go(code, s0, actions, 0, At(u, 0, Dropped).(discardLock := Held(0), discard := [1], dropped := 1));
    assert 0 !in Last(code, s0, actions).completed;
  }

  // ---- When the two promises hold ----------------------------------------------------------------

  /** No run with this many threads has two writes outstanding at once. */
  ghost predicate NeverTwoWrites(code: Data -> Data, threads: nat) {
    forall actions | Run(code, Start(threads), actions) :: |Last(code, Start(threads), actions).outstanding| <= 1
  }

  /** No run with this many threads releases a buffer before its write has completed. */
  ghost predicate NeverReleasesEarly(code: Data -> Data, threads: nat) {
    forall actions | Run(code, Start(threads), actions) :: ReleasesFinishedOnly(Last(code, Start(threads), actions))
  }

  lemma {:induction false} FewThreadsNeverOverlap(code: Data -> Data, s: State, actions: seq<Action>)
    requires |s.pcs| <= 1 && Run(code, s, actions)
    ensures AlwaysAtMostOneInside(code, s, actions)
    decreases |actions|
  {
    hide Enabled, Next;
    if |actions| > 0 {
      SameThreads(code, s, actions[0]);
      FewThreadsNeverOverlap(code, Next(code, s, actions[0]), actions[1..]);
    }
  }

  lemma SameThreads(code: Data -> Data, s: State, a: Action)
    requires Enabled(s, a)
    ensures |Next(code, s, a).pcs| == |s.pcs|
  {}

  /** One write at a time, in every run, exactly when at most one thread uses the socket. */
  lemma OneWriteIffOneThread(code: Data -> Data, threads: nat)
    ensures NeverTwoWrites(code, threads) <==> threads <= 1
  {
    hide Run, Last, AlwaysAtMostOneInside;
    if threads <= 1 {
      forall actions | Run(code, Start(threads), actions)
        ensures |Last(code, Start(threads), actions).outstanding| <= 1
      {
        FewThreadsNeverOverlap(code, Start(threads), actions);
        SerialRunsWriteOneAtATime(code, threads, actions);
      }
    } else {
      var actions := TwoWritesCanOverlap(code, threads, [], []);
      assert |Last(code, Start(threads), actions).outstanding| == 2;
    }
  }

  /** Writes are started and completed in the order of the queue, with no gaps. */
  ghost predicate Fifo(s: State) {
    && s.accepted == Range(0, |s.accepted|) && s.completed == Range(0, |s.completed|)
    && forall id | id in s.outstanding :: |s.completed| <= id < |s.accepted|
  }

  /** With one write at a time, a write is only started before any refusal. */
  lemma SubmitBeforeRefusal(code: Data -> Data, s: State, t: nat, accept: bool)
    requires Locks(s) && Ordered(code, s) && Accounted(s) && OneWrite(s) && Enabled(s, Submit(t, accept))
    ensures s.pcs[t].item.id == |s.encoded| == |s.accepted|
  {
    hide Ordered, Locks, Droppers, Hand, Expecting;
    SubmitOrdered(code, s, t, accept);
    HandOfOwner(s, t);
  }

  lemma FifoKept(code: Data -> Data, s: State, a: Action)
    requires Locks(s) && Ordered(code, s) && Accounted(s) && OneWrite(s) && Fifo(s) && Enabled(s, a)
    ensures Fifo(Next(code, s, a))
  {
    hide Ordered, Locks, Accounted, OneWrite, Moved;
    match a
    case Call(t, data) =>
    case Complete(t, id) =>
      OneWriteOutstanding(s);
      WritesAccounted(s);
      OnlyMember(s.outstanding, id);
      RangeAppend(0, |s.completed|);
    case Submit(t, accept) =>
      SubmitBeforeRefusal(code, s, t, accept);
      WritesAccounted(s);
      RangeAppend(0, |s.accepted|);
    case Move(t) => MoveKeepsWrites(s, t);
  }

  lemma OnlyMember(s: set<nat>, id: nat)
    requires |s| <= 1 && id in s
    ensures s == {id} && s - {id} == {}
  {
    assert |s - {id}| == 0;
  }

  lemma WritesAccounted(s: State)
    requires Accounted(s)
    ensures |s.accepted| == |s.completed| + |s.outstanding|
  {
    hide Pending, Droppers;
  }

  lemma MoveKeepsWrites(s: State, t: nat)
    requires Enabled(s, Move(t))
    ensures Moved(s, t).accepted == s.accepted
    ensures Moved(s, t).completed == s.completed && Moved(s, t).outstanding == s.outstanding
  {}

  lemma {:induction false} SerialRunKeepsFifo(code: Data -> Data, s: State, actions: seq<Action>)
    requires Inv(code, s) && OneWrite(s) && Fifo(s) && Run(code, s, actions) && AlwaysAtMostOneInside(code, s, actions)
    ensures Fifo(Last(code, s, actions))
    decreases |actions|
  {
    hide Next, Enabled, Inv, OneWrite, AtMostOneInside, Fifo;
    if |actions| > 0 {
      InvParts(code, s);
      NextInv(code, s, actions[0]);
      OneWriteKept(code, s, actions[0]);
      FifoKept(code, s, actions[0]);
      SerialRunKeepsFifo(code, Next(code, s, actions[0]), actions[1..]);
    }
  }

  lemma StartFifo(threads: nat)
    ensures Fifo(Start(threads))
  {}

  lemma SerialRunsReleaseInTime(code: Data -> Data, threads: nat, actions: seq<Action>)
    requires Run(code, Start(threads), actions) && AlwaysAtMostOneInside(code, Start(threads), actions)
    ensures ReleasesFinishedOnly(Last(code, Start(threads), actions))
  {
    hide Run, Last, AlwaysAtMostOneInside, Inv, OneWrite, ReleasesFinishedOnly;
    StartInv(code, threads);
    StartOneWrite(threads);
    StartFifo(threads);
    SerialRunKeepsFifo(code, Start(threads), actions);
    ReleasedAreFinished(code, threads, actions);
  }

  /** Every buffer outlives its write, in every run, exactly when at most one thread uses the socket. */
  lemma ReleasesInTimeIffOneThread(code: Data -> Data, threads: nat)
    ensures NeverReleasesEarly(code, threads) <==> threads <= 1
  {
    hide Run, Last, AlwaysAtMostOneInside, ReleasesFinishedOnly;
    if threads <= 1 {
      forall actions | Run(code, Start(threads), actions)
        ensures ReleasesFinishedOnly(Last(code, Start(threads), actions))
      {
        FewThreadsNeverOverlap(code, Start(threads), actions);
        SerialRunsReleaseInTime(code, threads, actions);
      }
    } else {
      var actions := LateWriteLosesItsBuffer(code, threads, [], []);
    }
  }

  // ---- When the pump goes on ----------------------------------------------------------------------

  /** A thread that saw something on the discard queue leaves without doing anything. */
  lemma Leave(code: Data -> Data, s0: State, actions: seq<Action>, s: State, t: nat) returns (more: seq<Action>)
    requires Run(code, s0, actions) && Last(code, s0, actions) == s
    requires t < |s.pcs| && s.pcs[t] == WantSend(false) && Unlocked(s)
    ensures Run(code, s0, more) && Last(code, s0, more) == At(s, t, Idle)
  {
    hide Run, Last;
    more := Go(code, s0, actions, t, At(s, t, Looking(false)).(sendLock := Held(t)));
    more := Go(code, s0, more, t, At(s, t, Leaving).(sendLock := Held(t)));
    more := Go(code, s0, more, t, At(s, t, Idle));
  }

  /** Nobody is inside, nothing is being written, and yet a buffer is queued. */
  predicate Stalled(s: State) {
    Quiet(s) && |s.sendQueue| > 0 && s.outstanding == {} && s.refused > 0
  }

  function AfterRefusal(code: Data -> Data, s: State, t: nat): State
    requires t < |s.pcs| && |s.sendQueue| > 0
  {
    var item := s.sendQueue[0];
    At(s, t, Idle).(
      sendQueue := s.sendQueue[1..], discard := s.discard + [item.id],
      encoded := s.encoded + [Item(item.id, code(item.data))], refused := s.refused + 1)
  }

  /** A refused buffer and one more call: the pump has stalled. */
  lemma RefusalReachesStall(code: Data -> Data, threads: nat, x: Data, y: Data) returns (actions: seq<Action>)
    requires threads >= 1
    ensures Run(code, Start(threads), actions) && Stalled(Last(code, Start(threads), actions))
    ensures Last(code, Start(threads), actions).pushed == [x, y]
  {
    hide Run, Last;
    var s0 := Start(threads);
    assert Run(code, s0, []) && Last(code, s0, []) == s0 by { EmptyRun(code, s0); }
    actions := PushAndPeek(code, s0, [], s0, 0, x);
    var s1 := AfterPeek(s0, 0, x);
    actions := Retire(code, s0, actions, s1, 0);
    Extend(code, s0, actions, Submit(0, false));
    actions := actions + [Submit(0, false)];
    var s2 := AfterRefusal(code, s1, 0);
    actions := Go(code, s0, actions, 0, s2);
    actions := PushAndPeek(code, s0, actions, s2, 0, y);
    actions := Leave(code, s0, actions, AfterPeek(s2, 0, y), 0);
  }

  /** One completion handler, up to its look at the discard queue. */
  lemma Retreat(code: Data -> Data, s0: State, actions: seq<Action>, s: State, t: nat, id: nat)
      returns (more: seq<Action>)
    requires Run(code, s0, actions) && Last(code, s0, actions) == s
    requires t < |s.pcs| && s.pcs[t].Idle? && Unlocked(s) && id in s.outstanding && |s.discard| > 0
    ensures Run(code, s0, more) && Last(code, s0, more) == At(Finished(s, id), t, WantSend(|s.discard| == 1))
  {
    hide Run, Last;
    Extend(code, s0, actions, Complete(t, id));
    more := actions + [Complete(t, id)];
    var u := s.(outstanding := s.outstanding - {id}, completed := s.completed + [id]);
    var v := Finished(s, id);
    assert Last(code, s0, more) == At(u, t, WantDrop);
    more := Go(code, s0, more, t, At(u, t, Dropping).(discardLock := Held(t)));
    more := Go(code, s0, more, t, At(v, t, Dropped).(discardLock := Held(t)));
    more := Go(code, s0, more, t, At(v, t, Enter));
    more := Peek(code, s0, more, At(v, t, Enter), t);
  }

  /** The write has completed and the front of the discard queue is gone. */
  function Finished(s: State, id: nat): State
    requires |s.discard| > 0
  {
    s.(outstanding := s.outstanding - {id}, completed := s.completed + [id],
       discard := s.discard[1..], dropped := s.dropped + 1)
  }

  function FrontEncoded(code: Data -> Data, s: State): seq<Item>
    requires |s.sendQueue| > 0
  {
    s.encoded + [Item(s.sendQueue[0].id, code(s.sendQueue[0].data))]
  }

  /** Completing one outstanding write after the other, one thread gets to the front of the send queue. */
  lemma {:induction false} DrainThenSend(code: Data -> Data, s0: State, actions: seq<Action>, s: State)
      returns (more: seq<Action>)
    requires Run(code, s0, actions) && Last(code, s0, actions) == s
    requires |s.pcs| > 0 && s.pcs[0].Idle? && Unlocked(s) && |s.sendQueue| > 0
    requires |s.discard| == |s.outstanding| > 0
    ensures Run(code, s0, more) && Last(code, s0, more).encoded == FrontEncoded(code, s)
    decreases |s.outstanding|
  {
    hide Run, Last;
    var id :| id in s.outstanding;
    var v := Finished(s, id);
    more := Retreat(code, s0, actions, s, 0, id);
    if |s.discard| == 1 {
      more := SendFront(code, s0, more, At(v, 0, WantSend(true)), 0);
    } else {
      more := Leave(code, s0, more, At(v, 0, WantSend(false)), 0);
      more := DrainThenSend(code, s0, more, At(v, 0, Idle));
    }
  }

  lemma QuietIsFree(s: State)
    requires Locks(s) && Accounted(s) && Quiet(s)
    ensures Unlocked(s) && NoneConfident(s)
    ensures s.refused == 0 ==> |s.discard| == |s.outstanding|
  {
    hide HoldsSend, HoldsDiscard, Droppers, Hand, Pending;
    QuietHand(s);
    LockOwners(s);
    assert !HoldsSend(Idle) && !HoldsDiscard(Idle) by { IdleHoldsNothing(); }
  }

  lemma IdleHoldsNothing()
    ensures !HoldsSend(Idle) && !HoldsDiscard(Idle)
  {}

  /** Without threads nothing ever happens. */
  lemma SomeThread(code: Data -> Data, threads: nat, actions: seq<Action>)
    requires Run(code, Start(threads), actions) && |Last(code, Start(threads), actions).sendQueue| > 0
    ensures |Last(code, Start(threads), actions).pcs| > 0
  {
    hide Enabled, Next;
    if threads == 0 && |actions| > 0 {
      EnabledThread(Start(0), actions[0]);
    }
    if threads > 0 {
      RunSameThreads(code, Start(threads), actions);
    }
  }

  lemma {:induction false} RunSameThreads(code: Data -> Data, s: State, actions: seq<Action>)
    requires Run(code, s, actions)
    ensures |Last(code, s, actions).pcs| == |s.pcs|
    decreases |actions|
  {
    hide Enabled, Next;
    if |actions| > 0 {
      SameThreads(code, s, actions[0]);
      RunSameThreads(code, Next(code, s, actions[0]), actions[1..]);
    }
  }

  /** Some way of going on encodes the front of the send queue. */
  ghost predicate CanEncodeFront(code: Data -> Data, s: State) {
    |s.sendQueue| > 0 && exists more :: Run(code, s, more) && FrontEncoded(code, s) <= Last(code, s, more).encoded
  }

  /** Between calls, the pump can go on with what is queued exactly when OnSend has never refused. */
  lemma AliveIffNeverRefused(code: Data -> Data, threads: nat, actions: seq<Action>)
    requires Run(code, Start(threads), actions)
    ensures var s := Last(code, Start(threads), actions);
      Quiet(s) && |s.sendQueue| > 0 ==> (CanEncodeFront(code, s) <==> s.refused == 0)
  {
    hide Run, Last, Locks, Accounted, Ordered, Served, Inv, Quiet, FrontEncoded;
    var s := Last(code, Start(threads), actions);
    ReachableInv(code, threads, actions);
    if Quiet(s) && |s.sendQueue| > 0 {
      QuietIsFree(s);
      if s.refused == 0 {
        QueuedIsServed(s);
        SomeThread(code, threads, actions);
        assert s.pcs[0].Idle? by { QuietAt(s, 0); }
        EmptyRun(code, s);
        var more := DrainThenSend(code, s, [], s);
      } else {
        InvWhole(code, s);
        forall more | Run(code, s, more)
          ensures !(FrontEncoded(code, s) <= Last(code, s, more).encoded)
        {
          RefusalStallsForever(code, s, more);
          FrontIsMore(code, s);
        }
      }
    }
  }

  lemma QuietAt(s: State, t: nat)
    requires Quiet(s) && t < |s.pcs|
    ensures s.pcs[t].Idle?
  {}

  lemma FrontIsMore(code: Data -> Data, s: State)
    requires |s.sendQueue| > 0
    ensures |FrontEncoded(code, s)| == |s.encoded| + 1
  {}

  // ---- Every call is queued -------------------------------------------------------------------------

  function DataOf(pc: Pc): multiset<Data> {
    if pc.WantPush? || pc.Pushing? then multiset{pc.data} else multiset{}
  }

  /** The buffers of threads that have called send_data and not yet queued theirs. */
  function OnTheWay(pcs: seq<Pc>): multiset<Data> {
    if |pcs| == 0 then multiset{} else OnTheWay(pcs[..|pcs| - 1]) + DataOf(pcs[|pcs| - 1])
  }

  /** The buffers given to send_data in a run. */
  function Called(actions: seq<Action>): multiset<Data> {
    if |actions| == 0 then multiset{}
    else NewCall(actions[0]) + Called(actions[1..])
  }

  lemma AddBoth(a: multiset<Data>, b: multiset<Data>, c: multiset<Data>, d: multiset<Data>, more: multiset<Data>)
    requires a + b == c + d
    ensures a + more + b == c + more + d
  {
    assert a + more + b == (a + b) + more;
    assert c + more + d == (c + d) + more;
  }

  lemma {:induction false} OnTheWayUpdate(pcs: seq<Pc>, t: nat, pc: Pc)
    requires t < |pcs|
    ensures OnTheWay(pcs[t := pc]) + DataOf(pcs[t]) == OnTheWay(pcs) + DataOf(pc)
    decreases |pcs|
  {
    hide DataOf;
    var n := |pcs| - 1;
    if t == n {
      assert pcs[t := pc][..n] == pcs[..n];
    } else {
      OnTheWayUpdate(pcs[..n], t, pc);
      assert pcs[t := pc][..n] == pcs[..n][t := pc];
      AddBoth(OnTheWay(pcs[..n][t := pc]), DataOf(pcs[t]), OnTheWay(pcs[..n]), DataOf(pc), DataOf(pcs[n]));
    }
  }

  function NewCall(a: Action): multiset<Data> {
    if a.Call? then multiset{a.data} else multiset{}
  }

  lemma MoveQueues(s: State, t: nat)
    requires Enabled(s, Move(t))
    ensures var s' := Moved(s, t);
      && s'.pcs == s.pcs[t := s'.pcs[t]] && |s'.pcs| == |s.pcs|
      && multiset(s'.pushed) + DataOf(s'.pcs[t]) == multiset(s.pushed) + DataOf(s.pcs[t])
  {
    hide Pops, WantsSend, WantsDiscard;
    var pc := s.pcs[t];
    assert s.pushed + [] == s.pushed;
    if pc.Pushing? {
      assert multiset(s.pushed + [pc.data]) == multiset(s.pushed) + multiset{pc.data};
    }
  }

  lemma StepQueues(code: Data -> Data, s: State, a: Action)
    requires Enabled(s, a)
    ensures var s', t := Next(code, s, a), a.t;
      && s'.pcs == s.pcs[t := s'.pcs[t]] && |s'.pcs| == |s.pcs|
      && multiset(s'.pushed) + DataOf(s'.pcs[t]) == multiset(s.pushed) + DataOf(s.pcs[t]) + NewCall(a)
  {
    hide Moved;
    if a.Move? {
      MoveQueues(s, a.t);
    }
  }

  lemma Balance(p0: multiset<Data>, p1: multiset<Data>, o0: multiset<Data>, o1: multiset<Data>,
                d0: multiset<Data>, d1: multiset<Data>, call: multiset<Data>)
    requires p1 + d1 == p0 + d0 + call && o1 + d0 == o0 + d1
    ensures p1 + o1 == p0 + o0 + call
  {
    forall x: Data
      ensures (p1 + o1)[x] == (p0 + o0 + call)[x]
    {
      assert (p1 + d1)[x] == (p0 + d0 + call)[x];
      assert (o1 + d0)[x] == (o0 + d1)[x];
    }
  }

  lemma {:induction false} RunQueues(code: Data -> Data, s: State, actions: seq<Action>)
    requires Run(code, s, actions)
    ensures var s' := Last(code, s, actions);
      multiset(s'.pushed) + OnTheWay(s'.pcs) == multiset(s.pushed) + OnTheWay(s.pcs) + Called(actions)
    decreases |actions|
  {
    hide Enabled, Next, DataOf, OnTheWay, NewCall;
    if |actions| > 0 {
      var a := actions[0];
      var next := Next(code, s, a);
      EnabledThread(s, a);
      StepQueues(code, s, a);
      OnTheWayUpdate(s.pcs, a.t, next.pcs[a.t]);
      Balance(multiset(s.pushed), multiset(next.pushed), OnTheWay(s.pcs), OnTheWay(next.pcs),
        DataOf(s.pcs[a.t]), DataOf(next.pcs[a.t]), NewCall(a));
      RunQueues(code, next, actions[1..]);
      assert Called(actions) == NewCall(a) + Called(actions[1..]);
    }
  }

  /** In every run, what was given to send_data is queued or with a thread about to queue it: nothing is dropped. */
  lemma EveryCallIsQueued(code: Data -> Data, threads: nat, actions: seq<Action>)
    requires Run(code, Start(threads), actions)
    ensures var s := Last(code, Start(threads), actions);
      && multiset(s.pushed) + OnTheWay(s.pcs) == Called(actions)
      && (Quiet(s) ==> multiset(s.pushed) == Called(actions))
  {
    hide Run, Last, Called;
    RunQueues(code, Start(threads), actions);
    NobodyOnTheWay(Start(threads).pcs);
    var s := Last(code, Start(threads), actions);
    if Quiet(s) {
      NobodyOnTheWay(s.pcs);
    }
  }

  lemma {:induction false} NobodyOnTheWay(pcs: seq<Pc>)
    requires forall t | 0 <= t < |pcs| :: pcs[t].Idle?
    ensures OnTheWay(pcs) == multiset{}
  {
    if |pcs| > 0 {
      NobodyOnTheWay(pcs[..|pcs| - 1]);
    }
  }
}
