/** The answers to block requests of a peer: `src/BtRequestMessage.cc`, `src/BtPieceMessage.cc`,
    `src/BtCancelMessage.cc`, the message queue of `src/DefaultBtMessageDispatcher.cc` and the
    choke decision of `src/DefaultBtInteractive.cc`; the peer may ask for an allowed fast index
    once the message that offers it has been sent (`src/BtAllowedFastMessage.cc`). With the fast
    extension (BEP 6) every request is to be answered once, by a piece or by a reject. */
module BtAnswers {

  /** The block that a request, piece, cancel or reject message names. */
  datatype Block = Block(index: nat, begin: int, length: int)

  datatype Message =
    | Piece(block: Block, invalidate: bool)
    | Reject(block: Block)
    | Choke
    | Unchoke
    | AllowedFast(index: nat)

  // ---------- what a queue answers ----------

  /** The blocks that the messages answer for; an invalidated piece is never sent. */
  function Answers(q: seq<Message>): multiset<Block> {
    if q == [] then multiset{}
    else Answers(q[..|q| - 1]) + Answer(q[|q| - 1])
  }

  function Answer(m: Message): multiset<Block> {
    match m
    case Piece(b, invalidate) => if invalidate then multiset{} else multiset{b}
    case Reject(b) => multiset{b}
    case _ => multiset{}
  }

  lemma {:induction false} AnswersAppend(p: seq<Message>, q: seq<Message>)
    ensures Answers(p + q) == Answers(p) + Answers(q)
  {
    if q == [] {
      assert p + q == p;
    } else {
      assert (p + q)[..|p + q| - 1] == p + q[..|q| - 1];
      AnswersAppend(p, q[..|q| - 1]);
    }
  }

  // ---------- revoking pieces ----------

  /** What the messages of the queue are told: that the peer is choked, except for the allowed
      indexes, or that it has cancelled a block. */
  datatype Event = Choking(allowed: set<nat>) | CancelSendingPiece(block: Block)

  predicate Concerns(e: Event, b: Block) {
    match e
    case Choking(allowed) => b.index !in allowed
    case CancelSendingPiece(c) => b == c
  }

  predicate Revokes(e: Event, m: Message) {
    m.Piece? && !m.invalidate && Concerns(e, m.block)
  }

  /** The queue with its pieces for the blocks invalidated. */
  function Revoked(e: Event, q: seq<Message>): (r: seq<Message>)
    ensures |r| == |q|
    ensures forall i :: 0 <= i < |q| ==> r[i] == if Revokes(e, q[i]) then Piece(q[i].block, true) else q[i]
  {
    if q == [] then []
    else
      var last := q[|q| - 1];
      Revoked(e, q[..|q| - 1]) + [if Revokes(e, last) then Piece(last.block, true) else last]
  }

  /** The rejects for them. */
  function Rejects(e: Event, q: seq<Message>): seq<Message> {
    if q == [] then []
    else
      var last := q[|q| - 1];
      Rejects(e, q[..|q| - 1]) + if Revokes(e, last) then [Reject(last.block)] else []
  }

  /** The queue after an event that revokes pieces. */
  function AfterEvent(e: Event, fast: bool, q: seq<Message>): seq<Message> {
    Revoked(e, q) + if fast then Rejects(e, q) else []
  }

  lemma AnswersLast(q: seq<Message>, m: Message)
    ensures Answers(q + [m]) == Answers(q) + Answer(m)
  {
    assert (q + [m])[..|q|] == q;
  }

  lemma MoveRight<T>(a: multiset<T>, b: multiset<T>, x: multiset<T>)
    ensures a + (b + x) == (a + b) + x && (a + x) + b == (a + b) + x
  {
  }

  /** A revoked piece is answered by its reject. */
  lemma {:induction false} RevokedAnswers(e: Event, q: seq<Message>)
    ensures Answers(Revoked(e, q)) + Answers(Rejects(e, q)) == Answers(q)
  {
    if q != [] {
      var init, last := q[..|q| - 1], q[|q| - 1];
      RevokedAnswers(e, init);
      if Revokes(e, last) {
        AnswersLast(Revoked(e, init), Piece(last.block, true));
        AnswersLast(Rejects(e, init), Reject(last.block));
        MoveRight(Answers(Revoked(e, init)), Answers(Rejects(e, init)), multiset{last.block});
      } else {
        AnswersLast(Revoked(e, init), last);
        assert Rejects(e, init) + [] == Rejects(e, init);
        MoveRight(Answers(Revoked(e, init)), Answers(Rejects(e, init)), Answer(last));
      }
    }
  }

  /** With the fast extension an event answers for exactly what it takes back. */
  lemma EventAnswers(e: Event, q: seq<Message>)
    ensures Answers(AfterEvent(e, true, q)) == Answers(q)
  {
    RevokedAnswers(e, q);
    AnswersAppend(Revoked(e, q), Rejects(e, q));
  }

  lemma {:induction false} RejectsAreRejects(e: Event, q: seq<Message>, m: Message)
    requires m in Rejects(e, q)
    ensures m.Reject?
  {
    var init := q[..|q| - 1];
    if m in Rejects(e, init) {
      RejectsAreRejects(e, init, m);
    }
  }

  /** After the event no valid piece is left for the blocks. */
  lemma EventRevokes(e: Event, fast: bool, q: seq<Message>, b: Block)
    ensures Piece(b, false) in AfterEvent(e, fast, q) <==> Piece(b, false) in q && !Concerns(e, b)
  {
    if Piece(b, false) in Rejects(e, q) {
      RejectsAreRejects(e, q, Piece(b, false));
    }
    if Piece(b, false) in q && !Concerns(e, b) {
      var i :| 0 <= i < |q| && q[i] == Piece(b, false);
      assert Revoked(e, q)[i] == Piece(b, false);
    }
  }

  /** After a cancel no piece for the block is left to be sent. */
  lemma CancelLeavesNone(fast: bool, q: seq<Message>, b: Block)
    ensures Piece(b, false) !in AfterEvent(CancelSendingPiece(b), fast, q)
  {
    EventRevokes(CancelSendingPiece(b), fast, q, b);
  }

  // ---------- sending ----------

  /** Whether the speed limit is exceeded when the turn of message `n` comes. */
  predicate Exceeds(exceeds: seq<bool>, n: nat) {
    n < |exceeds| && exceeds[n]
  }

  /** The uploads of a queue that the speed limit holds back. */
  function HeldBack(exceeds: seq<bool>, q: seq<Message>): seq<Message> {
    if q == [] then []
    else
      var n := |q| - 1;
      HeldBack(exceeds, q[..n]) + if q[n].Piece? && Exceeds(exceeds, n) then [q[n]] else []
  }

  /** The messages of a queue that go to the connection. */
  function Through(exceeds: seq<bool>, q: seq<Message>): seq<Message> {
    if q == [] then []
    else
      var n := |q| - 1;
      Through(exceeds, q[..n]) + if q[n].Piece? && (Exceeds(exceeds, n) || q[n].invalidate) then [] else [q[n]]
  }

  /** Sending loses no answer and repeats none. */
  lemma {:induction false} SendingAnswers(exceeds: seq<bool>, q: seq<Message>)
    ensures Answers(HeldBack(exceeds, q)) + Answers(Through(exceeds, q)) == Answers(q)
  {
    if q != [] {
      var n := |q| - 1;
      var held, through := HeldBack(exceeds, q[..n]), Through(exceeds, q[..n]);
      SendingAnswers(exceeds, q[..n]);
      assert held + [] == held && through + [] == through;
      if q[n].Piece? && Exceeds(exceeds, n) {
        AnswersLast(held, q[n]);
      } else if !(q[n].Piece? && q[n].invalidate) {
        AnswersLast(through, q[n]);
      }
      MoveRight(Answers(held), Answers(through), Answer(q[n]));
    }
  }

  /** Without a limit the whole queue goes out in order, but for the invalidated pieces. */
  lemma {:induction false} AllThrough(exceeds: seq<bool>, q: seq<Message>)
    requires forall i :: 0 <= i < |exceeds| ==> !exceeds[i]
    ensures HeldBack(exceeds, q) == []
  {
    if q != [] {
      AllThrough(exceeds, q[..|q| - 1]);
    }
  }

  lemma {:induction false} HeldBackFrom(exceeds: seq<bool>, q: seq<Message>, m: Message)
    requires m in HeldBack(exceeds, q)
    ensures m in q && m.Piece?
  {
    var n := |q| - 1;
    if m in HeldBack(exceeds, q[..n]) {
      HeldBackFrom(exceeds, q[..n], m);
    }
  }

  lemma {:induction false} ThroughFrom(exceeds: seq<bool>, q: seq<Message>, m: Message)
    requires m in Through(exceeds, q)
    ensures m in q && !(m.Piece? && m.invalidate)
  {
    var n := |q| - 1;
    if m in Through(exceeds, q[..n]) {
      ThroughFrom(exceeds, q[..n], m);
    }
  }

  // ---------- what a choked peer may get ----------

  /** The indexes of the valid pieces. */
  function Indexes(q: seq<Message>): set<nat> {
    set m | m in q && m.Piece? && !m.invalidate :: m.block.index
  }

  lemma IndexesMore(q: seq<Message>, m: Message)
    ensures Indexes(q + [m]) == Indexes(q) + if m.Piece? && !m.invalidate then {m.block.index} else {}
  {
  }

  /** What is left in the queue after a choke is allowed; a cancel adds nothing. */
  lemma IndexesEvent(e: Event, fast: bool, q: seq<Message>)
    ensures Indexes(AfterEvent(e, fast, q)) <= Indexes(q)
    ensures e.Choking? ==> Indexes(AfterEvent(e, fast, q)) <= e.allowed
  {
    forall m | m in AfterEvent(e, fast, q) && m.Piece? && !m.invalidate
      ensures m in q && !Concerns(e, m.block)
    {
      EventRevokes(e, fast, q, m.block);
    }
  }

  lemma IndexesSend(exceeds: seq<bool>, q: seq<Message>)
    ensures Indexes(HeldBack(exceeds, q)) <= Indexes(q)
    ensures Indexes(Through(exceeds, q)) <= Indexes(q)
  {
    forall m | m in HeldBack(exceeds, q)
      ensures m in q
    {
      HeldBackFrom(exceeds, q, m);
    }
    forall m | m in Through(exceeds, q)
      ensures m in q
    {
      ThroughFrom(exceeds, q, m);
    }
  }

  // ---------- telling the messages one by one ----------

  /** The queue after message `i` has been told. */
  function ToldOne(e: Event, fast: bool, q: seq<Message>, i: nat): (r: seq<Message>)
    requires i < |q|
    ensures |r| >= |q|
  {
    if Revokes(e, q[i]) then
      (q + if fast then [Reject(q[i].block)] else [])[i := Piece(q[i].block, true)]
    else q
  }

  /** The queue after the first `i` messages have been told. */
  function Told(e: Event, fast: bool, q: seq<Message>, i: nat): (r: seq<Message>)
    requires i <= |q|
    ensures |r| >= |q|
  {
    if i == 0 then q else ToldOne(e, fast, Told(e, fast, q, i - 1), i - 1)
  }

  function Partly(e: Event, fast: bool, q: seq<Message>, i: nat): (r: seq<Message>)
    requires i <= |q|
    ensures |r| >= |q| && forall k :: i <= k < |q| ==> r[k] == q[k]
  {
    Revoked(e, q[..i]) + q[i..] + if fast then Rejects(e, q[..i]) else []
  }

  lemma PartlyMore(e: Event, fast: bool, q: seq<Message>, i: nat)
    requires i < |q|
    ensures Partly(e, fast, q, i + 1) == ToldOne(e, fast, Partly(e, fast, q, i), i)
  {
    assert q[..i + 1][..i] == q[..i];
  }

  lemma {:induction false} ToldPartly(e: Event, fast: bool, q: seq<Message>, i: nat)
    requires i <= |q|
    ensures Told(e, fast, q, i) == Partly(e, fast, q, i)
  {
    if i == 0 {
      PartlyNone(e, fast, q);
    } else {
      ToldPartly(e, fast, q, i - 1);
      PartlyMore(e, fast, q, i - 1);
    }
  }

  lemma PartlyNone(e: Event, fast: bool, q: seq<Message>)
    ensures Partly(e, fast, q, 0) == q
  {
  }

  /** Telling all messages one by one is the event on the whole queue. */
  lemma ToldAll(e: Event, fast: bool, q: seq<Message>)
    ensures Told(e, fast, q, |q|) == AfterEvent(e, fast, q)
  {
    ToldPartly(e, fast, q, |q|);
    assert q[..|q|] == q;
  }

  // ---------- the session as a state machine ----------

  /** The queue, what has been handed to the connection, and what the peer may ask for. */
  datatype State = State(queue: seq<Message>, sent: seq<Message>, amChoking: bool, amAllowed: set<nat>)

  const START: State := State([], [], true, {})

  datatype Step =
    | ReceiveRequest(block: Block, hasPiece: bool)
    | ReceiveCancel(block: Block)
    | DecideChoking(shouldBeChoking: bool)
    | QueueAllowedFast(index: nat)
    | AllowedFastSent(index: nat)
    | SendMessages(exceeds: seq<bool>)

  /** The answer to a request: the piece if the peer may have it, or else a reject. */
  function Reply(fast: bool, s: State, b: Block, hasPiece: bool): seq<Message> {
    if hasPiece && (!s.amChoking || b.index in s.amAllowed) then [Piece(b, false)]
    else if fast then [Reject(b)]
    else []
  }

  function Choked(fast: bool, s: State): State {
    s.(amChoking := true, queue := AfterEvent(Choking(s.amAllowed), fast, s.queue) + [Choke])
  }

  /** One step outside metadata mode. */
  function Next(fast: bool, s: State, step: Step): State {
    match step
    case ReceiveRequest(b, hasPiece) => s.(queue := s.queue + Reply(fast, s, b, hasPiece))
    case ReceiveCancel(b) => s.(queue := AfterEvent(CancelSendingPiece(b), fast, s.queue))
    case DecideChoking(shouldBeChoking) =>
      if shouldBeChoking == s.amChoking then s
      else if shouldBeChoking then Choked(fast, s)
      else s.(amChoking := false, queue := s.queue + [Unchoke])
    case QueueAllowedFast(i) => s.(queue := s.queue + [AllowedFast(i)])
    case AllowedFastSent(i) => if AllowedFast(i) in s.sent then s.(amAllowed := s.amAllowed + {i}) else s
    case SendMessages(exceeds) => s.(queue := HeldBack(exceeds, s.queue), sent := s.sent + Through(exceeds, s.queue))
  }

  function Run(fast: bool, steps: seq<Step>): State {
    if steps == [] then START
    else Next(fast, Run(fast, steps[..|steps| - 1]), steps[|steps| - 1])
  }

  // ---------- each request has one answer ----------

  /** The requests that a step brings. */
  function Requested(step: Step): multiset<Block> {
    if step.ReceiveRequest? then multiset{step.block} else multiset{}
  }

  function Received(steps: seq<Step>): multiset<Block> {
    if steps == [] then multiset{}
    else Received(steps[..|steps| - 1]) + Requested(steps[|steps| - 1])
  }

  lemma ReplyAnswers(s: State, b: Block, hasPiece: bool)
    ensures Answers(s.queue + Reply(true, s, b, hasPiece)) == Answers(s.queue) + multiset{b}
  {
    var r := Reply(true, s, b, hasPiece);
    AnswersLast(s.queue, r[0]);
    assert r == [r[0]];
  }

  lemma NoMore(a: multiset<Block>)
    ensures a + multiset{} == a
  {
  }

  lemma OtherAnswers(q: seq<Message>, m: Message)
    requires !m.Piece? && !m.Reject?
    ensures Answers(q + [m]) == Answers(q)
  {
    AnswersLast(q, m);
    NoMore(Answers(q));
  }

  lemma DecidedQueue(s: State, shouldBeChoking: bool)
    ensures Next(true, s, DecideChoking(shouldBeChoking)).queue
         == if shouldBeChoking == s.amChoking then s.queue
            else if shouldBeChoking then AfterEvent(Choking(s.amAllowed), true, s.queue) + [Choke]
            else s.queue + [Unchoke]
  {
  }

  lemma DecisionAnswers(s: State, shouldBeChoking: bool)
    ensures Answers(Next(true, s, DecideChoking(shouldBeChoking)).queue) == Answers(s.queue)
  {
    DecidedQueue(s, shouldBeChoking);
    if shouldBeChoking {
      EventAnswers(Choking(s.amAllowed), s.queue);
      OtherAnswers(AfterEvent(Choking(s.amAllowed), true, s.queue), Choke);
    } else {
      OtherAnswers(s.queue, Unchoke);
    }
  }

  lemma NextQueueAnswers(s: State, step: Step)
    requires !step.SendMessages?
    ensures Answers(Next(true, s, step).queue) == Answers(s.queue) + Requested(step)
  {
    NoMore(Answers(s.queue));
    match step
    case ReceiveRequest(b, hasPiece) =>
      ReplyAnswers(s, b, hasPiece);
    case ReceiveCancel(b) =>
      EventAnswers(CancelSendingPiece(b), s.queue);
    case DecideChoking(shouldBeChoking) =>
      DecisionAnswers(s, shouldBeChoking);
    case QueueAllowedFast(i) =>
      OtherAnswers(s.queue, AllowedFast(i));
    case AllowedFastSent(i) =>
  }

  lemma SumMoves<T>(a: multiset<T>, b: multiset<T>, c: multiset<T>)
    ensures (a + c) + b == (a + (b + c)) + multiset{}
  {
  }

  lemma SendStepAnswers(s: State, step: Step, t: State)
    requires step.SendMessages? && t == Next(true, s, step)
    ensures Answers(t.sent) + Answers(t.queue) == (Answers(s.sent) + Answers(s.queue)) + Requested(step)
  {
    var through := Through(step.exceeds, s.queue);
    SendingAnswers(step.exceeds, s.queue);
    AnswersAppend(s.sent, through);
    SumMoves(Answers(s.sent), Answers(t.queue), Answers(through));
  }

  lemma SentKept(s: State, step: Step, t: State)
    requires !step.SendMessages? && t == Next(true, s, step)
    ensures t.sent == s.sent
  {
  }

  lemma QueueMore(sent: seq<Message>, q: seq<Message>, r: seq<Message>, more: multiset<Block>)
    requires Answers(r) == Answers(q) + more
    ensures Answers(sent) + Answers(r) == (Answers(sent) + Answers(q)) + more
  {
    MoveRight(Answers(sent), Answers(q), more);
  }

  lemma OtherStepAnswers(s: State, step: Step, t: State)
    requires !step.SendMessages? && t == Next(true, s, step)
    ensures Answers(t.sent) + Answers(t.queue) == (Answers(s.sent) + Answers(s.queue)) + Requested(step)
  {
    SentKept(s, step, t);
    NextQueueAnswers(s, step);
    QueueMore(s.sent, s.queue, t.queue, Requested(step));
  }

  lemma NextAnswers(s: State, step: Step, t: State)
    requires t == Next(true, s, step)
    ensures Answers(t.sent) + Answers(t.queue) == (Answers(s.sent) + Answers(s.queue)) + Requested(step)
  {
    if step.SendMessages? {
      SendStepAnswers(s, step, t);
    } else {
      OtherStepAnswers(s, step, t);
    }
  }

  /** Conservation: with the fast extension, after any run, the requests received are those
      answered on the connection and those whose answer is in the queue, each once. */
  lemma {:induction false} EachRequestOneAnswer(steps: seq<Step>)
    ensures var s := Run(true, steps); Received(steps) == Answers(s.sent) + Answers(s.queue)
  {
    if steps != [] {
      var init := steps[..|steps| - 1];
      EachRequestOneAnswer(init);
      NextAnswers(Run(true, init), steps[|steps| - 1], Run(true, steps));
    }
  }

  /** When the queue has drained, the answers sent are exactly the requests received. */
  lemma DrainedQueueAnsweredAll(steps: seq<Step>)
    requires Run(true, steps).queue == []
    ensures Answers(Run(true, steps).sent) == Received(steps)
  {
    EachRequestOneAnswer(steps);
  }

  // ---------- a choked peer gets only what it is allowed ----------

  lemma NextAllowed(fast: bool, s: State, step: Step)
    requires s.amChoking ==> Indexes(s.queue) <= s.amAllowed
    ensures var t := Next(fast, s, step); t.amChoking ==> Indexes(t.queue) <= t.amAllowed
  {
    match step
    case ReceiveRequest(b, hasPiece) =>
      assert s.queue + [] == s.queue;
      IndexesMore(s.queue, Piece(b, false));
      IndexesMore(s.queue, Reject(b));
    case ReceiveCancel(b) =>
      IndexesEvent(CancelSendingPiece(b), fast, s.queue);
    case DecideChoking(shouldBeChoking) =>
      IndexesEvent(Choking(s.amAllowed), fast, s.queue);
      IndexesMore(AfterEvent(Choking(s.amAllowed), fast, s.queue), Choke);
    case QueueAllowedFast(i) =>
      IndexesMore(s.queue, AllowedFast(i));
    case AllowedFastSent(i) =>
    case SendMessages(exceeds) =>
      IndexesSend(exceeds, s.queue);
  }

  lemma {:induction false} ChokedQueueIsAllowed(fast: bool, steps: seq<Step>)
    ensures var s := Run(fast, steps); s.amChoking ==> Indexes(s.queue) <= s.amAllowed
  {
    if steps != [] {
      var init := steps[..|steps| - 1];
      ChokedQueueIsAllowed(fast, init);
      NextAllowed(fast, Run(fast, init), steps[|steps| - 1]);
    }
  }

  /** The indexes that the messages offer to the peer. */
  function Offered(q: seq<Message>): set<nat> {
    set m | m in q && m.AllowedFast? :: m.index
  }

  lemma NextOffered(fast: bool, s: State, step: Step)
    requires s.amAllowed <= Offered(s.sent)
    ensures var t := Next(fast, s, step); t.amAllowed <= Offered(t.sent)
  {
  }

  /** In any run, the peer may always ask only for indexes that have been offered to it. */
  lemma {:induction false} AllowedWasOffered(fast: bool, steps: seq<Step>)
    ensures var s := Run(fast, steps); s.amAllowed <= Offered(s.sent)
  {
    if steps != [] {
      var init := steps[..|steps| - 1];
      AllowedWasOffered(fast, init);
      NextOffered(fast, Run(fast, init), steps[|steps| - 1]);
    }
  }

  /** In any run, a piece that is sent while the peer is choked has an allowed index. */
  lemma ChokedPeerGetsOnlyAllowed(fast: bool, steps: seq<Step>, exceeds: seq<bool>)
    ensures var s := Run(fast, steps); s.amChoking ==> Indexes(Through(exceeds, s.queue)) <= s.amAllowed
  {
    ChokedQueueIsAllowed(fast, steps);
    IndexesSend(exceeds, Run(fast, steps).queue);
  }

  // ---------- the session ----------

  class Session {
    const fast: bool
    const metadataGetMode: bool
    var queue: seq<Message>
    var sent: seq<Message>
    var amChoking: bool
    var amAllowed: set<nat>

    function Here(): State
      reads this
    {
      State(queue, sent, amChoking, amAllowed)
    }

    constructor (fast: bool, metadataGetMode: bool)
      ensures Here() == START
      ensures this.fast == fast && this.metadataGetMode == metadataGetMode
    {
      this.fast := fast;
      this.metadataGetMode := metadataGetMode;
      queue, sent, amChoking, amAllowed := [], [], true, {};
    }

    method AddMessageToQueue(m: Message)
      modifies `queue
      ensures queue == old(queue) + [m]
    {
      queue := queue + [m];
    }

    method DoReceivedRequest(b: Block, hasPiece: bool)
      modifies `queue
      ensures Here() == if metadataGetMode then old(Here()) else Next(fast, old(Here()), ReceiveRequest(b, hasPiece))
      ensures !metadataGetMode && hasPiece && (!amChoking || b.index in amAllowed)
              ==> queue == old(queue) + [Piece(b, false)]
      ensures !metadataGetMode && (!hasPiece || (amChoking && b.index !in amAllowed))
              ==> queue == if fast then old(queue) + [Reject(b)] else old(queue)
    {
      if metadataGetMode {
        return;
      }
      if hasPiece && (!amChoking || b.index in amAllowed) {
        AddMessageToQueue(Piece(b, false));
      } else {
        if fast {
          AddMessageToQueue(Reject(b));
        }
      }
    }

    method OnChokingEvent(i: nat)
      requires i < |queue|
      modifies `queue
      ensures queue == ToldOne(Choking(amAllowed), fast, old(queue), i)
    {
      var m := queue[i];
      if m.Piece? && !m.invalidate && m.block.index !in amAllowed {
        if fast {
          AddMessageToQueue(Reject(m.block));
        }
        queue := queue[i := Piece(m.block, true)];
      }
    }

    method OnCancelSendingPieceEvent(i: nat, b: Block)
      requires i < |queue|
      modifies `queue
      ensures queue == ToldOne(CancelSendingPiece(b), fast, old(queue), i)
    {
      var m := queue[i];
      if m.Piece? && !m.invalidate && m.block == b {
        if fast {
          AddMessageToQueue(Reject(m.block));
        }
        queue := queue[i := Piece(m.block, true)];
      }
    }

    /** Tells every message that is in the queue now; the rejects are queued behind them. */
    method DoChokingAction()
      modifies `queue
      ensures queue == AfterEvent(Choking(amAllowed), fast, old(queue))
    {
      var n := |queue|;
      for i := 0 to n
        invariant queue == Told(Choking(amAllowed), fast, old(queue), i)
      {
        OnChokingEvent(i);
      }
      ToldAll(Choking(amAllowed), fast, old(queue));
    }

    method DoCancelSendingPieceAction(b: Block)
      modifies `queue
      ensures queue == AfterEvent(CancelSendingPiece(b), fast, old(queue))
    {
      var n := |queue|;
      for i := 0 to n
        invariant queue == Told(CancelSendingPiece(b), fast, old(queue), i)
      {
        OnCancelSendingPieceEvent(i, b);
      }
      ToldAll(CancelSendingPiece(b), fast, old(queue));
    }

    method DoReceivedCancel(b: Block)
      modifies `queue
      ensures Here() == if metadataGetMode then old(Here()) else Next(fast, old(Here()), Step.ReceiveCancel(b))
      ensures !metadataGetMode ==> |old(queue)| <= |queue| && forall i :: 0 <= i < |old(queue)| ==>
                queue[i] == if old(queue)[i].Piece? && old(queue)[i].block == b then Piece(b, true) else old(queue)[i]
    {
      if metadataGetMode {
        return;
      }
      DoCancelSendingPieceAction(b);
    }

    /** The choke decision: choking takes back the pieces that the peer has no claim to. */
    method DecideChoking(shouldBeChoking: bool)
      modifies `queue, `amChoking
      ensures Here() == Next(fast, old(Here()), Step.DecideChoking(shouldBeChoking))
      ensures amChoking == shouldBeChoking
      ensures shouldBeChoking == old(amChoking) ==> queue == old(queue)
      ensures !shouldBeChoking && old(amChoking) ==> queue == old(queue) + [Unchoke]
      ensures shouldBeChoking && !old(amChoking) ==>
                && |old(queue)| < |queue| && queue[|queue| - 1] == Choke
                && forall i :: 0 <= i < |old(queue)| ==>
                     queue[i] == if old(queue)[i].Piece? && old(queue)[i].block.index !in amAllowed
                                 then Piece(old(queue)[i].block, true) else old(queue)[i]
    {
      if shouldBeChoking {
        if !amChoking {
          amChoking := true;
          DoChokingAction();
          AddMessageToQueue(Choke);
        }
      } else {
        if amChoking {
          amChoking := false;
          AddMessageToQueue(Unchoke);
        }
      }
    }

    /** An index of the allowed fast set is offered to the peer. */
    method AddAllowedFastMessageToQueue(index: nat)
      modifies `queue
      ensures Here() == Next(fast, old(Here()), QueueAllowedFast(index))
      ensures queue == old(queue) + [AllowedFast(index)]
    {
      AddMessageToQueue(AllowedFast(index));
    }

    /** The offer has been sent completely. */
    method OnAllowedFastSent(index: nat)
      requires AllowedFast(index) in sent
      modifies `amAllowed
      ensures Here() == Next(fast, old(Here()), AllowedFastSent(index))
      ensures amAllowed == old(amAllowed) + {index}
    {
      amAllowed := amAllowed + {index};
    }

    /** Sends the queue; uploads that the limit holds back stay in front, in their order. */
    method SendMessagesInternal(exceeds: seq<bool>)
      modifies `queue, `sent
      ensures Here() == Next(fast, old(Here()), SendMessages(exceeds))
      ensures queue == HeldBack(exceeds, old(queue)) && sent == old(sent) + Through(exceeds, old(queue))
    {
      var tempQueue: seq<Message> := [];
      var i := 0;
      ghost var q := queue;
      while queue != []
        invariant i <= |q| && queue == q[i..]
        invariant tempQueue == HeldBack(exceeds, q[..i])
        invariant sent == old(sent) + Through(exceeds, q[..i])
        decreases |queue|
      {
        var msg := queue[0];
        assert msg == q[i] && q[..i + 1][..i] == q[..i];
        if msg.Piece? && Exceeds(exceeds, i) {
          tempQueue := tempQueue + [msg];
        } else if !(msg.Piece? && msg.invalidate) {
          sent := sent + [msg];
        }
        queue := queue[1..];
        i := i + 1;
      }
      assert q[..i] == q;
      queue := tempQueue + queue;
    }
  }
}
