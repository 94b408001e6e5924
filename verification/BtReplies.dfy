/** Which answer a block request gets, over every run of the session: `src/BtRequestMessage.cc`,
    `src/BtPieceMessage.cc`, `src/BtCancelMessage.cc`, `src/DefaultBtMessageDispatcher.cc` and
    `src/DefaultBtInteractive.cc`. The statements count the messages themselves, in the queue and
    on the connection, and speak of the steps that the session has taken. */
module BtReplies {
  import opened BtAnswers
  import opened Positions

  // ---------- what an event does to the queue ----------

  /** A cancel takes back the pieces for its block and no other; a choke takes back those whose
      index is not allowed. Everything else stays where it is, and what is added are rejects. */
  lemma EventMeans(e: Event, fast: bool, q: seq<Message>)
    ensures var r := AfterEvent(e, fast, q);
      && |q| <= |r|
      && (forall i :: 0 <= i < |q| ==>
            && (r[i] == q[i] || (q[i].Piece? && !q[i].invalidate && r[i] == Piece(q[i].block, true)))
            && (e.Choking? && q[i].Piece? ==> (r[i].invalidate <==> q[i].invalidate || q[i].block.index !in e.allowed))
            && (e.CancelSendingPiece? && q[i].Piece? ==>
                  (r[i].invalidate <==> q[i].invalidate || q[i].block == e.block)))
      && (forall i :: |q| <= i < |r| ==> r[i].Reject?)
  {
    var r := AfterEvent(e, fast, q);
    forall i | |q| <= i < |r|
      ensures r[i].Reject?
    {
      assert r[i] == Rejects(e, q)[i - |q|];
      RejectsAreRejects(e, q, r[i]);
    }
  }

  /** Which pieces an event takes back. */
  function TakenFlags(e: Event, q: seq<Message>): (r: seq<bool>)
    ensures |r| == |q|
  {
    seq(|q|, i requires 0 <= i < |q| => q[i] != BtAnswers.Revoked(e, q)[i])
  }

  /** Which messages are held back: the pieces whose turn comes while the limit is exceeded. */
  function HeldFlags(exceeds: seq<bool>, q: seq<Message>): (r: seq<bool>)
    ensures |r| == |q|
  {
    seq(|q|, i requires 0 <= i < |q| => q[i].Piece? && i < |exceeds| && exceeds[i])
  }

  /** Which messages go out: the others, but for the pieces that have been invalidated. */
  function ThroughFlags(exceeds: seq<bool>, q: seq<Message>): (r: seq<bool>)
    ensures |r| == |q|
  {
    seq(|q|, i requires 0 <= i < |q| => !(q[i].Piece? && (q[i].invalidate || (i < |exceeds| && exceeds[i]))))
  }

  lemma HeldFlagsMore(exceeds: seq<bool>, q: seq<Message>, m: Message)
    ensures HeldFlags(exceeds, q + [m]) == HeldFlags(exceeds, q) + [m.Piece? && Exceeds(exceeds, |q|)]
  {
  }

  lemma ThroughFlagsMore(exceeds: seq<bool>, q: seq<Message>, m: Message)
    ensures ThroughFlags(exceeds, q + [m])
         == ThroughFlags(exceeds, q) + [!(m.Piece? && (m.invalidate || Exceeds(exceeds, |q|)))]
  {
  }

  /** The messages held back are in the order of the queue. */
  lemma {:induction false} HeldBackInOrder(exceeds: seq<bool>, q: seq<Message>) returns (at: seq<nat>)
    ensures Marks(at, HeldFlags(exceeds, q)) && HeldBack(exceeds, q) == Pick(q, at)
  {
    if q == [] {
      at := [];
    } else {
      var n := |q| - 1;
      var stays := q[n].Piece? && Exceeds(exceeds, n);
      var rest := HeldBackInOrder(exceeds, q[..n]);
      at := rest + if stays then [n] else [];
      MarksMore(rest, HeldFlags(exceeds, q[..n]), stays);
      PickMore(q[..n], rest, q[n], stays);
      HeldFlagsMore(exceeds, q[..n], q[n]);
      assert q == q[..n] + [q[n]];
    }
  }

  /** So are those that go out. */
  lemma {:induction false} ThroughInOrder(exceeds: seq<bool>, q: seq<Message>) returns (at: seq<nat>)
    ensures Marks(at, ThroughFlags(exceeds, q)) && Through(exceeds, q) == Pick(q, at)
  {
    if q == [] {
      at := [];
    } else {
      var n := |q| - 1;
      var goes := !(q[n].Piece? && (q[n].invalidate || Exceeds(exceeds, n)));
      var rest := ThroughInOrder(exceeds, q[..n]);
      at := rest + if goes then [n] else [];
      MarksMore(rest, ThroughFlags(exceeds, q[..n]), goes);
      PickMore(q[..n], rest, q[n], goes);
      ThroughFlagsMore(exceeds, q[..n], q[n]);
      assert q == q[..n] + [q[n]];
    }
  }

  /** The rejects for pieces. */
  function RejectsOf(pieces: seq<Message>): (r: seq<Message>)
    ensures |r| == |pieces|
  {
    seq(|pieces|, k requires 0 <= k < |pieces| => if pieces[k].Piece? then Reject(pieces[k].block) else pieces[k])
  }

  lemma RejectsMore(pieces: seq<Message>, m: Message, flag: bool)
    requires flag ==> m.Piece?
    ensures RejectsOf(pieces + if flag then [m] else [])
         == RejectsOf(pieces) + if flag then [Reject(m.block)] else []
  {
  }

  lemma TakenMore(e: Event, q: seq<Message>, m: Message)
    ensures TakenFlags(e, q + [m]) == TakenFlags(e, q) + [Revokes(e, m)]
  {
    var r := BtAnswers.Revoked(e, q + [m]);
    assert (q + [m])[..|q|] == q;
    assert r == BtAnswers.Revoked(e, q) + [if Revokes(e, m) then Piece(m.block, true) else m];
  }

  /** The rejects that an event adds name the pieces that it takes back, in the order of the
      queue. */
  lemma {:induction false} RejectsInOrder(e: Event, q: seq<Message>) returns (at: seq<nat>)
    ensures Marks(at, TakenFlags(e, q)) && Rejects(e, q) == RejectsOf(Pick(q, at))
  {
    if q == [] {
      at := [];
    } else {
      var n := |q| - 1;
      var taken := Revokes(e, q[n]);
      var rest := RejectsInOrder(e, q[..n]);
      at := rest + if taken then [n] else [];
      MarksMore(rest, TakenFlags(e, q[..n]), taken);
      PickMore(q[..n], rest, q[n], taken);
      RejectsMore(Pick(q[..n], rest), q[n], taken);
      TakenMore(e, q[..n], q[n]);
      assert q == q[..n] + [q[n]];
    }
  }

  // ---------- runs ----------

  /** The state after the first `n` steps of a run. */
  function At(fast: bool, steps: seq<Step>, n: nat): State
    requires n <= |steps|
  {
    Run(fast, steps[..n])
  }

  lemma AtStart(fast: bool, steps: seq<Step>)
    ensures At(fast, steps, 0) == START
  {
  }

  lemma AtEnd(fast: bool, steps: seq<Step>)
    ensures At(fast, steps, |steps|) == Run(fast, steps)
  {
    assert steps[..|steps|] == steps;
  }

  lemma AtNext(fast: bool, steps: seq<Step>, n: nat, s: State)
    requires 0 < n <= |steps| && s == At(fast, steps, n - 1)
    ensures At(fast, steps, n) == Next(fast, s, steps[n - 1])
  {
    assert steps[..n][..n - 1] == steps[..n - 1];
  }

  // ---------- choked or not, allowed or not ----------

  /** The peer is choked unless the last decision was to unchoke it. */
  lemma {:induction false} ChokingIsLastDecision(fast: bool, steps: seq<Step>, n: nat)
    requires n <= |steps|
    ensures At(fast, steps, n).amChoking
       <==> forall i :: 0 <= i < n && steps[i] == DecideChoking(false)
                        ==> exists j :: i < j < n && steps[j] == DecideChoking(true)
  {
    if n == 0 {
      AtStart(fast, steps);
    } else {
      ChokingIsLastDecision(fast, steps, n - 1);
      AtNext(fast, steps, n, At(fast, steps, n - 1));
      ChokingNext(fast, At(fast, steps, n - 1), steps[n - 1], At(fast, steps, n));
    }
  }

  lemma ChokingNext(fast: bool, s: State, step: Step, t: State)
    requires t == Next(fast, s, step)
    ensures t.amChoking == if step.DecideChoking? then step.shouldBeChoking else s.amChoking
  {
  }

  /** The allowed indexes are those whose offer has been sent completely. */
  lemma {:induction false} AllowedExactly(fast: bool, steps: seq<Step>, n: nat, index: nat)
    requires n <= |steps|
    ensures index in At(fast, steps, n).amAllowed
       <==> exists i {:trigger At(fast, steps, i)} :: 0 <= i < n
              && steps[i] == AllowedFastSent(index) && AllowedFast(index) in At(fast, steps, i).sent
  {
    if n == 0 {
      AtStart(fast, steps);
    } else {
      var s := At(fast, steps, n - 1);
      AllowedExactly(fast, steps, n - 1, index);
      AtNext(fast, steps, n, s);
      AllowedNext(fast, s, steps[n - 1], At(fast, steps, n), index);
    }
  }

  lemma AllowedNext(fast: bool, s: State, step: Step, t: State, index: nat)
    requires t == Next(fast, s, step)
    ensures index in t.amAllowed
       <==> index in s.amAllowed || (step == AllowedFastSent(index) && AllowedFast(index) in s.sent)
  {
  }

  // ---------- the account of a block ----------

  /** Whether the peer may have a block: its piece is there, and the peer is unchoked or the
      index allowed. */
  predicate MayHave(s: State, b: Block, hasPiece: bool) {
    hasPiece && (!s.amChoking || b.index in s.amAllowed)
  }

  /** Whether a step takes back the pieces for a block. */
  predicate TakesBack(s: State, step: Step, b: Block) {
    || step == ReceiveCancel(b)
    || (step == DecideChoking(true) && !s.amChoking && b.index !in s.amAllowed)
  }

  /** The requests for a block that came when the peer might have it. */
  function Granted(fast: bool, steps: seq<Step>, b: Block): nat {
    if steps == [] then 0
    else
      var init, last := steps[..|steps| - 1], steps[|steps| - 1];
      var s := Run(fast, init);
      Granted(fast, init, b)
      + if last.ReceiveRequest? && last.block == b && MayHave(s, b, last.hasPiece) then 1 else 0
  }

  /** The other requests for it. */
  function Refused(fast: bool, steps: seq<Step>, b: Block): nat {
    if steps == [] then 0
    else
      var init, last := steps[..|steps| - 1], steps[|steps| - 1];
      var s := Run(fast, init);
      Refused(fast, init, b)
      + if last.ReceiveRequest? && last.block == b && !MayHave(s, b, last.hasPiece) then 1 else 0
  }

  /** The pieces for it that were in the queue when a step took them back. */
  function TakenBack(fast: bool, steps: seq<Step>, b: Block): nat {
    if steps == [] then 0
    else
      var init, last := steps[..|steps| - 1], steps[|steps| - 1];
      var s := Run(fast, init);
      TakenBack(fast, init, b) + if TakesBack(s, last, b) then multiset(s.queue)[Piece(b, false)] else 0
  }

  /** How often a message is in the queue or has been sent. */
  function Count(s: State, m: Message): nat {
    multiset(s.queue)[m] + multiset(s.sent)[m]
  }

  // ---------- counting ----------

  lemma CountLast(q: seq<Message>, m: Message)
    requires q != []
    ensures multiset(q)[m] == multiset(q[..|q| - 1])[m] + if q[|q| - 1] == m then 1 else 0
  {
    assert q == q[..|q| - 1] + [q[|q| - 1]];
  }

  lemma {:induction false} RevokedCount(e: Event, q: seq<Message>, b: Block)
    ensures multiset(BtAnswers.Revoked(e, q))[Piece(b, false)]
         == if Concerns(e, b) then 0 else multiset(q)[Piece(b, false)]
    ensures multiset(BtAnswers.Revoked(e, q))[Reject(b)] == multiset(q)[Reject(b)]
  {
    if q != [] {
      var r := BtAnswers.Revoked(e, q);
      RevokedCount(e, q[..|q| - 1], b);
      CountLast(q, Piece(b, false));
      CountLast(q, Reject(b));
      assert r[..|q| - 1] == BtAnswers.Revoked(e, q[..|q| - 1]);
      CountLast(r, Piece(b, false));
      CountLast(r, Reject(b));
    }
  }

  lemma {:induction false} RejectsCount(e: Event, q: seq<Message>, b: Block)
    ensures multiset(Rejects(e, q))[Piece(b, false)] == 0
    ensures multiset(Rejects(e, q))[Reject(b)]
         == if Concerns(e, b) then multiset(q)[Piece(b, false)] else 0
  {
    if q != [] {
      RejectsCount(e, q[..|q| - 1], b);
      CountLast(q, Piece(b, false));
    }
  }

  lemma EventCount(e: Event, fast: bool, q: seq<Message>, b: Block)
    ensures var r := AfterEvent(e, fast, q);
      && multiset(r)[Piece(b, false)] == (if Concerns(e, b) then 0 else multiset(q)[Piece(b, false)])
      && multiset(r)[Reject(b)]
         == multiset(q)[Reject(b)] + if fast && Concerns(e, b) then multiset(q)[Piece(b, false)] else 0
  {
    RevokedCount(e, q, b);
    RejectsCount(e, q, b);
  }

  lemma {:induction false} SendingCount(exceeds: seq<bool>, q: seq<Message>, m: Message)
    requires !(m.Piece? && m.invalidate)
    ensures multiset(HeldBack(exceeds, q))[m] + multiset(Through(exceeds, q))[m] == multiset(q)[m]
  {
    if q != [] {
      SendingCount(exceeds, q[..|q| - 1], m);
      CountLast(q, m);
    }
  }

  /** What one step does to the account. */
  predicate Booked(fast: bool, s: State, step: Step, b: Block, t: State) {
    && Count(t, Piece(b, false)) + (if TakesBack(s, step, b) then multiset(s.queue)[Piece(b, false)] else 0)
       == Count(s, Piece(b, false))
          + (if step.ReceiveRequest? && step.block == b && MayHave(s, b, step.hasPiece) then 1 else 0)
    && Count(t, Reject(b)) == Count(s, Reject(b)) + if fast then NewRejects(s, step, b) else 0
  }

  /** How many rejects a step makes for a block with the fast extension. */
  function NewRejects(s: State, step: Step, b: Block): nat {
    if TakesBack(s, step, b) then multiset(s.queue)[Piece(b, false)]
    else if step.ReceiveRequest? && step.block == b && !MayHave(s, b, step.hasPiece) then 1
    else 0
  }

  lemma RequestBooked(fast: bool, s: State, c: Block, hasPiece: bool, b: Block)
    ensures Booked(fast, s, ReceiveRequest(c, hasPiece), b, Next(fast, s, ReceiveRequest(c, hasPiece)))
  {
  }

  lemma CancelBooked(fast: bool, s: State, c: Block, b: Block)
    ensures Booked(fast, s, ReceiveCancel(c), b, Next(fast, s, ReceiveCancel(c)))
  {
    EventCount(CancelSendingPiece(c), fast, s.queue, b);
  }

  lemma ChokeBooked(fast: bool, s: State, b: Block)
    requires !s.amChoking
    ensures Booked(fast, s, DecideChoking(true), b, Choked(fast, s))
  {
    EventCount(Choking(s.amAllowed), fast, s.queue, b);
  }

  lemma DecisionBooked(fast: bool, s: State, shouldBeChoking: bool, b: Block)
    ensures Booked(fast, s, DecideChoking(shouldBeChoking), b, Next(fast, s, DecideChoking(shouldBeChoking)))
  {
    if shouldBeChoking && !s.amChoking {
      ChokeBooked(fast, s, b);
    }
  }

  lemma SendingBooked(fast: bool, s: State, exceeds: seq<bool>, b: Block)
    ensures Booked(fast, s, SendMessages(exceeds), b, Next(fast, s, SendMessages(exceeds)))
  {
    SendingCount(exceeds, s.queue, Piece(b, false));
    SendingCount(exceeds, s.queue, Reject(b));
  }

  lemma NextBooked(fast: bool, s: State, step: Step, b: Block)
    ensures Booked(fast, s, step, b, Next(fast, s, step))
  {
    match step
    case ReceiveRequest(c, hasPiece) => RequestBooked(fast, s, c, hasPiece, b);
    case ReceiveCancel(c) => CancelBooked(fast, s, c, b);
    case DecideChoking(shouldBeChoking) => DecisionBooked(fast, s, shouldBeChoking, b);
    case SendMessages(exceeds) => SendingBooked(fast, s, exceeds, b);
    case _ =>
  }

  // ---------- every run ----------

  /** The account balances after any run: the requests that the peer might have are answered by
      their piece, in the queue or sent, unless it was taken back; rejects, which need the fast
      extension, stand for the other requests and for the pieces taken back. */
  lemma {:induction false} AccountBalances(fast: bool, steps: seq<Step>, b: Block)
    ensures Count(Run(fast, steps), Piece(b, false)) + TakenBack(fast, steps, b) == Granted(fast, steps, b)
    ensures Count(Run(fast, steps), Reject(b))
         == if fast then Refused(fast, steps, b) + TakenBack(fast, steps, b) else 0
  {
    if steps != [] {
      var init, last := steps[..|steps| - 1], steps[|steps| - 1];
      AccountBalances(fast, init, b);
      NextBooked(fast, Run(fast, init), last, b);
    }
  }

  // ---------- what the account means ----------

  /** Whether a piece for the block is in the queue or has been sent. */
  predicate Holds(s: State, b: Block) {
    exists invalidate :: Piece(b, invalidate) in s.queue || Piece(b, invalidate) in s.sent
  }

  lemma EventFrom(e: Event, fast: bool, q: seq<Message>, b: Block, invalidate: bool)
    requires Piece(b, invalidate) in AfterEvent(e, fast, q)
    ensures Piece(b, false) in q || Piece(b, true) in q
  {
    if Piece(b, invalidate) in Rejects(e, q) {
      RejectsAreRejects(e, q, Piece(b, invalidate));
    }
  }

  lemma SendingFrom(s: State, exceeds: seq<bool>, b: Block, invalidate: bool)
    requires || Piece(b, invalidate) in HeldBack(exceeds, s.queue)
             || Piece(b, invalidate) in s.sent + Through(exceeds, s.queue)
    ensures Holds(s, b)
  {
    if Piece(b, invalidate) in HeldBack(exceeds, s.queue) {
      HeldBackFrom(exceeds, s.queue, Piece(b, invalidate));
    } else if Piece(b, invalidate) !in s.sent {
      ThroughFrom(exceeds, s.queue, Piece(b, invalidate));
    }
  }

  lemma PieceFrom(fast: bool, s: State, step: Step, b: Block)
    requires Holds(Next(fast, s, step), b)
    ensures step == ReceiveRequest(b, true) || Holds(s, b)
  {
    var t := Next(fast, s, step);
    var invalidate :| Piece(b, invalidate) in t.queue || Piece(b, invalidate) in t.sent;
    if Piece(b, invalidate) !in s.sent {
      match step
      case ReceiveCancel(c) =>
        EventFrom(CancelSendingPiece(c), fast, s.queue, b, invalidate);
      case DecideChoking(shouldBeChoking) =>
        if shouldBeChoking && !s.amChoking {
          EventFrom(Choking(s.amAllowed), fast, s.queue, b, invalidate);
        }
      case SendMessages(exceeds) =>
        SendingFrom(s, exceeds, b, invalidate);
      case _ =>
    }
  }

  /** In any run, a piece in the queue or sent, valid or not, has the block of a request that the
      peer has made, and the piece was there when it did. */
  lemma {:induction false} PieceWasRequested(fast: bool, steps: seq<Step>, b: Block)
    requires Holds(Run(fast, steps), b)
    ensures ReceiveRequest(b, true) in steps
  {
    if steps != [] {
      var init, last := steps[..|steps| - 1], steps[|steps| - 1];
      PieceFrom(fast, Run(fast, init), last, b);
      if last != ReceiveRequest(b, true) {
        PieceWasRequested(fast, init, b);
      }
    }
  }

  lemma SentNext(fast: bool, s: State, step: Step)
    ensures s.sent <= Next(fast, s, step).sent
  {
  }

  /** What has been sent stays sent. */
  lemma {:induction false} SentGrows(fast: bool, steps: seq<Step>, i: nat, n: nat)
    requires i <= n <= |steps|
    ensures At(fast, steps, i).sent <= At(fast, steps, n).sent
    decreases n
  {
    if i < n {
      SentGrows(fast, steps, i, n - 1);
      AtNext(fast, steps, n, At(fast, steps, n - 1));
      SentNext(fast, At(fast, steps, n - 1), steps[n - 1]);
    }
  }

  lemma PrefixCount(p: seq<Message>, q: seq<Message>, m: Message)
    requires p <= q
    ensures multiset(p)[m] <= multiset(q)[m]
  {
    assert q == p + q[|p|..];
  }

  /** Whether a step cancels a block, or chokes the peer while its index is not allowed, when no
      more than `before` of its pieces have been sent. */
  predicate TakesBackUnsent(s: State, step: Step, b: Block, before: nat) {
    && (|| step == ReceiveCancel(b)
        || (step == DecideChoking(true) && !s.amChoking && b.index !in s.amAllowed))
    && multiset(s.sent)[Piece(b, false)] <= before
  }

  /** More than a number of pieces stay more, unless one is taken back before it has been sent. */
  lemma PieceStays(fast: bool, s: State, step: Step, b: Block, before: nat, t: State)
    requires t == Next(fast, s, step)
    requires before < Count(s, Piece(b, false)) && !TakesBackUnsent(s, step, b, before)
    ensures before < Count(t, Piece(b, false))
  {
    if TakesBack(s, step, b) {
      SentNext(fast, s, step);
      PrefixCount(s.sent, t.sent, Piece(b, false));
    } else {
      NextBooked(fast, s, step, b);
    }
  }

  lemma PieceGranted(fast: bool, s: State, b: Block, t: State)
    requires !s.amChoking || b.index in s.amAllowed
    requires t == Next(fast, s, ReceiveRequest(b, true))
    ensures Count(s, Piece(b, false)) < Count(t, Piece(b, false))
  {
    NextBooked(fast, s, ReceiveRequest(b, true), b);
  }

  lemma PieceStaysAt(fast: bool, steps: seq<Step>, n: nat, b: Block, before: nat, s: State)
    requires 0 < n <= |steps| && s == At(fast, steps, n - 1) && !TakesBackUnsent(s, steps[n - 1], b, before)
    requires before < Count(s, Piece(b, false))
    ensures before < Count(At(fast, steps, n), Piece(b, false))
  {
    AtNext(fast, steps, n, s);
    PieceStays(fast, s, steps[n - 1], b, before, At(fast, steps, n));
  }

  lemma PieceGrantedAt(fast: bool, steps: seq<Step>, n: nat, b: Block, s: State)
    requires 0 < n <= |steps| && steps[n - 1] == ReceiveRequest(b, true) && s == At(fast, steps, n - 1)
    requires !s.amChoking || b.index in s.amAllowed
    ensures Count(s, Piece(b, false)) < Count(At(fast, steps, n), Piece(b, false))
  {
    AtNext(fast, steps, n, s);
    PieceGranted(fast, s, b, At(fast, steps, n));
  }

  /** A request for a piece that is there, from a peer that is unchoked or for an index that is
      allowed, is answered by the piece: from then on there is one more in the queue or sent,
      unless, before it has been sent, the block is cancelled or the peer is choked while the
      index is not allowed. */
  lemma {:induction false} AnsweredByPiece(fast: bool, steps: seq<Step>, i: nat, n: nat, b: Block, before: nat)
    requires i < n <= |steps| && steps[i] == ReceiveRequest(b, true)
    requires !At(fast, steps, i).amChoking || b.index in At(fast, steps, i).amAllowed
    requires before == Count(At(fast, steps, i), Piece(b, false))
    requires forall k {:trigger At(fast, steps, k)} :: i < k < n ==>
               !TakesBackUnsent(At(fast, steps, k), steps[k], b, before)
    ensures before < Count(At(fast, steps, n), Piece(b, false))
    decreases n
  {
    if i == n - 1 {
      PieceGrantedAt(fast, steps, n, b, At(fast, steps, i));
    } else {
      AnsweredByPiece(fast, steps, i, n - 1, b, before);
      PieceStaysAt(fast, steps, n, b, before, At(fast, steps, n - 1));
    }
  }

  /** What makes a reject: a request for a piece that is not there, or from a choked peer for an
      index that is not allowed; or a piece in the queue that a cancel or a choke takes back. */
  predicate Rejecting(s: State, step: Step, b: Block) {
    || (step == ReceiveRequest(b, false))
    || (step == ReceiveRequest(b, true) && s.amChoking && b.index !in s.amAllowed)
    || (step == ReceiveCancel(b) && Piece(b, false) in s.queue)
    || (step == DecideChoking(true) && !s.amChoking && b.index !in s.amAllowed && Piece(b, false) in s.queue)
  }

  lemma RejectingMeans(s: State, step: Step, b: Block)
    ensures NewRejects(s, step, b) > 0 <==> Rejecting(s, step, b)
  {
  }

  lemma RejectNext(fast: bool, s: State, step: Step, b: Block, t: State)
    requires t == Next(fast, s, step)
    ensures Count(t, Reject(b)) == Count(s, Reject(b)) + if fast then NewRejects(s, step, b) else 0
  {
    NextBooked(fast, s, step, b);
  }

  lemma RejectAdded(fast: bool, steps: seq<Step>, n: nat, b: Block, s: State)
    requires 0 < n <= |steps| && s == At(fast, steps, n - 1)
    ensures Count(At(fast, steps, n), Reject(b)) >= Count(s, Reject(b))
    ensures Count(At(fast, steps, n), Reject(b)) > Count(s, Reject(b)) <==> fast && Rejecting(s, steps[n - 1], b)
  {
    AtNext(fast, steps, n, s);
    RejectNext(fast, s, steps[n - 1], b, At(fast, steps, n));
    RejectingMeans(s, steps[n - 1], b);
  }

  lemma RejectKept(fast: bool, steps: seq<Step>, n: nat, b: Block, s: State, least: nat)
    requires 0 < n <= |steps| && s == At(fast, steps, n - 1) && least <= Count(s, Reject(b))
    ensures least <= Count(At(fast, steps, n), Reject(b))
  {
    RejectAdded(fast, steps, n, b, s);
  }

  lemma {:induction false} RejectsStay(fast: bool, steps: seq<Step>, i: nat, n: nat, b: Block, least: nat)
    requires i <= n <= |steps| && least <= Count(At(fast, steps, i), Reject(b))
    ensures least <= Count(At(fast, steps, n), Reject(b))
    decreases n
  {
    if i < n {
      RejectsStay(fast, steps, i, n - 1, b, least);
      RejectKept(fast, steps, n, b, At(fast, steps, n - 1), least);
    }
  }

  /** With the fast extension each of these adds a reject, which is never lost. */
  lemma AnsweredByReject(steps: seq<Step>, i: nat, n: nat, b: Block, s: State)
    requires i < n <= |steps| && s == At(true, steps, i) && Rejecting(s, steps[i], b)
    ensures Count(s, Reject(b)) < Count(At(true, steps, n), Reject(b))
  {
    RejectAdded(true, steps, i + 1, b, s);
    RejectsStay(true, steps, i + 1, n, b, Count(s, Reject(b)) + 1);
  }

  /** A reject in the queue or sent stands for one of them, and there are none without the fast
      extension. */
  lemma {:induction false} RejectStandsFor(fast: bool, steps: seq<Step>, n: nat, b: Block)
    requires n <= |steps| && Count(At(fast, steps, n), Reject(b)) > 0
    ensures fast
    ensures exists k {:trigger At(fast, steps, k)} :: 0 <= k < n && Rejecting(At(fast, steps, k), steps[k], b)
    decreases n
  {
    if n == 0 {
      AtStart(fast, steps);
    } else {
      var s := At(fast, steps, n - 1);
      RejectAdded(fast, steps, n, b, s);
      if Count(s, Reject(b)) > 0 {
        RejectStandsFor(fast, steps, n - 1, b);
      }
    }
  }

  // ---------- what the peer is told ----------

  /** The choke and unchoke messages among the messages. */
  function Signals(q: seq<Message>): seq<Message> {
    if q == [] then []
    else Signals(q[..|q| - 1]) + if q[|q| - 1].Choke? || q[|q| - 1].Unchoke? then [q[|q| - 1]] else []
  }

  lemma {:induction false} SignalsAppend(p: seq<Message>, q: seq<Message>)
    ensures Signals(p + q) == Signals(p) + Signals(q)
  {
    if q == [] {
      assert p + q == p;
    } else {
      assert (p + q)[..|p + q| - 1] == p + q[..|q| - 1];
      SignalsAppend(p, q[..|q| - 1]);
    }
  }

  lemma {:induction false} NoSignals(q: seq<Message>)
    requires forall m :: m in q ==> m.Piece? || m.Reject?
    ensures Signals(q) == []
  {
    if q != [] {
      assert q[|q| - 1] in q;
      NoSignals(q[..|q| - 1]);
    }
  }

  lemma {:induction false} EventSignals(e: Event, fast: bool, q: seq<Message>)
    ensures Signals(AfterEvent(e, fast, q)) == Signals(q)
  {
    RevokedSignals(e, q);
    forall m | m in Rejects(e, q)
      ensures m.Reject?
    {
      RejectsAreRejects(e, q, m);
    }
    NoSignals(Rejects(e, q));
    SignalsAppend(BtAnswers.Revoked(e, q), if fast then Rejects(e, q) else []);
  }

  lemma {:induction false} RevokedSignals(e: Event, q: seq<Message>)
    ensures Signals(BtAnswers.Revoked(e, q)) == Signals(q)
  {
    if q != [] {
      RevokedSignals(e, q[..|q| - 1]);
      var r := BtAnswers.Revoked(e, q);
      assert r[..|q| - 1] == BtAnswers.Revoked(e, q[..|q| - 1]);
    }
  }

  lemma SignalsMore(q: seq<Message>, m: Message, flag: bool)
    ensures Signals(q + if flag then [m] else [])
         == Signals(q) + if flag && (m.Choke? || m.Unchoke?) then [m] else []
  {
    if flag {
      assert (q + [m])[..|q|] == q;
    } else {
      assert q + [] == q;
    }
  }

  lemma {:induction false} ThroughSignals(exceeds: seq<bool>, q: seq<Message>)
    ensures Signals(Through(exceeds, q)) == Signals(q)
  {
    if q != [] {
      var n := |q| - 1;
      ThroughSignals(exceeds, q[..n]);
      SignalsMore(Through(exceeds, q[..n]), q[n], !(q[n].Piece? && (Exceeds(exceeds, n) || q[n].invalidate)));
    }
  }

  lemma {:induction false} HeldBackSignals(exceeds: seq<bool>, q: seq<Message>)
    ensures Signals(HeldBack(exceeds, q)) == []
  {
    if q != [] {
      var n := |q| - 1;
      HeldBackSignals(exceeds, q[..n]);
      SignalsMore(HeldBack(exceeds, q[..n]), q[n], q[n].Piece? && Exceeds(exceeds, n));
    }
  }

  /** All the peer has been or will be told. */
  function AllSignals(s: State): seq<Message> {
    Signals(s.sent) + Signals(s.queue)
  }

  /** What a step adds to it. */
  function Announced(choking: bool, step: Step): seq<Message> {
    if step == DecideChoking(!choking) then [if choking then Unchoke else Choke] else []
  }

  lemma NextSignals(fast: bool, s: State, step: Step)
    ensures AllSignals(Next(fast, s, step)) == AllSignals(s) + Announced(s.amChoking, step)
  {
    match step
    case ReceiveRequest(b, hasPiece) =>
      NoSignals(Reply(fast, s, b, hasPiece));
      SignalsAppend(s.queue, Reply(fast, s, b, hasPiece));
    case ReceiveCancel(b) =>
      EventSignals(CancelSendingPiece(b), fast, s.queue);
    case DecideChoking(shouldBeChoking) =>
      DecisionSignals(fast, s, shouldBeChoking);
    case QueueAllowedFast(i) =>
      assert (s.queue + [AllowedFast(i)])[..|s.queue|] == s.queue;
    case AllowedFastSent(i) =>
    case SendMessages(exceeds) =>
      ThroughSignals(exceeds, s.queue);
      HeldBackSignals(exceeds, s.queue);
      SignalsAppend(s.sent, Through(exceeds, s.queue));
  }

  lemma ChokeSignals(fast: bool, s: State)
    ensures Signals(Choked(fast, s).queue) == Signals(s.queue) + [Choke]
  {
    var q := AfterEvent(Choking(s.amAllowed), fast, s.queue);
    EventSignals(Choking(s.amAllowed), fast, s.queue);
    SignalsMore(q, Choke, true);
  }

  lemma LastSignal(a: seq<Message>, b: seq<Message>, m: Message)
    ensures a + (b + [m]) == (a + b) + [m]
  {
  }

  lemma DecisionSignals(fast: bool, s: State, shouldBeChoking: bool)
    ensures AllSignals(Next(fast, s, DecideChoking(shouldBeChoking)))
         == AllSignals(s) + Announced(s.amChoking, DecideChoking(shouldBeChoking))
  {
    if shouldBeChoking == s.amChoking {
      assert AllSignals(s) + [] == AllSignals(s);
    } else if shouldBeChoking {
      ChokeSignals(fast, s);
      LastSignal(Signals(s.sent), Signals(s.queue), Choke);
    } else {
      SignalsMore(s.queue, Unchoke, true);
      LastSignal(Signals(s.sent), Signals(s.queue), Unchoke);
    }
  }

  /** Unchoking and choking in turn, beginning with unchoking. */
  function Turns(n: nat): (r: seq<Message>)
    ensures |r| == n && forall i :: 0 <= i < n ==> r[i] == if i % 2 == 0 then Unchoke else Choke
  {
    seq(n, i => if i % 2 == 0 then Unchoke else Choke)
  }

  lemma TurnsMore(n: nat, choking: bool, step: Step) returns (m: nat)
    requires choking <==> n % 2 == 0
    ensures Turns(n) + Announced(choking, step) == Turns(m)
    ensures (if step.DecideChoking? then step.shouldBeChoking else choking) <==> m % 2 == 0
  {
    m := if step == DecideChoking(!choking) then n + 1 else n;
  }

  lemma SignalsAt(fast: bool, steps: seq<Step>, n: nat, s: State)
    requires 0 < n <= |steps| && s == At(fast, steps, n - 1)
    ensures AllSignals(At(fast, steps, n)) == AllSignals(s) + Announced(s.amChoking, steps[n - 1])
    ensures At(fast, steps, n).amChoking
         == if steps[n - 1].DecideChoking? then steps[n - 1].shouldBeChoking else s.amChoking
  {
    AtNext(fast, steps, n, s);
    NextSignals(fast, s, steps[n - 1]);
    ChokingNext(fast, s, steps[n - 1], At(fast, steps, n));
  }

  /** In any run the peer is told of unchoking and choking in turn, and the last message that it
      has been or will be told of is its state. */
  lemma {:induction false} ToldInTurn(fast: bool, steps: seq<Step>, n: nat) returns (m: nat)
    requires n <= |steps|
    ensures AllSignals(At(fast, steps, n)) == Turns(m)
    ensures At(fast, steps, n).amChoking <==> m % 2 == 0
  {
    if n == 0 {
      AtStart(fast, steps);
      m := 0;
    } else {
      var s := At(fast, steps, n - 1);
      m := ToldInTurn(fast, steps, n - 1);
      SignalsAt(fast, steps, n, s);
      m := TurnsMore(m, s.amChoking, steps[n - 1]);
    }
  }
}
