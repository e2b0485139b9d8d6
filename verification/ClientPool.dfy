/**
 The pool of proxy clients, as steps of concurrent callers. One step is one access to shared state:
 taking or releasing the lock, reading or writing the channel field, or one operation on the channel.
 */
module ClientPool {
  import opened Options

  type Client = nat
  type Tid = nat

  /** Where a caller is. */
  datatype Pc =
    | Idle
    | GetChecks                                  // about to read the field for the nil check
    | GetReads                                   // about to read it again for the select
    | GetSelects(chan: bool)                     // about to receive, or to fall through to the factory
    | GetReturns(got: Option<Client>)            // None for errClosed
    | PutLocks(c: Client)
    | PutChecks(c: Client)
    | PutSends(c: Client)
    | PutUnlocks
    | CloseLocks
    | CloseClears                                // reads the field and sets it to nil, the lock being held
    | CloseUnlocks(chan: bool)
    | CloseCloses
    | LenLocks
    | LenReads
    | LenUnlocks(chan: bool)
    | LenCounts(chan: bool)

  datatype Fault = SentOnClosed | ClosedTwice

  /**
   There is one channel: `idle` is its buffer, `closed` whether it has been closed, and `field` whether the
   pool's field still holds it. `lent` are the clients borrowers were given and have not offered back,
   `dropped` those that found no room, `made` every client the factory ever made.
   */
  datatype State = State(
    maxCap: nat,
    idle: seq<Client>,
    closed: bool,
    field: bool,
    writer: Option<Tid>,
    readers: set<Tid>,
    pc: map<Tid, Pc>,
    lent: set<Client>,
    dropped: set<Client>,
    made: set<Client>,
    closings: nat,
    fault: Option<Fault>)

  /** What a thread does next. `Go` carries the client that the factory makes if it is called. */
  datatype Action = CallGet | CallPut(c: Option<Client>) | CallClose | CallLen | Go(spare: Client)

  datatype InvalidCapacity = InvalidCapacity

  /** NewChanPool's fill loop; each send must find room in the channel. */
  method NewChanPool(initialCap: int, maxCap: int, threads: set<Tid>) returns (s: Option<State>)
    ensures s.None? <==> initialCap < 0 || maxCap <= 0 || initialCap > maxCap
    ensures s.Some? ==> Init(s.value) && |s.value.idle| == initialCap && s.value.maxCap == maxCap
    ensures s.Some? ==> s.value.pc.Keys == threads
  {
    if initialCap < 0 || maxCap <= 0 || initialCap > maxCap {
      return None;
    }
    var idle: seq<Client> := [];
    for i := 0 to initialCap
      invariant |idle| == i
      invariant forall k | 0 <= k < i :: idle[k] == k
    {
      var proxy: Client := i;
      assert |idle| < maxCap; // the send does not block
      idle := idle + [proxy];
    }
    s := Some(State(maxCap, idle, false, true, None, {}, map t | t in threads :: Idle, {}, {},
                    set c | c in idle, 0, None));
  }

  ghost predicate Init(s: State) {
    && 0 < s.maxCap && |s.idle| <= s.maxCap
    && !s.closed && s.field && s.writer.None? && s.readers == {}
    && (forall t <- s.pc :: s.pc[t] == Idle)
    && Different(s.idle)
    && s.lent == {} && s.dropped == {} && s.made == Idling(s)
    && s.closings == 0 && s.fault.None?
  }

  function Idling(s: State): set<Client> {
    set c | c in s.idle
  }

  predicate Different(cs: seq<Client>) {
    forall i, j | 0 <= i < j < |cs| :: cs[i] != cs[j]
  }

  function At(s: State, t: Tid, pc: Pc): State {
    s.(pc := s.pc[t := pc])
  }

  predicate InGet(pc: Pc) {
    pc.GetChecks? || pc.GetReads? || pc.GetSelects? || pc.GetReturns?
  }

  predicate InPut(pc: Pc) {
    pc.PutLocks? || pc.PutChecks? || pc.PutSends? || pc.PutUnlocks?
  }

  predicate InClose(pc: Pc) {
    pc.CloseLocks? || pc.CloseClears? || pc.CloseUnlocks? || pc.CloseCloses?
  }

  /** The state after one step of thread `t`, or None if it has to wait. */
  function Step(s: State, t: Tid, a: Action): Option<State>
    requires t in s.pc
  {
    if s.pc[t].Idle? then Begin(s, t, a)
    else if !a.Go? then None
    else if InGet(s.pc[t]) then GetStep(s, t, a.spare)
    else if InPut(s.pc[t]) then PutStep(s, t)
    else if InClose(s.pc[t]) then CloseStep(s, t)
    else LenStep(s, t)
  }

  function GetStep(s: State, t: Tid, spare: Client): Option<State>
    requires t in s.pc && InGet(s.pc[t])
  {
    match s.pc[t]
    case GetChecks => Some(At(s, t, if s.field then GetReads else GetReturns(None)))
    case GetReads => Some(At(s, t, GetSelects(s.field)))
    case GetSelects(chan) => Select(s, t, chan, spare)
    case GetReturns(got) =>
      Some(At(s, t, Idle).(lent := if got.Some? then s.lent + {got.value} else s.lent))
  }

  function PutStep(s: State, t: Tid): Option<State>
    requires t in s.pc && InPut(s.pc[t])
  {
    match s.pc[t]
    case PutLocks(c) =>
      if s.writer.Some? then None else Some(At(s, t, PutChecks(c)).(readers := s.readers + {t}))
    case PutChecks(c) =>
      Some(if s.field then At(s, t, PutSends(c)) else At(s, t, PutUnlocks).(dropped := s.dropped + {c}))
    case PutSends(c) => Some(Send(s, t, c))
    case PutUnlocks => Some(At(s, t, Idle).(readers := s.readers - {t}))
  }

  function CloseStep(s: State, t: Tid): Option<State>
    requires t in s.pc && InClose(s.pc[t])
  {
    match s.pc[t]
    case CloseLocks =>
      if s.writer.Some? || s.readers != {} then None else Some(At(s, t, CloseClears).(writer := Some(t)))
    case CloseClears => Some(At(s, t, CloseUnlocks(s.field)).(field := false))
    case CloseUnlocks(chan) => Some(At(s, t, if chan then CloseCloses else Idle).(writer := None))
    case CloseCloses =>
      Some(At(s, t, Idle).(closed := true, closings := s.closings + 1,
                           fault := if s.closed then Some(ClosedTwice) else s.fault))
  }

  function LenStep(s: State, t: Tid): Option<State>
    requires t in s.pc && !s.pc[t].Idle? && !InGet(s.pc[t]) && !InPut(s.pc[t]) && !InClose(s.pc[t])
  {
    match s.pc[t]
    case LenLocks =>
      if s.writer.Some? then None else Some(At(s, t, LenReads).(readers := s.readers + {t}))
    case LenReads => Some(At(s, t, LenUnlocks(s.field)))
    case LenUnlocks(chan) => Some(At(s, t, LenCounts(chan)).(readers := s.readers - {t}))
    case LenCounts(_) => Some(At(s, t, Idle))
  }

  /** What Len returns: the number of clients in the channel, none in a nil one. */
  function Counted(s: State, chan: bool): nat {
    if chan then |s.idle| else 0
  }

  /** A call begins. Put refuses a nil client before it touches the lock. */
  function Begin(s: State, t: Tid, a: Action): Option<State> {
    match a
    case CallGet => Some(At(s, t, GetChecks))
    case CallPut(None) => Some(s)
    case CallPut(Some(c)) => Some(At(s, t, PutLocks(c)).(lent := s.lent - {c}))
    case CallClose => Some(At(s, t, CloseLocks))
    case CallLen => Some(At(s, t, LenLocks))
    case Go(_) => None
  }

  /** Get's select: a nil channel is never ready; a closed one yields what is left in it and then nil. */
  function Select(s: State, t: Tid, chan: bool, spare: Client): Option<State> {
    if chan && s.idle != [] then
      Some(At(s, t, GetReturns(Some(s.idle[0]))).(idle := s.idle[1..]))
    else if chan && s.closed then
      Some(At(s, t, GetReturns(None)))
    else if spare in s.made then
      None
    else
      Some(At(s, t, GetReturns(Some(spare))).(made := s.made + {spare}))
  }

  /** Put's select: the client is dropped if the channel is full. */
  function Send(s: State, t: Tid, c: Client): State {
    if !s.field then At(s, t, PutUnlocks).(dropped := s.dropped + {c})
    else if s.closed then At(s, t, PutUnlocks).(fault := Some(SentOnClosed))
    else if |s.idle| < s.maxCap then At(s, t, PutUnlocks).(idle := s.idle + [c])
    else At(s, t, PutUnlocks).(dropped := s.dropped + {c})
  }

  /** The threads that hold the lock for reading, the one that holds it for writing, and who is to close. */
  predicate Reads(pc: Pc) {
    pc.PutChecks? || pc.PutSends? || pc.PutUnlocks? || pc.LenReads? || pc.LenUnlocks?
  }

  predicate Writes(pc: Pc) {
    pc.CloseClears? || pc.CloseUnlocks?
  }

  predicate Closes(pc: Pc) {
    pc == CloseUnlocks(true) || pc == CloseCloses
  }

  ghost predicate Locked(s: State) {
    && (forall t :: t in s.readers <==> t in s.pc && Reads(s.pc[t]))
    && (forall t :: s.writer == Some(t) <==> t in s.pc && Writes(s.pc[t]))
    && (s.writer.Some? ==> s.readers == {})
  }

  ghost predicate Inv(s: State) {
    && 0 < s.maxCap && |s.idle| <= s.maxCap && s.fault.None?
    && Locked(s)
    && (s.field || s.closed ==> forall t <- s.pc :: !Closes(s.pc[t]))
    && (forall t, u | t in s.pc && u in s.pc && Closes(s.pc[t]) && Closes(s.pc[u]) :: t == u)
    && (s.field ==> !s.closed)
    && s.closings == (if s.closed then 1 else 0)
    && (forall t <- s.pc :: s.pc[t].PutSends? || s.pc[t] == GetReturns(None) ==> s.field == s.pc[t].PutSends?)
  }

  lemma InitInv(s: State)
    requires Init(s)
    ensures Inv(s)
  {}

  /** The lock's bookkeeping survives a step that changes it for one thread as that thread's place says. */
  lemma LockedAfter(s: State, n: State, t: Tid)
    requires Locked(s) && LockMoves(s, n, t)
    ensures Locked(n)
  {
    assert n.writer.Some? ==> n.readers == {};
  }

  lemma StepKeepsLocked(s: State, t: Tid, a: Action)
    requires Locked(s) && t in s.pc && Step(s, t, a).Some?
    ensures Locked(Step(s, t, a).value)
  {
    hide Locked, LockHeld, LockMoves, Step;
    LockOf(s, t);
    LockStep(s, t, a);
    LockedAfter(s, Step(s, t, a).value, t);
  }

  /** How a step moves thread `t` in and out of the lock. */
  ghost predicate LockMoves(s: State, n: State, t: Tid) {
    && t in n.pc && t in s.pc && n.pc == s.pc[t := n.pc[t]]
    && n.readers == (if Reads(n.pc[t]) then s.readers + {t} else s.readers - {t})
    && (Writes(n.pc[t]) ==> n.writer == Some(t) && s.writer in {None, Some(t)} && s.readers == {})
    && (!Writes(n.pc[t]) ==> n.writer == (if s.writer == Some(t) then None else s.writer))
    && (Reads(n.pc[t]) ==> n.writer.None?)
  }

  ghost predicate LockHeld(s: State, t: Tid)
    requires t in s.pc
  {
    && (s.writer.Some? ==> s.readers == {})
    && (t in s.readers <==> Reads(s.pc[t])) && (s.writer == Some(t) <==> Writes(s.pc[t]))
  }

  lemma LockStep(s: State, t: Tid, a: Action)
    requires t in s.pc && LockHeld(s, t) && Step(s, t, a).Some?
    ensures LockMoves(s, Step(s, t, a).value, t)
  {
    hide LockMoves, LockHeld, GetStep, PutStep, CloseStep, LenStep, Begin;
    if s.pc[t].Idle? {
      BeginLock(s, t, a);
    } else if InGet(s.pc[t]) {
      GetLock(s, t, a.spare);
    } else if InPut(s.pc[t]) {
      PutLock(s, t);
    } else if InClose(s.pc[t]) {
      CloseLock(s, t);
    } else {
      LenLock(s, t);
    }
  }

  lemma GetLock(s: State, t: Tid, spare: Client)
    requires t in s.pc && LockHeld(s, t) && InGet(s.pc[t]) && GetStep(s, t, spare).Some?
    ensures LockMoves(s, GetStep(s, t, spare).value, t)
  {}

  lemma PutLock(s: State, t: Tid)
    requires t in s.pc && LockHeld(s, t) && InPut(s.pc[t]) && PutStep(s, t).Some?
    ensures LockMoves(s, PutStep(s, t).value, t)
  {}

  lemma CloseLock(s: State, t: Tid)
    requires t in s.pc && LockHeld(s, t) && InClose(s.pc[t]) && CloseStep(s, t).Some?
    ensures LockMoves(s, CloseStep(s, t).value, t)
  {}

  lemma LenLock(s: State, t: Tid)
    requires t in s.pc && LockHeld(s, t) && !s.pc[t].Idle? && !InGet(s.pc[t]) && !InPut(s.pc[t]) && !InClose(s.pc[t])
    requires LenStep(s, t).Some?
    ensures LockMoves(s, LenStep(s, t).value, t)
  {}

  lemma BeginLock(s: State, t: Tid, a: Action)
    requires t in s.pc && LockHeld(s, t) && s.pc[t].Idle? && Begin(s, t, a).Some?
    ensures LockMoves(s, Begin(s, t, a).value, t)
  {}

  /** What the lock says about one thread. */
  lemma LockOf(s: State, t: Tid)
    requires Locked(s) && t in s.pc
    ensures LockHeld(s, t)
  {}

  /** A step that leaves the field and the closing of the channel alone. */
  ghost predicate ChannelStays(s: State, n: State, t: Tid)
  {
    && t in s.pc && t in n.pc && n.pc == s.pc[t := n.pc[t]]
    && n.maxCap == s.maxCap && |n.idle| <= n.maxCap && n.fault.None?
    && n.field == s.field && n.closed == s.closed && n.closings == s.closings
    && (Closes(n.pc[t]) ==> Closes(s.pc[t]))
    && (n.pc[t].PutSends? ==> s.field)
    && (n.pc[t] == GetReturns(None) ==> !s.field)
  }

  lemma ChannelStaysInv(s: State, n: State, t: Tid)
    requires Inv(s) && Locked(n) && ChannelStays(s, n, t)
    ensures Inv(n)
  {
    hide Locked;
  }

  lemma ClearKeepsInv(s: State, t: Tid, a: Action)
    requires Inv(s) && t in s.pc && s.pc[t].CloseClears? && Step(s, t, a).Some?
    ensures Inv(Step(s, t, a).value)
  {
    hide Locked;
    StepKeepsLocked(s, t, a);
    LockOf(s, t);
    forall u <- s.pc
      ensures !s.pc[u].PutSends?
    {
      LockOf(s, u);
    }
  }

  /** What the invariant says about one thread. */
  ghost predicate InvOf(s: State, t: Tid)
    requires t in s.pc
  {
    && |s.idle| <= s.maxCap && s.fault.None?
    && (s.closed ==> !s.field) && (s.pc[t].PutSends? || s.pc[t] == GetReturns(None) ==> s.field == s.pc[t].PutSends?)
  }

  lemma GetKeepsChannel(s: State, t: Tid, spare: Client)
    requires t in s.pc && InvOf(s, t) && InGet(s.pc[t]) && GetStep(s, t, spare).Some?
    ensures ChannelStays(s, GetStep(s, t, spare).value, t)
  {}

  lemma PutKeepsChannel(s: State, t: Tid)
    requires t in s.pc && InvOf(s, t) && InPut(s.pc[t]) && PutStep(s, t).Some?
    ensures ChannelStays(s, PutStep(s, t).value, t)
  {}

  lemma OtherKeepsChannel(s: State, t: Tid, a: Action)
    requires t in s.pc && InvOf(s, t) && !InGet(s.pc[t]) && !InPut(s.pc[t]) && Step(s, t, a).Some?
    requires !s.pc[t].CloseClears? && !s.pc[t].CloseCloses?
    ensures ChannelStays(s, Step(s, t, a).value, t)
  {
    hide GetStep, PutStep;
  }

  lemma CloseKeepsInv(s: State, t: Tid, a: Action)
    requires Inv(s) && t in s.pc && s.pc[t].CloseCloses? && Step(s, t, a).Some?
    ensures Inv(Step(s, t, a).value)
  {
    hide Locked, GetStep, PutStep;
    StepKeepsLocked(s, t, a);
  }

  /** One step of any thread, with any arguments, keeps the invariant. */
  lemma StepKeepsInv(s: State, t: Tid, a: Action)
    requires Inv(s) && t in s.pc && Step(s, t, a).Some?
    ensures Inv(Step(s, t, a).value)
  {
    hide Locked, GetStep, PutStep, CloseStep, LenStep, Begin, ChannelStays;
    if s.pc[t].CloseClears? {
      ClearKeepsInv(s, t, a);
    } else if s.pc[t].CloseCloses? {
      CloseKeepsInv(s, t, a);
    } else {
      StepKeepsLocked(s, t, a);
      if InGet(s.pc[t]) {
        GetKeepsChannel(s, t, a.spare);
      } else if InPut(s.pc[t]) {
        PutKeepsChannel(s, t);
      } else {
        OtherKeepsChannel(s, t, a);
      }
      ChannelStaysInv(s, Step(s, t, a).value, t);
    }
  }

  /** The client a thread has in its hands. */
  function Hand(pc: Pc): Option<Client> {
    match pc
    case GetReturns(got) => got
    case PutLocks(c) => Some(c)
    case PutChecks(c) => Some(c)
    case PutSends(c) => Some(c)
    case _ => None
  }

  ghost predicate InFlight(s: State, c: Client) {
    exists t :: t in s.pc && Hand(s.pc[t]) == Some(c)
  }

  ghost predicate Placed(s: State, c: Client) {
    c in s.idle || c in s.lent || c in s.dropped || InFlight(s, c)
  }

  /** What a thread has in its hands is nowhere else. */
  ghost predicate HandApart(s: State, t: Tid)
    requires t in s.pc
  {
    Hand(s.pc[t]).Some? ==>
      var c := Hand(s.pc[t]).value;
      && c in s.made && c !in s.idle && c !in s.lent && c !in s.dropped
      && forall u <- s.pc | Hand(s.pc[u]) == Some(c) :: u == t
  }

  ghost predicate Apart(s: State, c: Client) {
    var i, l, d := c in s.idle, c in s.lent, c in s.dropped;
    !(i && l) && !(i && d) && !(l && d) && (i || l || d ==> c in s.made)
  }

  /** Every client ever made is in exactly one place: idle, lent, dropped or in the hands of one thread. */
  ghost predicate Owned(s: State) {
    && Different(s.idle)
    && (forall c: Client :: Apart(s, c))
    && (forall t <- s.pc :: HandApart(s, t))
    && (forall c <- s.made :: Placed(s, c))
  }

  /** A borrower returns only what it was lent. */
  predicate Disciplined(s: State, a: Action) {
    a.CallPut? && a.c.Some? ==> a.c.value in s.lent
  }

  ghost predicate Stays(s: State, n: State, c: Client) {
    && (c in n.idle <==> c in s.idle) && (c in n.lent <==> c in s.lent)
    && (c in n.dropped <==> c in s.dropped) && (c in n.made <==> c in s.made)
  }

  /** In the new state `c` is in exactly one of the four kinds of place. */
  ghost predicate InOnePlace(n: State, t: Tid, c: Client)
    requires t in n.pc
  {
    var i, l, d, h := c in n.idle, c in n.lent, c in n.dropped, Hand(n.pc[t]) == Some(c);
    && c in n.made && (i || l || d || h)
    && !(i && l) && !(i && d) && !(i && h) && !(l && d) && !(l && h) && !(d && h)
  }

  /** A step of `t` that moves only `c`, which no other thread had in its hands. */
  lemma MoveKeepsOwned(s: State, n: State, t: Tid, c: Client)
    requires Owned(s) && t in s.pc && t in n.pc && n.pc == s.pc[t := n.pc[t]]
    requires Hand(s.pc[t]) in {None, Some(c)} && Hand(n.pc[t]) in {None, Some(c)}
    requires Different(n.idle) && InOnePlace(n, t, c)
    requires forall x: Client | x != c :: Stays(s, n, x)
    requires forall u <- s.pc | u != t :: Hand(s.pc[u]) != Some(c)
    ensures Owned(n)
  {
    forall x: Client
      ensures Apart(n, x)
    {
      assert Apart(s, x);
      assert x != c ==> Stays(s, n, x);
    }
    forall u <- n.pc
      ensures HandApart(n, u)
    {
      assert HandApart(s, u);
      if Hand(n.pc[u]).Some? && Hand(n.pc[u]) != Some(c) {
        assert Stays(s, n, Hand(n.pc[u]).value);
      }
    }
    forall x <- n.made
      ensures Placed(n, x)
    {
      if x != c {
        assert Stays(s, n, x);
        assert Placed(s, x);
        if InFlight(s, x) {
          var u :| u in s.pc && Hand(s.pc[u]) == Some(x);
          assert u in n.pc && Hand(n.pc[u]) == Some(x);
        }
      } else if Hand(n.pc[t]) == Some(c) {
        assert InFlight(n, c);
      }
    }
  }

  /** A step that leaves every client where it is. */
  ghost predicate ClientsStay(s: State, n: State, t: Tid) {
    && t in s.pc && t in n.pc && n.pc == s.pc[t := n.pc[t]]
    && Hand(n.pc[t]) == Hand(s.pc[t])
    && n.idle == s.idle && n.lent == s.lent && n.dropped == s.dropped && n.made == s.made
  }

  lemma RestKeepsOwned(s: State, n: State, t: Tid)
    requires Owned(s) && ClientsStay(s, n, t)
    ensures Owned(n)
  {
    forall x: Client
      ensures Apart(n, x)
    {
      assert Apart(s, x);
    }
    forall u <- n.pc
      ensures HandApart(n, u)
    {
      assert HandApart(s, u);
    }
    forall x <- n.made
      ensures Placed(n, x)
    {
      assert Placed(s, x);
      if InFlight(s, x) {
        var u :| u in s.pc && Hand(s.pc[u]) == Some(x);
        assert u in n.pc && Hand(n.pc[u]) == Some(x);
      }
    }
  }

  /** What ownership says about one client and about the hands of one thread. */
  lemma OwnedOf(s: State, t: Tid, c: Client)
    requires Owned(s) && t in s.pc
    ensures Apart(s, c) && HandApart(s, t) && Different(s.idle) && (c in s.made ==> Placed(s, c))
    ensures c in s.idle || c in s.lent || c in s.dropped || c !in s.made ==> !InFlight(s, c)
  {
    assert Apart(s, c);
    if InFlight(s, c) {
      var u :| u in s.pc && Hand(s.pc[u]) == Some(c);
      assert HandApart(s, u);
    }
  }

  lemma PutCallKeepsOwned(s: State, t: Tid, c: Client)
    requires Owned(s) && t in s.pc && s.pc[t].Idle? && c in s.lent
    ensures Owned(Step(s, t, CallPut(Some(c))).value)
  {
    hide Owned;
    OwnedOf(s, t, c);
    MoveKeepsOwned(s, Step(s, t, CallPut(Some(c))).value, t, c);
  }

  lemma SelectKeepsOwned(s: State, t: Tid, a: Action)
    requires Owned(s) && t in s.pc && s.pc[t].GetSelects? && Step(s, t, a).Some?
    ensures Owned(Step(s, t, a).value)
  {
    hide Owned;
    var n := Step(s, t, a).value;
    if s.pc[t].chan && s.idle != [] {
      OwnedOf(s, t, s.idle[0]);
      forall x: Client | x != s.idle[0]
        ensures Stays(s, n, x)
      {
        assert s.idle == [s.idle[0]] + s.idle[1..];
      }
      MoveKeepsOwned(s, n, t, s.idle[0]);
    } else if s.pc[t].chan && s.closed {
      RestKeepsOwned(s, n, t);
    } else {
      OwnedOf(s, t, a.spare);
      MoveKeepsOwned(s, n, t, a.spare);
    }
  }

  /** The steps that let go of the client in a thread's hands, or keep it there. */
  lemma HandKeepsOwned(s: State, t: Tid, a: Action)
    requires Owned(s) && t in s.pc && Hand(s.pc[t]).Some? && Step(s, t, a).Some?
    requires Inv(s)
    ensures Owned(Step(s, t, a).value)
  {
    hide Owned, Locked, CloseStep, LenStep, Begin;
    var n := Step(s, t, a).value;
    var c := Hand(s.pc[t]).value;
    OwnedOf(s, t, c);
    MoveKeepsOwned(s, n, t, c);
  }

  /** A step keeps every client in exactly one place. */
  lemma StepKeepsOwned(s: State, t: Tid, a: Action)
    requires Inv(s) && Owned(s) && t in s.pc && (s.pc[t].Idle? ==> Disciplined(s, a)) && Step(s, t, a).Some?
    ensures Owned(Step(s, t, a).value)
  {
    hide Owned, Locked, Inv;
    if s.pc[t].Idle? && a.CallPut? && a.c.Some? {
      PutCallKeepsOwned(s, t, a.c.value);
    } else if s.pc[t].GetSelects? {
      SelectKeepsOwned(s, t, a);
    } else if Hand(s.pc[t]).Some? {
      HandKeepsOwned(s, t, a);
    } else {
      LeavesClients(s, t, a);
      RestKeepsOwned(s, Step(s, t, a).value, t);
    }
  }

  lemma LeavesClients(s: State, t: Tid, a: Action)
    requires t in s.pc && !s.pc[t].GetSelects? && Hand(s.pc[t]).None? && Step(s, t, a).Some?
    requires !(s.pc[t].Idle? && a.CallPut? && a.c.Some?)
    ensures ClientsStay(s, Step(s, t, a).value, t)
  {
    hide ClientsStay, GetStep, PutStep, CloseStep, LenStep, Begin;
    if s.pc[t].Idle? {
      BeginLeaves(s, t, a);
    } else if InGet(s.pc[t]) {
      GetLeaves(s, t, a.spare);
    } else if InPut(s.pc[t]) {
      PutLeaves(s, t);
    } else if InClose(s.pc[t]) {
      CloseLeaves(s, t);
    } else {
      LenLeaves(s, t);
    }
  }

  lemma BeginLeaves(s: State, t: Tid, a: Action)
    requires t in s.pc && s.pc[t].Idle? && !(a.CallPut? && a.c.Some?) && Begin(s, t, a).Some?
    ensures ClientsStay(s, Begin(s, t, a).value, t)
  {}

  lemma GetLeaves(s: State, t: Tid, spare: Client)
    requires t in s.pc && InGet(s.pc[t]) && !s.pc[t].GetSelects? && Hand(s.pc[t]).None?
    requires GetStep(s, t, spare).Some?
    ensures ClientsStay(s, GetStep(s, t, spare).value, t)
  {}

  lemma PutLeaves(s: State, t: Tid)
    requires t in s.pc && InPut(s.pc[t]) && Hand(s.pc[t]).None? && PutStep(s, t).Some?
    ensures ClientsStay(s, PutStep(s, t).value, t)
  {}

  lemma CloseLeaves(s: State, t: Tid)
    requires t in s.pc && InClose(s.pc[t]) && CloseStep(s, t).Some?
    ensures ClientsStay(s, CloseStep(s, t).value, t)
  {}

  lemma LenLeaves(s: State, t: Tid)
    requires t in s.pc && !s.pc[t].Idle? && !InGet(s.pc[t]) && !InPut(s.pc[t]) && !InClose(s.pc[t])
    requires LenStep(s, t).Some?
    ensures ClientsStay(s, LenStep(s, t).value, t)
  {}

  datatype Move = Move(t: Tid, a: Action)

  /** Where a run of single steps leads, if every step can be taken. */
  function After(s: State, run: seq<Move>): Option<State> {
    if run == [] then Some(s)
    else
      var before := After(s, run[..|run| - 1]);
      var m := run[|run| - 1];
      if before.Some? && m.t in before.value.pc then Step(before.value, m.t, m.a) else None
  }

  ghost predicate DisciplinedRun(s: State, run: seq<Move>) {
    run != [] ==>
      var before := After(s, run[..|run| - 1]);
      var m := run[|run| - 1];
      && DisciplinedRun(s, run[..|run| - 1])
      && (before.Some? && m.t in before.value.pc && before.value.pc[m.t].Idle? ==> Disciplined(before.value, m.a))
  }

  lemma {:induction false} RunKeepsInv(s: State, run: seq<Move>)
    requires Init(s) && After(s, run).Some?
    ensures Inv(After(s, run).value)
  {
    if run == [] {
      InitInv(s);
    } else {
      var m := run[|run| - 1];
      RunKeepsInv(s, run[..|run| - 1]);
      StepKeepsInv(After(s, run[..|run| - 1]).value, m.t, m.a);
    }
  }

  lemma {:induction false} RunKeepsOwned(s: State, run: seq<Move>)
    requires Init(s) && After(s, run).Some? && DisciplinedRun(s, run)
    ensures Owned(After(s, run).value)
  {
    if run != [] {
      var m := run[|run| - 1];
      RunKeepsOwned(s, run[..|run| - 1]);
      RunKeepsInv(s, run[..|run| - 1]);
      StepKeepsOwned(After(s, run[..|run| - 1]).value, m.t, m.a);
    }
  }

  /** In every run: nothing is sent on a closed channel, it is closed at most once, and never overfilled. */
  lemma SafeInEveryRun(s: State, run: seq<Move>)
    requires Init(s) && After(s, run).Some?
    ensures var now := After(s, run).value;
            && now.fault.None?
            && now.closings <= 1
            && |now.idle| <= now.maxCap
            && (forall t <- now.pc :: now.pc[t] == GetReturns(None) ==> !now.field)
            && (forall t <- now.pc :: now.pc[t].LenCounts? ==> Counted(now, now.pc[t].chan) <= now.maxCap)
  {
    RunKeepsInv(s, run);
  }

  /** If borrowers return only what they hold, a client that Get hands out is nowhere else. */
  lemma NeverLentTwice(s: State, run: seq<Move>, t: Tid, c: Client)
    requires Init(s) && After(s, run).Some? && DisciplinedRun(s, run)
    requires t in After(s, run).value.pc && After(s, run).value.pc[t] == GetReturns(Some(c))
    ensures var now := After(s, run).value;
            c !in now.lent && c !in now.idle && forall u <- now.pc | u != t :: Hand(now.pc[u]) != Some(c)
  {
    RunKeepsOwned(s, run);
    assert HandApart(After(s, run).value, t);
  }

  /** A client not yet made. */
  lemma Unmade(made: set<Client>) returns (c: Client)
    ensures c !in made
  {
    var rest := made;
    c := 0;
    while rest != {}
      invariant forall m <- made :: m in rest || m < c
      decreases |rest|
    {
      var m :| m in rest;
      rest := rest - {m};
      c := if m < c then c else m + 1;
    }
  }

  /** No channel operation waits: Get's select, Put's select and close can always be carried out. */
  lemma ChannelOperationsDoNotBlock(s: State, t: Tid)
    requires t in s.pc && (s.pc[t].GetSelects? || s.pc[t].PutSends? || s.pc[t].CloseCloses?)
    ensures exists c: Client :: Step(s, t, Go(c)).Some?
  {
    var c := Unmade(s.made);
    assert Step(s, t, Go(c)).Some?;
  }

  /** Whoever does not wait for the lock can go on. */
  lemma OnlyLocksWait(s: State, t: Tid)
    requires t in s.pc && !s.pc[t].Idle? && !s.pc[t].PutLocks? && !s.pc[t].CloseLocks? && !s.pc[t].LenLocks?
    ensures exists c: Client :: Step(s, t, Go(c)).Some?
  {
    var c := Unmade(s.made);
    assert Step(s, t, Go(c)).Some?;
  }

  /** In every run, while some call is unfinished some unfinished call can go on. */
  lemma NeverStuck(s: State, run: seq<Move>, t: Tid)
    requires Init(s) && After(s, run).Some?
    requires t in After(s, run).value.pc && !After(s, run).value.pc[t].Idle?
    ensures var now := After(s, run).value;
            exists u, c: Client :: u in now.pc && !now.pc[u].Idle? && Step(now, u, Go(c)).Some?
  {
    RunKeepsInv(s, run);
    var now := After(s, run).value;
    var u :=
      if now.writer.Some? then now.writer.value
      else if now.readers != {} then var r :| r in now.readers; r
      else t;
    if now.writer.None? && now.readers == {} && (now.pc[t].PutLocks? || now.pc[t].CloseLocks? || now.pc[t].LenLocks?) {
      assert Step(now, t, Go(0)).Some?;
    } else {
      OnlyLocksWait(now, u);
    }
  }

  /** Once the field has been cleared it stays so, and the channel only drains, oldest client first. */
  lemma ClosedPoolOnlyDrains(s: State, t: Tid, a: Action)
    requires Inv(s) && t in s.pc && !s.field && Step(s, t, a).Some?
    ensures var next := Step(s, t, a).value;
            && !next.field
            && (next.idle == s.idle
                || (s.idle != [] && next.idle == s.idle[1..] && next.pc[t] == GetReturns(Some(s.idle[0]))))
  {}

  /**
   In every state the idle clients are a queue: a step takes the oldest and gives it to a Get, or puts a Put's
   client at the end if there is room. A client is dropped only if there is none or the pool is closed, and
   one is made only if no idle client could be taken.
   */
  lemma IdleIsAQueue(s: State, t: Tid, a: Action)
    requires Inv(s) && t in s.pc && Step(s, t, a).Some?
    ensures var next := Step(s, t, a).value;
            || next.idle == s.idle
            || (&& s.pc[t].GetSelects? && s.idle != [] && next.idle == s.idle[1..]
                && next.pc[t] == GetReturns(Some(s.idle[0])))
            || (s.pc[t].PutSends? && |s.idle| < s.maxCap && next.idle == s.idle + [s.pc[t].c])
    ensures s.pc[t].PutSends? && |s.idle| < s.maxCap ==> Step(s, t, a).value.idle != s.idle
    ensures Step(s, t, a).value.dropped != s.dropped ==> !s.field || |s.idle| == s.maxCap
    ensures Step(s, t, a).value.made != s.made ==> s.pc[t].GetSelects? && (s.idle == [] || !s.pc[t].chan)
  {
    hide Locked;
    if InGet(s.pc[t]) {
      QueueAtGet(s, t, a);
    } else if InPut(s.pc[t]) {
      QueueAtPut(s, t, a);
    } else {
      QueueElsewhere(s, t, a);
    }
  }

  lemma QueueAtGet(s: State, t: Tid, a: Action)
    requires t in s.pc && InGet(s.pc[t]) && Step(s, t, a).Some?
    ensures var next := Step(s, t, a).value;
            && next.dropped == s.dropped
            && (next.made != s.made ==> s.pc[t].GetSelects? && (s.idle == [] || !s.pc[t].chan))
            && (next.idle != s.idle ==>
                  && s.pc[t].GetSelects? && s.idle != [] && next.idle == s.idle[1..]
                  && next.pc[t] == GetReturns(Some(s.idle[0])))
  {
    hide PutStep, CloseStep, LenStep, Begin;
  }

  lemma QueueAtPut(s: State, t: Tid, a: Action)
    requires t in s.pc && InvOf(s, t) && InPut(s.pc[t]) && Step(s, t, a).Some?
    ensures var next := Step(s, t, a).value;
            && next.made == s.made
            && (next.dropped != s.dropped ==> !s.field || |s.idle| == s.maxCap)
            && next.idle == if s.pc[t].PutSends? && |s.idle| < s.maxCap then s.idle + [s.pc[t].c] else s.idle
  {
    hide GetStep, CloseStep, LenStep, Begin;
  }

  lemma QueueElsewhere(s: State, t: Tid, a: Action)
    requires t in s.pc && !InGet(s.pc[t]) && !InPut(s.pc[t]) && Step(s, t, a).Some?
    ensures var next := Step(s, t, a).value; next.idle == s.idle && next.dropped == s.dropped && next.made == s.made
  {
    hide GetStep, PutStep;
  }

  // When Get fails

  /**
   What a thread saw in its latest Get: whether the field held the channel at the nil check and at the second
   read, and whether the channel was closed and what was left in it at the select.
   */
  datatype GetLog = GetLog(checked: bool, read: bool, closed: bool, left: seq<Client>)

  function Noted(log: GetLog, s: State, t: Tid): GetLog
    requires t in s.pc
  {
    match s.pc[t]
    case GetChecks => GetLog(s.field, false, false, [])
    case GetReads => log.(read := s.field)
    case GetSelects(_) => log.(closed := s.closed, left := s.idle)
    case _ => log
  }

  function Log(s: State, run: seq<Move>, t: Tid): GetLog {
    if run == [] then GetLog(false, false, false, [])
    else
      var before := After(s, run[..|run| - 1]);
      var log := Log(s, run[..|run| - 1], t);
      if run[|run| - 1].t == t && before.Some? && t in before.value.pc then Noted(log, before.value, t) else log
  }

  /** Get fails in two cases only: the nil check failed, or the channel it read was closed and drained. */
  predicate Fails(log: GetLog) {
    !log.checked || (log.read && log.closed && log.left == [])
  }

  ghost predicate LogFits(pc: Pc, log: GetLog) {
    match pc
    case GetReads => log.checked
    case GetSelects(chan) => log.checked && chan == log.read
    case GetReturns(got) =>
      (got.None? <==> Fails(log)) && (log.checked && log.read && log.left != [] ==> got == Some(log.left[0]))
    case _ => true
  }

  lemma StepKeepsLog(s: State, t: Tid, a: Action, log: GetLog)
    requires t in s.pc && Step(s, t, a).Some? && LogFits(s.pc[t], log)
    ensures t in Step(s, t, a).value.pc && LogFits(Step(s, t, a).value.pc[t], Noted(log, s, t))
  {
    hide PutStep, CloseStep, LenStep;
    if !s.pc[t].Idle? && !InGet(s.pc[t]) {
      LeavesGetAlone(s, t, a);
    }
  }

  lemma LeavesGetAlone(s: State, t: Tid, a: Action)
    requires t in s.pc && Step(s, t, a).Some? && !s.pc[t].Idle? && !InGet(s.pc[t])
    ensures t in Step(s, t, a).value.pc && !InGet(Step(s, t, a).value.pc[t])
  {
    hide GetStep, Begin;
  }

  /** A step moves no thread but its own, and the field never comes back. */
  lemma OthersStay(s: State, t: Tid, a: Action, u: Tid)
    requires t in s.pc && u in s.pc && u != t && Step(s, t, a).Some?
    ensures u in Step(s, t, a).value.pc && Step(s, t, a).value.pc[u] == s.pc[u]
    ensures Step(s, t, a).value.pc.Keys == s.pc.Keys
    ensures !s.field ==> !Step(s, t, a).value.field
  {
    hide Select, Send;
    if s.pc[t].GetSelects? {
      SelectMovesOne(s, t, s.pc[t].chan, a.spare);
    } else if s.pc[t].PutSends? {
      SendMovesOne(s, t, s.pc[t].c);
    }
  }

  lemma SelectMovesOne(s: State, t: Tid, chan: bool, spare: Client)
    requires t in s.pc && Select(s, t, chan, spare).Some?
    ensures var n := Select(s, t, chan, spare).value; t in n.pc && n.pc == s.pc[t := n.pc[t]] && n.field == s.field
  {}

  lemma SendMovesOne(s: State, t: Tid, c: Client)
    requires t in s.pc
    ensures var n := Send(s, t, c); t in n.pc && n.pc == s.pc[t := n.pc[t]] && n.field == s.field
  {}

  lemma {:induction false} RunKeepsLog(s: State, run: seq<Move>, t: Tid)
    requires Init(s) && t in s.pc && After(s, run).Some?
    ensures t in After(s, run).value.pc && LogFits(After(s, run).value.pc[t], Log(s, run, t))
  {
    hide Step, Noted, LogFits;
    if run == [] {
      IdleFits(s, t);
    } else {
      var m := run[|run| - 1];
      var before := After(s, run[..|run| - 1]).value;
      RunKeepsLog(s, run[..|run| - 1], t);
      if m.t == t {
        StepKeepsLog(before, t, m.a, Log(s, run[..|run| - 1], t));
      } else {
        OthersStay(before, m.t, m.a, t);
      }
    }
  }

  lemma IdleFits(s: State, t: Tid)
    requires Init(s) && t in s.pc
    ensures LogFits(s.pc[t], Log(s, [], t))
  {}

  /**
   In every run a Get fails exactly if its nil check came after the field was cleared, or it read the channel
   and found it closed and drained. So, of a pool whose channel was closed when it came to the select, it
   returns a client exactly if its second read found nil or idle clients were left.
   */
  lemma GetFailsIff(s: State, run: seq<Move>, t: Tid)
    requires Init(s) && t in s.pc && After(s, run).Some?
    requires t in After(s, run).value.pc && After(s, run).value.pc[t].GetReturns?
    ensures var got, log := After(s, run).value.pc[t].got, Log(s, run, t);
            && (got.None? <==> !log.checked || (log.read && log.closed && log.left == []))
            && (log.checked && log.closed ==> (got.Some? <==> !log.read || log.left != []))
            && (log.checked && log.read && log.left != [] ==> got == Some(log.left[0]))
  {
    RunKeepsLog(s, run, t);
  }

  /** How many steps of a run are the thread's own. */
  function MovesOf(run: seq<Move>, t: Tid): nat {
    if run == [] then 0 else MovesOf(run[..|run| - 1], t) + if run[|run| - 1].t == t then 1 else 0
  }

  /** A Get that comes to its nil check when the field is nil fails with its next step, whatever others do. */
  lemma {:induction false} ClearedPoolRefuses(s: State, run: seq<Move>, t: Tid)
    requires t in s.pc && s.pc[t].GetChecks? && !s.field && After(s, run).Some? && MovesOf(run, t) <= 1
    ensures var now := After(s, run).value;
            && !now.field && t in now.pc
            && now.pc[t] == if MovesOf(run, t) == 0 then GetChecks else GetReturns(None)
  {
    hide Step;
    if run != [] {
      var m := run[|run| - 1];
      var before := After(s, run[..|run| - 1]).value;
      ClearedPoolRefuses(s, run[..|run| - 1], t);
      if m.t == t {
        CheckFails(before, t, m.a);
      } else {
        OthersStay(before, m.t, m.a, t);
      }
    }
  }

  lemma CheckFails(s: State, t: Tid, a: Action)
    requires t in s.pc && s.pc[t].GetChecks? && !s.field && Step(s, t, a).Some?
    ensures var n := Step(s, t, a).value; !n.field && t in n.pc && n.pc[t] == GetReturns(None)
  {}

  /** A pool of one client and two callers. */
  const PAIR := State(1, [7], false, true, None, {}, map[0 := Idle, 1 := Idle], {}, {}, {7}, 0, None)

  /** A run can be continued by any step that its last state allows. */
  lemma {:induction false} OneMore(s: State, run: seq<Move>, n: State, m: Move) returns (longer: seq<Move>, next: State)
    requires After(s, run) == Some(n) && m.t in n.pc && Step(n, m.t, m.a).Some?
    ensures next == Step(n, m.t, m.a).value && After(s, longer) == Some(next)
  {
    longer, next := run + [m], Step(n, m.t, m.a).value;
    assert longer[..|run|] == run;
  }

  /** An undisturbed Close by caller 1. */
  lemma CloseRuns(s: State, run: seq<Move>, n: State) returns (longer: seq<Move>, next: State)
    requires After(s, run) == Some(n) && n.pc.Keys == {0, 1} && n.pc[1].Idle?
    requires n.field && !n.closed && n.writer.None? && n.readers == {}
    ensures After(s, longer) == Some(next)
    ensures next.pc.Keys == {0, 1} && next.pc[0] == n.pc[0] && next.closed && !next.field
    ensures next.made == n.made && next.idle == n.idle
  {
    hide After;
    longer, next := OneMore(s, run, n, Move(1, CallClose));
    longer, next := OneMore(s, longer, next, Move(1, Go(0)));
    longer, next := OneMore(s, longer, next, Move(1, Go(0)));
    longer, next := OneMore(s, longer, next, Move(1, Go(0)));
    longer, next := OneMore(s, longer, next, Move(1, Go(0)));
  }

  /**
   Get is documented to fail once the pool has been closed, but it reads the field twice without the lock. If a
   Close finishes between the two reads the select has a nil channel and falls through to the factory.
   */
  lemma ClosedPoolMayStillLend() returns (run: seq<Move>, now: State)
    ensures Init(PAIR) && After(PAIR, run) == Some(now)
    ensures 0 in now.pc && now.pc[0] == GetReturns(Some(8)) && now.closed && !now.field
  {
    run, now := OneMore(PAIR, [], PAIR, Move(0, CallGet));
    run, now := OneMore(PAIR, run, now, Move(0, Go(0)));
    run, now := CloseRuns(PAIR, run, now);
    run, now := OneMore(PAIR, run, now, Move(0, Go(0)));
    run, now := OneMore(PAIR, run, now, Move(0, Go(8)));
  }

  /** If a Close finishes between the second read and the select, the closed channel still yields its clients. */
  lemma ClosedChannelMayStillLend() returns (run: seq<Move>, now: State)
    ensures Init(PAIR) && After(PAIR, run) == Some(now)
    ensures 0 in now.pc && now.pc[0] == GetReturns(Some(7)) && now.closed && !now.field
  {
    run, now := OneMore(PAIR, [], PAIR, Move(0, CallGet));
    run, now := OneMore(PAIR, run, now, Move(0, Go(0)));
    run, now := OneMore(PAIR, run, now, Move(0, Go(0)));
    run, now := CloseRuns(PAIR, run, now);
    run, now := OneMore(PAIR, run, now, Move(0, Go(8)));
  }
}
