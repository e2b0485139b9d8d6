/** What Put, Close and Len have done when they return, in every run of the pool. */
module PoolCalls {
  import opened Options
  import opened ClientPool

  // Put

  /**
   What a thread saw and did in its latest Put: the client, whether the field held the channel at the nil check,
   whether the channel had room at the select, whether a step of the thread put the client at the end of the idle
   ones or added it to the dropped ones or changed who is lent what, and how many steps it has taken.
   */
  datatype PutLog = PutLog(c: Client, checked: bool, room: bool, appended: bool, dropped: bool, lending: bool,
                           steps: nat)

  /** The log after a step of the thread from `s` to `n`. */
  function NotedPut(log: PutLog, s: State, t: Tid, a: Action, n: State): PutLog
    requires t in s.pc
  {
    if s.pc[t].Idle? then
      if a.CallPut? && a.c.Some? then PutLog(a.c.value, false, false, false, false, false, 0) else log
    else
      log.(checked := if s.pc[t].PutChecks? then s.field else log.checked,
           room := if s.pc[t].PutSends? then |s.idle| < s.maxCap else log.room,
           appended := log.appended || n.idle == s.idle + [log.c],
           dropped := log.dropped || (log.c !in s.dropped && log.c in n.dropped),
           lending := log.lending || n.lent != s.lent,
           steps := log.steps + 1)
  }

  function PutLogOf(s: State, run: seq<Move>, t: Tid): PutLog {
    if run == [] then PutLog(0, false, false, false, false, false, 0)
    else
      var before, m := After(s, run[..|run| - 1]), run[|run| - 1];
      var log := PutLogOf(s, run[..|run| - 1], t);
      if m.t == t && before.Some? && t in before.value.pc && Step(before.value, t, m.a).Some? then
        NotedPut(log, before.value, t, m.a, Step(before.value, t, m.a).value)
      else log
  }

  ghost predicate PutFits(pc: Pc, log: PutLog) {
    match pc
    case PutLocks(c) => Holding(log, c) && log.steps == 0
    case PutChecks(c) => Holding(log, c) && log.steps == 1
    case PutSends(c) => Holding(log, c) && log.steps == 2 && log.checked
    case PutUnlocks =>
      && !log.lending && log.steps <= 3
      && (log.appended <==> log.checked && log.room) && (log.dropped <==> !log.appended)
    case _ => true
  }

  ghost predicate Holding(log: PutLog, c: Client) {
    log.c == c && !log.room && !log.appended && !log.dropped && !log.lending
  }

  lemma PutStepFits(s: State, t: Tid, a: Action, log: PutLog)
    requires t in s.pc && InPut(s.pc[t]) && Step(s, t, a).Some? && PutFits(s.pc[t], log)
    requires s.pc[t].PutSends? ==> s.field && !s.closed
    requires Hand(s.pc[t]).Some? ==> Hand(s.pc[t]).value !in s.dropped
    ensures var n := Step(s, t, a).value; t in n.pc && PutFits(n.pc[t], NotedPut(log, s, t, a, n))
  {
    hide GetStep, CloseStep, LenStep, Begin;
    var n := Step(s, t, a).value;
    assert |n.idle| == |s.idle| ==> n.idle != s.idle + [log.c];
  }

  lemma OtherStepFitsPut(s: State, t: Tid, a: Action, log: PutLog)
    requires t in s.pc && !InPut(s.pc[t]) && Step(s, t, a).Some?
    ensures var n := Step(s, t, a).value; t in n.pc && PutFits(n.pc[t], NotedPut(log, s, t, a, n))
  {
    hide Step, NotedPut;
    if s.pc[t].Idle? {
      BeginFitsPut(s, t, a, log);
    } else {
      StaysOutOfPut(s, t, a);
    }
  }

  lemma BeginFitsPut(s: State, t: Tid, a: Action, log: PutLog)
    requires t in s.pc && s.pc[t].Idle? && Step(s, t, a).Some?
    ensures var n := Step(s, t, a).value; t in n.pc && PutFits(n.pc[t], NotedPut(log, s, t, a, n))
  {
    hide PutStep, GetStep, CloseStep, LenStep;
  }

  lemma StaysOutOfPut(s: State, t: Tid, a: Action)
    requires t in s.pc && !s.pc[t].Idle? && !InPut(s.pc[t]) && Step(s, t, a).Some?
    ensures var n := Step(s, t, a).value; t in n.pc && !InPut(n.pc[t])
  {
    hide PutStep, Begin, Select;
    if s.pc[t].GetSelects? {
      SelectMovesOne(s, t, s.pc[t].chan, a.spare);
      SelectGoesOn(s, t, s.pc[t].chan, a.spare);
    }
  }

  lemma ReadyToPut(s: State, t: Tid)
    requires Inv(s) && Owned(s) && t in s.pc
    ensures s.pc[t].PutSends? ==> s.field && !s.closed
    ensures Hand(s.pc[t]).Some? ==> var c := Hand(s.pc[t]).value; c !in s.dropped && c !in s.lent && c !in s.idle
  {
    hide Locked;
    assert HandApart(s, t);
  }

  lemma {:induction false} RunKeepsPutLog(s: State, run: seq<Move>, t: Tid)
    requires Init(s) && t in s.pc && After(s, run).Some? && DisciplinedRun(s, run)
    ensures t in After(s, run).value.pc && PutFits(After(s, run).value.pc[t], PutLogOf(s, run, t))
  {
    hide Step, NotedPut, PutFits, Inv, Owned;
    if run == [] {
      IdlePutFits(s, t);
    } else {
      var m, init := run[|run| - 1], run[..|run| - 1];
      var before := After(s, init).value;
      RunKeepsPutLog(s, init, t);
      if m.t != t {
        OthersStay(before, m.t, m.a, t);
      } else if InPut(before.pc[t]) {
        RunKeepsInv(s, init);
        RunKeepsOwned(s, init);
        ReadyToPut(before, t);
        PutStepFits(before, t, m.a, PutLogOf(s, init, t));
      } else {
        OtherStepFitsPut(before, t, m.a, PutLogOf(s, init, t));
      }
    }
  }

  lemma IdlePutFits(s: State, t: Tid)
    requires Init(s) && t in s.pc
    ensures PutFits(s.pc[t], PutLogOf(s, [], t))
  {}

  /**
   In every run where borrowers return only what they hold: when a Put is about to return, at most three steps
   after its call, it has put its client at the end of the idle ones exactly if it found the field set and then
   room in the channel. Otherwise it has added the client to the dropped ones. It never changes who is lent what.
   */
  lemma PutPutsBackIff(s: State, run: seq<Move>, t: Tid)
    requires Init(s) && t in s.pc && After(s, run).Some? && DisciplinedRun(s, run)
    requires t in After(s, run).value.pc && After(s, run).value.pc[t].PutUnlocks?
    ensures var log := PutLogOf(s, run, t);
            && (log.appended <==> log.checked && log.room)
            && (log.dropped <==> !(log.checked && log.room))
            && !log.lending && log.steps <= 3
  {
    RunKeepsPutLog(s, run, t);
  }

  /** Until then the client is the one that Put was called with, and it is neither lent nor idle nor dropped. */
  lemma PutHoldsItsClient(s: State, run: seq<Move>, t: Tid)
    requires Init(s) && t in s.pc && After(s, run).Some? && DisciplinedRun(s, run)
    requires t in After(s, run).value.pc && InPut(After(s, run).value.pc[t]) && !After(s, run).value.pc[t].PutUnlocks?
    ensures var now, c := After(s, run).value, PutLogOf(s, run, t).c;
            now.pc[t].c == c && c !in now.lent && c !in now.idle && c !in now.dropped
  {
    hide Inv, Owned;
    RunKeepsPutLog(s, run, t);
    RunKeepsInv(s, run);
    RunKeepsOwned(s, run);
    ReadyToPut(After(s, run).value, t);
  }

  // Close and Len

  datatype CloseLog = NotCalled | Called | Cleared(held: bool)

  /**
   What a thread saw in its latest call, if that was a Close: whether the field held the channel when it cleared
   it. And whether the field held the channel when it was last read by a Len.
   */
  datatype EndLog = EndLog(close: CloseLog, counting: bool)

  function NotedEnd(log: EndLog, s: State, t: Tid, a: Action): EndLog
    requires t in s.pc
  {
    match s.pc[t]
    case Idle => log.(close := if a.CallClose? then Called else NotCalled)
    case CloseClears => log.(close := Cleared(s.field))
    case LenReads => log.(counting := s.field)
    case _ => log
  }

  function EndLogOf(s: State, run: seq<Move>, t: Tid): EndLog {
    if run == [] then EndLog(NotCalled, false)
    else
      var before, m := After(s, run[..|run| - 1]), run[|run| - 1];
      var log := EndLogOf(s, run[..|run| - 1], t);
      if m.t == t && before.Some? && t in before.value.pc then NotedEnd(log, before.value, t, m.a) else log
  }

  ghost predicate EndFits(s: State, t: Tid, log: EndLog)
    requires t in s.pc
  {
    && (log.close.Cleared? ==> !s.field)
    && match s.pc[t]
       case Idle => !log.close.Called? && (log.close.Cleared? && log.close.held ==> s.closed)
       case CloseLocks => log.close.Called?
       case CloseClears => log.close.Called?
       case CloseUnlocks(chan) => log.close == Cleared(chan)
       case CloseCloses => log.close == Cleared(true)
       case LenUnlocks(chan) => log.close.NotCalled? && chan == log.counting
       case LenCounts(chan) => log.close.NotCalled? && chan == log.counting
       case _ => log.close.NotCalled?
  }

  lemma OwnStepFits(s: State, t: Tid, a: Action, log: EndLog)
    requires t in s.pc && Step(s, t, a).Some? && EndFits(s, t, log)
    ensures var n := Step(s, t, a).value; t in n.pc && EndFits(n, t, NotedEnd(log, s, t, a))
  {
    hide Select, Send;
    if s.pc[t].GetSelects? {
      SelectMovesOne(s, t, s.pc[t].chan, a.spare);
      SelectGoesOn(s, t, s.pc[t].chan, a.spare);
    } else if s.pc[t].PutSends? {
      SendMovesOne(s, t, s.pc[t].c);
      SendGoesOn(s, t, s.pc[t].c);
    }
  }

  lemma SelectGoesOn(s: State, t: Tid, chan: bool, spare: Client)
    requires t in s.pc && Select(s, t, chan, spare).Some?
    ensures var n := Select(s, t, chan, spare).value; t in n.pc && n.pc[t].GetReturns? && n.closed == s.closed
  {}

  lemma SendGoesOn(s: State, t: Tid, c: Client)
    requires t in s.pc
    ensures var n := Send(s, t, c); t in n.pc && n.pc[t].PutUnlocks? && n.closed == s.closed
  {}

  /** A closed channel stays closed. */
  lemma StaysClosed(s: State, t: Tid, a: Action)
    requires t in s.pc && Step(s, t, a).Some? && s.closed
    ensures Step(s, t, a).value.closed
  {
    hide Select, Send;
    if s.pc[t].GetSelects? {
      SelectGoesOn(s, t, s.pc[t].chan, a.spare);
    } else if s.pc[t].PutSends? {
      SendGoesOn(s, t, s.pc[t].c);
    }
  }

  lemma OtherStepFits(s: State, t: Tid, a: Action, u: Tid, log: EndLog)
    requires t in s.pc && u in s.pc && u != t && Step(s, t, a).Some? && EndFits(s, u, log)
    ensures var n := Step(s, t, a).value; u in n.pc && EndFits(n, u, log)
  {
    hide Step;
    OthersStay(s, t, a, u);
    if s.closed {
      StaysClosed(s, t, a);
    }
  }

  /** Someone is about to close the channel. */
  ghost predicate Closing(s: State) {
    exists u :: u in s.pc && Closes(s.pc[u])
  }

  lemma StepKeepsClosing(s: State, t: Tid, a: Action)
    requires t in s.pc && Step(s, t, a).Some? && (s.field || s.closed || Closing(s))
    ensures var n := Step(s, t, a).value; n.field || n.closed || Closing(n)
  {
    hide Step;
    if s.closed {
      StaysClosed(s, t, a);
    } else {
      if Closing(s) {
        var u :| u in s.pc && Closes(s.pc[u]);
        if u != t {
          OthersStay(s, t, a, u);
        }
      }
      OwnStepCloses(s, t, a);
    }
  }

  lemma OwnStepCloses(s: State, t: Tid, a: Action)
    requires t in s.pc && Step(s, t, a).Some?
    ensures var n := Step(s, t, a).value;
            && t in n.pc
            && (Closes(s.pc[t]) ==> Closes(n.pc[t]) || n.closed)
            && (s.field && !n.field ==> Closes(n.pc[t]))
  {
    hide Select, Send;
    if s.pc[t].GetSelects? {
      SelectMovesOne(s, t, s.pc[t].chan, a.spare);
    } else if s.pc[t].PutSends? {
      SendMovesOne(s, t, s.pc[t].c);
    }
  }

  lemma {:induction false} RunKeepsEndLog(s: State, run: seq<Move>, t: Tid)
    requires Init(s) && t in s.pc && After(s, run).Some?
    ensures var now := After(s, run).value;
            t in now.pc && EndFits(now, t, EndLogOf(s, run, t)) && (now.field || now.closed || Closing(now))
  {
    hide Step, NotedEnd, EndFits, Closing;
    if run == [] {
      IdleEndFits(s, t);
    } else {
      var m, init := run[|run| - 1], run[..|run| - 1];
      var before := After(s, init).value;
      RunKeepsEndLog(s, init, t);
      StepKeepsClosing(before, m.t, m.a);
      if m.t == t {
        OwnStepFits(before, t, m.a, EndLogOf(s, init, t));
      } else {
        OtherStepFits(before, m.t, m.a, t, EndLogOf(s, init, t));
      }
    }
  }

  lemma IdleEndFits(s: State, t: Tid)
    requires Init(s) && t in s.pc
    ensures EndFits(s, t, EndLogOf(s, [], t))
  {}

  /**
   In every run, once a Close has returned it has cleared the field, for good. If it found the channel there the
   channel is closed; otherwise the channel is closed or another Close is about to close it.
   */
  lemma CloseClosesThePool(s: State, run: seq<Move>, t: Tid)
    requires Init(s) && t in s.pc && After(s, run).Some?
    requires t in After(s, run).value.pc && After(s, run).value.pc[t].Idle? && !EndLogOf(s, run, t).close.NotCalled?
    ensures var now, log := After(s, run).value, EndLogOf(s, run, t).close;
            && log.Cleared? && !now.field
            && (log.held ==> now.closed)
            && (now.closed || exists u :: u in now.pc && (now.pc[u] == CloseUnlocks(true) || now.pc[u].CloseCloses?))
  {
    RunKeepsEndLog(s, run, t);
  }

  /** In every run Len counts the clients that are idle then, and none if it read the field after it was cleared. */
  lemma LenCountsIdle(s: State, run: seq<Move>, t: Tid)
    requires Init(s) && t in s.pc && After(s, run).Some?
    requires t in After(s, run).value.pc && After(s, run).value.pc[t].LenCounts?
    ensures var now := After(s, run).value;
            Counted(now, now.pc[t].chan) == if EndLogOf(s, run, t).counting then |now.idle| else 0
  {
    hide Step, NotedEnd, Closing, After, EndLogOf;
    RunKeepsEndLog(s, run, t);
  }
}
