/** The plug-notice mailbox of usDisk.c: one slot behind a mutex, filled by the event thread and emptied by
    the main thread. */
module Mailbox {
  /** What a plug event leaves in the slot. */
  datatype Event = Event(plugIn: bool, dev: string, time: int)

  /** struct nofiyStruct; the other fields keep their values when `valid` is cleared. */
  datatype Slot = Slot(valid: bool, event: Event)

  const EMPTY: Slot := Slot(false, Event(false, "", 0))

  /** One call: usDisk_PlugCallBack, with what disk_aciton_func said; usDisk_getNotifyInfo; usDisk_diskLun
      or usDisk_diskInfo, with whether the registry could answer. */
  datatype Op = Plug(accepted: bool, e: Event) | Fetch | Reply(success: bool)

  // ----- The calls as single steps

  datatype Box = Box(slot: Slot, delivered: seq<Event>)

  function Apply(b: Box, op: Op): Box {
    match op
    case Plug(accepted, e) => if accepted then b.(slot := Slot(true, e)) else b
    case Fetch =>
      if b.slot.valid then Box(b.slot.(valid := false), b.delivered + [b.slot.event]) else b
    case Reply(success) => if success then b.(slot := EMPTY) else b
  }

  function After(ops: seq<Op>): Box {
    if ops == [] then Box(EMPTY, []) else Apply(After(ops[..|ops| - 1]), ops[|ops| - 1])
  }

  predicate Fills(op: Op) {
    op.Plug? && op.accepted
  }

  predicate Empties(op: Op) {
    op.Fetch? || (op.Reply? && op.success)
  }

  /** The event accepted at call `i` is in the slot before call `j`: nothing between filled or emptied it. */
  predicate Held(ops: seq<Op>, i: nat, j: nat) {
    i < j <= |ops| && Fills(ops[i]) && forall k :: i < k < j ==> !Fills(ops[k]) && !Empties(ops[k])
  }

  /** The slot is valid exactly when an event was accepted after the last fetch and the last successful LUN
      or INFO reply, and it holds the latest such event. */
  lemma {:induction false} SlotHoldsLatest(ops: seq<Op>)
    ensures After(ops).slot.valid <==> exists i: nat :: Held(ops, i, |ops|)
    ensures forall i: nat :: Held(ops, i, |ops|) ==> After(ops).slot == Slot(true, ops[i].e)
    decreases |ops|
  {
    if ops != [] {
      var n := |ops| - 1;
      SlotHoldsLatest(ops[..n]);
      if Fills(ops[n]) {
        assert Held(ops, n, n + 1);
      } else if After(ops).slot.valid {
        var i: nat :| Held(ops[..n], i, n);
        assert Held(ops, i, n + 1);
      }
      forall i: nat | Held(ops, i, n + 1)
        ensures After(ops).slot == Slot(true, ops[i].e)
      {
        if i < n {
          assert Held(ops[..n], i, n);
        }
      }
    }
  }

  /** For each delivered event, the call that brought it in. */
  function Origins(ops: seq<Op>): seq<nat>
    decreases |ops|
  {
    if ops == [] then []
    else
      var n := |ops| - 1;
      Origins(ops[..n]) + if ops[n].Fetch? && After(ops[..n]).slot.valid then [Latest(ops[..n])] else []
  }

  /** The last call that filled the slot. */
  function Latest(ops: seq<Op>): (i: nat)
    requires After(ops).slot.valid
    ensures Held(ops, i, |ops|)
    decreases |ops|
  {
    SlotHoldsLatest(ops);
    var n := |ops| - 1;
    if Fills(ops[n]) then n
    else
      var i := Latest(ops[..n]);
      assert Held(ops, i, n + 1);
      i
  }

  /** The accepted event of call `i` was fetched: a fetch came before anything else filled or emptied the
      slot. */
  ghost predicate Fetched(ops: seq<Op>, i: nat) {
    exists j: nat :: Held(ops, i, j) && j < |ops| && ops[j].Fetch?
  }

  predicate Rising(s: seq<nat>) {
    forall i, j :: 0 <= i < j < |s| ==> s[i] < s[j]
  }

  /** No event is delivered twice, none out of order and none that was not accepted: the delivered events
      are those of a rising sequence of calls, and these are exactly the calls whose event was fetched in
      time. */
  lemma {:induction false} DeliveredOnce(ops: seq<Op>)
    ensures var d, o := After(ops).delivered, Origins(ops);
            && |d| == |o| && Rising(o)
            && (forall k :: 0 <= k < |o| ==> o[k] < |ops| && Fills(ops[o[k]]) && d[k] == ops[o[k]].e)
            && (forall i: nat :: i in o <==> Fetched(ops, i))
    decreases |ops|
  {
    if ops != [] {
      var n := |ops| - 1;
      var front := ops[..n];
      DeliveredOnce(front);
      forall i: nat
        ensures i in Origins(ops) <==> Fetched(ops, i)
      {
        FetchedLater(ops, i);
        if ops[n].Fetch? && After(front).slot.valid {
          HeldOnce(front, i, Latest(front));
        } else if ops[n].Fetch? {
          SlotHoldsLatest(front);
        }
      }
      if ops[n].Fetch? && After(front).slot.valid {
        var l := Latest(front);
        SlotHoldsLatest(front);
        forall k | 0 <= k < |Origins(front)|
          ensures Origins(front)[k] < l
        {
          var i := Origins(front)[k];
          assert i in Origins(front);
          FetchedIsGone(front, i, l);
        }
      }
    }
  }

  lemma HeldInPrefix(ops: seq<Op>, m: nat, i: nat, j: nat)
    requires j <= m <= |ops|
    ensures Held(ops[..m], i, j) <==> Held(ops, i, j)
  {
  }

  /** Fetched before, or by the last call. */
  lemma FetchedLater(ops: seq<Op>, i: nat)
    requires ops != []
    ensures var n := |ops| - 1;
            Fetched(ops, i) <==> Fetched(ops[..n], i) || (ops[n].Fetch? && Held(ops[..n], i, n))
  {
    hide Held;
    var n := |ops| - 1;
    HeldInPrefix(ops, n, i, n);
    if Fetched(ops, i) {
      var j: nat :| Held(ops, i, j) && j < |ops| && ops[j].Fetch?;
      HeldInPrefix(ops, n, i, j);
      assert j < n ==> ops[..n][j].Fetch?;
    }
    if Fetched(ops[..n], i) {
      var j: nat :| Held(ops[..n], i, j) && j < |ops[..n]| && ops[..n][j].Fetch?;
      HeldInPrefix(ops, n, i, j);
      assert ops[j].Fetch?;
    }
  }

  lemma HeldOnce(ops: seq<Op>, i: nat, l: nat)
    requires Held(ops, l, |ops|)
    ensures Held(ops, i, |ops|) <==> i == l
  {
  }

  lemma FetchedIsGone(ops: seq<Op>, i: nat, l: nat)
    requires Fetched(ops, i) && Held(ops, l, |ops|)
    ensures i < l
  {
    var j: nat :| Held(ops, i, j) && j < |ops| && ops[j].Fetch?;
  }

  // ----- The calls as the threads run them

  datatype Holder = Free | EventThread | MainThread

  /** Where a thread is: outside, waiting for the mutex, or past `done` of the statements under it. */
  datatype Pc = Idle | Waiting(op: Op) | Inside(op: Op, done: nat)

  /** The shared slot and the two threads; `log` is the calls that have given the mutex back, in that
      order. */
  datatype Threads = Threads(
    holder: Holder, slot: Slot, delivered: seq<Event>, event: Pc, main: Pc, log: seq<Op>)

  const START: Threads := Threads(Free, EMPTY, [], Idle, Idle, [])

  /** How many statements a call runs under the mutex, given the slot it found. */
  function Statements(op: Op, found: Slot): nat {
    match op
    case Plug(accepted, _) => if accepted then 4 else 0
    case Fetch => if found.valid then 2 else 0
    case Reply(success) => if success then 2 else 0
  }

  /** The slot and the deliveries after `done` statements of the call. Plug sets event, dev, invokTime and
      valid; Fetch copies the slot out and clears valid; a reply clears valid and then the rest. */
  function Progress(b: Box, op: Op, done: nat): Box {
    var s := b.slot;
    if done == 0 then b
    else match op
      case Plug(_, e) =>
        b.(slot := Slot(if done >= 4 then true else s.valid,
                        Event(e.plugIn, if done >= 2 then e.dev else s.event.dev,
                              if done >= 3 then e.time else s.event.time)))
      case Fetch => Box(if done >= 2 then s.(valid := false) else s, b.delivered + [s.event])
      case Reply(_) => b.(slot := if done >= 2 then EMPTY else s.(valid := false))
  }

  /** One statement: the `done`-th of the call, on the slot as it is. */
  function Statement(s: Threads, op: Op, done: nat): Threads {
    match op
    case Plug(_, e) =>
      var old_ := s.slot.event;
      s.(slot := if done == 0 then s.slot.(event := old_.(plugIn := e.plugIn))
                 else if done == 1 then s.slot.(event := old_.(dev := e.dev))
                 else if done == 2 then s.slot.(event := old_.(time := e.time))
                 else s.slot.(valid := true))
    case Fetch =>
      if done == 0 then s.(delivered := s.delivered + [s.slot.event]) else s.(slot := s.slot.(valid := false))
    case Reply(_) =>
      s.(slot := if done == 0 then s.slot.(valid := false) else EMPTY)
  }

  /** Whether a call inside, past `done` statements, has another one to run. Fetch looks at valid once,
      when it gets the mutex; the others have their answer from the registry. */
  predicate More(s: Threads, op: Op, done: nat) {
    match op
    case Plug(accepted, _) => accepted && done < 4
    case Fetch => if done == 0 then s.slot.valid else done < 2
    case Reply(success) => success && done < 2
  }

  /** Either thread makes a call when it is idle, or moves on in the one it is in. */
  datatype Action = EventCalls(accepted: bool, e: Event) | EventGoes | MainFetches | MainReplies(success: bool) | MainGoes

  /** A waiting thread gets a free mutex; one inside runs a statement, or gives the mutex back. */
  function Go(s: Threads, pc: Pc, me: Holder): (r: (Threads, Pc)) {
    match pc
    case Idle => (s, pc)
    case Waiting(op) => if s.holder == Free then (s.(holder := me), Inside(op, 0)) else (s, pc)
    case Inside(op, done) =>
      if More(s, op, done) then (Statement(s, op, done), Inside(op, done + 1))
      else (s.(holder := Free, log := s.log + [op]), Idle)
  }

  function Step(s: Threads, a: Action): Threads {
    match a
    case EventCalls(accepted, e) => if s.event.Idle? then s.(event := Waiting(Plug(accepted, e))) else s
    case MainFetches => if s.main.Idle? then s.(main := Waiting(Fetch)) else s
    case MainReplies(success) => if s.main.Idle? then s.(main := Waiting(Reply(success))) else s
    case EventGoes => var g := Go(s, s.event, EventThread); g.0.(event := g.1)
    case MainGoes => var g := Go(s, s.main, MainThread); g.0.(main := g.1)
  }

  function Run(actions: seq<Action>): Threads {
    if actions == [] then START else Step(Run(actions[..|actions| - 1]), actions[|actions| - 1])
  }

  /** The thread inside has done a part of its call to what the finished calls left. */
  predicate Midway(s: Threads, op: Op, done: nat) {
    var b := After(s.log);
    done <= Statements(op, b.slot) && Box(s.slot, s.delivered) == Progress(b, op, done)
  }

  /** Who holds the mutex is inside, alone. */
  predicate Coherent(s: Threads) {
    && (s.holder == EventThread <==> s.event.Inside?) && (s.holder == MainThread <==> s.main.Inside?)
    && (s.event.Waiting? ==> s.event.op.Plug?)
    && match s.holder
       case Free => Box(s.slot, s.delivered) == After(s.log)
       case EventThread => s.event.op.Plug? && Midway(s, s.event.op, s.event.done)
       case MainThread => Midway(s, s.main.op, s.main.done)
  }

  lemma LogGrows(s: Threads, op: Op)
    requires Midway(s, op, Statements(op, After(s.log).slot))
    ensures After(s.log + [op]) == Box(s.slot, s.delivered)
  {
    assert (s.log + [op])[..|s.log|] == s.log;
  }

  lemma StatementGoesOn(s: Threads, op: Op, done: nat)
    requires Midway(s, op, done)
    ensures More(s, op, done) <==> done < Statements(op, After(s.log).slot)
    ensures More(s, op, done) ==>
              var t := Statement(s, op, done);
              Midway(t, op, done + 1) && t == s.(slot := t.slot, delivered := t.delivered)
  {
    hide After;
  }

  /** One move of a thread keeps coherence, whichever thread it is. */
  lemma GoKeeps(s: Threads, pc: Pc, me: Holder)
    requires me != Free && (pc.Inside? <==> s.holder == me)
    requires s.holder == Free ==> Box(s.slot, s.delivered) == After(s.log)
    requires pc.Inside? ==> Midway(s, pc.op, pc.done)
    ensures var g := Go(s, pc, me);
            && (g.1.Inside? <==> g.0.holder == me) && g.0.event == s.event && g.0.main == s.main
            && (g.1.Inside? ==> Midway(g.0, g.1.op, g.1.done))
            && (g.0.holder == Free ==> Box(g.0.slot, g.0.delivered) == After(g.0.log))
            && (s.holder != me && s.holder != Free ==> g.0 == s) && (g.0.holder == me || g.0.holder == Free || g.0 == s)
            && (!g.1.Idle? ==> !pc.Idle? && g.1.op == pc.op)
  {
    hide After, Progress, Statement, More, Statements;
    match pc {
      case Idle =>
      case Waiting(op) =>
        if s.holder == Free {
          NothingDone(s.(holder := me), op);
        }
      case Inside(op, done) =>
        StatementGoesOn(s, op, done);
        if !More(s, op, done) {
          LogGrows(s, op);
        }
    }
  }

  lemma NothingDone(s: Threads, op: Op)
    requires Box(s.slot, s.delivered) == After(s.log)
    ensures Midway(s, op, 0)
  {
  }

  lemma SameMidway(s: Threads, t: Threads)
    requires s.slot == t.slot && s.delivered == t.delivered && s.log == t.log
    ensures forall op, done :: Midway(s, op, done) <==> Midway(t, op, done)
  {
  }

  lemma StepKeeps(s: Threads, a: Action)
    requires Coherent(s)
    ensures Coherent(Step(s, a))
  {
    hide Midway, After, Go;
    match a {
      case EventGoes =>
        GoKeeps(s, s.event, EventThread);
        var g := Go(s, s.event, EventThread);
        SameMidway(g.0, Step(s, a));
      case MainGoes =>
        GoKeeps(s, s.main, MainThread);
        SameMidway(Go(s, s.main, MainThread).0, Step(s, a));
      case _ => SameMidway(s, Step(s, a));
    }
  }

  /** Under every interleaving of the two threads, statement by statement: at most one is inside, and
      whenever the mutex is free the slot and the deliveries are those of the finished calls run one
      after the other. */
  lemma {:induction false} InterleavingsAreAtomic(actions: seq<Action>)
    ensures var s := Run(actions);
            && Coherent(s) && !(s.event.Inside? && s.main.Inside?)
            && (s.holder == Free ==> Box(s.slot, s.delivered) == After(s.log))
    decreases |actions|
  {
    hide Step, After, Midway;
    if actions == [] {
      assert START.log == [] && After([]) == Box(EMPTY, []) by { NoCalls(); }
    } else {
      InterleavingsAreAtomic(actions[..|actions| - 1]);
      StepKeeps(Run(actions[..|actions| - 1]), actions[|actions| - 1]);
    }
  }

  lemma NoCalls()
    ensures After([]) == Box(EMPTY, [])
  {
  }

  /** So the mailbox keeps its promises under every interleaving. */
  lemma MailboxSafe(actions: seq<Action>)
    requires Run(actions).holder == Free
    ensures var s := Run(actions);
            && (s.slot.valid <==> exists i: nat :: Held(s.log, i, |s.log|))
            && (forall i: nat :: Held(s.log, i, |s.log|) ==> s.slot == Slot(true, s.log[i].e))
            && |s.delivered| == |Origins(s.log)| && Rising(Origins(s.log))
            && (forall k :: 0 <= k < |s.delivered| ==>
                  && Origins(s.log)[k] < |s.log| && Fills(s.log[Origins(s.log)[k]])
                  && s.delivered[k] == s.log[Origins(s.log)[k]].e)
  {
    hide Run, After, Origins;
    InterleavingsAreAtomic(actions);
    SlotHoldsLatest(Run(actions).log);
    DeliveredOnce(Run(actions).log);
  }

  // ----- Calls come to their end

  /** `n` moves of one thread. */
  function Moves(s: Threads, event: bool, n: nat): Threads
    decreases n
  {
    if n == 0 then s else Moves(Step(s, if event then EventGoes else MainGoes), event, n - 1)
  }

  function PcOf(s: Threads, event: bool): Pc {
    if event then s.event else s.main
  }

  /** The mutex is free again, the call is over and in the log, and the other thread is where it was. */
  predicate Finished(s: Threads, t: Threads, event: bool, op: Op) {
    && t.holder == Free && PcOf(t, event) == Idle && PcOf(t, !event) == PcOf(s, !event) && t.log == s.log + [op]
  }

  /** Whoever is inside comes out after the statements left and the release. */
  lemma {:induction false} HolderFinishes(s: Threads, event: bool, op: Op, done: nat)
    requires Coherent(s) && PcOf(s, event) == Inside(op, done)
    ensures done <= Statements(op, After(s.log).slot)
    ensures Finished(s, Moves(s, event, Statements(op, After(s.log).slot) - done + 1), event, op)
    decreases Statements(op, After(s.log).slot) - done
  {
    hide After, Statement, More, Statements, Progress;
    StatementGoesOn(s, op, done);
    var a := if event then EventGoes else MainGoes;
    StepKeeps(s, a);
    var t := Step(s, a);
    if done < Statements(op, After(s.log).slot) {
      assert PcOf(t, event) == Inside(op, done + 1) && t.log == s.log && PcOf(t, !event) == PcOf(s, !event);
      HolderFinishes(t, event, op, done + 1);
    }
  }

  /** A thread that waits while the mutex is free gets it, runs its call and gives it back, in as many moves
      as the call has statements and two more. */
  lemma CallCompletes(s: Threads, event: bool, op: Op)
    requires Coherent(s) && s.holder == Free && PcOf(s, event) == Waiting(op)
    ensures Finished(s, Moves(s, event, Statements(op, After(s.log).slot) + 2), event, op)
  {
    hide After, Statements, More, Statement, Midway;
    var a := if event then EventGoes else MainGoes;
    StepKeeps(s, a);
    var t := Step(s, a);
    assert PcOf(t, event) == Inside(op, 0) && t.log == s.log && PcOf(t, !event) == PcOf(s, !event);
    HolderFinishes(t, event, op, 0);
  }
}
