/** The main loop of usStorage.c, over every change of the plug flag and every result of the calls it makes. */
module MainLoop {
  import opened Base
  import opened Mux

  datatype ConState = Init | Connecting | Connected

  /** What happens outside the loop: an interface claimed or released, and the calls that use it; a receive
      also says whether it brought something to handle. */
  datatype Event =
    | Claimed | Released
    | ConnectCall(status: Status) | ReceiveCall(status: Status, some: bool) | HandleCall(status: Status) | NotifyCall

  /** What one turn of the loop meets: the plug flag at its head, the phone that detection would claim, the
      results of connecting, receiving and handling, whether the received message is to be handled, and
      the plug flag at its end (the event thread may change it in between). */
  datatype Turn = Turn(plugged: bool, found: PhoneType, connect: Status, receive: Status, some: bool,
                       handle: Status, stillPlugged: bool)

  /** conState, phoneType of usContext.phone, and the events so far. */
  datatype Loop = Loop(con: ConState, phone: PhoneType, trace: seq<Event>)

  const START: Loop := Loop(Init, NoPhone, [])

  // ----- The loop

  function Note(s: Loop, e: Event): Loop {
    s.(trace := s.trace + [e])
  }

  /** usProtocol_PhoneRelease. */
  function Release(s: Loop): Loop {
    if s.phone.NoPhone? then s else Note(s.(phone := NoPhone), Released)
  }

  /** usProtocol_PhoneDetect: it releases first, whatever the loop says. */
  function Detect(s: Loop, found: PhoneType): Loop {
    var s1 := Release(s);
    if found.NoPhone? then s1 else Note(s1.(phone := found), Claimed)
  }

  /** What the loop does about the status of a receive or of a handled message. */
  function React(s: Loop, status: Status): Loop {
    match status
    case Ok => s
    case UsbTimeout => s
    case ProRefuse => s.(con := Connecting)
    case _ => Release(s.(con := Init))
  }

  /** From the receive call on. */
  function Serve(s: Loop, t: Turn): Loop {
    var s1 := React(Note(s, ReceiveCall(t.receive, t.some)), t.receive);
    if t.receive != Ok || !t.some then s1 else React(Note(s1, HandleCall(t.handle)), t.handle)
  }

  /** From loop_next on. */
  function Next(s: Loop, t: Turn): Loop {
    if !t.stillPlugged then Release(s).(con := Init)
    else if s.con == Connected then Note(s, NotifyCall)
    else s
  }

  /** One turn, through whichever of its exits. */
  function Step(s: Loop, t: Turn): Loop {
    if !t.plugged then s
    else
      var d := if s.con == Init then Detect(s, t.found) else s;
      if s.con == Init && t.found.NoPhone? then d
      else
        var d1 := if s.con == Init then d.(con := Connecting) else d;
        if d1.con == Connecting then
          var c := Note(d1, ConnectCall(t.connect));
          if t.connect == Ok then Next(Serve(c.(con := Connected), t), t) else Next(c, t)
        else Next(Serve(d1, t), t)
  }

  function Run(turns: seq<Turn>): Loop {
    if turns == [] then START else Step(Run(turns[..|turns| - 1]), turns[|turns| - 1])
  }

  // ----- What the outside world may see

  /** An interface is free, claimed, carrying a connection, or has failed and must be given up. */
  datatype Stage = Free | Attached | Online | Lost

  datatype Verdict = Wrong | Fine(stage: Stage)

  /** What a call that failed or not means for the connection. */
  function Outcome(status: Status): Stage {
    match status
    case Ok => Online
    case UsbTimeout => Online
    case ProRefuse => Attached
    case _ => Lost
  }

  /** The rules: an interface is claimed when free and released when not; a connection is tried on a
      claimed interface without one; receive, handle and notify need a connection; after a fatal status
      only the release may follow. */
  function Judge(stage: Stage, e: Event): Verdict {
    match e
    case Claimed => if stage == Free then Fine(Attached) else Wrong
    case Released => if stage != Free then Fine(Free) else Wrong
    case ConnectCall(status) =>
      if stage == Attached then Fine(if status == Ok then Online else Attached) else Wrong
    case ReceiveCall(status, _) => if stage == Online then Fine(Outcome(status)) else Wrong
    case HandleCall(status) => if stage == Online then Fine(Outcome(status)) else Wrong
    case NotifyCall => if stage == Online then Fine(Online) else Wrong
  }

  function JudgeAll(trace: seq<Event>): Verdict {
    if trace == [] then Fine(Free)
    else
      var v := JudgeAll(trace[..|trace| - 1]);
      if v.Wrong? then Wrong else Judge(v.stage, trace[|trace| - 1])
  }

  // ----- The rules are kept

  lemma JudgeOneMore(s: Loop, e: Event)
    requires JudgeAll(s.trace).Fine?
    ensures JudgeAll(Note(s, e).trace) == Judge(JudgeAll(s.trace).stage, e)
  {
    assert (s.trace + [e])[..|s.trace|] == s.trace;
  }

  /** The trace so far is right and has come to `stage`, and the phone record says whether an interface is
      claimed. */
  predicate At(s: Loop, stage: Stage) {
    JudgeAll(s.trace) == Fine(stage) && (s.phone.NoPhone? <==> stage == Free)
  }

  function StageOf(con: ConState): Stage {
    match con case Init => Free case Connecting => Attached case Connected => Online
  }

  lemma ReleaseAt(s: Loop, stage: Stage)
    requires At(s, stage)
    ensures At(Release(s), Free) && Release(s).con == s.con
  {
    JudgeOneMore(s, Released);
  }

  lemma ReactAt(s: Loop, status: Status)
    requires At(s, Outcome(status)) && s.con == Connected
    ensures At(React(s, status), StageOf(React(s, status).con))
    ensures status == Ok ==> React(s, status).con == Connected
  {
    hide At, Release;
    match status {
      case Ok =>
      case UsbTimeout =>
      case ProRefuse =>
      case _ =>
        SameAt(s, s.(con := Init), Lost);
        ReleaseAt(s.(con := Init), Lost);
    }
    SameAt(s, s.(con := Connecting), Outcome(status));
  }

  lemma SameAt(s: Loop, t: Loop, stage: Stage)
    requires s.phone == t.phone && s.trace == t.trace
    ensures At(s, stage) <==> At(t, stage)
  {
  }

  lemma ServeAt(s: Loop, t: Turn)
    requires s.con == Connected && At(s, Online)
    ensures At(Serve(s, t), StageOf(Serve(s, t).con))
  {
    hide React;
    JudgeOneMore(s, ReceiveCall(t.receive, t.some));
    ReactAt(Note(s, ReceiveCall(t.receive, t.some)), t.receive);
    var s1 := React(Note(s, ReceiveCall(t.receive, t.some)), t.receive);
    if t.receive == Ok && t.some {
      JudgeOneMore(s1, HandleCall(t.handle));
      ReactAt(Note(s1, HandleCall(t.handle)), t.handle);
    }
  }

  lemma NextAt(s: Loop, t: Turn)
    requires At(s, StageOf(s.con))
    ensures At(Next(s, t), StageOf(Next(s, t).con))
  {
    hide Release;
    ReleaseAt(s, StageOf(s.con));
    JudgeOneMore(s, NotifyCall);
  }

  lemma DetectAt(s: Loop, found: PhoneType)
    requires At(s, Free)
    ensures At(Detect(s, found), if found.NoPhone? then Free else Attached)
    ensures Detect(s, found).con == s.con && Release(s) == s
  {
    JudgeOneMore(s, Claimed);
  }

  lemma StepAt(s: Loop, t: Turn)
    requires At(s, StageOf(s.con))
    ensures At(Step(s, t), StageOf(Step(s, t).con))
  {
    hide Serve, Next, Detect;
    if t.plugged {
      if s.con == Init {
        DetectAt(s, t.found);
      }
      var d := if s.con == Init then Detect(s, t.found).(con := Connecting) else s;
      if !(s.con == Init && t.found.NoPhone?) {
        if d.con == Connecting {
          var c := Note(d, ConnectCall(t.connect));
          JudgeOneMore(d, ConnectCall(t.connect));
          if t.connect == Ok {
            ServeAt(c.(con := Connected), t);
            NextAt(Serve(c.(con := Connected), t), t);
          } else {
            NextAt(c, t);
          }
        } else {
          ServeAt(d, t);
          NextAt(Serve(d, t), t);
        }
      }
    }
  }

  /** In every run, whatever the plug flag does and the calls return: the trace keeps the rules, and at
      every loop head the state is CON_INIT exactly when no interface is claimed, CON_CNTING when one is
      claimed without a connection, and CON_CNTED when there is a connection. */
  lemma {:induction false} RunKeepsRules(turns: seq<Turn>)
    ensures var s := Run(turns);
            && JudgeAll(s.trace) == Fine(StageOf(s.con))
            && (s.con == Init <==> s.phone.NoPhone?)
    decreases |turns|
  {
    hide Step;
    if turns != [] {
      RunKeepsRules(turns[..|turns| - 1]);
      StepAt(Run(turns[..|turns| - 1]), turns[|turns| - 1]);
    }
  }

  // ----- What each turn does

  /** An interface is claimed without a connection, when the turn comes to connecting. */
  predicate Attachable(con: ConState, t: Turn) {
    con == Connecting || (con == Init && t.found != NoPhone)
  }

  /** The turn has a connection, or gets one. */
  predicate HasConnection(con: ConState, t: Turn) {
    t.plugged && (con == Connected || (Attachable(con, t) && t.connect == Ok))
  }

  /** What the last call over the connection leaves of it. */
  function LastOutcome(t: Turn): Stage {
    Outcome(if t.receive == Ok && t.some then t.handle else t.receive)
  }

  function Opening(con: ConState, t: Turn): seq<Event> {
    (if con == Init && t.found != NoPhone then [Claimed] else []) +
    (if Attachable(con, t) then [ConnectCall(t.connect)] else [])
  }

  function Serving(con: ConState, t: Turn): seq<Event> {
    if !HasConnection(con, t) then []
    else if t.receive == Ok && t.some then [ReceiveCall(t.receive, t.some), HandleCall(t.handle)]
    else [ReceiveCall(t.receive, t.some)]
  }

  function Closing(con: ConState, t: Turn): seq<Event> {
    if HasConnection(con, t) && LastOutcome(t) == Lost then [Released]
    else if !t.stillPlugged && (con == Connected || Attachable(con, t)) then [Released]
    else if HasConnection(con, t) && LastOutcome(t) == Online then [NotifyCall]
    else []
  }

  /** Everything a turn makes happen, in order. */
  function Script(con: ConState, t: Turn): seq<Event> {
    if !t.plugged then [] else Opening(con, t) + Serving(con, t) + Closing(con, t)
  }

  /** The state a turn ends in. */
  function Ending(con: ConState, t: Turn): ConState {
    if !t.plugged then con
    else if !t.stillPlugged || !(con == Connected || Attachable(con, t)) then Init
    else if !HasConnection(con, t) then Connecting
    else match LastOutcome(t)
      case Lost => Init
      case Attached => Connecting
      case _ => Connected
  }

  /** Exactly that happens: a turn of a plugged phone with a connection, old or new, receives once, handles
      what came if there was something, and notifies if the phone is still plugged and connected. */
  lemma TurnDoes(s: Loop, t: Turn)
    requires s.con == Init <==> s.phone.NoPhone?
    ensures Step(s, t).trace == s.trace + Script(s.con, t)
    ensures Step(s, t).con == Ending(s.con, t) && (Step(s, t).con == Init <==> Step(s, t).phone.NoPhone?)
  {
    hide Step, Serve, Opening, Opened, Serving, Closing, Next, Ending, LastOutcome;
    if t.plugged && (s.con == Connected || Attachable(s.con, t)) {
      OpeningDoes(s, t);
      var c := Opened(s, t);
      var lost := HasConnection(s.con, t) && LastOutcome(t) == Lost;
      var v := if HasConnection(s.con, t) then Serve(c.(con := Connected), t) else c;
      if HasConnection(s.con, t) {
        ServeDoes(s.con, c.(con := Connected), t);
      } else {
        NoServing(s.con, c.trace, t);
      }
      ClosingDoes(s.con, v, t);
      Assembled(s.trace, Opening(s.con, t), Serving(s.con, t), Closing(s.con, t), lost);
    } else {
      NothingDone(s, t);
    }
  }

  /** The loop when it comes to the receive call, or fails to connect. */
  function Opened(s: Loop, t: Turn): Loop {
    var d := if s.con == Init then Detect(s, t.found).(con := Connecting) else s;
    if d.con == Connecting then Note(d, ConnectCall(t.connect)) else d
  }

  lemma OpeningDoes(s: Loop, t: Turn)
    requires (s.con == Init <==> s.phone.NoPhone?) && t.plugged && (s.con == Connected || Attachable(s.con, t))
    ensures var c := Opened(s, t);
            && c.trace == s.trace + Opening(s.con, t) && !c.phone.NoPhone?
            && c.con == (if s.con == Connected then Connected else Connecting)
            && Step(s, t) == Next(if HasConnection(s.con, t) then Serve(c.(con := Connected), t) else c, t)
  {
    hide Serve, Next;
    assert s.con == Connected ==> Opened(s, t).(con := Connected) == Opened(s, t);
  }

  lemma NothingDone(s: Loop, t: Turn)
    requires (s.con == Init <==> s.phone.NoPhone?) && !(t.plugged && (s.con == Connected || Attachable(s.con, t)))
    ensures Step(s, t) == s && Ending(s.con, t) == s.con
    ensures s.trace == s.trace + Script(s.con, t)
  {
    hide Serve, Next;
    assert s.trace + [] == s.trace;
    assert Script(s.con, t) == [];
  }

  lemma ClosingDoes(con: ConState, v: Loop, t: Turn)
    requires t.plugged && (con == Connected || Attachable(con, t))
    requires var lost := HasConnection(con, t) && LastOutcome(t) == Lost;
             && (v.phone.NoPhone? <==> lost)
             && v.con == (if !HasConnection(con, t) then Connecting
                          else match LastOutcome(t) case Lost => Init case Attached => Connecting case _ => Connected)
    ensures var lost := HasConnection(con, t) && LastOutcome(t) == Lost;
            && Next(v, t).trace == v.trace + (if lost then [] else Closing(con, t))
            && (lost ==> Closing(con, t) == [Released])
            && Next(v, t).con == Ending(con, t) && (Next(v, t).con == Init <==> Next(v, t).phone.NoPhone?)
  {
    assert v.trace + [] == v.trace;
  }

  lemma Assembled(w: seq<Event>, a: seq<Event>, b: seq<Event>, c: seq<Event>, lost: bool)
    requires lost ==> c == [Released]
    ensures w + a + b + (if lost then [Released] else []) + (if lost then [] else c) == w + (a + b + c)
  {
  }

  lemma NoServing(con: ConState, w: seq<Event>, t: Turn)
    requires !HasConnection(con, t)
    ensures w == w + Serving(con, t) + []
  {
  }

  /** The receive and what follows from it. */
  lemma ServeDoes(con: ConState, s: Loop, t: Turn)
    requires s.con == Connected && !s.phone.NoPhone? && HasConnection(con, t)
    ensures var u := Serve(s, t);
            && u.trace == s.trace + Serving(con, t) + (if LastOutcome(t) == Lost then [Released] else [])
            && u.con == (match LastOutcome(t) case Lost => Init case Attached => Connecting case _ => Connected)
            && (u.phone.NoPhone? <==> LastOutcome(t) == Lost)
  {
  }

  /** A timeout of a receive changes neither the state nor the claim. */
  lemma TimeoutChangesNothing(s: Loop, t: Turn)
    requires s.con == Connected && !s.phone.NoPhone? && t.plugged && t.stillPlugged && t.receive == UsbTimeout
    ensures Step(s, t).con == Connected && Step(s, t).phone == s.phone
    ensures Step(s, t).trace == s.trace + [ReceiveCall(UsbTimeout, t.some), NotifyCall]
  {
    TurnDoes(s, t);
    assert Script(s.con, t) == [ReceiveCall(UsbTimeout, t.some), NotifyCall];
  }

  /** A message to handle has been received. */
  predicate Brings(e: Event) {
    e.ReceiveCall? && e.status == Ok && e.some
  }

  predicate AnsweredAt(trace: seq<Event>, i: nat)
    requires i < |trace|
  {
    Brings(trace[i]) <==> i + 1 < |trace| && trace[i + 1].HandleCall?
  }

  /** Every message received is handled at once, and nothing else is handled. */
  predicate Answered(trace: seq<Event>) {
    && (trace != [] ==> !trace[0].HandleCall?)
    && forall i :: 0 <= i < |trace| ==> AnsweredAt(trace, i)
  }

  lemma AnsweredJoin(a: seq<Event>, b: seq<Event>)
    requires Answered(a) && Answered(b)
    ensures Answered(a + b)
  {
    forall i | 0 <= i < |a + b|
      ensures AnsweredAt(a + b, i)
    {
      if i < |a| {
        assert AnsweredAt(a, i);
      } else {
        assert AnsweredAt(b, i - |a|);
      }
    }
  }

  lemma ScriptAnswers(con: ConState, t: Turn)
    ensures Answered(Script(con, t))
  {
    hide Answered, Opening, Serving, Closing;
    AnsweredNone();
    OpeningAnswers(con, t);
    ServingAnswers(con, t);
    ClosingAnswers(con, t);
    AnsweredJoin(Opening(con, t), Serving(con, t));
    AnsweredJoin(Opening(con, t) + Serving(con, t), Closing(con, t));
  }

  lemma OpeningAnswers(con: ConState, t: Turn)
    ensures Answered(Opening(con, t))
  {
    hide Answered;
    AnsweredNone();
    AnsweredOne(Claimed);
    AnsweredOne(ConnectCall(t.connect));
    AnsweredJoin(if con == Init && t.found != NoPhone then [Claimed] else [],
                 if Attachable(con, t) then [ConnectCall(t.connect)] else []);
  }

  lemma ServingAnswers(con: ConState, t: Turn)
    ensures Answered(Serving(con, t))
  {
    hide Answered;
    AnsweredNone();
    AnsweredPair(t.handle);
    if !(t.receive == Ok && t.some) {
      AnsweredOne(ReceiveCall(t.receive, t.some));
    }
  }

  lemma ClosingAnswers(con: ConState, t: Turn)
    ensures Answered(Closing(con, t))
  {
    hide Answered;
    AnsweredNone();
    AnsweredOne(Released);
    AnsweredOne(NotifyCall);
  }

  lemma AnsweredNone()
    ensures Answered([])
  {
  }

  lemma AnsweredOne(e: Event)
    requires !e.HandleCall? && !Brings(e)
    ensures Answered([e])
  {
  }

  lemma AnsweredPair(status: Status)
    ensures Answered([ReceiveCall(Ok, true), HandleCall(status)])
  {
    var trace := [ReceiveCall(Ok, true), HandleCall(status)];
    assert AnsweredAt(trace, 0) && AnsweredAt(trace, 1);
  }

  /** How many events of a trace are handle calls, and how many bring a message. */
  function Handled(trace: seq<Event>): nat {
    if trace == [] then 0 else Handled(trace[..|trace| - 1]) + if trace[|trace| - 1].HandleCall? then 1 else 0
  }

  function Brought(trace: seq<Event>): nat {
    if trace == [] then 0 else Brought(trace[..|trace| - 1]) + if Brings(trace[|trace| - 1]) then 1 else 0
  }

  /** Up to a call that brings a message, which is still to be handled. */
  lemma {:induction false} AnsweredCounts(trace: seq<Event>, k: nat)
    requires Answered(trace) && k <= |trace|
    ensures Brought(trace[..k]) == Handled(trace[..k]) + if k > 0 && Brings(trace[k - 1]) then 1 else 0
    decreases k
  {
    if k > 0 {
      AnsweredCounts(trace, k - 1);
      assert trace[..k][..k - 1] == trace[..k - 1];
      assert AnsweredAt(trace, k - 1) && (k > 1 ==> AnsweredAt(trace, k - 2));
    }
  }

  /** In every run each message that is received is handled by the very next event, nothing else is handled,
      and so there are as many handle calls as successful receives that bring something. */
  lemma {:induction false} RunAnswers(turns: seq<Turn>)
    ensures Answered(Run(turns).trace) && Handled(Run(turns).trace) == Brought(Run(turns).trace)
    decreases |turns|
  {
    hide Step, Answered, Handled, Brought;
    if turns == [] {
      NothingAnswered();
    } else {
      var front := turns[..|turns| - 1];
      RunAnswers(front);
      RunKeepsRules(front);
      var s, t := Run(front), turns[|turns| - 1];
      TurnDoes(s, t);
      ScriptAnswers(s.con, t);
      AnsweredJoin(s.trace, Script(s.con, t));
      CountsAll(Run(turns).trace);
    }
  }

  lemma NothingAnswered()
    ensures Answered([]) && Handled([]) == Brought([])
  {
  }

  lemma CountsAll(trace: seq<Event>)
    requires Answered(trace)
    ensures Handled(trace) == Brought(trace)
  {
    AnsweredCounts(trace, |trace|);
    assert trace[..|trace|] == trace;
    assert trace != [] ==> AnsweredAt(trace, |trace| - 1);
  }

  /** Turn by turn: in every run the calls are those of the scripts, and a turn makes a handle call exactly
      when it has or gets a connection and receives a message. */
  lemma RunDoes(turns: seq<Turn>)
    requires turns != []
    ensures var s, t := Run(turns[..|turns| - 1]), turns[|turns| - 1];
            && Run(turns).trace == s.trace + Script(s.con, t) && Run(turns).con == Ending(s.con, t)
            && ((exists e :: e in Script(s.con, t) && e.HandleCall?) <==>
                HasConnection(s.con, t) && t.receive == Ok && t.some)
            && ((exists e :: e in Script(s.con, t) && e == NotifyCall) <==>
                t.plugged && t.stillPlugged && Run(turns).con == Connected)
  {
    hide Step;
    var s, t := Run(turns[..|turns| - 1]), turns[|turns| - 1];
    RunKeepsRules(turns[..|turns| - 1]);
    TurnDoes(s, t);
    ScriptHas(s.con, t);
  }

  lemma ScriptHas(con: ConState, t: Turn)
    ensures (exists e :: e in Script(con, t) && e.HandleCall?) <==>
            HasConnection(con, t) && t.receive == Ok && t.some
    ensures (exists e :: e in Script(con, t) && e == NotifyCall) <==>
            t.plugged && t.stillPlugged && Ending(con, t) == Connected
  {
    hide HasConnection, LastOutcome;
    var o, v, c := Opening(con, t), Serving(con, t), Closing(con, t);
    assert t.plugged ==> forall e :: e in Script(con, t) <==> e in o || e in v || e in c;
    if HasConnection(con, t) && t.receive == Ok && t.some {
      assert HandleCall(t.handle) in v;
    }
    Plugged(con, t);
    if t.plugged && t.stillPlugged && Ending(con, t) == Connected {
      EndsOnline(con, t);
      assert NotifyCall in c;
    }
  }

  lemma Plugged(con: ConState, t: Turn)
    ensures HasConnection(con, t) ==> t.plugged
    ensures NotifyCall in Closing(con, t) && t.plugged ==> t.stillPlugged && Ending(con, t) == Connected
  {
  }

  lemma EndsOnline(con: ConState, t: Turn)
    requires t.plugged && t.stillPlugged && Ending(con, t) == Connected
    ensures Closing(con, t) == [NotifyCall]
  {
  }

  /** How often an interface was claimed, less how often one was released. */
  function Open(trace: seq<Event>): int {
    if trace == [] then 0
    else
      Open(trace[..|trace| - 1]) +
      match trace[|trace| - 1] case Claimed => 1 case Released => -1 case _ => 0
  }

  lemma {:induction false} RightTracesBalance(trace: seq<Event>)
    requires JudgeAll(trace).Fine?
    ensures Open(trace) == if JudgeAll(trace).stage == Free then 0 else 1
    ensures forall k :: 0 <= k <= |trace| ==> 0 <= Open(trace[..k]) <= 1
    decreases |trace|
  {
    if trace == [] {
      assert trace[..0] == [];
    } else {
      var front := trace[..|trace| - 1];
      RightTracesBalance(front);
      forall k | 0 <= k <= |trace|
        ensures 0 <= Open(trace[..k]) <= 1
      {
        if k < |trace| {
          assert trace[..k] == front[..k];
        } else {
          assert trace[..k] == trace;
        }
      }
    }
  }

  /** So at no time in any run is more than one interface claimed, or one released twice; and a turn that
      ends with the phone unplugged leaves none claimed. */
  lemma ClaimsAlternate(turns: seq<Turn>)
    ensures forall k :: 0 <= k <= |Run(turns).trace| ==> 0 <= Open(Run(turns).trace[..k]) <= 1
    ensures Open(Run(turns).trace) == if Run(turns).con == Init then 0 else 1
    ensures turns != [] && turns[|turns| - 1].plugged && !turns[|turns| - 1].stillPlugged ==>
              Run(turns).con == Init
  {
    hide Serve;
    RunKeepsRules(turns);
    RightTracesBalance(Run(turns).trace);
  }

  // ----- In the program's own form

  class Daemon {
    var con: ConState
    var phone: PhoneType
    ghost var trace: seq<Event>

    ghost function Snap(): Loop
      reads this
    {
      Loop(con, phone, trace)
    }

    constructor ()
      ensures Snap() == START
    {
      con, phone, trace := Init, NoPhone, [];
    }

    method PhoneRelease()
      modifies this`phone, this`trace
      ensures Snap() == Release(old(Snap()))
    {
      if phone != NoPhone {
        trace := trace + [Released];
      }
      phone := NoPhone;
    }

    method PhoneDetect(found: PhoneType) returns (ok: bool)
      modifies this`phone, this`trace
      ensures Snap() == Detect(old(Snap()), found) && ok == !found.NoPhone?
    {
      PhoneRelease();
      if found == NoPhone {
        return false;
      }
      trace := trace + [Claimed];
      phone := found;
      return true;
    }

    /** The statuses other than a timeout that end a call: give up the connection or the phone. */
    method Failed(status: Status)
      requires status != Ok
      modifies this
      ensures Snap() == React(old(Snap()), status)
    {
      if status == UsbTimeout {
      } else if status == ProRefuse {
        con := Connecting;
      } else {
        con := Init;
        PhoneRelease();
      }
    }

    method LoopNext(t: Turn)
      modifies this
      ensures Snap() == Next(old(Snap()), t)
    {
      if !t.stillPlugged {
        PhoneRelease();
        con := Init;
      } else if con == Connected {
        trace := trace + [NotifyCall];
      }
    }

    /** The body of the loop of main. */
    method Once(t: Turn)
      modifies this
      ensures Snap() == Step(old(Snap()), t)
    {
      if !t.plugged {
        return;
      }
      if con == Init {
        var ok := PhoneDetect(t.found);
        if !ok {
          return;
        }
        con := Connecting;
      }
      if con == Connecting {
        trace := trace + [ConnectCall(t.connect)];
        if t.connect != Ok {
          LoopNext(t);
          return;
        }
        con := Connected;
      }
      trace := trace + [ReceiveCall(t.receive, t.some)];
      if t.receive != Ok {
        Failed(t.receive);
        LoopNext(t);
        return;
      }
      if t.some {
        trace := trace + [HandleCall(t.handle)];
        if t.handle != Ok {
          Failed(t.handle);
          LoopNext(t);
          return;
        }
      }
      LoopNext(t);
    }

    /** The loop of main, for as long as `turns` lasts. */
    method RunTurns(turns: seq<Turn>)
      requires Snap() == START
      modifies this
      ensures Snap() == Run(turns)
    {
      var i := 0;
      while i < |turns|
        invariant 0 <= i <= |turns| && Snap() == Run(turns[..i])
      {
        Once(turns[i]);
        assert turns[..i + 1][..i] == turns[..i];
        i := i + 1;
      }
      assert turns[..i] == turns;
    }
  }
}
