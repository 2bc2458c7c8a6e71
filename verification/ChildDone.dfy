/** A supervised child: the process tree in its job, the I/O threads, the monitor
    thread and the interpreter, as interleaved steps over the shared fields. */
module ChildDone {
  import opened TclValues

  /** The operating system's side: the living members of the job (0 is the direct
      process), the pids used so far, and how the direct process ended. */
  datatype Tree = Tree(job: set<nat>, pids: nat, ended: Option<int>)

  /** A thread the child owns; Absent is a null handle. */
  datatype Thread = Absent | Running | Ended

  /** The I/O threads and what they have collected. */
  datatype Io = Io(tIn: Thread, tOut: Thread, tErr: Thread, out: string, err: string, readError: bool, writeError: bool)

  /** Where child_monitor_thread is in its loop. */
  datatype Pc = PollDirect | CountJob | SeeIn | SeeOut | SeeErr | Decide | MarkKilled | KillJob | Announce | Gone

  /** The monitor's locals. */
  datatype Monitor = Monitor(pc: Pc, directDone: bool, queryFailed: bool, active: nat, ioDone: bool)

  /** The fields of child_t the threads share. */
  datatype Flags = Flags(
    deadline: bool, doneEv: bool, monitorFailed: bool, killed: bool, timeout: bool, exitCode: int, reaped: bool)

  /** What the interpreter is in the middle of. */
  datatype Script = Idle | Killing | Reaping

  datatype Report = Report(exit: int, status: string, out: string, err: string)

  /** What one `child wait` came back with. */
  datatype Answer = Told(report: Report) | Refused(message: string)

  /** `answers` are those of the waits that found the child finished, in order. */
  datatype Child = Child(tree: Tree, io: Io, mon: Monitor, flags: Flags, script: Script, answers: seq<Answer>)

  /** As child_launch leaves it; `captured` is neither -channels, -inherit nor streaming. */
  function Launched(captured: bool, stdin: bool, deadline: bool): Child {
    var t := if captured then Running else Absent;
    Child(Tree({0}, 1, None), Io(if stdin then Running else Absent, t, t, "", "", false, false),
          Monitor(PollDirect, false, false, 0, false), Flags(deadline, false, false, false, false, 0, false), Idle, [])
  }

  /** handle_signaled. */
  predicate Signaled(t: Thread) {
    t != Running
  }

  // ---- steps ---------------------------------------------------------------------------

  datatype Which = In | Out | Err

  /** Which system call of the monitor's step fails, if one does. */
  datatype Fault = Fine | WaitFails | QueryFails

  datatype Action =
    | Birth(parent: nat)
    | Exit(p: nat, code: int)
    | Move(t: Which, text: string, failed: bool)
    | End(t: Which)
    | Watch(fault: Fault, expired: bool)
    | Kill(ok: bool)
    | KillEnds
    | Reap
    | ReapEnds(joined: bool)
    | WaitAgain

  /** A process in the job starts another, which is born in it. */
  function BirthOf(t: Tree, parent: nat): Tree {
    if parent in t.job then Tree(t.job + {t.pids}, t.pids + 1, t.ended) else t
  }

  /** A process ends, by itself or because the job was terminated. */
  function ExitOf(t: Tree, p: nat, code: int): Tree {
    if p !in t.job then t else Tree(t.job - {p}, t.pids, if p == 0 then Some(code) else t.ended)
  }

  /** A running I/O thread moves bytes, or meets an error. */
  function MoveOf(io: Io, t: Which, text: string, failed: bool): Io {
    match t
    case In => if io.tIn == Running then io.(writeError := io.writeError || failed) else io
    case Out => if io.tOut == Running then io.(out := io.out + text, readError := io.readError || failed) else io
    case Err => if io.tErr == Running then io.(err := io.err + text, readError := io.readError || failed) else io
  }

  function EndOf(io: Io, t: Which): Io {
    match t
    case In => if io.tIn == Running then io.(tIn := Ended) else io
    case Out => if io.tOut == Running then io.(tOut := Ended) else io
    case Err => if io.tErr == Running then io.(tErr := Ended) else io
  }

  /** The monitor looks at the direct process, and reads how it ended. */
  function PollOf(t: Tree, m: Monitor, f: Flags, fault: Fault): (r: (Monitor, Flags))
    ensures r.1.reaped == f.reaped
  {
    if m.directDone then (m.(pc := CountJob), f)
    else if fault == WaitFails then
      (m.(pc := CountJob, queryFailed := true, directDone := true), f.(monitorFailed := true, killed := true))
    else if t.ended.None? then (m.(pc := CountJob), f)
    else if fault == Fine then (m.(pc := CountJob, directDone := true), f.(exitCode := t.ended.value))
    else (m.(pc := CountJob, queryFailed := true), f.(monitorFailed := true))
  }

  /** It counts the processes in the job. */
  function CountOf(t: Tree, m: Monitor, f: Flags, fault: Fault): (r: (Monitor, Flags))
    ensures r.1.reaped == f.reaped
  {
    if m.queryFailed then (m.(pc := SeeIn, active := 0), f)
    else if fault == Fine then (m.(pc := SeeIn, active := |t.job|), f)
    else (m.(pc := SeeIn, active := 0, queryFailed := true), f.(monitorFailed := true, killed := true))
  }

  function DecideOf(m: Monitor, f: Flags, expired: bool): (r: (Monitor, Flags))
    ensures r.1.reaped == f.reaped
  {
    if m.directDone && m.ioDone && (m.queryFailed || m.active == 0) then (m.(pc := Announce), f)
    else if f.deadline && expired then (m.(pc := MarkKilled), f.(timeout := true))
    else (m.(pc := PollDirect), f)
  }

  function KillJobOf(m: Monitor, f: Flags, fault: Fault): (r: (Monitor, Flags))
    ensures r.1.reaped == f.reaped
  {
    if fault == Fine then (m.(pc := PollDirect), f.(deadline := false))
    else (m.(pc := PollDirect, queryFailed := true), f.(deadline := false, monitorFailed := true))
  }

  /** One step of child_monitor_thread; `expired` is whether the clock has passed the
      deadline. Terminating the job only asks its processes to end; each does so in a
      step of its own. */
  function WatchOf(t: Tree, io: Io, m: Monitor, f: Flags, fault: Fault, expired: bool): (Monitor, Flags) {
    match m.pc
    case PollDirect => PollOf(t, m, f, fault)
    case CountJob => CountOf(t, m, f, fault)
    case SeeIn => (m.(pc := SeeOut, ioDone := Signaled(io.tIn)), f)
    case SeeOut => (m.(pc := SeeErr, ioDone := m.ioDone && Signaled(io.tOut)), f)
    case SeeErr => (m.(pc := Decide, ioDone := m.ioDone && Signaled(io.tErr)), f)
    case Decide => DecideOf(m, f, expired)
    case MarkKilled => (m.(pc := KillJob), f.(killed := true))
    case KillJob => KillJobOf(m, f, fault)
    case Announce => (m.(pc := Gone), f.(doneEv := true))
    case Gone => (m, f)
  }

  /** `child kill` and `child wait` on the interpreter thread. */
  function ScriptOf(s: Script, f: Flags, a: Action): (Script, Flags) {
    match a
    case Kill(ok) => if s == Idle && !f.reaped && ok then (Killing, f) else (s, f)
    case KillEnds => if s == Killing then (Idle, f.(killed := true)) else (s, f)
    case Reap => if s == Idle && !f.reaped && f.doneEv then (Reaping, f) else (s, f)
    case ReapEnds(_) => if s == Reaping then (Idle, f.(reaped := true)) else (s, f)
    case _ => (s, f)
  }

  /** The error child_reap ends with, if any. */
  function ReapError(io: Io, f: Flags, joined: bool): Option<string> {
    if !joined then Some("joining child I/O thread failed")
    else if f.monitorFailed then Some("child monitor failed")
    else if io.readError then Some("reading child output failed")
    else if io.writeError && !f.killed then Some("writing child input failed")
    else None
  }

  /** child_dict of a finished child. */
  function Dict(io: Io, f: Flags): Report {
    Report(f.exitCode,
           if f.timeout then "timeout" else if f.killed then "killed" else if f.exitCode == 0 then "ok" else "error",
           io.out, io.err)
  }

  /** The wait that reaps answers with the reap's error, if it has one; a wait on a child
      already reaped does not look again. */
  function AnswerOf(s: Script, io: Io, f: Flags, a: Action): seq<Answer> {
    match a
    case ReapEnds(joined) =>
      if s != Reaping then []
      else if ReapError(io, f, joined).Some? then [Refused(ReapError(io, f, joined).value)]
      else [Told(Dict(io, f))]
    case WaitAgain => if s == Idle && f.reaped then [Told(Dict(io, f))] else []
    case _ => []
  }

  function Act(c: Child, a: Action): Child {
    match a
    case Birth(parent) => c.(tree := BirthOf(c.tree, parent))
    case Exit(p, code) => c.(tree := ExitOf(c.tree, p, code))
    case Move(t, text, failed) => c.(io := MoveOf(c.io, t, text, failed))
    case End(t) => c.(io := EndOf(c.io, t))
    case Watch(fault, expired) =>
      var r := WatchOf(c.tree, c.io, c.mon, c.flags, fault, expired);
      c.(mon := r.0, flags := r.1)
    case _ =>
      var r := ScriptOf(c.script, c.flags, a);
      c.(script := r.0, flags := r.1, answers := c.answers + AnswerOf(c.script, c.io, c.flags, a))
  }

  function Acts(c: Child, steps: seq<Action>): Child
    decreases |steps|
  {
    if steps == [] then c else Acts(Act(c, steps[0]), steps[1..])
  }

  // ---- what a caller sees -------------------------------------------------------------

  function Result(c: Child): Report {
    Dict(c.io, c.flags)
  }

  /** No thread of ours still runs. */
  predicate Quiet(io: Io) {
    Signaled(io.tIn) && Signaled(io.tOut) && Signaled(io.tErr)
  }

  /** The job is empty and the recorded exit is the direct process's. */
  predicate Over(t: Tree, f: Flags) {
    t.ended == Some(f.exitCode) && t.job == {}
  }

  predicate Complete(c: Child) {
    Over(c.tree, c.flags) && Quiet(c.io)
  }

  // ---- the invariant ---------------------------------------------------------------------

  predicate Rooted(t: Tree) {
    t.pids > 0 && (t.ended.Some? <==> 0 !in t.job)
  }

  predicate Counted(pc: Pc) {
    pc.SeeIn? || SawIn(pc)
  }

  predicate SawIn(pc: Pc) {
    pc.SeeOut? || SawOut(pc)
  }

  predicate SawOut(pc: Pc) {
    pc.SeeErr? || pc.Decide?
  }

  predicate Decided(pc: Pc) {
    pc.Announce? || pc.Gone?
  }

  /** What the monitor has seen of the tree still holds. */
  predicate TreeSeen(t: Tree, m: Monitor, f: Flags) {
    && (m.directDone && !f.monitorFailed ==> t.ended == Some(f.exitCode))
    && (m.queryFailed ==> f.monitorFailed)
    && (Counted(m.pc) && !m.queryFailed && m.active == 0 ==> t.job == {})
    && (Decided(m.pc) && !f.monitorFailed ==> Over(t, f))
  }

  /** What it has seen of the threads still holds. */
  predicate IoSeen(io: Io, m: Monitor) {
    && (SawIn(m.pc) && m.ioDone ==> Signaled(io.tIn))
    && (SawOut(m.pc) && m.ioDone ==> Signaled(io.tOut))
    && (m.pc == Decide && m.ioDone ==> Signaled(io.tErr))
    && (Decided(m.pc) ==> Quiet(io))
  }

  predicate FlagsAgree(m: Monitor, f: Flags, s: Script) {
    && (f.doneEv <==> m.pc == Gone)
    && (f.timeout ==> f.killed || m.pc == MarkKilled)
    && (f.reaped || s == Reaping ==> f.doneEv)
    && (f.reaped ==> s == Idle)
  }

  /** Once there are answers, all but the first are the result, and a first that is one
      saw no failure. */
  predicate Answered(io: Io, f: Flags, answers: seq<Answer>) {
    && (answers != [] <==> f.reaped)
    && (forall i :: 0 < i < |answers| ==> answers[i] == Told(Dict(io, f)))
    && (answers != [] && answers[0].Told? ==>
          answers[0] == Told(Dict(io, f)) && !f.monitorFailed && !io.readError && (io.writeError ==> f.killed))
  }

  predicate Inv(c: Child) {
    && Rooted(c.tree)
    && TreeSeen(c.tree, c.mon, c.flags)
    && IoSeen(c.io, c.mon)
    && FlagsAgree(c.mon, c.flags, c.script)
    && Answered(c.io, c.flags, c.answers)
  }

  lemma LaunchedInv(captured: bool, stdin: bool, deadline: bool)
    ensures Inv(Launched(captured, stdin, deadline))
  {
  }

  /** An empty job stays empty, and an exit is an exit for good. */
  lemma TreeMoves(t: Tree, m: Monitor, f: Flags, a: Action)
    requires Rooted(t) && TreeSeen(t, m, f) && (a.Birth? || a.Exit?)
    ensures var u := if a.Birth? then BirthOf(t, a.parent) else ExitOf(t, a.p, a.code);
      Rooted(u) && TreeSeen(u, m, f) && (t.job == {} ==> u == t)
  {
  }

  lemma IoMoves(io: Io, m: Monitor, a: Action)
    requires IoSeen(io, m) && (a.Move? || a.End?)
    ensures var j := if a.Move? then MoveOf(io, a.t, a.text, a.failed) else EndOf(io, a.t);
      IoSeen(j, m) && (Quiet(io) ==> j == io)
  {
  }

  lemma PollMoves(t: Tree, io: Io, m: Monitor, f: Flags, s: Script, fault: Fault)
    requires m.pc == PollDirect && TreeSeen(t, m, f) && IoSeen(io, m) && FlagsAgree(m, f, s)
    ensures var r := PollOf(t, m, f, fault); TreeSeen(t, r.0, r.1) && IoSeen(io, r.0) && FlagsAgree(r.0, r.1, s)
  {
  }

  lemma CountMoves(t: Tree, io: Io, m: Monitor, f: Flags, s: Script, fault: Fault)
    requires m.pc == CountJob && TreeSeen(t, m, f) && IoSeen(io, m) && FlagsAgree(m, f, s)
    ensures var r := CountOf(t, m, f, fault); TreeSeen(t, r.0, r.1) && IoSeen(io, r.0) && FlagsAgree(r.0, r.1, s)
  {
  }

  lemma DecideMoves(t: Tree, io: Io, m: Monitor, f: Flags, s: Script, expired: bool)
    requires m.pc == Decide && TreeSeen(t, m, f) && IoSeen(io, m) && FlagsAgree(m, f, s)
    ensures var r := DecideOf(m, f, expired); TreeSeen(t, r.0, r.1) && IoSeen(io, r.0) && FlagsAgree(r.0, r.1, s)
  {
  }

  lemma KillJobMoves(t: Tree, io: Io, m: Monitor, f: Flags, s: Script, fault: Fault)
    requires m.pc == KillJob && TreeSeen(t, m, f) && IoSeen(io, m) && FlagsAgree(m, f, s)
    ensures var r := KillJobOf(m, f, fault); TreeSeen(t, r.0, r.1) && IoSeen(io, r.0) && FlagsAgree(r.0, r.1, s)
  {
  }

  lemma LookMoves(t: Tree, io: Io, m: Monitor, f: Flags, s: Script, fault: Fault, expired: bool)
    requires m.pc.SeeIn? || m.pc.SeeOut? || m.pc.SeeErr?
    requires TreeSeen(t, m, f) && IoSeen(io, m) && FlagsAgree(m, f, s)
    ensures var r := WatchOf(t, io, m, f, fault, expired);
      TreeSeen(t, r.0, r.1) && IoSeen(io, r.0) && FlagsAgree(r.0, r.1, s)
  {
    hide PollOf, CountOf, DecideOf, KillJobOf;
  }

  lemma LastMoves(t: Tree, io: Io, m: Monitor, f: Flags, s: Script, fault: Fault, expired: bool)
    requires m.pc.MarkKilled? || m.pc.Announce? || m.pc.Gone?
    requires TreeSeen(t, m, f) && IoSeen(io, m) && FlagsAgree(m, f, s)
    ensures var r := WatchOf(t, io, m, f, fault, expired);
      TreeSeen(t, r.0, r.1) && IoSeen(io, r.0) && FlagsAgree(r.0, r.1, s)
  {
    hide PollOf, CountOf, DecideOf, KillJobOf;
  }

  lemma {:induction false} WatchMoves(t: Tree, io: Io, m: Monitor, f: Flags, s: Script, fault: Fault, expired: bool)
    requires TreeSeen(t, m, f) && IoSeen(io, m) && FlagsAgree(m, f, s)
    ensures var r := WatchOf(t, io, m, f, fault, expired);
      TreeSeen(t, r.0, r.1) && IoSeen(io, r.0) && FlagsAgree(r.0, r.1, s)
  {
    hide PollOf, CountOf, DecideOf, KillJobOf, TreeSeen, IoSeen, FlagsAgree;
    match m.pc
    case PollDirect => PollMoves(t, io, m, f, s, fault);
    case CountJob => CountMoves(t, io, m, f, s, fault);
    case Decide => DecideMoves(t, io, m, f, s, expired);
    case KillJob => KillJobMoves(t, io, m, f, s, fault);
    case SeeIn => LookMoves(t, io, m, f, s, fault, expired);
    case SeeOut => LookMoves(t, io, m, f, s, fault, expired);
    case SeeErr => LookMoves(t, io, m, f, s, fault, expired);
    case _ => LastMoves(t, io, m, f, s, fault, expired);
  }

  lemma ScriptMoves(t: Tree, m: Monitor, f: Flags, s: Script, a: Action)
    requires TreeSeen(t, m, f) && FlagsAgree(m, f, s)
    ensures var r := ScriptOf(s, f, a);
      TreeSeen(t, m, r.1) && FlagsAgree(m, r.1, r.0)
  {
  }

  /** What the waits were told is not touched by threads, processes or clock. */
  lemma AnswersStand(io: Io, m: Monitor, f: Flags, s: Script, answers: seq<Answer>, a: Action)
    requires IoSeen(io, m) && FlagsAgree(m, f, s) && Answered(io, f, answers)
    ensures a.Move? ==> Answered(MoveOf(io, a.t, a.text, a.failed), f, answers)
    ensures a.End? ==> Answered(EndOf(io, a.t), f, answers)
    ensures a.Watch? ==> forall t :: Answered(io, WatchOf(t, io, m, f, a.fault, a.expired).1, answers)
  {
    hide PollOf, CountOf, DecideOf, KillJobOf, Dict;
    if f.reaped {
      if a.Move? || a.End? { IoMoves(io, m, a); }
    } else if a.Watch? {
      forall t ensures !WatchOf(t, io, m, f, a.fault, a.expired).1.reaped {
        NeverReaps(t, io, m, f, a.fault, a.expired);
      }
    }
  }

  lemma NeverReaps(t: Tree, io: Io, m: Monitor, f: Flags, fault: Fault, expired: bool)
    ensures WatchOf(t, io, m, f, fault, expired).1.reaped == f.reaped
  {
    hide PollOf, CountOf, DecideOf, KillJobOf;
  }

  lemma AnswerJoins(io: Io, m: Monitor, f: Flags, s: Script, answers: seq<Answer>, a: Action)
    requires FlagsAgree(m, f, s) && Answered(io, f, answers)
    ensures Answered(io, ScriptOf(s, f, a).1, answers + AnswerOf(s, io, f, a))
  {
  }

  lemma {:induction false} ActInv(c: Child, a: Action)
    requires Inv(c)
    ensures Inv(Act(c, a))
  {
    hide Rooted, TreeSeen, IoSeen, FlagsAgree, WatchOf, ScriptOf, BirthOf, ExitOf, MoveOf, EndOf, Answered, AnswerOf;
    AnswersStand(c.io, c.mon, c.flags, c.script, c.answers, a);
    AnswerJoins(c.io, c.mon, c.flags, c.script, c.answers, a);
    match a
    case Birth(_) => TreeMoves(c.tree, c.mon, c.flags, a);
    case Exit(_, _) => TreeMoves(c.tree, c.mon, c.flags, a);
    case Move(_, _, _) => IoMoves(c.io, c.mon, a);
    case End(_) => IoMoves(c.io, c.mon, a);
    case Watch(fault, expired) =>
      WatchMoves(c.tree, c.io, c.mon, c.flags, c.script, fault, expired);
    case _ => ScriptMoves(c.tree, c.mon, c.flags, c.script, a);
  }

  lemma {:induction false} ActsInv(c: Child, steps: seq<Action>)
    requires Inv(c)
    ensures Inv(Acts(c, steps))
    decreases |steps|
  {
    hide Inv, Act;
    if steps != [] {
      ActInv(c, steps[0]);
      ActsInv(Act(c, steps[0]), steps[1..]);
    }
  }

  // ---- completion is sound and final ----------------------------------------------------

  /** However the processes of the job, the I/O threads, the monitor and the interpreter
      interleave: once doneEv is set the owned threads have ended, a timeout was a kill, and
      unless the monitor failed the job is empty and the recorded exit is the direct process's. */
  lemma {:induction false} DoneIsComplete(captured: bool, stdin: bool, deadline: bool, steps: seq<Action>)
    ensures var c := Acts(Launched(captured, stdin, deadline), steps);
      c.flags.doneEv ==>
        Quiet(c.io) && (c.flags.timeout ==> c.flags.killed) && (!c.flags.monitorFailed ==> Complete(c))
  {
    hide Acts;
    LaunchedInv(captured, stdin, deadline);
    ActsInv(Launched(captured, stdin, deadline), steps);
  }

  /** What one step after doneEv can still touch: the tree, if something of it is left; the
      killed mark, until the child is reaped; and who is waiting. */
  lemma DoneStep(c: Child, a: Action)
    requires Inv(c) && c.flags.doneEv
    ensures var d := Act(c, a);
      && d.io == c.io && d.mon == c.mon
      && d.flags == c.flags.(killed := d.flags.killed, reaped := d.flags.reaped)
      && (c.flags.killed ==> d.flags.killed)
      && (c.flags.reaped ==> d.flags == c.flags)
      && (Over(c.tree, c.flags) ==> d.tree == c.tree)
  {
    hide WatchOf, BirthOf, ExitOf, MoveOf, EndOf, TreeSeen, AnswerOf, Answered;
    match a
    case Birth(_) => TreeMoves(c.tree, c.mon, c.flags, a);
    case Exit(_, _) => TreeMoves(c.tree, c.mon, c.flags, a);
    case Move(_, _, _) => IoMoves(c.io, c.mon, a);
    case End(_) => IoMoves(c.io, c.mon, a);
    case Watch(fault, expired) => GoneRests(c.tree, c.io, c.mon, c.flags, fault, expired);
    case _ =>
  }

  lemma GoneRests(t: Tree, io: Io, m: Monitor, f: Flags, fault: Fault, expired: bool)
    requires m.pc == Gone
    ensures WatchOf(t, io, m, f, fault, expired) == (m, f)
  {
  }

  /** A result the wait has handed out stays the result: nothing the other threads, the
      processes or `child kill` still do can change it. */
  lemma {:induction false} ReapedIsFinal(c: Child, steps: seq<Action>)
    requires Inv(c) && c.flags.reaped
    ensures Result(Acts(c, steps)) == Result(c) && Acts(c, steps).flags.reaped
    ensures Complete(c) ==> Complete(Acts(c, steps))
    decreases |steps|
  {
    if steps != [] {
      hide Act, Dict;
      DoneStep(c, steps[0]);
      ActInv(c, steps[0]);
      ReapedIsFinal(Act(c, steps[0]), steps[1..]);
    }
  }

  /** If the wait that reaped returned a result, then that is what every wait returns, and
      it is true: the exit status of a tree that is gone, and all the readers collected. */
  lemma {:induction false} CleanWaitIsTheTruth(captured: bool, stdin: bool, deadline: bool, steps: seq<Action>)
    ensures var c := Acts(Launched(captured, stdin, deadline), steps);
      c.answers != [] && c.answers[0].Told? ==>
        && (forall i :: 0 <= i < |c.answers| ==> c.answers[i] == Told(Result(c)))
        && Complete(c) && !c.io.readError && Some(Result(c).exit) == c.tree.ended
  {
    hide Acts;
    LaunchedInv(captured, stdin, deadline);
    ActsInv(Launched(captured, stdin, deadline), steps);
  }

  /** Every wait but the first returns a result, whatever the reap met: it repeats the
      first answer exactly when that was no error, and unless the error was the monitor's
      it still tells how a tree that is gone ended. */
  lemma {:induction false} LaterWaitsForget(captured: bool, stdin: bool, deadline: bool, steps: seq<Action>, i: nat)
    ensures var c := Acts(Launched(captured, stdin, deadline), steps);
      0 < i < |c.answers| ==>
        && c.answers[i] == Told(Result(c))
        && (c.answers[i] == c.answers[0] <==> c.answers[0].Told?)
        && (!c.flags.monitorFailed ==> Complete(c) && Some(Result(c).exit) == c.tree.ended)
  {
    hide Acts;
    LaunchedInv(captured, stdin, deadline);
    ActsInv(Launched(captured, stdin, deadline), steps);
  }

  lemma ActsNone(c: Child)
    ensures Acts(c, []) == c
  {
  }

  lemma ActsCons(c: Child, a: Action, rest: seq<Action>)
    ensures Acts(c, [a] + rest) == Acts(Act(c, a), rest)
  {
    hide Act;
    assert ([a] + rest)[1..] == rest;
  }

  /** n steps of the monitor in which no call fails and no deadline passes. */
  function Watches(t: Tree, io: Io, m: Monitor, f: Flags, n: nat): (Monitor, Flags)
    decreases n
  {
    if n == 0 then (m, f)
    else
      var r := WatchOf(t, io, m, f, Fine, false);
      Watches(t, io, r.0, r.1, n - 1)
  }

  function FineWatches(n: nat): seq<Action> {
    if n == 0 then [] else [Watch(Fine, false)] + FineWatches(n - 1)
  }

  lemma {:induction false} ActsWatches(c: Child, n: nat, rest: seq<Action>)
    ensures var r := Watches(c.tree, c.io, c.mon, c.flags, n);
      Acts(c, FineWatches(n) + rest) == Acts(c.(mon := r.0, flags := r.1), rest)
    decreases n
  {
    hide WatchOf;
    if n == 0 {
      assert FineWatches(n) + rest == rest;
    } else {
      assert FineWatches(n) + rest == [Watch(Fine, false)] + (FineWatches(n - 1) + rest);
      ActsCons(c, Watch(Fine, false), FineWatches(n - 1) + rest);
      ActsWatches(Act(c, Watch(Fine, false)), n - 1, rest);
    }
  }

  /** The input that shows it: the direct process ends while one it started lives on, and
      the query for its exit code fails once. The first wait says so; the next says ok. */
  lemma SecondWaitSaysOk()
    ensures var c := Acts(Launched(false, false, false),
        [Birth(0)] + ([Exit(0, 0)] + ([Watch(QueryFails, false)]
        + (FineWatches(12) + ([Reap] + ([ReapEnds(true)] + [WaitAgain]))))));
      c.answers == [Refused("child monitor failed"), Told(Report(0, "ok", "", ""))] && c.tree.job == {1}
  {
    hide Acts, FineWatches, Watches;
    var last := [Reap] + ([ReapEnds(true)] + [WaitAgain]);
    var c0 := Launched(false, false, false);
    ActsCons(c0, Birth(0), [Exit(0, 0)] + ([Watch(QueryFails, false)] + (FineWatches(12) + last)));
    var c1 := Act(c0, Birth(0));
    ActsCons(c1, Exit(0, 0), [Watch(QueryFails, false)] + (FineWatches(12) + last));
    var c2 := Act(c1, Exit(0, 0));
    assert c2.tree == Tree({1}, 2, Some(0));
    ActsCons(c2, Watch(QueryFails, false), FineWatches(12) + last);
    var c3 := Act(c2, Watch(QueryFails, false));
    ActsWatches(c3, 12, last);
    FinishesBadly();
    var c4 := c3.(mon := Monitor(Gone, true, true, 0, true), flags := Flags(false, true, true, false, false, 0, false));
    ActsCons(c4, Reap, [ReapEnds(true)] + [WaitAgain]);
    ActsCons(Act(c4, Reap), ReapEnds(true), [WaitAgain]);
    var c6 := Act(Act(c4, Reap), ReapEnds(true));
    assert c6.answers == [Refused("child monitor failed")];
    ActsCons(c6, WaitAgain, []);
    assert [WaitAgain] + [] == [WaitAgain];
    ActsNone(Act(c6, WaitAgain));
  }

  lemma FinishesBadly()
    ensures Watches(Tree({1}, 2, Some(0)), Io(Absent, Absent, Absent, "", "", false, false),
        Monitor(CountJob, false, true, 0, false), Flags(false, false, true, false, false, 0, false), 12)
      == (Monitor(Gone, true, true, 0, true), Flags(false, true, true, false, false, 0, false))
  {
    hide Watches, PollOf, CountOf, DecideOf;
    var t, io := Tree({1}, 2, Some(0)), Io(Absent, Absent, Absent, "", "", false, false);
    var m, f := Monitor(CountJob, false, true, 0, false), Flags(false, false, true, false, false, 0, false);
    CountsNothing(t, io, m, f, 12);
    Threads(t, io, m.(pc := SeeIn), f, 11);
    GoesOn(t, io, m.(pc := Decide, ioDone := true), f, 8);
    FindsEnd(t, io, m.(pc := PollDirect, ioDone := true), f, 7);
    var n := m.(directDone := true, ioDone := true);
    CountsNothing(t, io, n, f, 6);
    Threads(t, io, n.(pc := SeeIn), f, 5);
    Finishes(t, io, n.(pc := Decide), f, 2);
  }

  lemma CountsNothing(t: Tree, io: Io, m: Monitor, f: Flags, n: nat)
    requires n > 0 && m.pc == CountJob && m.queryFailed && m.active == 0
    ensures Watches(t, io, m, f, n) == Watches(t, io, m.(pc := SeeIn), f, n - 1)
  {
    assert WatchOf(t, io, m, f, Fine, false) == (m.(pc := SeeIn), f);
  }

  lemma Threads(t: Tree, io: Io, m: Monitor, f: Flags, n: nat)
    requires n > 2 && m.pc == SeeIn && Quiet(io)
    ensures Watches(t, io, m, f, n) == Watches(t, io, m.(pc := Decide, ioDone := true), f, n - 3)
  {
    hide Watches, PollOf, CountOf, DecideOf, KillJobOf;
    WatchesOne(t, io, m, f, n);
    WatchesOne(t, io, m.(pc := SeeOut, ioDone := true), f, n - 1);
    WatchesOne(t, io, m.(pc := SeeErr, ioDone := true), f, n - 2);
  }

  lemma GoesOn(t: Tree, io: Io, m: Monitor, f: Flags, n: nat)
    requires n > 0 && m.pc == Decide && !m.directDone
    ensures Watches(t, io, m, f, n) == Watches(t, io, m.(pc := PollDirect), f, n - 1)
  {
    assert WatchOf(t, io, m, f, Fine, false) == (m.(pc := PollDirect), f);
  }

  lemma FindsEnd(t: Tree, io: Io, m: Monitor, f: Flags, n: nat)
    requires n > 0 && m.pc == PollDirect && !m.directDone && t.ended == Some(f.exitCode)
    ensures Watches(t, io, m, f, n) == Watches(t, io, m.(pc := CountJob, directDone := true), f, n - 1)
  {
    assert WatchOf(t, io, m, f, Fine, false) == (m.(pc := CountJob, directDone := true), f);
  }

  lemma Finishes(t: Tree, io: Io, m: Monitor, f: Flags, n: nat)
    requires n == 2 && m.pc == Decide && m.directDone && m.ioDone && m.queryFailed
    ensures Watches(t, io, m, f, n) == (m.(pc := Gone), f.(doneEv := true))
  {
    hide PollOf, CountOf, KillJobOf;
    WatchesOne(t, io, m, f, 2);
    WatchesOne(t, io, m.(pc := Announce), f, 1);
  }

  lemma WatchesOne(t: Tree, io: Io, m: Monitor, f: Flags, n: nat)
    requires n > 0
    ensures var r := WatchOf(t, io, m, f, Fine, false); Watches(t, io, m, f, n) == Watches(t, io, r.0, r.1, n - 1)
  {
    hide WatchOf;
  }

  // ---- between completion and the reap ----------------------------------------------------

  /** A `child kill` that went through ends somewhere in the steps. */
  predicate KillCompletes(c: Child, steps: seq<Action>)
    decreases |steps|
  {
    steps != [] && ((steps[0].KillEnds? && c.script == Killing) || KillCompletes(Act(c, steps[0]), steps[1..]))
  }

  lemma {:induction false} OnlyKillMarks(c: Child, steps: seq<Action>)
    requires Inv(c) && c.flags.doneEv
    ensures Acts(c, steps).flags.killed <==> c.flags.killed || KillCompletes(c, steps)
    ensures Result(Acts(c, steps)) == Dict(c.io, c.flags.(killed := Acts(c, steps).flags.killed))
    decreases |steps|
  {
    if steps != [] {
      hide Inv, Act, Dict;
      DoneStep(c, steps[0]);
      MarkStep(c, steps[0]);
      ActInv(c, steps[0]);
      OnlyKillMarks(Act(c, steps[0]), steps[1..]);
      SameDict(c.io, c.flags, Act(c, steps[0]).flags, Acts(c, steps).flags.killed);
    } else {
      SameDict(c.io, c.flags, c.flags, c.flags.killed);
    }
  }

  lemma SameDict(io: Io, f: Flags, g: Flags, killed: bool)
    requires g == f.(killed := g.killed, reaped := g.reaped)
    ensures Dict(io, g.(killed := killed)) == Dict(io, f.(killed := killed))
    ensures Dict(io, f.(killed := f.killed)) == Dict(io, f)
  {
  }

  lemma MarkStep(c: Child, a: Action)
    requires Inv(c) && c.flags.doneEv
    ensures Act(c, a).flags.killed <==> c.flags.killed || (a.KillEnds? && c.script == Killing)
  {
    hide BirthOf, ExitOf, MoveOf, EndOf, AnswerOf, Answered, TreeSeen, IoSeen;
    if a.Watch? { GoneRests(c.tree, c.io, c.mon, c.flags, a.fault, a.expired); }
  }

  /** What a finished child's result can still become, whatever else interleaves: `child
      kill` going through on one not yet marked makes its status read killed; nothing else
      changes any of it. */
  lemma {:induction false} KillAfterTheEnd(captured: bool, stdin: bool, deadline: bool,
                                           before: seq<Action>, after: seq<Action>)
    ensures var c := Acts(Launched(captured, stdin, deadline), before);
      c.flags.doneEv ==>
        && (Result(Acts(c, after)) != Result(c) <==> !c.flags.killed && KillCompletes(c, after))
        && (Result(Acts(c, after)) != Result(c) ==> Result(Acts(c, after)) == Result(c).(status := "killed"))
  {
    hide Acts, KillCompletes;
    LaunchedInv(captured, stdin, deadline);
    ActsInv(Launched(captured, stdin, deadline), before);
    var c := Acts(Launched(captured, stdin, deadline), before);
    if c.flags.doneEv { OnlyKillMarks(c, after); }
  }

  // ---- completion is noticed ---------------------------------------------------------------

  /** The queries on the direct process answer: its exit code, once it has ended. */
  predicate Replies(c: Child, steps: seq<Action>)
    decreases |steps|
  {
    steps == []
    || (!(steps[0].Watch? && c.mon.pc == PollDirect && !c.mon.directDone && steps[0].fault == QueryFails)
        && Replies(Act(c, steps[0]), steps[1..]))
  }

  /** How many of the steps are the monitor's. */
  function Turns(steps: seq<Action>): nat {
    if steps == [] then 0 else (if steps[0].Watch? then 1 else 0) + Turns(steps[1..])
  }

  /** What the monitor has seen on this turn of its loop lets it finish. */
  predicate Current(m: Monitor) {
    match m.pc
    case CountJob => m.directDone
    case SeeIn => m.directDone && (m.queryFailed || m.active == 0)
    case SeeOut => m.directDone && (m.queryFailed || m.active == 0) && m.ioDone
    case SeeErr => m.directDone && (m.queryFailed || m.active == 0) && m.ioDone
    case Decide => m.directDone && (m.queryFailed || m.active == 0) && m.ioDone
    case _ => true
  }

  /** Monitor steps left, with the tree gone and the threads ended. */
  function Left(m: Monitor): nat {
    (match m.pc
     case MarkKilled => 9 case KillJob => 8 case PollDirect => 7 case CountJob => 6 case SeeIn => 5
     case SeeOut => 4 case SeeErr => 3 case Decide => 2 case Announce => 1 case Gone => 0)
    + if Current(m) then 0 else 8
  }

  lemma LeftFalls(t: Tree, io: Io, m: Monitor, f: Flags, fault: Fault, expired: bool)
    requires Rooted(t) && t.job == {} && Quiet(io)
    requires !(m.pc == PollDirect && !m.directDone && fault == QueryFails)
    ensures Left(WatchOf(t, io, m, f, fault, expired).0) < Left(m) || m.pc == Gone
  {
  }

  /** With the tree gone and the threads ended, fourteen steps of the monitor set doneEv,
      wherever it was in its loop, whatever else runs between them, whether or not the
      deadline passes or another of its calls fails. */
  lemma {:induction false} GoneIsNoticed(captured: bool, stdin: bool, deadline: bool,
                                         before: seq<Action>, after: seq<Action>)
    ensures var c := Acts(Launched(captured, stdin, deadline), before);
      c.tree.job == {} && Quiet(c.io) && Replies(c, after) && Turns(after) >= 14 ==> Acts(c, after).flags.doneEv
  {
    hide Acts, Replies, Turns;
    LaunchedInv(captured, stdin, deadline);
    ActsInv(Launched(captured, stdin, deadline), before);
    var c := Acts(Launched(captured, stdin, deadline), before);
    if c.tree.job == {} && Quiet(c.io) && Replies(c, after) && Turns(after) >= 14 { Noticed(c, after); }
  }

  lemma {:induction false} Noticed(c: Child, steps: seq<Action>)
    requires Inv(c) && c.tree.job == {} && Quiet(c.io) && Replies(c, steps) && Turns(steps) >= Left(c.mon)
    ensures Acts(c, steps).flags.doneEv
    decreases |steps|
  {
    if steps != [] {
      hide Inv, Act, Left;
      ActInv(c, steps[0]);
      GoneStays(c, steps[0]);
      if c.mon.pc == Gone || Turns(steps[1..]) >= Left(Act(c, steps[0]).mon) {
        LeftAtEnd(c.mon);
        LeftAtEnd(Act(c, steps[0]).mon);
        Noticed(Act(c, steps[0]), steps[1..]);
      }
    } else {
      LeftAtEnd(c.mon);
    }
  }

  lemma LeftAtEnd(m: Monitor)
    ensures Left(m) == 0 <==> m.pc == Gone
    ensures Left(m) <= 14
  {
  }

  lemma GoneStays(c: Child, a: Action)
    requires Inv(c) && c.tree.job == {} && Quiet(c.io)
    requires !(a.Watch? && c.mon.pc == PollDirect && !c.mon.directDone && a.fault == QueryFails)
    ensures var d := Act(c, a);
      && d.tree == c.tree && Quiet(d.io)
      && (if a.Watch? && c.mon.pc != Gone then Left(d.mon) < Left(c.mon) else d.mon == c.mon)
  {
    hide WatchOf, BirthOf, ExitOf, MoveOf, EndOf, ScriptOf, AnswerOf, Left, Answered;
    match a
    case Birth(_) => TreeMoves(c.tree, c.mon, c.flags, a);
    case Exit(_, _) => TreeMoves(c.tree, c.mon, c.flags, a);
    case Move(_, _, _) => IoMoves(c.io, c.mon, a);
    case End(_) => IoMoves(c.io, c.mon, a);
    case Watch(fault, expired) =>
      LeftFalls(c.tree, c.io, c.mon, c.flags, fault, expired);
      if c.mon.pc == Gone { GoneRests(c.tree, c.io, c.mon, c.flags, fault, expired); }
    case _ =>
  }

  // ---- what the status says ------------------------------------------------------------------

  /** The deadline passed and the monitor had the job terminated. */
  predicate DeadlineKills(c: Child, steps: seq<Action>)
    decreases |steps|
  {
    steps != [] && ((steps[0].Watch? && c.mon.pc == KillJob) || DeadlineKills(Act(c, steps[0]), steps[1..]))
  }

  /** The monitor is on its way to the deadline's kill exactly while it has timed out and the
      deadline stands; afterwards it stands no more. */
  predicate Timed(m: Monitor, f: Flags) {
    f.timeout && f.deadline <==> m.pc == MarkKilled || m.pc == KillJob
  }

  predicate Fired(f: Flags) {
    f.timeout && !f.deadline
  }

  /** What one step of the monitor does to the marks. */
  predicate Marks(m: Monitor, f: Flags, n: Monitor, g: Flags) {
    && Timed(n, g) && (Fired(g) <==> Fired(f) || m.pc == KillJob)
    && (f.timeout ==> g.timeout) && (f.monitorFailed ==> g.monitorFailed) && (f.killed ==> g.killed)
    && (g.killed && !g.monitorFailed ==> f.killed || g.timeout)
  }

  lemma PollMarks(t: Tree, m: Monitor, f: Flags, fault: Fault)
    requires Timed(m, f) && m.pc == PollDirect
    ensures var r := PollOf(t, m, f, fault); Marks(m, f, r.0, r.1)
  {
  }

  lemma CountMarks(t: Tree, m: Monitor, f: Flags, fault: Fault)
    requires Timed(m, f) && m.pc == CountJob
    ensures var r := CountOf(t, m, f, fault); Marks(m, f, r.0, r.1)
  {
  }

  lemma DecideMarks(m: Monitor, f: Flags, fault: Fault, expired: bool)
    requires Timed(m, f)
    ensures m.pc == Decide ==> var r := DecideOf(m, f, expired); Marks(m, f, r.0, r.1)
    ensures m.pc == KillJob ==> var r := KillJobOf(m, f, fault); Marks(m, f, r.0, r.1)
  {
  }

  lemma WatchTimes(t: Tree, io: Io, m: Monitor, f: Flags, fault: Fault, expired: bool)
    requires Timed(m, f)
    ensures var r := WatchOf(t, io, m, f, fault, expired); Marks(m, f, r.0, r.1)
  {
    hide PollOf, CountOf, DecideOf, KillJobOf;
    match m.pc
    case PollDirect => PollMarks(t, m, f, fault);
    case CountJob => CountMarks(t, m, f, fault);
    case Decide => DecideMarks(m, f, fault, expired);
    case KillJob => DecideMarks(m, f, fault, expired);
    case _ =>
  }

  lemma ActTimes(c: Child, a: Action)
    requires Timed(c.mon, c.flags)
    ensures var d := Act(c, a);
      && Timed(d.mon, d.flags) && (Fired(d.flags) <==> Fired(c.flags) || (a.Watch? && c.mon.pc == KillJob))
      && (c.flags.timeout ==> d.flags.timeout)
      && (c.flags.monitorFailed ==> d.flags.monitorFailed)
      && (c.flags.killed || (a.KillEnds? && c.script == Killing) ==> d.flags.killed)
      && (d.flags.killed && !d.flags.monitorFailed ==>
            c.flags.killed || d.flags.timeout || (a.KillEnds? && c.script == Killing))
  {
    hide WatchOf, BirthOf, ExitOf, MoveOf, EndOf, AnswerOf, Timed, Fired;
    if a.Watch? { WatchTimes(c.tree, c.io, c.mon, c.flags, a.fault, a.expired); } else { KeepsTime(c, a); }
  }

  lemma KeepsTime(c: Child, a: Action)
    requires Timed(c.mon, c.flags) && !a.Watch?
    ensures var d := Act(c, a); Timed(d.mon, d.flags) && (Fired(d.flags) <==> Fired(c.flags))
  {
    hide WatchOf, BirthOf, ExitOf, MoveOf, EndOf, AnswerOf;
  }

  lemma {:induction false} History(c: Child, steps: seq<Action>)
    requires Timed(c.mon, c.flags)
    ensures var d := Acts(c, steps);
      && Timed(d.mon, d.flags) && (Fired(d.flags) <==> Fired(c.flags) || DeadlineKills(c, steps))
      && (c.flags.timeout ==> d.flags.timeout)
      && (c.flags.monitorFailed ==> d.flags.monitorFailed)
      && (c.flags.killed || KillCompletes(c, steps) ==> d.flags.killed)
      && (d.flags.killed && !d.flags.monitorFailed ==> c.flags.killed || d.flags.timeout || KillCompletes(c, steps))
    decreases |steps|
  {
    if steps != [] {
      hide Act, Timed, Fired;
      ActTimes(c, steps[0]);
      History(Act(c, steps[0]), steps[1..]);
    }
  }

  /** The monitor looked at the clock after the deadline. */
  predicate ClockPasses(steps: seq<Action>) {
    exists i :: 0 <= i < |steps| && steps[i].Watch? && steps[i].expired
  }

  predicate Clocked(f: Flags, g: Flags, expired: bool) {
    (g.timeout && !f.timeout ==> f.deadline && expired) && (g.deadline ==> f.deadline)
  }

  lemma WatchExpires(t: Tree, io: Io, m: Monitor, f: Flags, fault: Fault, expired: bool)
    ensures Clocked(f, WatchOf(t, io, m, f, fault, expired).1, expired)
  {
    hide PollOf, CountOf, DecideOf, KillJobOf;
    match m.pc
    case PollDirect => PollExpires(t, m, f, fault, expired);
    case CountJob => PollExpires(t, m, f, fault, expired);
    case Decide => DecideExpires(m, f, fault, expired);
    case KillJob => DecideExpires(m, f, fault, expired);
    case _ =>
  }

  lemma PollExpires(t: Tree, m: Monitor, f: Flags, fault: Fault, expired: bool)
    ensures Clocked(f, PollOf(t, m, f, fault).1, expired) && Clocked(f, CountOf(t, m, f, fault).1, expired)
  {
  }

  lemma DecideExpires(m: Monitor, f: Flags, fault: Fault, expired: bool)
    ensures Clocked(f, DecideOf(m, f, expired).1, expired) && Clocked(f, KillJobOf(m, f, fault).1, expired)
  {
  }

  lemma ActExpires(c: Child, a: Action)
    ensures Clocked(c.flags, Act(c, a).flags, a.Watch? && a.expired)
  {
    hide WatchOf, BirthOf, ExitOf, MoveOf, EndOf, AnswerOf;
    if a.Watch? { WatchExpires(c.tree, c.io, c.mon, c.flags, a.fault, a.expired); }
  }

  lemma {:induction false} TimesOut(c: Child, steps: seq<Action>)
    ensures Acts(c, steps).flags.timeout && !c.flags.timeout ==> c.flags.deadline && ClockPasses(steps)
    decreases |steps|
  {
    if steps != [] {
      hide Act;
      ActExpires(c, steps[0]);
      TimesOut(Act(c, steps[0]), steps[1..]);
      if ClockPasses(steps[1..]) {
        var i :| 0 <= i < |steps[1..]| && steps[1..][i].Watch? && steps[1..][i].expired;
        assert steps[i + 1] == steps[1..][i];
      }
    }
  }

  /** The text a running reader of this pipe takes in, in order. */
  function ReadFrom(c: Child, steps: seq<Action>, t: Which): string
    decreases |steps|
  {
    if steps == [] then ""
    else
      var a := steps[0];
      (if a.Move? && a.t == t && (if t == Out then c.io.tOut else c.io.tErr) == Running then a.text else "")
      + ReadFrom(Act(c, a), steps[1..], t)
  }

  lemma ActReads(c: Child, a: Action)
    ensures Act(c, a).io.out
         == c.io.out + if a.Move? && a.t == Out && c.io.tOut == Running then a.text else ""
    ensures Act(c, a).io.err
         == c.io.err + if a.Move? && a.t == Err && c.io.tErr == Running then a.text else ""
  {
    hide WatchOf, BirthOf, ExitOf, ScriptOf, AnswerOf;
  }

  lemma {:induction false} Gathered(c: Child, steps: seq<Action>)
    ensures Acts(c, steps).io.out == c.io.out + ReadFrom(c, steps, Out)
    ensures Acts(c, steps).io.err == c.io.err + ReadFrom(c, steps, Err)
    decreases |steps|
  {
    if steps != [] {
      hide Act;
      ActReads(c, steps[0]);
      Gathered(Act(c, steps[0]), steps[1..]);
    }
  }

  /** If the first wait returned a result, its status says what happened, and out and err are
      what the readers took in. */
  lemma {:induction false} StatusIsTheStory(captured: bool, stdin: bool, deadline: bool, steps: seq<Action>, i: nat)
    ensures var c0 := Launched(captured, stdin, deadline);
      var c := Acts(c0, steps);
      i < |c.answers| && c.answers[0].Told? ==>
        && c.answers[i].Told?
        && var r := c.answers[i].report;
        && (r.status == "timeout" <==> DeadlineKills(c0, steps))
        && (r.status == "timeout" ==> deadline && ClockPasses(steps))
        && (r.status == "killed" <==> !DeadlineKills(c0, steps) && KillCompletes(c0, steps))
        && (r.status == "ok" <==>
              !DeadlineKills(c0, steps) && !KillCompletes(c0, steps) && c.tree.ended == Some(0))
        && (r.status == "error" <==>
              !DeadlineKills(c0, steps) && !KillCompletes(c0, steps) && c.tree.ended != Some(0))
        && c.tree.ended == Some(r.exit)
        && r.out == ReadFrom(c0, steps, Out) && r.err == ReadFrom(c0, steps, Err)
  {
    hide Acts, DeadlineKills, KillCompletes, ClockPasses, ReadFrom, Rooted, TreeSeen, IoSeen;
    CleanWaitIsTheTruth(captured, stdin, deadline, steps);
    LaunchedInv(captured, stdin, deadline);
    ActsInv(Launched(captured, stdin, deadline), steps);
    History(Launched(captured, stdin, deadline), steps);
    Gathered(Launched(captured, stdin, deadline), steps);
    TimesOut(Launched(captured, stdin, deadline), steps);
  }

  /** The reap's answer: the first of its errors, or the result. */
  lemma {:induction false} ReapSays(captured: bool, stdin: bool, deadline: bool, steps: seq<Action>, joined: bool)
    ensures var c := Acts(Launched(captured, stdin, deadline), steps);
      c.script == Reaping ==>
        var said := Act(c, ReapEnds(joined)).answers;
        && |said| == 1
        && (said[0] == Refused("joining child I/O thread failed") <==> !joined)
        && (said[0] == Refused("child monitor failed") <==> joined && c.flags.monitorFailed)
        && (said[0] == Refused("reading child output failed") <==>
              joined && !c.flags.monitorFailed && c.io.readError)
        && (said[0] == Refused("writing child input failed") <==>
              joined && !c.flags.monitorFailed && !c.io.readError && c.io.writeError && !c.flags.killed)
        && (said[0] == Told(Result(c)) <==>
              joined && !c.flags.monitorFailed && !c.io.readError && (c.io.writeError ==> c.flags.killed))
  {
    hide Acts, Rooted, TreeSeen, IoSeen;
    LaunchedInv(captured, stdin, deadline);
    ActsInv(Launched(captured, stdin, deadline), steps);
    var c := Acts(Launched(captured, stdin, deadline), steps);
    if c.script == Reaping { assert c.answers == []; }
  }
}
