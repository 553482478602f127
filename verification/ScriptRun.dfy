/** The interpreter loop itself, and the preselection run that decides which devices are worked on. */
module ScriptRun {
  import opened Basics
  import opened ScriptTree
  import opened ScriptMachine
  import opened ScriptRefinement
  import opened ScriptTrace
  import opened ScriptValidator

  method SkipToEndInt(lines: seq<Kind>, from: nat) returns (l: nat)
    requires from <= |lines|
    ensures l == NextEndInt(lines, from)
  {
    l := from;
    while l < |lines| && !lines[l].EndInt?
      invariant from <= l <= |lines|
      invariant NextEndInt(lines, from) == NextEndInt(lines, l)
    {
      l := l + 1;
    }
  }

  method RollBack(lines: seq<Kind>, from: nat) returns (l: int)
    requires from < |lines|
    ensures l == match PrevPerInt(lines, from) case None => -1 case Some(q) => q
  {
    l := from;
    while l >= 0 && !lines[l].PerInt?
      invariant -1 <= l <= from
      invariant PrevPerInt(lines, from) == if l < 0 then None else PrevPerInt(lines, l)
    {
      l := l - 1;
    }
  }

  method SkipToSectEnd(lines: seq<Kind>, from: nat, orElse: bool) returns (l: nat)
    requires from <= |lines|
    ensures l == SkipSect(lines, from, 0, orElse)
  {
    var subsects := 0;
    l := from;
    while l < |lines| && (!(lines[l].EndSect? || (orElse && lines[l].Else?)) || subsects > 0)
      invariant from <= l <= |lines| && subsects >= 0
      invariant SkipSect(lines, from, 0, orElse) == SkipSect(lines, l, subsects, orElse)
    {
      if lines[l].Sect? {
        subsects := subsects + 1;
      } else if lines[l].EndSect? {
        subsects := subsects - 1;
      }
      l := l + 1;
    }
  }

  lemma {:induction false} StillRunning(env: Env, s: State, k: nat, total: nat)
    requires Iter(env, s, total).halt.Some? && Iter(env, s, k).halt.None?
    ensures k < total
    decreases k
  {
    if k >= total { IterLater(env, s, total, k); }
  }

  lemma {:induction false} IterLater(env: Env, s: State, total: nat, k: nat)
    requires Iter(env, s, total).halt.Some? && k >= total
    ensures Iter(env, s, k) == Iter(env, s, total)
    decreases k
  {
    if k > total {
      IterLater(env, s, total, k - 1);
      IterNext(env, s, k - 1);
    }
  }

  /** On an accepted script no state of the run ever panics, and the interface index is in range exactly
      while an interface loop is open. */
  lemma AlwaysConsistent(env: Env, tree: Body, j: nat)
    requires WellFormed(tree, false) && Flat(tree) == env.lines
    ensures Consistent(env, Iter(env, Start(), j))
  {
    hide Step, Consistent, Flat;
    var k := RunMeansTree(env, tree);
    if j > k { IterLater(env, Start(), k, j); }
    RunsAt(env, Start(), k, Iter(env, Start(), k), if j > k then k else j);
  }

  /** However long an accepted script is run, the interpreter comes to no line of any kind more often than there
      are interfaces, or once if there are none. */
  lemma LineVisits(env: Env, k: nat, line: nat)
    requires Accepts(env.lines)
    ensures Visits(env, Start(), k, line) <= if env.interfaces == 0 then 1 else env.interfaces
  {
    hide Step, Iter, Visits, Check, Flat, WellFormed, Accepts;
    var tree := AcceptedTree(env.lines);
    var total := RunMeansTree(env, tree);
    assert Visits(env, Start(), total, line) <= Often(env, -1);
    if k <= total {
      VisitsSum(env, Start(), k, total - k, line);
    } else {
      VisitsSum(env, Start(), total, k - total, line);
      VisitsHalted(env, Iter(env, Start(), total), k - total, line);
    }
  }

  /** The run is over after k steps in the given state, and the structured meaning says so. */
  lemma Conclude(env: Env, tree: Body, k: nat, halt: Halt)
    requires WellFormed(tree, false) && Flat(tree) == env.lines
    requires Iter(env, Start(), k).halt == Some(halt)
    ensures Report(Iter(env, Start(), k).mem, halt) == Meaning(env, tree)
  {
    var total := RunMeansTree(env, tree);
    if k <= total { IterLater(env, Start(), k, total); } else { IterLater(env, Start(), total, k); }
  }

  /** What a real run of a well-formed script does, told by the lines it comes to: the commands and log lines among them
      are executed one after the other, each given the commands before it; the first that ends the run is the last line
      of all, and ends it in its own way. */
  lemma MeaningLived(env: Env, tree: Body) returns (path: seq<Event>, next: Event)
    requires WellFormed(tree, false) && Flat(tree) == env.lines && !env.presel
    ensures Lived(env, path, Meaning(env, tree).mem, next, Some(Meaning(env, tree).halt))
  {
    hide Step, Consistent, Flat, WellFormed, Exec, Lived, Iter;
    var k := RunMeansTree(env, tree);
    forall j | 0 <= j <= k ensures Iter(env, Start(), j).halt != Some(Panic) { NeverPanics(env, tree, j); }
    path := RunLived(env, k);
    var t := Iter(env, Start(), k);
    next := Event(t.l, t.intI);
    Conclude(env, tree, k, t.halt.value);
  }

  lemma NeverPanics(env: Env, tree: Body, j: nat)
    requires WellFormed(tree, false) && Flat(tree) == env.lines
    ensures Iter(env, Start(), j).halt != Some(Panic)
  {
    hide Step, Flat, WellFormed, Iter;
    AlwaysConsistent(env, tree, j);
  }

  /** A failed test skips to the end of the script, to end_int, or to else or end_sect. */
  method LeaveBlock(env: Env, s: State) returns (t: State)
    requires s.l < |env.lines|
    ensures t == FailAt(env, s)
  {
    var lines := env.lines;
    if |s.stack| == 0 { return s.(halt := Some(RootFail)); }
    if s.stack[|s.stack| - 1] == InInt {
      var q := SkipToEndInt(lines, s.l + 1);
      return if q == |lines| then Panicked(s) else s.(l := q);
    }
    var q := SkipToSectEnd(lines, s.l + 1, true);
    if q == |lines| { return Panicked(s); }
    if lines[q].Else? {
      // an else is passed over, so that its branch is run
      q := q + 1;
      if q == |lines| { return Panicked(s); }
    }
    return s.(l := q);
  }

  /** The body of the interpreter loop: one line, with the jumps it causes. */
  method ExecuteLine(env: Env, s: State) returns (t: State)
    requires s.halt.None?
    ensures t == Step(env, s)
  {
    var lines := env.lines;
    var State(l, intI, sectDepth, perInt, stack, mem, _) := s;
    if l >= |lines| { return s.(halt := Some(Finished)); }
    var goOn := true;
    match lines[l] {
      case PerInt =>
        if env.interfaces == 0 {
          l := SkipToEndInt(lines, l + 1);
          if l == |lines| { return Panicked(s); }
        } else {
          intI := 0;
          perInt := perInt + 1;
          stack := stack + [InInt];
        }
      case EndInt =>
        if intI + 1 < env.interfaces {
          var q := RollBack(lines, l);
          if q < 0 { return Panicked(s); }
          intI := intI + 1;
          l := q;
        } else {
          intI := -1;
          perInt := perInt - 1;
          if perInt < 0 || |stack| == 0 || stack[|stack| - 1] != InInt {
            return Panicked(State(l, intI, sectDepth, perInt, stack, mem, None));
          }
          stack := stack[..|stack| - 1];
        }
      case Sect =>
        sectDepth := sectDepth + 1;
        stack := stack + [InSect];
      case Else =>
        if |stack| == 0 || stack[|stack| - 1] != InSect { return Panicked(s); }
        var q := SkipToSectEnd(lines, l + 1, false);
        if q == |lines| { return Panicked(s); }
        l := q - 1;
      case EndSect =>
        sectDepth := sectDepth - 1;
        if sectDepth < 0 || |stack| == 0 || stack[|stack| - 1] != InSect {
          return Panicked(State(l, intI, sectDepth, perInt, stack, mem, None));
        }
        stack := stack[..|stack| - 1];
      case Bad =>
        return Panicked(s);
      case kind =>
        if Substitutes(env, kind) && intI == -1 { return Panicked(s); }
        var a := RunLine(env, kind, l, intI, mem);
        mem := a.mem;
        match a.out {
          case Continue =>
          case NoMatch => goOn := false;
          case Stop(why) => return s.(mem := mem, halt := Some(Halted(why)));
        }
    }
    if !goOn {
      t := LeaveBlock(env, s.(mem := mem));
      return;
    }
    return State(l + 1, intI, sectDepth, perInt, stack, mem, None);
  }

  /** Works one device. On a script that passed the check the run ends, without a structural panic,
      and reports the meaning of the script. */
  method WorkRouter(env: Env) returns (report: Report, ghost path: seq<Event>, ghost next: Event)
    requires Accepts(env.lines)
    ensures !env.presel ==> Lived(env, path, report.mem, next, Some(report.halt))
    ensures report.halt != Panic
    ensures forall tree :: WellFormed(tree, false) && Flat(tree) == env.lines ==> report == Meaning(env, tree)
  {
    hide Iter, Step, Check, Flat, WellFormed, Exec, Lived;
    ghost var tree := AcceptedTree(env.lines);
    path, next := [], Event(0, -1);
    if !env.presel { path, next := MeaningLived(env, tree); }
    ghost var total := RunMeansTree(env, tree);
    ghost var k := 0;
    var s := Start();
    IterStart(env);
    while s.halt.None?
      invariant k <= total && s == Iter(env, Start(), k)
      decreases total - k
    {
      StillRunning(env, Start(), k, total);
      IterNext(env, Start(), k);
      s := ExecuteLine(env, s);
      k := k + 1;
    }
    report := Report(s.mem, s.halt.value);
    Conclude(env, tree, k, s.halt.value);
    forall t | WellFormed(t, false) && Flat(t) == env.lines ensures report == Meaning(env, t) {
      Conclude(env, t, k, s.halt.value);
    }
  }

  lemma IterStart(env: Env)
    ensures Iter(env, Start(), 0) == Start()
  {
  }

  // ---------- preselection ----------

  /** Some command that ends a preselection run has been executed. */
  ghost predicate Talked(lines: seq<Kind>, es: seq<Event>) {
    exists i :: 0 <= i < |es| && es[i].line < |lines| && lines[es[i].line].Talk?
  }

  /** A log line has stopped the run before any talking command. Preselection skips log lines and does not notice. */
  ghost predicate LogStopped(lines: seq<Kind>, f: State) {
    f.halt == Some(Halted(ByCommand)) && f.l < |lines| && lines[f.l].Log? && !Talked(lines, f.mem.trace)
  }

  /** The real run is stopped by a log line before any talking command. */
  ghost predicate LogStops(env: Env) {
    exists k :: LogStopped(env.lines, Iter(env.(presel := false), Start(), k))
  }

  ghost predicate SameButLog(s: State, s': State) {
    s' == s.(mem := s'.mem) && s.mem.trace == s'.mem.trace
  }

  /** How a preselection run that ended in p answers to a full run that ended in f. */
  ghost predicate Foretells(lines: seq<Kind>, p: State, f: State) {
    && p.halt.Some? && f.halt.Some? && !Talked(lines, p.mem.trace)
    && if p.halt == Some(Halted(Selected)) then Talked(lines, f.mem.trace)
       else
         && p.mem.trace == f.mem.trace
         && (if p.halt == Some(Halted(Stuck)) then f.halt == Some(Halted(ByFail))
             else f.halt == p.halt != Some(Halted(ByFail)))
  }

  lemma TraceGrows(env: Env, s: State)
    ensures s.mem.trace <= Step(env, s).mem.trace
  {
  }

  lemma {:induction false} TraceGrowsIter(env: Env, s: State, k: nat)
    ensures s.mem.trace <= Iter(env, s, k).mem.trace
    decreases k
  {
    hide Step;
    if k > 0 {
      TraceGrows(env, s);
      TraceGrowsIter(env, Step(env, s), k - 1);
    }
  }

  lemma TalkedAppend(lines: seq<Kind>, es: seq<Event>, e: Event, later: seq<Event>)
    ensures Talked(lines, es + [e]) <==> Talked(lines, es) || (e.line < |lines| && lines[e.line].Talk?)
    ensures es <= later && Talked(lines, es) ==> Talked(lines, later)
  {
    if Talked(lines, es) {
      var i :| 0 <= i < |es| && es[i].line < |lines| && lines[es[i].line].Talk?;
      assert (es + [e])[i] == es[i];
      if es <= later { assert later[i] == es[i]; }
    }
    assert (es + [e])[|es|] == e;
  }

  /** Where both modes stand after one step: together, at the end of both, or preselection is over. */
  ghost predicate Paired(lines: seq<Kind>, p: State, f: State) {
    || f.halt == Some(Panic)
    || LogStopped(lines, f)
    || Foretells(lines, p, f)
    || (p.halt == Some(Halted(Selected)) && !Talked(lines, p.mem.trace) && Talked(lines, f.mem.trace))
    || (SameButLog(p, f) && p.halt.None? && !Talked(lines, p.mem.trace))
  }

  lemma BlockLineStep(env: Env, s: State, s': State)
    requires SameButLog(s, s') && s.halt.None?
    requires s.l < |env.lines| ==> Structural(env.lines[s.l]) || env.lines[s.l].Bad?
    ensures var p, f := Step(env.(presel := true), s), Step(env.(presel := false), s');
            && p.mem == s.mem && f == p.(mem := s'.mem)
            && (p.halt.None? || p.halt == Some(Panic) || p.halt == Some(Finished))
  {
    hide SkipSect, NextEndInt, PrevPerInt, RunLine, FailAt;
  }

  /** One step in both modes. */
  lemma BothStep(env: Env, s: State, s': State)
    requires SameButLog(s, s') && s.halt.None? && !Talked(env.lines, s.mem.trace)
    ensures Paired(env.lines, Step(env.(presel := true), s), Step(env.(presel := false), s'))
  {
    hide SkipSect, NextEndInt, PrevPerInt, Talked;
    if s.l >= |env.lines| || Structural(env.lines[s.l]) || env.lines[s.l].Bad? {
      hide Step;
      BlockLineStep(env, s, s');
    } else {
      TalkedAppend(env.lines, s.mem.trace, Event(s.l, s.intI), s.mem.trace);
      if env.lines[s.l].Test? {
        TestStep(env, s, s');
      } else {
        hide Step;
        CommandStep(env, env.lines[s.l], s, s');
      }
    }
  }

  lemma TestStep(env: Env, s: State, s': State)
    requires SameButLog(s, s') && s.halt.None? && s.l < |env.lines| && env.lines[s.l].Test?
    requires !Talked(env.lines, s.mem.trace + [Event(s.l, s.intI)])
    ensures Paired(env.lines, Step(env.(presel := true), s), Step(env.(presel := false), s'))
  {
    hide FailAt, Talked;
    var a := RunLine(env.(presel := true), env.lines[s.l], s.l, s.intI, s.mem);
    var a' := RunLine(env.(presel := false), env.lines[s.l], s.l, s.intI, s'.mem);
    FailedTest(env, s.(mem := a.mem), s'.(mem := a'.mem));
  }

  /** A line that is neither a block line nor a test, in both modes. */
  lemma CommandStep(env: Env, k: Kind, s: State, s': State)
    requires SameButLog(s, s') && s.halt.None? && !Talked(env.lines, s.mem.trace)
    requires s.l < |env.lines| && k == env.lines[s.l] && !Structural(k) && !k.Bad? && !k.Test?
    requires Talked(env.lines, s.mem.trace + [Event(s.l, s.intI)]) <==> k.Talk?
    ensures Paired(env.lines, Step(env.(presel := true), s), Step(env.(presel := false), s'))
  {
    hide SkipSect, NextEndInt, PrevPerInt, Talked, FailAt;
  }

  lemma FailedTest(env: Env, s: State, s': State)
    requires s.l < |env.lines|
    requires s.halt.None?
    ensures SameButLog(s, s') ==>
              var p, f := FailAt(env.(presel := true), s), FailAt(env.(presel := false), s');
              f == p.(mem := s'.mem) && p.mem == s.mem && p.halt in {None, Some(Panic), Some(RootFail)}
  {
    hide SkipSect, NextEndInt, PrevPerInt;
  }

  lemma {:induction false} Lockstep(env: Env, s: State, s': State, k: nat) returns (j: nat)
    requires SameButLog(s, s') && s.halt.None? && !Talked(env.lines, s.mem.trace)
    requires Iter(env.(presel := false), s', k).halt.Some?
    requires Iter(env.(presel := false), s', k).halt != Some(Panic)
    ensures var f := Iter(env.(presel := false), s', k);
            LogStopped(env.lines, f) || Foretells(env.lines, Iter(env.(presel := true), s, j), f)
    decreases k
  {
    hide Step;
    var pre, full := env.(presel := true), env.(presel := false);
    var p, f := Step(pre, s), Step(full, s');
    BothStep(env, s, s');
    if f.halt.Some? {
      IterHalted(full, f, k - 1);
      j := 1;
      assert Iter(pre, s, 1) == Iter(pre, p, 0);
    } else if p.halt.Some? {
      TraceGrowsIter(full, f, k - 1);
      TalkedAppend(env.lines, f.mem.trace, Event(0, 0), Iter(full, f, k - 1).mem.trace);
      j := 1;
      assert Iter(pre, s, 1) == Iter(pre, p, 0);
    } else {
      var i := Lockstep(env, p, f, k - 1);
      j := i + 1;
    }
  }

  /** Preselection drops a device exactly when the real run on the same answers would end on a failed root-level test
      before any start, p, e, ef or z, and it blocks exactly when the real run would reach a fail line first: unless a
      log line stops the real run before. A real run that ends so is foretold in any case. */
  lemma PreselectionAgrees(env: Env, tree: Body)
    requires WellFormed(tree, false) && Flat(tree) == env.lines
    ensures var pre, full := Meaning(env.(presel := true), tree), Meaning(env.(presel := false), tree);
            && (full.halt == RootFail && !Talked(env.lines, full.mem.trace) ==> pre.halt == RootFail)
            && (full.halt == Halted(ByFail) && !Talked(env.lines, full.mem.trace) ==> pre.halt == Halted(Stuck))
            && (!LogStops(env) ==> Agrees(env, pre, full))
  {
    hide Step, Iter, Flat, WellFormed, Exec;
    var pre, full := env.(presel := true), env.(presel := false);
    var k := RunMeansTree(full, tree);
    var j := Lockstep(env, Start(), Start(), k);
    if !LogStopped(env.lines, Iter(full, Start(), k)) {
      Conclude(pre, tree, j, Iter(pre, Start(), j).halt.value);
    }
  }

  /** The preselection run pre tells whether the real run full ends on a failed match, or on fail, before it talks. */
  ghost predicate Agrees(env: Env, pre: Report, full: Report) {
    && (pre.halt == RootFail <==> full.halt == RootFail && !Talked(env.lines, full.mem.trace))
    && (pre.halt == Halted(Stuck) <==> full.halt == Halted(ByFail) && !Talked(env.lines, full.mem.trace))
  }

  // Log lines that stop.

  /** The same answers, but no log line stops. */
  function Quiet(env: Env): Env {
    env.(oracle := (es: seq<Event>, l: nat, i: int) =>
           if l < |env.lines| && env.lines[l].Log? then Continue else env.oracle(es, l, i))
  }

  lemma {:induction false} QuietRun(env: Env, s: State, k: nat)
    ensures Iter(env.(presel := true), s, k) == Iter(Quiet(env).(presel := true), s, k)
    decreases k
  {
    if k > 0 {
      QuietStep(env, s);
      hide Step;
      QuietRun(env, Step(env.(presel := true), s), k - 1);
    }
  }

  /** Preselection never asks for the answer to a log line. */
  lemma QuietStep(env: Env, s: State)
    ensures Step(env.(presel := true), s) == Step(Quiet(env).(presel := true), s)
  {
    hide SkipSect, NextEndInt, PrevPerInt;
  }

  lemma {:induction false} QuietLogs(env: Env, s: State, k: nat)
    requires s.halt.None?
    ensures !LogStopped(env.lines, Iter(Quiet(env).(presel := false), s, k))
    decreases k
  {
    if k > 0 {
      var full := Quiet(env).(presel := false);
      var t := Step(full, s);
      QuietLog(env, s);
      hide Step;
      if t.halt.None? { QuietLogs(env, t, k - 1); } else { IterHalted(full, t, k - 1); }
    }
  }

  lemma QuietLog(env: Env, s: State)
    requires s.halt.None?
    ensures !LogStopped(env.lines, Step(Quiet(env).(presel := false), s))
  {
    hide SkipSect, NextEndInt, PrevPerInt, Talked;
  }

  /** On every script preselection answers for the real run in which no log line stops. */
  lemma PreselectionQuiet(env: Env, tree: Body)
    requires WellFormed(tree, false) && Flat(tree) == env.lines
    ensures Agrees(env, Meaning(env.(presel := true), tree), Meaning(Quiet(env).(presel := false), tree))
  {
    hide Step, Iter, Flat, WellFormed, Exec, Talked;
    var pre, quiet := env.(presel := true), Quiet(env).(presel := true);
    PreselectionAgrees(Quiet(env), tree);
    forall k: nat ensures !LogStopped(env.lines, Iter(Quiet(env).(presel := false), Start(), k)) {
      QuietLogs(env, Start(), k);
    }
    var k := RunMeansTree(quiet, tree);
    QuietRun(env, Start(), k);
    Conclude(quiet, tree, k, Iter(quiet, Start(), k).halt.value);
    Conclude(pre, tree, k, Iter(pre, Start(), k).halt.value);
  }

  /** Exactly when preselection is wrong about the real run: a log line stops the real run, and without that the run
      would have ended on a failed match, or on fail, before it talked. */
  lemma PreselectionExact(env: Env, tree: Body)
    requires WellFormed(tree, false) && Flat(tree) == env.lines
    ensures var pre, full := Meaning(env.(presel := true), tree), Meaning(env.(presel := false), tree);
            var quiet := Meaning(Quiet(env).(presel := false), tree);
            Agrees(env, pre, full) <==>
              !(LogStops(env) && quiet.halt in {RootFail, Halted(ByFail)} && !Talked(env.lines, quiet.mem.trace))
  {
    hide Step, Iter, Flat, WellFormed, Exec, Talked;
    PreselectionAgrees(env, tree);
    PreselectionQuiet(env, tree);
    if LogStops(env) {
      var full := env.(presel := false);
      var k :| LogStopped(env.lines, Iter(full, Start(), k));
      Conclude(full, tree, k, Halted(ByCommand));
    }
  }

  /** A condition on the answers alone: while nothing has been said to the device, no log line stops. */
  lemma PreselectionReliable(env: Env, tree: Body)
    requires WellFormed(tree, false) && Flat(tree) == env.lines
    requires forall es, l: nat, i ::
               l < |env.lines| && env.lines[l].Log? && !Talked(env.lines, es) ==> !env.oracle(es, l, i).Stop?
    ensures Agrees(env, Meaning(env.(presel := true), tree), Meaning(env.(presel := false), tree))
  {
    hide Step, Iter, Flat, WellFormed, Exec, Talked;
    forall k: nat ensures !LogStopped(env.lines, Iter(env.(presel := false), Start(), k)) {
      LogsPass(env, Start(), k);
    }
    PreselectionAgrees(env, tree);
  }

  lemma {:induction false} LogsPass(env: Env, s: State, k: nat)
    requires s.halt.None?
    requires forall es, l: nat, i ::
               l < |env.lines| && env.lines[l].Log? && !Talked(env.lines, es) ==> !env.oracle(es, l, i).Stop?
    ensures !LogStopped(env.lines, Iter(env.(presel := false), s, k))
    decreases k
  {
    if k > 0 {
      var full := env.(presel := false);
      var t := Step(full, s);
      LogPasses(env, s);
      hide Step;
      if t.halt.None? { LogsPass(env, t, k - 1); } else { IterHalted(full, t, k - 1); }
    }
  }

  lemma LogPasses(env: Env, s: State)
    requires s.halt.None?
    requires forall es, l: nat, i ::
               l < |env.lines| && env.lines[l].Log? && !Talked(env.lines, es) ==> !env.oracle(es, l, i).Stop?
    ensures !LogStopped(env.lines, Step(env.(presel := false), s))
  {
    hide SkipSect, NextEndInt, PrevPerInt, Talked;
  }

  /** A log line that stops, as "log %{i9}" does, followed by a test that fails: preselection drops the device, and the
      real run ends in the log line. */
  lemma LogUnnoticed()
    ensures var tree := Line(Log(false), Line(Test(false), Nil));
            var said := (es: seq<Event>, l: nat, i: int) => if l == 0 then Stop(ByCommand) else NoMatch;
            var env := Env(Flat(tree), 0, false, said);
            && Accepts(env.lines)
            && Meaning(env.(presel := true), tree).halt == RootFail
            && Meaning(env, tree).halt == Halted(ByCommand)
  {
    CheckBody([], Line(Log(false), Line(Test(false), Nil)));
  }
}
