/** What a real run does, told by the lines it comes to and the answers it gets: which lines are executed and logged,
    which of them end the run, and how. */
module ScriptTrace {
  import opened Basics
  import opened ScriptTree
  import opened ScriptMachine

  /** The commands among the lines visited; they decide later answers. */
  function Commands(lines: seq<Kind>, path: seq<Event>): seq<Event> {
    if path == [] then []
    else
      var e := path[|path| - 1];
      Commands(lines, path[..|path| - 1])
      + if e.line < |lines| && (lines[e.line].Test? || lines[e.line].Act? || lines[e.line].Talk? || lines[e.line].End?
                                || lines[e.line].Fail?) then [e] else []
  }

  /** The log lines among the lines visited. */
  function Logs(lines: seq<Kind>, path: seq<Event>): seq<Event> {
    if path == [] then []
    else
      var e := path[|path| - 1];
      Logs(lines, path[..|path| - 1]) + if e.line < |lines| && lines[e.line].Log? then [e] else []
  }

  /** The answer to the line visited at position i, given the commands before it. */
  function Said(env: Env, path: seq<Event>, i: nat): Outcome
    requires i < |path|
  {
    env.oracle(Commands(env.lines, path[..i]), path[i].line, path[i].intI)
  }

  /** How the line visited at position i ends the run, if it does: end and fail lines do, and so does every line that
      asks and is told to stop. */
  function Ending(env: Env, path: seq<Event>, i: nat): Option<Why>
    requires i < |path| && path[i].line < |env.lines|
  {
    match env.lines[path[i].line]
    case End => Some(ByEnd)
    case Fail(_) => Some(if Said(env, path, i).Stop? then ByCommand else ByFail)
    case Test(_) => if Said(env, path, i).Stop? then Some(ByCommand) else None
    case Act(_) => if Said(env, path, i).Stop? then Some(ByCommand) else None
    case Talk(_) => if Said(env, path, i).Stop? then Some(ByCommand) else None
    case Log(_) => if Said(env, path, i).Stop? then Some(ByCommand) else None
    case _ => None
  }

  /** The line at position i is a test that does not match. */
  predicate Fails(env: Env, path: seq<Event>, i: nat)
    requires i < |path| && path[i].line < |env.lines|
  {
    env.lines[path[i].line].Test? && Said(env, path, i).NoMatch?
  }

  /** After the line at position i the run goes on with the next line, for the same interface. */
  predicate Passes(env: Env, path: seq<Event>, i: nat)
    requires i < |path| && path[i].line < |env.lines|
  {
    !Structural(env.lines[path[i].line]) && Ending(env, path, i).None? && !Fails(env, path, i)
  }

  /** What comes after position i is the next line, for the same interface. next comes after the last position. */
  predicate Onward(path: seq<Event>, i: nat, next: Event)
    requires i < |path|
  {
    (if i + 1 < |path| then path[i + 1] else next) == Event(path[i].line + 1, path[i].intI)
  }

  /** What is logged: every log line that did not stop the run. */
  function Logged(env: Env, path: seq<Event>): seq<Event>
    requires forall i :: 0 <= i < |path| ==> path[i].line < |env.lines|
  {
    var n := |path|;
    if n > 0 && env.lines[path[n - 1].line].Log? && Ending(env, path, n - 1).Some? then Logs(env.lines, path[..n - 1])
    else Logs(env.lines, path)
  }

  /** The lines visited so far, and what has come of them. next is the line and interface that follows, if the run
      goes on; halt is how it ended, if it did. */
  ghost predicate Lived(env: Env, path: seq<Event>, m: Mem, next: Event, halt: Option<Halt>) {
    && (forall i :: 0 <= i < |path| ==> path[i].line < |env.lines|)
    && m.trace == Commands(env.lines, path) && m.devlog == Logged(env, path)
    && (forall i :: 0 <= i < |path| && Ending(env, path, i).Some? ==>
          i == |path| - 1 && halt == Some(Halted(Ending(env, path, i).value)))
    && (halt.Some? && halt.value.Halted? ==> path != [] && Ending(env, path, |path| - 1).Some?)
    && (halt == Some(RootFail) ==> path != [] && Fails(env, path, |path| - 1))
    && (halt == Some(Finished) ==> next.line >= |env.lines|)
    && (if path == [] then next == Event(0, -1) else path[0] == Event(0, -1))
    && (forall i :: 0 <= i < |path| && Passes(env, path, i) ==> Onward(path, i, next))
  }

  /** What was said and done at a position does not depend on what comes later. */
  lemma Earlier(env: Env, path: seq<Event>, e: Event, i: nat)
    requires i < |path| && path[i].line < |env.lines|
    ensures var path' := path + [e];
            && Said(env, path', i) == Said(env, path, i) && Ending(env, path', i) == Ending(env, path, i)
            && Passes(env, path', i) == Passes(env, path, i) && Fails(env, path', i) == Fails(env, path, i)
  {
    hide Commands;
    assert (path + [e])[..i] == path[..i];
  }

  lemma Latest(env: Env, path: seq<Event>, e: Event)
    ensures var path' := path + [e];
            && Said(env, path', |path|) == env.oracle(Commands(env.lines, path), e.line, e.intI)
            && path'[..|path|] == path && path'[..|path'| - 1] == path && path'[|path|] == e
  {
    assert (path + [e])[..|path|] == path;
  }

  /** What the line adds to the trace and to the log. */
  lemma LivedMem(env: Env, s: State, path: seq<Event>)
    requires !env.presel && s.halt.None? && s.l < |env.lines|
    requires Lived(env, path, s.mem, Event(s.l, s.intI), None) && Step(env, s).halt != Some(Panic)
    ensures var m, path' := Step(env, s).mem, path + [Event(s.l, s.intI)];
            m.trace == Commands(env.lines, path') && m.devlog == Logged(env, path')
  {
    var e := Event(s.l, s.intI);
    Latest(env, path, e);
    if Structural(env.lines[s.l]) || env.lines[s.l].Bad? {
      BlockStep(env, s);
    } else {
      LineStep(env, s, env.lines[s.l]);
    }
    hide Step;
    assert Logged(env, path) == Logs(env.lines, path);
  }

  /** How the line goes on or ends. */
  lemma LivedLine(env: Env, s: State, path: seq<Event>)
    requires !env.presel && s.halt.None? && s.l < |env.lines|
    requires s.mem.trace == Commands(env.lines, path) && Step(env, s).halt != Some(Panic)
    ensures var t, path', n := Step(env, s), path + [Event(s.l, s.intI)], |path|;
            && t.halt != Some(Finished)
            && (Ending(env, path', n).Some? ==> t.halt == Some(Halted(Ending(env, path', n).value)))
            && (t.halt.Some? && t.halt.value.Halted? ==> Ending(env, path', n).Some?)
            && (t.halt == Some(RootFail) ==> Fails(env, path', n))
            && (Passes(env, path', n) ==> t.halt == None && t.l == s.l + 1 && t.intI == s.intI)
  {
    hide Step, Commands;
    Latest(env, path, Event(s.l, s.intI));
    if Structural(env.lines[s.l]) || env.lines[s.l].Bad? {
      BlockStep(env, s);
    } else {
      LineStep(env, s, env.lines[s.l]);
    }
  }

  /** One more line. */
  lemma LivedStep(env: Env, s: State, path: seq<Event>)
    requires !env.presel && s.halt.None? && s.l < |env.lines|
    requires Lived(env, path, s.mem, Event(s.l, s.intI), None) && Step(env, s).halt != Some(Panic)
    ensures var t, e := Step(env, s), Event(s.l, s.intI);
            Lived(env, path + [e], t.mem, Event(t.l, t.intI), t.halt)
  {
    hide Step, Passes, Commands, Logged, Ending, Fails;
    var e := Event(s.l, s.intI);
    var path' := path + [e];
    LivedMem(env, s, path);
    LivedLine(env, s, path);
    forall i | 0 <= i < |path|
      ensures Ending(env, path', i).None? && Passes(env, path', i) == Passes(env, path, i)
    {
      Earlier(env, path, e, i);
    }
    var t := Step(env, s);
    forall i | 0 <= i < |path'| && Passes(env, path', i) ensures Onward(path', i, Event(t.l, t.intI)) {
      if i < |path| {
        assert Passes(env, path, i);
        assert Onward(path, i, e);
      }
    }
  }

  lemma BlockStep(env: Env, s: State)
    requires s.halt.None? && s.l < |env.lines| && (Structural(env.lines[s.l]) || env.lines[s.l].Bad?)
    ensures Step(env, s).mem == s.mem && Step(env, s).halt in {None, Some(Panic)}
    ensures env.lines[s.l].Bad? ==> Step(env, s).halt == Some(Panic)
  {
    hide SkipSect, NextEndInt, PrevPerInt, RunLine, FailAt;
  }

  lemma LineStep(env: Env, s: State, k: Kind)
    requires !env.presel && s.halt.None? && s.l < |env.lines| && k == env.lines[s.l] && !Structural(k) && !k.Bad?
    requires Step(env, s).halt != Some(Panic)
    ensures var t, said, e := Step(env, s), env.oracle(s.mem.trace, s.l, s.intI), Event(s.l, s.intI);
            && t.mem.trace == s.mem.trace + (if k.Log? || k.Blank? then [] else [e])
            && t.mem.devlog == s.mem.devlog + (if k.Log? && !said.Stop? then [e] else [])
            && (k.End? ==> t.halt == Some(Halted(ByEnd)))
            && (!k.End? && !k.Blank? && said.Stop? ==> t.halt == Some(Halted(ByCommand)))
            && (k.Fail? && !said.Stop? ==> t.halt == Some(Halted(ByFail)))
            && (k.Test? && said.NoMatch? ==> t.halt in {None, Some(RootFail)})
            && (k.Blank? || (!k.End? && !k.Fail? && !said.Stop? && !(k.Test? && said.NoMatch?)) ==>
                  t.halt == None && t.l == s.l + 1 && t.intI == s.intI)
  {
    hide SkipSect, NextEndInt, PrevPerInt;
  }

  lemma LivedStart(env: Env)
    ensures Lived(env, [], Start().mem, Event(0, -1), None)
  {
  }

  lemma LivedOver(env: Env, path: seq<Event>, m: Mem, next: Event)
    requires Lived(env, path, m, next, None) && next.line >= |env.lines|
    ensures Lived(env, path, m, next, Some(Finished))
  {
    hide Ending, Passes, Fails, Commands, Logged;
  }

  /** What the first k steps have done. */
  lemma {:induction false} RunLived(env: Env, k: nat) returns (path: seq<Event>)
    requires !env.presel && forall j :: 0 <= j <= k ==> Iter(env, Start(), j).halt != Some(Panic)
    ensures var s := Iter(env, Start(), k); Lived(env, path, s.mem, Event(s.l, s.intI), s.halt)
    decreases k
  {
    hide Step, Lived;
    if k == 0 {
      path := [];
      LivedStart(env);
    } else {
      path := RunLived(env, k - 1);
      IterNext(env, Start(), k - 1);
      var s := Iter(env, Start(), k - 1);
      if s.halt.None? && s.l < |env.lines| {
        LivedStep(env, s, path);
        path := path + [Event(s.l, s.intI)];
      } else {
        StepOver(env, s);
        if s.halt.None? { LivedOver(env, path, s.mem, Event(s.l, s.intI)); }
      }
    }
  }

  lemma StepOver(env: Env, s: State)
    ensures s.halt.Some? ==> Step(env, s) == s
    ensures s.halt.None? && s.l >= |env.lines| ==> Step(env, s) == s.(halt := Some(Finished))
  {
  }
}
