/** The script language of the configuration tool: its lines, its block structure,
    and the structured meaning of a script, stated over the block structure alone. */
module ScriptTree {

  import opened Basics

  /** A script line, classified by the anchored patterns of the tool.
      usesInt says that the line mentions an interface variable. */
  datatype Kind =
    | Blank                     // comment, empty line, user, pass
    | Test(usesInt: bool)       // match, !match, nums_cross, !nums_cross
    | Act(usesInt: bool)        // setvar, capres, port, eol, pager_reg, ...
    | Talk(usesInt: bool)       // start, p, e, ef, z: these end a preselection run
    | Log(usesInt: bool)
    | End
    | Fail(usesInt: bool)
    | PerInt | EndInt
    | Sect | Else | EndSect
    | Bad                       // unknown command, or a pattern that does not compile

  predicate Structural(k: Kind) {
    k.PerInt? || k.EndInt? || k.Sect? || k.Else? || k.EndSect?
  }

  predicate UsesInt(k: Kind) {
    match k
    case Test(u) => u
    case Act(u) => u
    case Talk(u) => u
    case Log(u) => u
    case Fail(u) => u
    case _ => false
  }

  /** A body is a list of lines, sections with one or more branches, and interface loops. */
  datatype Body =
    | Nil
    | Line(kind: Kind, rest: Body)
    | Section(branches: Branches, rest: Body)
    | PerInterface(loop: Body, rest: Body)

  datatype Branches = Last(body: Body) | Alt(body: Body, more: Branches)

  /** The lines a body is written as. */
  function Flat(b: Body): seq<Kind> {
    match b
    case Nil => []
    case Line(k, rest) => [k] + Flat(rest)
    case Section(br, rest) => [Sect] + FlatBranches(br) + [EndSect] + Flat(rest)
    case PerInterface(loop, rest) => [PerInt] + Flat(loop) + [EndInt] + Flat(rest)
  }

  function FlatBranches(br: Branches): seq<Kind> {
    match br
    case Last(b) => Flat(b)
    case Alt(b, more) => Flat(b) + [Else] + FlatBranches(more)
  }

  /** Proper nesting: interface loops do not nest, and interface variables occur only inside one. */
  predicate WellFormed(b: Body, inInt: bool) {
    match b
    case Nil => true
    case Line(k, rest) =>
      !Structural(k) && !k.Bad? && (UsesInt(k) ==> inInt) && WellFormed(rest, inInt)
    case Section(br, rest) => WellFormedBranches(br, inInt) && WellFormed(rest, inInt)
    case PerInterface(loop, rest) => !inInt && WellFormed(loop, true) && WellFormed(rest, inInt)
  }

  predicate WellFormedBranches(br: Branches, inInt: bool) {
    match br
    case Last(b) => WellFormed(b, inInt)
    case Alt(b, more) => WellFormed(b, inInt) && WellFormedBranches(more, inInt)
  }

  /** A command that ran: its line and the interface index it ran for (-1 outside a loop). */
  datatype Event = Event(line: nat, intI: int)

  /** What a run has done so far: the commands, which decide all later outcomes, and the log lines. */
  datatype Mem = Mem(trace: seq<Event>, devlog: seq<Event>)

  datatype Why = ByCommand | ByEnd | ByFail | Selected | Stuck

  datatype Outcome = Continue | NoMatch | Stop(why: Why)

  /** The answer of device, regular expressions and variables to a command, given all commands before it. */
  type Oracle = (seq<Event>, nat, int) -> Outcome

  datatype Env = Env(lines: seq<Kind>, interfaces: nat, presel: bool, oracle: Oracle)

  datatype Answer = Answer(mem: Mem, out: Outcome)

  /** One non-structural line. Only a test can fail to match. */
  function RunLine(env: Env, k: Kind, l: nat, i: int, m: Mem): Answer {
    var said := env.oracle(m.trace, l, i);
    var ran := m.(trace := m.trace + [Event(l, i)]);
    match k
    case Test(_) => Answer(ran, if said.Stop? then Stop(ByCommand) else said)
    case Act(_) => Answer(ran, if said.Stop? then Stop(ByCommand) else Continue)
    case Talk(_) =>
      if env.presel then Answer(m, Stop(Selected))
      else Answer(ran, if said.Stop? then Stop(ByCommand) else Continue)
    case Log(_) =>
      if env.presel then Answer(m, Continue)
      else if said.Stop? then Answer(m, Stop(ByCommand))
      else Answer(m.(devlog := m.devlog + [Event(l, i)]), Continue)
    case End => Answer(ran, Stop(ByEnd))
    case Fail(_) =>
      if said.Stop? then Answer(ran, Stop(ByCommand))
      else if env.presel then Answer(ran, Stop(Stuck))
      else Answer(ran, Stop(ByFail))
    case _ => Answer(m, Continue)
  }

  /** The meaning of a body whose first line is line p, run for interface i.
      NoMatch means that a test directly in this body failed. */
  function Exec(env: Env, b: Body, p: nat, i: int, m: Mem): Answer
    decreases b, 0, 0
  {
    match b
    case Nil => Answer(m, Continue)
    case Line(k, rest) =>
      var a := RunLine(env, k, p, i, m);
      if a.out.Continue? then Exec(env, rest, p + 1, i, a.mem) else a
    case Section(br, rest) =>
      var a := ExecBranches(env, br, p + 1, i, m);
      if a.out.Stop? then a
      else Exec(env, rest, p + 2 + |FlatBranches(br)|, i, a.mem)
    case PerInterface(loop, rest) =>
      var a := ExecLoop(env, loop, p + 1, 0, m);
      if a.out.Stop? then a
      else Exec(env, rest, p + 2 + |Flat(loop)|, i, a.mem)
  }

  /** A failed test abandons the branch for the next one; a finished branch ends the section. */
  function ExecBranches(env: Env, br: Branches, p: nat, i: int, m: Mem): (r: Answer)
    ensures !r.out.NoMatch?
    decreases br, 0, 0
  {
    var a := Exec(env, br.body, p, i, m);
    if !a.out.NoMatch? then a
    else
      match br
      case Last(_) => Answer(a.mem, Continue)
      case Alt(b, more) => ExecBranches(env, more, p + |Flat(b)| + 1, i, a.mem)
  }

  /** A failed test abandons the interface for the next one. */
  function ExecLoop(env: Env, loop: Body, p: nat, j: nat, m: Mem): (r: Answer)
    ensures !r.out.NoMatch?
    decreases loop, 1, env.interfaces - j
  {
    if j >= env.interfaces then Answer(m, Continue)
    else
      var a := Exec(env, loop, p, j, m);
      if a.out.Stop? then a else ExecLoop(env, loop, p, j + 1, a.mem)
  }

  /** How a whole run ends. */
  datatype Halt = Finished | RootFail | Halted(why: Why) | Panic

  datatype Report = Report(mem: Mem, halt: Halt)

  function Meaning(env: Env, t: Body): Report {
    var a := Exec(env, t, 0, -1, Mem([], []));
    Report(a.mem,
           match a.out
           case Continue => Finished
           case NoMatch => RootFail
           case Stop(why) => Halted(why))
  }

  // ---------- how often a line can run ----------

  function Count(es: seq<Event>, line: nat): nat {
    if es == [] then 0
    else Count(es[..|es| - 1], line) + (if es[|es| - 1].line == line then 1 else 0)
  }

  /** How often a command or log line ran. */
  function Ran(m: Mem, line: nat): nat { Count(m.trace, line) + Count(m.devlog, line) }

  /** A line runs at most once for a fixed interface, and only if it belongs to the body. */
  ghost predicate RunsAtMost(before: Mem, after: Mem, line: nat, lo: nat, hi: nat, bound: nat) {
    Ran(before, line) <= Ran(after, line) <= Ran(before, line) + (if lo <= line < hi then bound else 0)
  }

  function Often(env: Env, i: int): nat {
    if i >= 0 || env.interfaces == 0 then 1 else env.interfaces
  }

  lemma {:induction false} CountLine(env: Env, k: Kind, l: nat, i: int, m: Mem, line: nat)
    ensures RunsAtMost(m, RunLine(env, k, l, i, m).mem, line, l, l + 1, 1)
  {
    var e := Event(l, i);
    assert (m.trace + [e])[..|m.trace|] == m.trace;
    assert (m.devlog + [e])[..|m.devlog|] == m.devlog;
  }

  lemma {:induction false} CountExec(env: Env, b: Body, p: nat, i: int, m: Mem, line: nat)
    requires WellFormed(b, i >= 0)
    ensures RunsAtMost(m, Exec(env, b, p, i, m).mem, line, p, p + |Flat(b)|, Often(env, i))
    decreases b, 0, 0
  {
    hide Ran, RunLine;
    match b
    case Nil =>
    case Line(k, rest) =>
      var a := RunLine(env, k, p, i, m);
      CountLine(env, k, p, i, m, line);
      if a.out.Continue? { CountExec(env, rest, p + 1, i, a.mem, line); }
    case Section(br, rest) =>
      var a := ExecBranches(env, br, p + 1, i, m);
      CountBranches(env, br, p + 1, i, m, line);
      if !a.out.Stop? { CountExec(env, rest, p + 2 + |FlatBranches(br)|, i, a.mem, line); }
    case PerInterface(loop, rest) =>
      var a := ExecLoop(env, loop, p + 1, 0, m);
      CountLoop(env, loop, p + 1, 0, m, line);
      if !a.out.Stop? { CountExec(env, rest, p + 2 + |Flat(loop)|, i, a.mem, line); }
  }

  lemma {:induction false} CountBranches(env: Env, br: Branches, p: nat, i: int, m: Mem, line: nat)
    requires WellFormedBranches(br, i >= 0)
    ensures RunsAtMost(m, ExecBranches(env, br, p, i, m).mem, line, p, p + |FlatBranches(br)|, Often(env, i))
    decreases br, 0, 0
  {
    var a := Exec(env, br.body, p, i, m);
    CountExec(env, br.body, p, i, m, line);
    if br.Alt? && a.out.NoMatch? {
      CountBranches(env, br.more, p + |Flat(br.body)| + 1, i, a.mem, line);
    }
  }

  lemma {:induction false} CountLoop(env: Env, loop: Body, p: nat, j: nat, m: Mem, line: nat)
    requires WellFormed(loop, true) && j <= env.interfaces
    ensures RunsAtMost(m, ExecLoop(env, loop, p, j, m).mem, line, p, p + |Flat(loop)|, env.interfaces - j)
    decreases loop, 1, env.interfaces - j
  {
    if j < env.interfaces {
      var a := Exec(env, loop, p, j, m);
      CountExec(env, loop, p, j, m, line);
      if !a.out.Stop? { CountLoop(env, loop, p, j + 1, a.mem, line); }
    }
  }

  /** No command or log line runs more than max(1, number of interfaces) times in a whole run. */
  lemma RunsBounded(env: Env, t: Body, line: nat)
    requires WellFormed(t, false)
    ensures Ran(Meaning(env, t).mem, line) <= if env.interfaces == 0 then 1 else env.interfaces
  {
    CountExec(env, t, 0, -1, Mem([], []), line);
  }
}
