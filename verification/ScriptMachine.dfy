/** The line interpreter: a program counter over the flat script, forward skips over
    sections, backward jumps at the end of an interface loop, and a block stack. */
module ScriptMachine {
  import opened Basics
  import opened ScriptTree

  datatype Tag = InSect | InInt

  /** The interpreter's variables. halt is set once the run is over. */
  datatype State = State(
    l: nat, intI: int, sectDepth: int, perInt: int, stack: seq<Tag>, mem: Mem, halt: Option<Halt>)

  function Start(): State {
    State(0, -1, 0, 0, [], Mem([], []), None)
  }

  /** First end_int at or after line l, or the number of lines. */
  function NextEndInt(lines: seq<Kind>, l: nat): (r: nat)
    requires l <= |lines|
    ensures l <= r <= |lines|
    ensures r < |lines| ==> lines[r] == EndInt
    ensures forall k :: l <= k < r ==> lines[k] != EndInt
    decreases |lines| - l
  {
    if l == |lines| || lines[l].EndInt? then l else NextEndInt(lines, l + 1)
  }

  /** Last per_int at or before line l, if any. */
  function PrevPerInt(lines: seq<Kind>, l: nat): (r: Option<nat>)
    requires l < |lines|
    ensures r.Some? ==> r.value <= l && lines[r.value] == PerInt
    ensures forall k :: (if r.Some? then r.value + 1 else 0) <= k <= l ==> lines[k] != PerInt
  {
    if lines[l].PerInt? then Some(l)
    else if l == 0 then None
    else PrevPerInt(lines, l - 1)
  }

  /** The line that closes the current section, counting nested ones;
      with orElse also an else of the current section. */
  function SkipSect(lines: seq<Kind>, l: nat, subsects: nat, orElse: bool): (r: nat)
    requires l <= |lines|
    ensures l <= r <= |lines|
    ensures r < |lines| ==> lines[r].EndSect? || (orElse && lines[r].Else?)
    decreases |lines| - l
  {
    if l == |lines| then l
    else if subsects == 0 && (lines[l].EndSect? || (orElse && lines[l].Else?)) then l
    else
      SkipSect(lines, l + 1,
               if lines[l].Sect? then subsects + 1
               else if lines[l].EndSect? then subsects - 1
               else subsects,
               orElse)
  }

  function Panicked(s: State): State { s.(halt := Some(Panic)) }

  /** What a failed test does: it leaves the script, the interface or the branch. */
  function FailAt(env: Env, s: State): State
    requires s.l < |env.lines|
  {
    var lines := env.lines;
    if |s.stack| == 0 then s.(halt := Some(RootFail))
    else if s.stack[|s.stack| - 1].InInt? then
      var q := NextEndInt(lines, s.l + 1);
      if q == |lines| then Panicked(s) else s.(l := q)
    else
      var q := SkipSect(lines, s.l + 1, 0, true);
      if q == |lines| then Panicked(s)
      else if lines[q].Else? then
        if q + 1 == |lines| then Panicked(s) else s.(l := q + 1)
      else s.(l := q)
  }

  /** Closes the innermost block, which has to be of the given kind. */
  function Pop(s: State, tag: Tag): State {
    if |s.stack| == 0 || s.stack[|s.stack| - 1] != tag then Panicked(s)
    else s.(l := s.l + 1, stack := s.stack[..|s.stack| - 1])
  }

  /** Interface variables are substituted unless the preselection run skips the line. */
  predicate Substitutes(env: Env, k: Kind) {
    UsesInt(k) && !(env.presel && (k.Talk? || k.Log?))
  }

  /** One iteration of the interpreter loop. */
  function Step(env: Env, s: State): State {
    var lines := env.lines;
    if s.halt.Some? then s
    else if s.l >= |lines| then s.(halt := Some(Finished))
    else
      match lines[s.l]
      case PerInt =>
        if env.interfaces == 0 then
          var q := NextEndInt(lines, s.l + 1);
          if q == |lines| then Panicked(s) else s.(l := q + 1)
        else s.(l := s.l + 1, intI := 0, perInt := s.perInt + 1, stack := s.stack + [InInt])
      case EndInt =>
        if s.intI + 1 < env.interfaces then
          var q := PrevPerInt(lines, s.l);
          if q.None? then Panicked(s) else s.(l := q.value + 1, intI := s.intI + 1)
        else
          var s' := s.(intI := -1, perInt := s.perInt - 1);
          if s'.perInt < 0 then Panicked(s') else Pop(s', InInt)
      case Sect => s.(l := s.l + 1, sectDepth := s.sectDepth + 1, stack := s.stack + [InSect])
      case Else =>
        if |s.stack| == 0 || !s.stack[|s.stack| - 1].InSect? then Panicked(s)
        else
          var q := SkipSect(lines, s.l + 1, 0, false);
          if q == |lines| then Panicked(s) else s.(l := q)
      case EndSect =>
        var s' := s.(sectDepth := s.sectDepth - 1);
        if s'.sectDepth < 0 then Panicked(s') else Pop(s', InSect)
      case Bad => Panicked(s)
      case k =>
        if Substitutes(env, k) && s.intI == -1 then Panicked(s)
        else
          var a := RunLine(env, k, s.l, s.intI, s.mem);
          match a.out
          case Continue => s.(l := s.l + 1, mem := a.mem)
          case NoMatch => FailAt(env, s.(mem := a.mem))
          case Stop(why) => s.(mem := a.mem, halt := Some(Halted(why)))
  }

  function Iter(env: Env, s: State, k: nat): State
    decreases k
  {
    if k == 0 then s else Iter(env, Step(env, s), k - 1)
  }

  function CountTag(stack: seq<Tag>, tag: Tag): nat {
    if stack == [] then 0
    else CountTag(stack[..|stack| - 1], tag) + (if stack[|stack| - 1] == tag then 1 else 0)
  }

  /** The counters agree with the block stack; the interface index is in range exactly inside a loop. */
  ghost predicate Consistent(env: Env, s: State) {
    && s.sectDepth == CountTag(s.stack, InSect)
    && s.perInt == CountTag(s.stack, InInt) <= 1
    && (if InInt in s.stack then 0 <= s.intI < env.interfaces else s.intI == -1)
    && s.halt != Some(Panic)
  }

  /** The first k steps from s are all consistent. */
  ghost predicate Safe(env: Env, s: State, k: nat)
    decreases k
  {
    Consistent(env, s) && (k > 0 ==> Safe(env, Step(env, s), k - 1))
  }

  /** k consistent steps lead from s to t. */
  ghost predicate Runs(env: Env, s: State, k: nat, t: State) {
    Safe(env, s, k) && Iter(env, s, k) == t
  }

  lemma {:induction false} RunsTrans(env: Env, s: State, a: nat, t: State, b: nat, u: State)
    requires Runs(env, s, a, t) && Runs(env, t, b, u)
    ensures Runs(env, s, a + b, u)
    decreases a
  {
    if a > 0 { RunsTrans(env, Step(env, s), a - 1, t, b, u); }
  }

  // ---------- how often the interpreter comes to a line ----------

  /** The number of steps among the first k from s that are made at the given line. */
  function Visits(env: Env, s: State, k: nat, line: nat): nat
    decreases k
  {
    if k == 0 then 0
    else (if s.halt.None? && s.l == line then 1 else 0) + Visits(env, Step(env, s), k - 1, line)
  }

  /** The first k steps from s stay in the lines from lo to hi, and come to each at most bound times. */
  ghost predicate Stays(env: Env, s: State, k: nat, lo: nat, hi: nat, bound: nat) {
    forall line: nat :: Visits(env, s, k, line) <= if lo <= line < hi then bound else 0
  }

  lemma {:induction false} VisitsSum(env: Env, s: State, a: nat, b: nat, line: nat)
    ensures Visits(env, s, a + b, line) == Visits(env, s, a, line) + Visits(env, Iter(env, s, a), b, line)
    decreases a
  {
    hide Step;
    if a > 0 {
      VisitsSum(env, Step(env, s), a - 1, b, line);
      var n := a + b;
      assert Visits(env, s, n, line)
          == (if s.halt.None? && s.l == line then 1 else 0) + Visits(env, Step(env, s), n - 1, line);
    }
  }

  lemma {:induction false} VisitsHalted(env: Env, s: State, k: nat, line: nat)
    requires s.halt.Some?
    ensures Visits(env, s, k, line) == 0
  {
    if k > 0 { VisitsHalted(env, s, k - 1, line); }
  }

  /** One step is made at one line. */
  lemma StaysOne(env: Env, s: State)
    ensures Stays(env, s, 0, s.l, s.l, 1) && Stays(env, s, 1, s.l, s.l + 1, 1)
  {
    hide Step;
    forall line: nat ensures Visits(env, s, 1, line) <= if line == s.l then 1 else 0 {
      assert Visits(env, Step(env, s), 0, line) == 0;
    }
  }

  lemma StaysMore(env: Env, s: State, k: nat, lo: nat, hi: nat, bound: nat, lo': nat, hi': nat, bound': nat)
    requires Stays(env, s, k, lo, hi, bound) && lo' <= lo && hi <= hi' && bound <= bound'
    ensures Stays(env, s, k, lo', hi', bound')
  {
    hide Visits;
  }

  /** First some lines, then lines after them. */
  lemma StaysThen(env: Env, s: State, a: nat, t: State, b: nat, lo: nat, mid: nat, mid': nat, hi: nat, bound: nat)
    requires Runs(env, s, a, t) && Stays(env, s, a, lo, mid, bound) && Stays(env, t, b, mid', hi, bound)
    requires lo <= mid <= mid' <= hi
    ensures Stays(env, s, a + b, lo, hi, bound)
  {
    hide Visits;
    var c := a + b;
    forall line: nat ensures Visits(env, s, c, line) <= if lo <= line < hi then bound else 0 {
      VisitsSum(env, s, a, b, line);
    }
  }

  /** The same lines twice. */
  lemma StaysTwice(env: Env, s: State, a: nat, t: State, b: nat, lo: nat, hi: nat, x: nat, y: nat)
    requires Runs(env, s, a, t) && Stays(env, s, a, lo, hi, x) && Stays(env, t, b, lo, hi, y)
    ensures Stays(env, s, a + b, lo, hi, x + y)
  {
    hide Visits;
    var c := a + b;
    forall line: nat ensures Visits(env, s, c, line) <= if lo <= line < hi then x + y else 0 {
      VisitsSum(env, s, a, b, line);
    }
  }

  lemma {:induction false} RunsAt(env: Env, s: State, k: nat, t: State, j: nat)
    requires Runs(env, s, k, t) && j <= k
    ensures Consistent(env, Iter(env, s, j))
    decreases j
  {
    if j > 0 { RunsAt(env, Step(env, s), k - 1, t, j - 1); }
  }

  lemma {:induction false} IterNext(env: Env, s: State, k: nat)
    ensures Iter(env, s, k + 1) == Step(env, Iter(env, s, k))
    decreases k
  {
    if k > 0 { IterNext(env, Step(env, s), k - 1); }
  }

  lemma {:induction false} IterHalted(env: Env, s: State, k: nat)
    requires s.halt.Some?
    ensures Iter(env, s, k) == s
  {
    if k > 0 { IterHalted(env, s, k - 1); }
  }

  lemma CountTagPush(stack: seq<Tag>, tag: Tag, other: Tag)
    ensures CountTag(stack + [tag], other) == CountTag(stack, other) + (if tag == other then 1 else 0)
  {
    assert (stack + [tag])[..|stack|] == stack;
  }

  lemma {:induction false} CountTagMember(stack: seq<Tag>, tag: Tag)
    ensures tag in stack <==> CountTag(stack, tag) > 0
  {
    if stack != [] {
      assert stack == stack[..|stack| - 1] + [stack[|stack| - 1]];
      CountTagMember(stack[..|stack| - 1], tag);
    }
  }
}
