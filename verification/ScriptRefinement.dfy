/** The line interpreter, started on the text of a well-formed block, takes exactly the
    course that the structured meaning of the block describes. */
module ScriptRefinement {
  import opened Basics
  import opened ScriptTree
  import opened ScriptMachine

  /** The text toks stands at line p. */
  ghost predicate At(lines: seq<Kind>, p: nat, toks: seq<Kind>) {
    p + |toks| <= |lines| && lines[p..p + |toks|] == toks
  }

  lemma AtSplit(lines: seq<Kind>, p: nat, a: seq<Kind>, b: seq<Kind>)
    requires At(lines, p, a + b)
    ensures At(lines, p, a) && At(lines, p + |a|, b)
  {
    assert lines[p..p + |a|] == (a + b)[..|a|];
    assert lines[p + |a|..p + |a| + |b|] == (a + b)[|a|..];
  }

  lemma AtHead(lines: seq<Kind>, p: nat, k: Kind, b: seq<Kind>)
    requires At(lines, p, [k] + b)
    ensures p < |lines| && lines[p] == k && At(lines, p + 1, b)
  {
    AtSplit(lines, p, [k], b);
    assert lines[p..p + 1][0] == k;
  }

  lemma AtBlock(lines: seq<Kind>, p: nat, open: Kind, inner: seq<Kind>, close: Kind, rest: seq<Kind>)
    requires At(lines, p, [open] + inner + [close] + rest)
    ensures p + 1 + |inner| < |lines|
    ensures lines[p] == open && lines[p + 1 + |inner|] == close
    ensures At(lines, p + 1, inner) && At(lines, p + 2 + |inner|, rest)
  {
    assert [open] + inner + [close] + rest == [open] + (inner + ([close] + rest));
    AtHead(lines, p, open, inner + ([close] + rest));
    AtSplit(lines, p + 1, inner, [close] + rest);
    AtHead(lines, p + 1 + |inner|, close, rest);
  }

  // How the text of each kind of body lies in the script.

  lemma FlatEnds(b: Body)
    ensures Flat(Nil) == [] && FlatBranches(Last(b)) == Flat(b)
  {
  }

  lemma AtLine(lines: seq<Kind>, p: nat, kind: Kind, rest: Body)
    requires At(lines, p, Flat(Line(kind, rest)))
    ensures p < |lines| && lines[p] == kind && At(lines, p + 1, Flat(rest))
    ensures |Flat(Line(kind, rest))| == 1 + |Flat(rest)|
  {
    AtHead(lines, p, kind, Flat(rest));
  }

  lemma AtSection(lines: seq<Kind>, p: nat, br: Branches, rest: Body)
    requires At(lines, p, Flat(Section(br, rest)))
    ensures p + 1 + |FlatBranches(br)| < |lines|
    ensures lines[p] == Sect && lines[p + 1 + |FlatBranches(br)|] == EndSect
    ensures At(lines, p + 1, FlatBranches(br)) && At(lines, p + 2 + |FlatBranches(br)|, Flat(rest))
    ensures |Flat(Section(br, rest))| == 2 + |FlatBranches(br)| + |Flat(rest)|
  {
    AtBlock(lines, p, Sect, FlatBranches(br), EndSect, Flat(rest));
  }

  lemma AtLoop(lines: seq<Kind>, p: nat, loop: Body, rest: Body)
    requires At(lines, p, Flat(PerInterface(loop, rest)))
    ensures p + 1 + |Flat(loop)| < |lines|
    ensures lines[p] == PerInt && lines[p + 1 + |Flat(loop)|] == EndInt
    ensures At(lines, p + 1, Flat(loop)) && At(lines, p + 2 + |Flat(loop)|, Flat(rest))
    ensures |Flat(PerInterface(loop, rest))| == 2 + |Flat(loop)| + |Flat(rest)|
  {
    AtBlock(lines, p, PerInt, Flat(loop), EndInt, Flat(rest));
  }

  lemma AtAlt(lines: seq<Kind>, p: nat, b: Body, more: Branches)
    requires At(lines, p, FlatBranches(Alt(b, more)))
    ensures p + |Flat(b)| + 1 <= |lines|
    ensures At(lines, p, Flat(b)) && At(lines, p + |Flat(b)| + 1, FlatBranches(more))
    ensures lines[p + |Flat(b)|] == Else
    ensures |FlatBranches(Alt(b, more))| == |Flat(b)| + 1 + |FlatBranches(more)|
  {
    AltIs(b, more);
    hide At, Flat, FlatBranches;
    AtSplit(lines, p, Flat(b), [Else] + FlatBranches(more));
    AtHead(lines, p + |Flat(b)|, Else, FlatBranches(more));
  }

  lemma AltIs(b: Body, more: Branches)
    ensures FlatBranches(Alt(b, more)) == Flat(b) + ([Else] + FlatBranches(more))
  {
  }

  // ---------- the skip scans pass over whole bodies ----------

  lemma SkipLine(lines: seq<Kind>, l: nat, depth: nat, orElse: bool, next: nat)
    requires l < |lines|
    requires depth > 0 || !(lines[l].EndSect? || (orElse && lines[l].Else?))
    requires next == if lines[l].Sect? then depth + 1 else if lines[l].EndSect? then depth - 1 else depth
    ensures SkipSect(lines, l, depth, orElse) == SkipSect(lines, l + 1, next, orElse)
  {
  }

  lemma {:induction false} SkipBody(lines: seq<Kind>, p: nat, b: Body, inInt: bool, depth: nat, orElse: bool)
    requires WellFormed(b, inInt) && At(lines, p, Flat(b))
    ensures SkipSect(lines, p, depth, orElse) == SkipSect(lines, p + |Flat(b)|, depth, orElse)
    decreases b
  {
    hide SkipSect, At, Flat, FlatBranches;
    match b
    case Nil =>
      FlatEnds(b);
    case Line(k, rest) =>
      AtLine(lines, p, k, rest);
      SkipLine(lines, p, depth, orElse, depth);
      SkipBody(lines, p + 1, rest, inInt, depth, orElse);
    case Section(br, rest) =>
      AtSection(lines, p, br, rest);
      SkipSection(lines, p, br, rest, inInt, depth, orElse);
      SkipBody(lines, p + 2 + |FlatBranches(br)|, rest, inInt, depth, orElse);
    case PerInterface(loop, rest) =>
      var e := p + 1 + |Flat(loop)|;
      AtLoop(lines, p, loop, rest);
      SkipLine(lines, p, depth, orElse, depth);
      SkipBody(lines, p + 1, loop, true, depth, orElse);
      SkipLine(lines, e, depth, orElse, depth);
      SkipBody(lines, e + 1, rest, inInt, depth, orElse);
  }

  lemma {:induction false} SkipSection(lines: seq<Kind>, p: nat, br: Branches, rest: Body, inInt: bool, depth: nat,
                                       orElse: bool)
    requires WellFormedBranches(br, inInt) && At(lines, p, Flat(Section(br, rest)))
    ensures SkipSect(lines, p, depth, orElse) == SkipSect(lines, p + 2 + |FlatBranches(br)|, depth, orElse)
    decreases br, 1
  {
    hide SkipSect, At, Flat, FlatBranches;
    AtSection(lines, p, br, rest);
    SkipLine(lines, p, depth, orElse, depth + 1);
    SkipBranches(lines, p + 1, br, inInt, depth + 1, orElse);
    SkipLine(lines, p + 1 + |FlatBranches(br)|, depth + 1, orElse, depth);
  }

  lemma {:induction false} SkipBranches(lines: seq<Kind>, p: nat, br: Branches, inInt: bool, depth: nat, orElse: bool)
    requires WellFormedBranches(br, inInt) && At(lines, p, FlatBranches(br))
    requires depth > 0 || !orElse
    ensures SkipSect(lines, p, depth, orElse) == SkipSect(lines, p + |FlatBranches(br)|, depth, orElse)
    decreases br, 0
  {
    hide SkipSect, At, Flat, FlatBranches;
    match br
    case Last(b) =>
      FlatEnds(b);
      SkipBody(lines, p, b, inInt, depth, orElse);
    case Alt(b, more) =>
      AtAlt(lines, p, b, more);
      SkipBody(lines, p, b, inInt, depth, orElse);
      SkipLine(lines, p + |Flat(b)|, depth, orElse, depth);
      SkipBranches(lines, p + |Flat(b)| + 1, more, inInt, depth, orElse);
  }

  ghost predicate NoLoopLine(toks: seq<Kind>) {
    forall k :: 0 <= k < |toks| ==> !toks[k].PerInt? && !toks[k].EndInt?
  }

  lemma {:induction false} NoLoopInside(b: Body)
    requires WellFormed(b, true)
    ensures NoLoopLine(Flat(b))
    decreases b
  {
    match b
    case Nil =>
    case Line(k, rest) => NoLoopInside(rest);
    case Section(br, rest) => NoLoopInBranches(br); NoLoopInside(rest);
    case PerInterface(_, _) =>
  }

  lemma {:induction false} NoLoopInBranches(br: Branches)
    requires WellFormedBranches(br, true)
    ensures NoLoopLine(FlatBranches(br))
    decreases br
  {
    match br
    case Last(b) => NoLoopInside(b);
    case Alt(b, more) => NoLoopInside(b); NoLoopInBranches(more);
  }

  /** From anywhere in a loop body, the next end_int and the last per_int are the loop's own. */
  lemma LoopEnds(lines: seq<Kind>, p: nat, toks: seq<Kind>, l: nat)
    requires p < l <= p + 1 + |toks| < |lines|
    requires lines[p] == PerInt && lines[p + 1 + |toks|] == EndInt
    requires At(lines, p + 1, toks) && NoLoopLine(toks)
    ensures NextEndInt(lines, l) == p + 1 + |toks|
    ensures PrevPerInt(lines, p + 1 + |toks|) == Some(p)
  {
    var e := p + 1 + |toks|;
    forall k | p < k < e ensures !lines[k].PerInt? && !lines[k].EndInt? {
      assert lines[k] == lines[p + 1..e][k - p - 1];
    }
  }

  // ---------- simulation ----------

  ghost predicate Inside(s: State, tag: Tag) {
    s.stack != [] && s.stack[|s.stack| - 1] == tag
  }

  /** The line that follows a body closes the innermost open block. */
  ghost predicate Framed(env: Env, s: State, end: nat) {
    && (Inside(s, InInt) ==> end < |env.lines| && env.lines[end] == EndInt)
    && (Inside(s, InSect) ==>
          && end < |env.lines|
          && (env.lines[end] == EndSect || (env.lines[end] == Else && end + 1 < |env.lines|)))
  }

  /** The state s stands at the start of the text toks, which its block contains. */
  ghost predicate Ready(env: Env, s: State, toks: seq<Kind>) {
    s.halt.None? && Consistent(env, s) && At(env.lines, s.l, toks) && Framed(env, s, s.l + |toks|)
  }

  /** Where a body that ends before line end leaves the interpreter, given the meaning a of the body. */
  ghost predicate Ends(env: Env, a: Answer, s: State, end: nat, t: State) {
    && t.mem == a.mem
    && match a.out
       case Continue => t == s.(l := end, mem := a.mem)
       case Stop(why) => t.halt == Some(Halted(why))
       case NoMatch =>
         if s.stack == [] then t.halt == Some(RootFail)
         else if Inside(s, InInt) then t == s.(l := end, mem := a.mem)
         else
           && end < |env.lines|
           && t == s.(l := if env.lines[end].Else? then end + 1 else end, mem := a.mem)
  }

  /** The body of a loop holds no end of a loop. */
  lemma LoopCloses(lines: seq<Kind>, p: nat, rest: Body)
    requires WellFormed(rest, true) && At(lines, p, Flat(rest))
    requires p + |Flat(rest)| < |lines| && lines[p + |Flat(rest)|] == EndInt
    ensures NextEndInt(lines, p) == p + |Flat(rest)|
  {
    var end := p + |Flat(rest)|;
    NoLoopInside(rest);
    hide Flat, WellFormed;
    forall k | p <= k < end ensures !lines[k].EndInt? {
      assert lines[k] == lines[p..end][k - p];
    }
  }

  /** A body in a branch holds no end of the branch. */
  lemma BranchCloses(lines: seq<Kind>, p: nat, rest: Body, inInt: bool)
    requires WellFormed(rest, inInt) && At(lines, p, Flat(rest)) && p + |Flat(rest)| < |lines|
    requires lines[p + |Flat(rest)|] == EndSect || lines[p + |Flat(rest)|] == Else
    ensures SkipSect(lines, p, 0, true) == p + |Flat(rest)|
  {
    hide Flat, WellFormed;
    SkipBody(lines, p, rest, inInt, 0, true);
  }

  /** A test fails with the body rest still ahead of it in its block. */
  lemma FailLeaves(env: Env, s: State, m: Mem, rest: Body)
    requires Consistent(env, s) && s.halt.None?
    requires WellFormed(rest, s.intI >= 0) && At(env.lines, s.l + 1, Flat(rest))
    requires Framed(env, s, s.l + 1 + |Flat(rest)|)
    ensures var t := FailAt(env, s.(mem := m));
            Ends(env, Answer(m, NoMatch), s, s.l + 1 + |Flat(rest)|, t) && Consistent(env, t)
  {
    hide Flat, At, NextEndInt, SkipSect, WellFormed, CountTag;
    if Inside(s, InInt) {
      assert InInt in s.stack;
      LoopCloses(env.lines, s.l + 1, rest);
    } else if Inside(s, InSect) {
      BranchCloses(env.lines, s.l + 1, rest, s.intI >= 0);
    }
  }

  lemma OneStep(env: Env, s: State, t: State)
    requires Consistent(env, s) && Step(env, s) == t && Consistent(env, t)
    ensures Runs(env, s, 1, t)
  {
    assert Iter(env, t, 0) == t && Safe(env, t, 0);
    assert Iter(env, s, 1) == Iter(env, Step(env, s), 0);
    assert Safe(env, s, 1);
  }

  // Single steps of the block lines.

  lemma PushConsistent(env: Env, s: State, tag: Tag, t: State)
    requires Consistent(env, s)
    requires t.stack == s.stack + [tag] && t.halt != Some(Panic)
    requires t.sectDepth == s.sectDepth + (if tag.InSect? then 1 else 0)
    requires t.perInt == s.perInt + (if tag.InInt? then 1 else 0)
    requires if tag.InInt? then s.intI == -1 && 0 <= t.intI < env.interfaces else t.intI == s.intI
    ensures Consistent(env, t) && Inside(t, tag)
  {
    CountTagPush(s.stack, tag, InSect);
    CountTagPush(s.stack, tag, InInt);
    CountTagMember(s.stack, InInt);
  }

  ghost predicate Running(env: Env, s: State, k: Kind) {
    s.halt.None? && Consistent(env, s) && s.l < |env.lines| && env.lines[s.l] == k
  }

  function Pushed(s: State, tag: Tag): State {
    s.(l := s.l + 1, stack := s.stack + [tag],
       sectDepth := s.sectDepth + (if tag.InSect? then 1 else 0),
       perInt := s.perInt + (if tag.InInt? then 1 else 0),
       intI := if tag.InInt? then 0 else s.intI)
  }

  lemma StepSect(env: Env, s: State)
    requires Running(env, s, Sect)
    ensures Runs(env, s, 1, Pushed(s, InSect)) && Consistent(env, Pushed(s, InSect))
    ensures Inside(Pushed(s, InSect), InSect)
  {
    PushConsistent(env, s, InSect, Pushed(s, InSect));
    OneStep(env, s, Pushed(s, InSect));
  }

  /** end_sect undoes sect, whatever happened to the position and the memory in between. */
  lemma StepEndSect(env: Env, s: State, l: nat, m: Mem)
    requires Consistent(env, s) && Running(env, Pushed(s, InSect).(l := l, mem := m), EndSect)
    ensures Runs(env, Pushed(s, InSect).(l := l, mem := m), 1, s.(l := l + 1, mem := m))
  {
    var t := Pushed(s, InSect).(l := l, mem := m);
    assert t.stack[..|t.stack| - 1] == s.stack;
    OneStep(env, t, s.(l := l + 1, mem := m));
  }

  /** A branch that ran to its end goes on at the end_sect that closes the section. */
  lemma StepElse(env: Env, more: Branches, s: State)
    requires Running(env, s, Else) && Inside(s, InSect) && WellFormedBranches(more, s.intI >= 0)
    requires s.l + 1 + |FlatBranches(more)| < |env.lines| && At(env.lines, s.l + 1, FlatBranches(more))
    requires env.lines[s.l + 1 + |FlatBranches(more)|] == EndSect
    ensures Runs(env, s, 1, s.(l := s.l + 1 + |FlatBranches(more)|))
  {
    SkipBranches(env.lines, s.l + 1, more, s.intI >= 0, 0, false);
    OneStep(env, s, s.(l := s.l + 1 + |FlatBranches(more)|));
  }

  /** The text of a whole interface loop stands at line p. */
  ghost predicate LoopAt(lines: seq<Kind>, p: nat, loop: Body) {
    && WellFormed(loop, true) && At(lines, p + 1, Flat(loop)) && p + 1 + |Flat(loop)| < |lines|
    && lines[p] == PerInt && lines[p + 1 + |Flat(loop)|] == EndInt
  }

  lemma StepPerInt(env: Env, s: State, loop: Body)
    requires Running(env, s, PerInt) && LoopAt(env.lines, s.l, loop) && s.intI == -1
    ensures env.interfaces == 0 ==> Runs(env, s, 1, s.(l := s.l + 2 + |Flat(loop)|))
    ensures env.interfaces > 0 ==>
              var t := Pushed(s, InInt);
              Runs(env, s, 1, t) && Consistent(env, t) && Inside(t, InInt)
  {
    hide SkipSect, Runs, At, WellFormed, Flat, CountTag;
    if env.interfaces == 0 {
      NoLoopInside(loop);
      LoopEnds(env.lines, s.l, Flat(loop), s.l + 1);
      OneStep(env, s, s.(l := s.l + 2 + |Flat(loop)|));
    } else {
      PushConsistent(env, s, InInt, Pushed(s, InInt));
      OneStep(env, s, Pushed(s, InInt));
    }
  }

  lemma StepEndIntNext(env: Env, p: nat, loop: Body, s: State)
    requires Running(env, s, EndInt) && LoopAt(env.lines, p, loop) && s.l == p + 1 + |Flat(loop)|
    requires Inside(s, InInt) && s.intI + 1 < env.interfaces
    ensures Runs(env, s, 1, s.(l := p + 1, intI := s.intI + 1))
    ensures Consistent(env, s.(l := p + 1, intI := s.intI + 1))
  {
    NoLoopInside(loop);
    LoopEnds(env.lines, p, Flat(loop), s.l);
    OneStep(env, s, s.(l := p + 1, intI := s.intI + 1));
  }

  /** After the last interface end_int undoes per_int. */
  lemma StepEndIntDone(env: Env, s: State, l: nat, i: int, m: Mem)
    requires Consistent(env, s) && s.intI == -1 && i + 1 == env.interfaces
    requires Running(env, Pushed(s, InInt).(l := l, intI := i, mem := m), EndInt)
    ensures Runs(env, Pushed(s, InInt).(l := l, intI := i, mem := m), 1, s.(l := l + 1, mem := m))
  {
    hide NextEndInt, PrevPerInt, SkipSect, RunLine, FailAt;
    var t := Pushed(s, InInt).(l := l, intI := i, mem := m);
    assert t.stack[..|t.stack| - 1] == s.stack;
    CountTagPush(s.stack, InInt, InInt);
    OneStep(env, t, s.(l := l + 1, mem := m));
  }

  lemma StepNone(env: Env, s: State)
    requires Consistent(env, s)
    ensures Runs(env, s, 0, s)
  {
  }

  // Whole bodies, sections and loops.

  lemma {:induction false} SimBody(env: Env, b: Body, s: State) returns (k: nat, t: State)
    requires WellFormed(b, s.intI >= 0) && Ready(env, s, Flat(b))
    ensures Runs(env, s, k, t) && Consistent(env, t)
    ensures Ends(env, Exec(env, b, s.l, s.intI, s.mem), s, s.l + |Flat(b)|, t)
    ensures Stays(env, s, k, s.l, s.l + |Flat(b)|, Often(env, s.intI))
    decreases b, 0, 0
  {
    hide Runs, At, Step, Flat, FlatBranches, Consistent, RunLine, Framed, Stays, Often;
    match b
    case Nil =>
      FlatEnds(b);
      StepNone(env, s);
      StaysNone(env, s);
      k, t := 0, s;
    case Line(kind, rest) =>
      AtLine(env.lines, s.l, kind, rest);
      k, t := SimLine(env, kind, rest, s);
    case Section(br, rest) =>
      AtSection(env.lines, s.l, br, rest);
      k, t := SimSection(env, br, rest, s);
      ExecSection(env, br, rest, s.l, s.intI, s.mem);
      var a := ExecBranches(env, br, s.l + 1, s.intI, s.mem);
      k, t := SimRest(env, rest, s, a, s.l + 2 + |FlatBranches(br)|, k, t);
    case PerInterface(loop, rest) =>
      AtLoop(env.lines, s.l, loop, rest);
      k, t := SimPerInterface(env, loop, rest, s);
      ExecPerInterface(env, loop, rest, s.l, s.intI, s.mem);
      var a := ExecLoop(env, loop, s.l + 1, 0, s.mem);
      k, t := SimRest(env, rest, s, a, s.l + 2 + |Flat(loop)|, k, t);
  }

  /** From the line after a block, which ended as a says, to the end of the body. */
  lemma {:induction false} SimRest(env: Env, rest: Body, s: State, a: Answer, mid: nat, k1: nat, t1: State)
    returns (k: nat, t: State)
    requires Runs(env, s, k1, t1) && Consistent(env, t1) && s.halt.None? && s.l <= mid
    requires Ends(env, a, s, mid, t1) && !a.out.NoMatch? && Stays(env, s, k1, s.l, mid, Often(env, s.intI))
    requires WellFormed(rest, s.intI >= 0) && At(env.lines, mid, Flat(rest)) && Framed(env, s, mid + |Flat(rest)|)
    ensures Runs(env, s, k, t) && Consistent(env, t)
    ensures var all := if a.out.Stop? then a else Exec(env, rest, mid, s.intI, a.mem);
            Ends(env, all, s, mid + |Flat(rest)|, t)
    ensures Stays(env, s, k, s.l, mid + |Flat(rest)|, Often(env, s.intI))
    decreases rest, 1, 0
  {
    hide Runs, At, Step, Flat, Consistent, Exec, Framed, Stays, Often;
    var end, bound := mid + |Flat(rest)|, Often(env, s.intI);
    k, t := k1, t1;
    if a.out.Stop? {
      StaysMore(env, s, k, s.l, mid, bound, s.l, end, bound);
    } else {
      ReadyLater(env, a, s, mid, t1, Flat(rest));
      k, t := SimBody(env, rest, t1);
      EndsLater(env, Exec(env, rest, t1.l, t1.intI, t1.mem), s, t1, end, t);
      RunsTrans(env, s, k1, t1, k, t);
      StaysThen(env, s, k1, t1, k, s.l, mid, mid, end, bound);
      k := k1 + k;
    }
  }

  lemma StaysNone(env: Env, s: State)
    ensures Stays(env, s, 0, s.l, s.l, Often(env, s.intI))
  {
  }

  lemma OftenOnce(env: Env, i: int)
    ensures 1 <= Often(env, i)
    ensures i == -1 ==> Often(env, i) >= env.interfaces
    ensures i >= 0 ==> Often(env, i) == 1
  {
  }

  /** One step at the first line of a stretch. */
  lemma StaysFirst(env: Env, s: State, hi: nat)
    requires s.l < hi
    ensures Stays(env, s, 1, s.l, s.l + 1, Often(env, s.intI)) && Stays(env, s, 1, s.l, hi, Often(env, s.intI))
  {
    StaysOne(env, s);
    OftenOnce(env, s.intI);
    hide Stays, Often, Step;
    StaysMore(env, s, 1, s.l, s.l + 1, 1, s.l, s.l + 1, Often(env, s.intI));
    StaysMore(env, s, 1, s.l, s.l + 1, 1, s.l, hi, Often(env, s.intI));
  }

  lemma ExecSection(env: Env, br: Branches, rest: Body, p: nat, i: int, m: Mem)
    ensures var a := ExecBranches(env, br, p + 1, i, m);
            Exec(env, Section(br, rest), p, i, m)
            == if a.out.Stop? then a else Exec(env, rest, p + 2 + |FlatBranches(br)|, i, a.mem)
  {
    hide ExecBranches, FlatBranches;
  }

  lemma ExecPerInterface(env: Env, loop: Body, rest: Body, p: nat, i: int, m: Mem)
    ensures var a := ExecLoop(env, loop, p + 1, 0, m);
            Exec(env, PerInterface(loop, rest), p, i, m)
            == if a.out.Stop? then a else Exec(env, rest, p + 2 + |Flat(loop)|, i, a.mem)
  {
    hide ExecLoop, Flat;
  }

  /** After a part of a body that ended with Continue, the rest can begin. */
  lemma ReadyLater(env: Env, a: Answer, s: State, mid: nat, t: State, toks: seq<Kind>)
    requires Ends(env, a, s, mid, t) && a.out.Continue? && s.halt.None? && Consistent(env, t)
    requires At(env.lines, mid, toks) && Framed(env, s, mid + |toks|)
    ensures t == s.(l := mid, mem := a.mem) && Ready(env, t, toks)
  {
    hide At;
  }

  lemma EndsLater(env: Env, a: Answer, s: State, s1: State, end: nat, t: State)
    requires s1 == s.(l := s1.l, mem := s1.mem) && Ends(env, a, s1, end, t)
    ensures Ends(env, a, s, end, t)
  {
  }

  lemma {:induction false} SimLine(env: Env, kind: Kind, rest: Body, s: State) returns (k: nat, t: State)
    requires WellFormed(Line(kind, rest), s.intI >= 0) && Ready(env, s, Flat(Line(kind, rest)))
    ensures Runs(env, s, k, t) && Consistent(env, t)
    ensures Ends(env, Exec(env, Line(kind, rest), s.l, s.intI, s.mem), s, s.l + 1 + |Flat(rest)|, t)
    ensures Stays(env, s, k, s.l, s.l + 1 + |Flat(rest)|, Often(env, s.intI))
    decreases rest, 1, 0
  {
    hide Runs, At, Flat, SkipSect, Stays, Often;
    AtLine(env.lines, s.l, kind, rest);
    StaysFirst(env, s, s.l + 1 + |Flat(rest)|);
    var a := RunLine(env, kind, s.l, s.intI, s.mem);
    k, t := 1, Step(env, s);
    match a.out
    case Continue =>
      OneStep(env, s, t);
      var k2, t2 := SimBody(env, rest, t);
      RunsTrans(env, s, 1, t, k2, t2);
      StaysThen(env, s, 1, t, k2, s.l, s.l + 1, s.l + 1, s.l + 1 + |Flat(rest)|, Often(env, s.intI));
      k, t := 1 + k2, t2;
    case NoMatch =>
      FailLeaves(env, s, a.mem, rest);
      OneStep(env, s, t);
    case Stop(why) =>
      OneStep(env, s, t);
  }

  /** From sect to the line after end_sect. */
  lemma {:induction false} SimSection(env: Env, br: Branches, rest: Body, s: State) returns (k: nat, t: State)
    requires WellFormed(Section(br, rest), s.intI >= 0) && Ready(env, s, Flat(Section(br, rest)))
    ensures Runs(env, s, k, t) && Consistent(env, t)
    ensures Ends(env, ExecBranches(env, br, s.l + 1, s.intI, s.mem), s, s.l + 2 + |FlatBranches(br)|, t)
    ensures Stays(env, s, k, s.l, s.l + 2 + |FlatBranches(br)|, Often(env, s.intI))
    decreases br, 1, 0
  {
    hide Runs, At, Step, Flat, FlatBranches, Consistent, ExecBranches, Stays, Often;
    AtSection(env.lines, s.l, br, rest);
    StepSect(env, s);
    var s1 := Pushed(s, InSect);
    var a := ExecBranches(env, br, s1.l, s.intI, s.mem);
    k, t := SimBranches(env, br, s1);
    RunsTrans(env, s, 1, s1, k, t);
    var end, bound := s1.l + |FlatBranches(br)|, Often(env, s.intI);
    StaysFirst(env, s, end);
    StaysThen(env, s, 1, s1, k, s.l, s1.l, s1.l, end, bound);
    k := 1 + k;
    StaysMore(env, s, k, s.l, end, bound, s.l, end + 1, bound);
    if !a.out.Stop? {
      StepEndSect(env, s, t.l, a.mem);
      StaysFirst(env, t, end + 1);
      StaysThen(env, s, k, t, 1, s.l, end, end, end + 1, bound);
      RunsTrans(env, s, k, t, 1, s.(l := t.l + 1, mem := a.mem));
      k, t := k + 1, s.(l := t.l + 1, mem := a.mem);
      SameBlocks(env, s, t);
    }
  }

  lemma IndexRange(env: Env, s: State)
    requires Consistent(env, s)
    ensures -1 <= s.intI && (s.intI >= 0 ==> env.interfaces > 0)
  {
  }

  lemma SameBlocks(env: Env, s: State, t: State)
    requires Consistent(env, s) && t == s.(l := t.l, mem := t.mem)
    ensures Consistent(env, t)
  {
  }

  /** From the first line of a branch to the end_sect that closes the section. */
  lemma {:induction false} SimBranches(env: Env, br: Branches, s: State) returns (k: nat, t: State)
    requires WellFormedBranches(br, s.intI >= 0) && s.halt.None? && Consistent(env, s) && Inside(s, InSect)
    requires At(env.lines, s.l, FlatBranches(br)) && s.l + |FlatBranches(br)| < |env.lines|
    requires env.lines[s.l + |FlatBranches(br)|] == EndSect
    ensures Runs(env, s, k, t) && Consistent(env, t)
    ensures Ends(env, ExecBranches(env, br, s.l, s.intI, s.mem), s, s.l + |FlatBranches(br)|, t)
    ensures Stays(env, s, k, s.l, s.l + |FlatBranches(br)|, Often(env, s.intI))
    decreases br, 0, 0
  {
    hide Runs, At, Step, FlatBranches, Flat, Consistent, Exec, Stays, Often;
    var bound := Often(env, s.intI);
    match br
    case Last(b) =>
      FlatEnds(b);
      k, t := SimBody(env, b, s);
    case Alt(b, more) =>
      AtAlt(env.lines, s.l, b, more);
      var a := Exec(env, b, s.l, s.intI, s.mem);
      k, t := SimBody(env, b, s);
      var mid := s.l + |Flat(b)|;
      var end := mid + 1 + |FlatBranches(more)|;
      if a.out.NoMatch? {
        var k1, t1 := k, t;
        k, t := SimBranches(env, more, t1);
        RunsTrans(env, s, k1, t1, k, t);
        StaysThen(env, s, k1, t1, k, s.l, mid, mid + 1, end, bound);
        k := k1 + k;
      } else if a.out.Continue? {
        var t2 := t.(l := s.l + |FlatBranches(br)|);
        StepElse(env, more, t);
        RunsTrans(env, s, k, t, 1, t2);
        SameBlocks(env, t, t2);
        StaysFirst(env, t, end);
        StaysThen(env, s, k, t, 1, s.l, mid, mid, end, bound);
        k, t := k + 1, t2;
      } else {
        StaysMore(env, s, k, s.l, mid, bound, s.l, end, bound);
      }
  }

  /** From per_int to the line after end_int. */
  lemma {:induction false} SimPerInterface(env: Env, loop: Body, rest: Body, s: State) returns (k: nat, t: State)
    requires WellFormed(PerInterface(loop, rest), s.intI >= 0) && Ready(env, s, Flat(PerInterface(loop, rest)))
    ensures Runs(env, s, k, t) && Consistent(env, t)
    ensures Ends(env, ExecLoop(env, loop, s.l + 1, 0, s.mem), s, s.l + 2 + |Flat(loop)|, t)
    ensures Stays(env, s, k, s.l, s.l + 2 + |Flat(loop)|, Often(env, s.intI))
    decreases loop, 2, 0
  {
    hide Runs, At, Step, Flat, FlatBranches, Exec, Consistent, Stays, Often;
    var end, bound := s.l + 2 + |Flat(loop)|, Often(env, s.intI);
    StaysFirst(env, s, end);
    AtLoop(env.lines, s.l, loop, rest);
    IndexRange(env, s);
    StepPerInt(env, s, loop);
    if env.interfaces == 0 {
      k, t := 1, s.(l := s.l + 2 + |Flat(loop)|);
      SameBlocks(env, s, t);
    } else {
      k, t := SimLoop(env, loop, s, s.l, 0, s.mem);
      RunsTrans(env, s, 1, Pushed(s, InInt), k, t);
      OftenOnce(env, s.intI);
      StaysMore(env, Pushed(s, InInt), k, s.l + 1, end, env.interfaces, s.l + 1, end, bound);
      StaysThen(env, s, 1, Pushed(s, InInt), k, s.l, s.l + 1, s.l + 1, end, bound);
      k := 1 + k;
    }
  }

  /** The loop at line p, which was entered from state s, from interface i on. */
  lemma {:induction false} SimLoop(env: Env, loop: Body, s: State, p: nat, i: nat, m: Mem) returns (k: nat, t: State)
    requires LoopAt(env.lines, p, loop) && Consistent(env, s) && s.halt.None? && s.intI == -1
    requires i < env.interfaces && Consistent(env, Pushed(s, InInt))
    ensures Runs(env, Pushed(s, InInt).(l := p + 1, intI := i, mem := m), k, t) && Consistent(env, t)
    ensures Ends(env, ExecLoop(env, loop, p + 1, i, m), s, p + 2 + |Flat(loop)|, t)
    ensures Stays(env, Pushed(s, InInt).(l := p + 1, intI := i, mem := m), k,
                  p + 1, p + 2 + |Flat(loop)|, env.interfaces - i)
    decreases loop, 1, env.interfaces - i
  {
    hide Runs, At, Step, Flat, FlatBranches, Exec, Consistent, Stays, Often;
    var s1 := Pushed(s, InInt).(l := p + 1, intI := i, mem := m);
    var a := Exec(env, loop, p + 1, i, m);
    LoopConsistent(env, s, s1);
    k, t := SimBody(env, loop, s1);
    var end := p + 2 + |Flat(loop)|;
    OftenOnce(env, i);
    StaysMore(env, s1, k, p + 1, end - 1, 1, p + 1, end, env.interfaces - i);
    if !a.out.Stop? {
      StaysOne(env, t);
      StaysThen(env, s1, k, t, 1, p + 1, end - 1, end - 1, end, 1);
      if i + 1 < env.interfaces {
        StepEndIntNext(env, p, loop, t);
        var t2 := t.(l := p + 1, intI := i + 1);
        RunsTrans(env, s1, k, t, 1, t2);
        var k3, t3 := SimLoop(env, loop, s, p, i + 1, a.mem);
        RunsTrans(env, s1, k + 1, t2, k3, t3);
        StaysTwice(env, s1, k + 1, t2, k3, p + 1, end, 1, env.interfaces - i - 1);
        k, t := k + 1 + k3, t3;
      } else {
        StepEndIntDone(env, s, t.l, i, a.mem);
        var t2 := s.(l := t.l + 1, mem := a.mem);
        RunsTrans(env, s1, k, t, 1, t2);
        SameBlocks(env, s, t2);
        k, t := k + 1, t2;
      }
    }
  }

  lemma LoopConsistent(env: Env, s: State, t: State)
    requires Consistent(env, Pushed(s, InInt)) && 0 <= t.intI < env.interfaces
    requires t == Pushed(s, InInt).(l := t.l, intI := t.intI, mem := t.mem)
    ensures Consistent(env, t) && Inside(t, InInt)
  {
    var u := Pushed(s, InInt);
    assert u.stack[|s.stack|] == InInt;
    assert InInt in u.stack;
  }

  /** On a well-formed script the interpreter halts, without a structural panic and with every state
      on the way consistent, reports exactly the meaning of the script, and has come to no line more often
      than there are interfaces (or once, if there are none). */
  lemma RunMeansTree(env: Env, tree: Body) returns (k: nat)
    requires WellFormed(tree, false) && Flat(tree) == env.lines
    ensures Safe(env, Start(), k)
    ensures var t := Iter(env, Start(), k);
            t.halt.Some? && Report(t.mem, t.halt.value) == Meaning(env, tree)
    ensures Stays(env, Start(), k, 0, |env.lines| + 1, Often(env, -1))
  {
    hide Step, At, Flat, Exec, Stays, Often;
    var s := Start();
    StartReady(env);
    var t: State;
    k, t := SimBody(env, tree, s);
    var n, bound := |env.lines|, Often(env, -1);
    StaysMore(env, s, k, 0, n, bound, 0, n + 1, bound);
    if t.halt.None? {
      StepFinish(env, t);
      StaysFirst(env, t, n + 1);
      StaysThen(env, s, k, t, 1, 0, n, n, n + 1, bound);
      RunsTrans(env, s, k, t, 1, t.(halt := Some(Finished)));
      k := k + 1;
    }
  }

  lemma StartReady(env: Env)
    ensures Ready(env, Start(), env.lines)
  {
    assert env.lines[0..|env.lines|] == env.lines;
  }

  lemma StepFinish(env: Env, s: State)
    requires Consistent(env, s) && s.halt.None? && s.l == |env.lines|
    ensures Runs(env, s, 1, s.(halt := Some(Finished)))
  {
    OneStep(env, s, s.(halt := Some(Finished)));
  }
}
