/** The static check made before any device is contacted: it accepts exactly the texts of
    well-formed scripts. */
module ScriptValidator {
  import opened Basics
  import opened ScriptTree
  import opened ScriptMachine

  /** The block stack after one line, or None if the check rejects the script there. */
  function CheckLine(stack: seq<Tag>, k: Kind): Option<seq<Tag>> {
    match k
    case PerInt => if InInt in stack then None else Some(stack + [InInt])
    case EndInt => if stack != [] && stack[|stack| - 1].InInt? then Some(stack[..|stack| - 1]) else None
    case Sect => Some(stack + [InSect])
    case Else => if stack != [] && stack[|stack| - 1].InSect? then Some(stack) else None
    case EndSect => if stack != [] && stack[|stack| - 1].InSect? then Some(stack[..|stack| - 1]) else None
    case Bad => None
    case _ => if UsesInt(k) && InInt !in stack then None else Some(stack)
  }

  function Check(stack: seq<Tag>, toks: seq<Kind>): Option<seq<Tag>>
    decreases |toks|
  {
    if toks == [] then Some(stack)
    else
      match CheckLine(stack, toks[0])
      case None => None
      case Some(next) => Check(next, toks[1..])
  }

  ghost predicate Accepts(lines: seq<Kind>) {
    Check([], lines) == Some([])
  }

  lemma {:induction false} CheckConcat(stack: seq<Tag>, a: seq<Kind>, b: seq<Kind>)
    ensures Check(stack, a + b) ==
            match Check(stack, a) case None => None case Some(next) => Check(next, b)
    decreases |a|
  {
    if a == [] {
      assert a + b == b;
    } else {
      assert (a + b)[1..] == a[1..] + b;
      var next := CheckLine(stack, a[0]);
      if next.Some? { CheckConcat(next.value, a[1..], b); }
    }
  }

  lemma CheckOne(stack: seq<Tag>, k: Kind)
    ensures Check(stack, [k]) == CheckLine(stack, k)
  {
    var next := CheckLine(stack, k);
    if next.Some? { assert Check(next.value, [k][1..]) == next; }
  }

  // ---------- the text of a well-formed script is accepted ----------

  lemma {:induction false} CheckBody(stack: seq<Tag>, b: Body)
    requires WellFormed(b, InInt in stack)
    ensures Check(stack, Flat(b)) == Some(stack)
    decreases b
  {
    match b
    case Nil =>
    case Line(k, rest) =>
      CheckOne(stack, k);
      CheckConcat(stack, [k], Flat(rest));
      CheckBody(stack, rest);
    case Section(br, rest) =>
      var toks := FlatBranches(br);
      CheckOne(stack, Sect);
      CheckOne(stack + [InSect], EndSect);
      CheckBranches(stack + [InSect], br);
      CheckBody(stack, rest);
      CheckBlock(stack, InSect, Sect, toks, EndSect, Flat(rest));
    case PerInterface(loop, rest) =>
      CheckOne(stack, PerInt);
      CheckOne(stack + [InInt], EndInt);
      assert InInt in stack + [InInt] by { assert (stack + [InInt])[|stack|] == InInt; }
      CheckBody(stack + [InInt], loop);
      CheckBody(stack, rest);
      CheckBlock(stack, InInt, PerInt, Flat(loop), EndInt, Flat(rest));
  }

  lemma CheckBlock(stack: seq<Tag>, tag: Tag, open: Kind, inner: seq<Kind>, close: Kind, rest: seq<Kind>)
    requires Check(stack, [open]) == Some(stack + [tag])
    requires Check(stack + [tag], inner) == Some(stack + [tag])
    requires Check(stack + [tag], [close]) == Some(stack)
    ensures Check(stack, [open] + inner + [close] + rest) == Check(stack, rest)
  {
    CheckConcat(stack, [open], inner);
    CheckConcat(stack, [open] + inner, [close]);
    CheckConcat(stack, [open] + inner + [close], rest);
  }

  lemma {:induction false} CheckBranches(stack: seq<Tag>, br: Branches)
    requires WellFormedBranches(br, InInt in stack) && stack != [] && stack[|stack| - 1] == InSect
    ensures Check(stack, FlatBranches(br)) == Some(stack)
    decreases br
  {
    match br
    case Last(b) => CheckBody(stack, b);
    case Alt(b, more) =>
      CheckBody(stack, b);
      CheckBranches(stack, more);
      CheckOne(stack, Else);
      CheckConcat(stack, Flat(b), [Else]);
      CheckConcat(stack, Flat(b) + [Else], FlatBranches(more));
  }

  // ---------- an accepted text is the text of a well-formed script ----------

  /** What has been read so far of a script: the open blocks, each with what precedes it. */
  datatype Context =
    | Top
    | OpenSection(up: Context, before: Body, finished: Finished)
    | OpenLoop(up: Context, before: Body)

  datatype Finished = NoBranch | Branch(earlier: Finished, body: Body)

  ghost function FlatFinished(f: Finished): seq<Kind> {
    match f
    case NoBranch => []
    case Branch(earlier, b) => FlatFinished(earlier) + Flat(b) + [Else]
  }

  ghost function FlatContext(c: Context, current: Body): seq<Kind>
    decreases c
  {
    match c
    case Top => Flat(current)
    case OpenSection(up, before, f) => FlatContext(up, before) + [Sect] + FlatFinished(f) + Flat(current)
    case OpenLoop(up, before) => FlatContext(up, before) + [PerInt] + Flat(current)
  }

  ghost function Tags(c: Context): seq<Tag> {
    match c
    case Top => []
    case OpenSection(up, _, _) => Tags(up) + [InSect]
    case OpenLoop(up, _) => Tags(up) + [InInt]
  }

  ghost predicate WellFinished(f: Finished, inInt: bool) {
    f.Branch? ==> WellFinished(f.earlier, inInt) && WellFormed(f.body, inInt)
  }

  ghost predicate WellOpened(c: Context) {
    match c
    case Top => true
    case OpenSection(up, before, f) =>
      WellOpened(up) && WellFormed(before, InInt in Tags(up)) && WellFinished(f, InInt in Tags(up))
    case OpenLoop(up, before) =>
      WellOpened(up) && WellFormed(before, false) && InInt !in Tags(up)
  }

  ghost function Append(b: Body, c: Body): Body {
    match b
    case Nil => c
    case Line(k, rest) => Line(k, Append(rest, c))
    case Section(br, rest) => Section(br, Append(rest, c))
    case PerInterface(loop, rest) => PerInterface(loop, Append(rest, c))
  }

  lemma {:induction false} AppendFlat(b: Body, c: Body, inInt: bool)
    requires WellFormed(b, inInt) && WellFormed(c, inInt)
    ensures Flat(Append(b, c)) == Flat(b) + Flat(c) && WellFormed(Append(b, c), inInt)
    decreases b
  {
    match b
    case Nil =>
    case Line(_, rest) => AppendFlat(rest, c, inInt);
    case Section(_, rest) => AppendFlat(rest, c, inInt);
    case PerInterface(_, rest) => AppendFlat(rest, c, inInt);
  }

  ghost function Close(f: Finished, br: Branches): Branches {
    match f
    case NoBranch => br
    case Branch(earlier, b) => Close(earlier, Alt(b, br))
  }

  lemma {:induction false} CloseFlat(f: Finished, br: Branches, inInt: bool)
    requires WellFinished(f, inInt) && WellFormedBranches(br, inInt)
    ensures FlatBranches(Close(f, br)) == FlatFinished(f) + FlatBranches(br)
    ensures WellFormedBranches(Close(f, br), inInt)
    decreases f
  {
    match f
    case NoBranch =>
    case Branch(earlier, b) =>
      CloseFlat(earlier, Alt(b, br), inInt);
      assert FlatBranches(Alt(b, br)) == Flat(b) + [Else] + FlatBranches(br);
  }

  lemma {:induction false} ContextFlat(c: Context, current: Body, more: Body, inInt: bool)
    requires WellFormed(current, inInt) && WellFormed(more, inInt)
    ensures FlatContext(c, Append(current, more)) == FlatContext(c, current) + Flat(more)
    decreases c
  {
    AppendFlat(current, more, inInt);
  }

  /** The context and body after one more line. */
  ghost predicate Reads(c: Context, current: Body, k: Kind, c': Context, current': Body) {
    && WellOpened(c') && WellFormed(current', InInt in Tags(c'))
    && Some(Tags(c')) == CheckLine(Tags(c), k)
    && FlatContext(c', current') == FlatContext(c, current) + [k]
  }

  lemma ReadLine(c: Context, current: Body, k: Kind) returns (c': Context, current': Body)
    requires WellOpened(c) && WellFormed(current, InInt in Tags(c))
    requires CheckLine(Tags(c), k).Some?
    ensures Reads(c, current, k, c', current')
  {
    hide *;
    LineAllowed(c, k);
    if k == Sect {
      SectionOpened(c, current);
      c', current' := OpenSection(c, current, NoBranch), Nil;
    } else if k == PerInt {
      LoopOpened(c, current);
      c', current' := OpenLoop(c, current), Nil;
    } else if k == Else {
      c', current' := NextBranch(c, current);
    } else if k == EndSect {
      c', current' := CloseSection(c, current);
    } else if k == EndInt {
      c', current' := CloseLoop(c, current);
    } else {
      c', current' := PlainLine(c, current, k);
    }
  }

  /** What the check says about the innermost open block. */
  lemma LineAllowed(c: Context, k: Kind)
    requires CheckLine(Tags(c), k).Some?
    ensures k == PerInt ==> InInt !in Tags(c)
    ensures k == Else || k == EndSect ==> c.OpenSection?
    ensures k == EndInt ==> c.OpenLoop?
    ensures k != Bad
  {
  }

  lemma PlainLine(c: Context, current: Body, k: Kind) returns (c': Context, current': Body)
    requires WellOpened(c) && WellFormed(current, InInt in Tags(c)) && CheckLine(Tags(c), k).Some?
    requires k != Sect && k != PerInt && k != Else && k != EndSect && k != EndInt
    ensures Reads(c, current, k, c', current')
  {
    hide Flat, FlatContext, WellFormed, WellOpened;
    OneLine(k, InInt in Tags(c));
    c' := c;
    current' := AppendOne(c, current, Line(k, Nil));
  }

  lemma OneLine(k: Kind, inInt: bool)
    ensures Flat(Line(k, Nil)) == [k]
    ensures !Structural(k) && !k.Bad? && (UsesInt(k) ==> inInt) ==> WellFormed(Line(k, Nil), inInt)
  {
  }

  lemma SectionOpened(c: Context, current: Body)
    requires WellOpened(c) && WellFormed(current, InInt in Tags(c))
    ensures Reads(c, current, Sect, OpenSection(c, current, NoBranch), Nil)
  {
    assert FlatContext(c, current) + [Sect] + [] + [] == FlatContext(c, current) + [Sect];
  }

  lemma LoopOpened(c: Context, current: Body)
    requires WellOpened(c) && WellFormed(current, InInt in Tags(c)) && InInt !in Tags(c)
    ensures Reads(c, current, PerInt, OpenLoop(c, current), Nil)
  {
    assert FlatContext(c, current) + [PerInt] + [] == FlatContext(c, current) + [PerInt];
  }

  lemma SectionFlat(up: Context, before: Body, f: Finished, current: Body)
    ensures FlatContext(OpenSection(up, before, f), current)
            == FlatContext(up, before) + [Sect] + FlatFinished(f) + Flat(current)
    ensures FlatFinished(Branch(f, current)) == FlatFinished(f) + Flat(current) + [Else]
    ensures Flat(Nil) == []
  {
  }

  lemma Regroup(x: seq<Kind>, a: seq<Kind>, b: seq<Kind>, e: seq<Kind>)
    ensures x + (a + b + e) + [] == x + a + b + e
  {
  }

  lemma NextBranch(c: Context, current: Body) returns (c': Context, current': Body)
    requires c.OpenSection? && WellOpened(c) && WellFormed(current, InInt in Tags(c))
    ensures Reads(c, current, Else, c', current')
  {
    c', current' := c.(finished := Branch(c.finished, current)), Nil;
    BranchOpened(c, current);
    hide *;
    ReadsElse(c, current);
  }

  lemma BranchOpened(c: Context, current: Body)
    requires c.OpenSection? && WellOpened(c) && WellFormed(current, InInt in Tags(c))
    ensures var c' := c.(finished := Branch(c.finished, current));
            && WellOpened(c') && WellFormed(Nil, InInt in Tags(c'))
            && Some(Tags(c')) == CheckLine(Tags(c), Else)
  {
    TagsBelow(c);
  }

  lemma ReadsElse(c: Context, current: Body)
    requires c.OpenSection?
    requires var c' := c.(finished := Branch(c.finished, current));
             && WellOpened(c') && WellFormed(Nil, InInt in Tags(c'))
             && Some(Tags(c')) == CheckLine(Tags(c), Else)
    ensures Reads(c, current, Else, c.(finished := Branch(c.finished, current)), Nil)
  {
    hide FlatContext, FlatFinished, Flat, WellOpened, WellFormed, Tags, CheckLine;
    SectionFlat(c.up, c.before, c.finished, current);
    SectionFlat(c.up, c.before, Branch(c.finished, current), Nil);
    Regroup(FlatContext(c.up, c.before) + [Sect], FlatFinished(c.finished), Flat(current), [Else]);
  }

  /** A section does not change whether an interface loop is open. */
  lemma TagsBelow(c: Context)
    requires c.OpenSection?
    ensures InInt in Tags(c.up) <==> InInt in Tags(c)
  {
    if InInt in Tags(c.up) {
      var i :| 0 <= i < |Tags(c.up)| && Tags(c.up)[i] == InInt;
      assert Tags(c)[i] == InInt;
    }
  }

  /** Appends a body of a single block or line to the current one. */
  lemma AppendOne(c: Context, current: Body, one: Body) returns (r: Body)
    requires WellFormed(current, InInt in Tags(c)) && WellFormed(one, InInt in Tags(c))
    ensures r == Append(current, one) && WellFormed(r, InInt in Tags(c))
    ensures FlatContext(c, r) == FlatContext(c, current) + Flat(one)
  {
    ContextFlat(c, current, one, InInt in Tags(c));
    AppendFlat(current, one, InInt in Tags(c));
    r := Append(current, one);
  }

  lemma CloseLoop(c: Context, current: Body) returns (c': Context, current': Body)
    requires c.OpenLoop? && WellOpened(c) && WellFormed(current, InInt in Tags(c))
    ensures Reads(c, current, EndInt, c', current')
  {
    assert Tags(c)[|Tags(c.up)|] == InInt;
    assert Flat(PerInterface(current, Nil)) == [PerInt] + Flat(current) + [EndInt];
    c' := c.up;
    current' := AppendOne(c.up, c.before, PerInterface(current, Nil));
  }

  lemma CloseSection(c: Context, current: Body) returns (c': Context, current': Body)
    requires c.OpenSection? && WellOpened(c) && WellFormed(current, InInt in Tags(c))
    ensures Reads(c, current, EndSect, c', current')
  {
    hide Flat, FlatFinished, FlatContext, Close, WellFormedBranches, Append;
    var inInt := InInt in Tags(c.up);
    TagsBelow(c);
    BranchFlat(current, inInt);
    CloseFlat(c.finished, Last(current), inInt);
    var section := Section(Close(c.finished, Last(current)), Nil);
    ClosedFlat(c.finished, current, inInt);
    c' := c.up;
    current' := AppendOne(c.up, c.before, section);
    SectionFlat(c.up, c.before, c.finished, current);
    Regroup2(FlatContext(c.up, c.before), [Sect], FlatFinished(c.finished), Flat(current), [EndSect]);
  }

  lemma BranchFlat(current: Body, inInt: bool)
    requires WellFormed(current, inInt)
    ensures WellFormedBranches(Last(current), inInt) && FlatBranches(Last(current)) == Flat(current)
  {
  }

  lemma ClosedFlat(f: Finished, current: Body, inInt: bool)
    requires WellFormed(current, inInt) && WellFinished(f, inInt)
    ensures var section := Section(Close(f, Last(current)), Nil);
            WellFormed(section, inInt) && Flat(section) == [Sect] + (FlatFinished(f) + Flat(current)) + [EndSect]
  {
    BranchFlat(current, inInt);
    CloseFlat(f, Last(current), inInt);
    hide FlatFinished, Close, FlatBranches, WellFormedBranches;
    var x := [Sect] + (FlatFinished(f) + Flat(current)) + [EndSect];
    assert x + [] == x;
  }

  lemma Regroup2(x: seq<Kind>, o: seq<Kind>, a: seq<Kind>, b: seq<Kind>, e: seq<Kind>)
    ensures x + (o + (a + b) + e) == x + o + a + b + e
  {
  }

  lemma {:induction false} ReadAll(c: Context, current: Body, toks: seq<Kind>) returns (t: Body)
    requires WellOpened(c) && WellFormed(current, InInt in Tags(c))
    requires Check(Tags(c), toks) == Some([])
    ensures WellFormed(t, false) && Flat(t) == FlatContext(c, current) + toks
    decreases |toks|
  {
    hide Flat, FlatContext, WellFormed, WellOpened, CheckLine;
    if toks == [] {
      NothingOpen(c, current);
      t := current;
    } else {
      var c1, current1 := ReadLine(c, current, toks[0]);
      t := ReadAll(c1, current1, toks[1..]);
      assert toks == [toks[0]] + toks[1..];
    }
  }

  lemma NothingOpen(c: Context, current: Body)
    requires Tags(c) == [] && WellFormed(current, InInt in Tags(c))
    ensures WellFormed(current, false) && Flat(current) == FlatContext(c, current)
  {
  }

  lemma AcceptedTree(lines: seq<Kind>) returns (t: Body)
    requires Accepts(lines)
    ensures WellFormed(t, false) && Flat(t) == lines
  {
    t := ReadAll(Top, Nil, lines);
  }

  /** The check accepts exactly the texts of well-formed scripts. */
  lemma AcceptsExactly(lines: seq<Kind>)
    ensures Accepts(lines) <==> exists t :: WellFormed(t, false) && Flat(t) == lines
  {
    if Accepts(lines) {
      var t := AcceptedTree(lines);
    }
    forall t | WellFormed(t, false) && Flat(t) == lines ensures Accepts(lines) {
      CheckBody([], t);
    }
  }

  // ---------- the check itself ----------

  lemma CheckPrefix(lines: seq<Kind>, l: nat)
    requires l < |lines|
    ensures Check([], lines[..l + 1]) ==
            match Check([], lines[..l]) case None => None case Some(st) => CheckLine(st, lines[l])
    ensures Check([], lines[..l + 1]).None? ==> !Accepts(lines)
  {
    assert lines[..l + 1] == lines[..l] + [lines[l]];
    CheckConcat([], lines[..l], [lines[l]]);
    if Check([], lines[..l]).Some? { CheckOne(Check([], lines[..l]).value, lines[l]); }
    assert lines == lines[..l + 1] + lines[l + 1..];
    CheckConcat([], lines[..l + 1], lines[l + 1..]);
  }

  ghost predicate Counted(stack: seq<Tag>, sectDepth: int, perInt: int, intI: int) {
    && sectDepth == CountTag(stack, InSect)
    && perInt == CountTag(stack, InInt) <= 1
    && intI == (if perInt == 1 then 0 else -1)
    && (InInt in stack <==> perInt == 1)
  }

  lemma CountedPush(stack: seq<Tag>, tag: Tag)
    ensures CountTag(stack + [tag], InSect) == CountTag(stack, InSect) + (if tag.InSect? then 1 else 0)
    ensures CountTag(stack + [tag], InInt) == CountTag(stack, InInt) + (if tag.InInt? then 1 else 0)
    ensures InInt in stack + [tag] <==> CountTag(stack + [tag], InInt) > 0
    ensures InInt in stack <==> CountTag(stack, InInt) > 0
  {
    CountTagPush(stack, tag, InSect);
    CountTagPush(stack, tag, InInt);
    CountTagMember(stack + [tag], InInt);
    CountTagMember(stack, InInt);
  }

  lemma CheckStart(lines: seq<Kind>)
    ensures Check([], lines[..0]) == Some([]) && CountTag([], InSect) == CountTag([], InInt) == 0
    ensures lines[..|lines|] == lines
  {
  }

  /** The validator loop, with its redundant counters beside the block stack. */
  method Validate(lines: seq<Kind>) returns (ok: bool)
    ensures ok <==> exists t :: WellFormed(t, false) && Flat(t) == lines
  {
    hide Check, Flat, WellFormed, CountTag;
    AcceptsExactly(lines);
    CheckStart(lines);
    var sectDepth, perInt, intI := 0, 0, -1;
    var stack: seq<Tag> := [];
    for l := 0 to |lines|
      invariant Check([], lines[..l]) == Some(stack)
      invariant Counted(stack, sectDepth, perInt, intI)
    {
      CheckPrefix(lines, l);
      ghost var before := stack;
      match lines[l]
      case PerInt =>
        if intI != -1 { return false; }
        intI := 0;
        perInt := perInt + 1;
        stack := stack + [InInt];
        CountedPush(before, InInt);
      case EndInt =>
        if intI != 0 { return false; }
        if perInt != 1 { return false; }
        if |stack| == 0 { return false; }
        if stack[|stack| - 1] != InInt { return false; }
        perInt := 0;
        intI := -1;
        stack := stack[..|stack| - 1];
        assert before == stack + [InInt];
        CountedPush(stack, InInt);
      case Sect =>
        sectDepth := sectDepth + 1;
        stack := stack + [InSect];
        CountedPush(before, InSect);
      case Else =>
        if |stack| == 0 { return false; }
        if stack[|stack| - 1] != InSect { return false; }
      case EndSect =>
        sectDepth := sectDepth - 1;
        if sectDepth < 0 { TopCounted(stack); return false; }
        if |stack| == 0 { return false; }
        if stack[|stack| - 1] != InSect { return false; }
        stack := stack[..|stack| - 1];
        assert before == stack + [InSect];
        CountedPush(stack, InSect);
      case Bad =>
        return false;
      case k =>
        if UsesInt(k) && intI == -1 { return false; }
    }
    if perInt != 0 { return false; }
    if sectDepth != 0 { return false; }
    if |stack| != 0 { return false; }
    return true;
  }

  lemma TopCounted(stack: seq<Tag>)
    ensures stack != [] && stack[|stack| - 1].InSect? ==> CountTag(stack, InSect) > 0
  {
  }
}
