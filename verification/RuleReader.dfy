/** The two readers of alert rules as they run: one position moving over the text, a count of open
    parentheses, and either the list of fields or the stack of truth values. */
module RuleReader {
  import opened Basics
  import opened RuleGrammar
  import opened RuleScan
  import opened RuleMeaning
  import opened LinkKey
  import S = RuleSpelling

  // ---------- the rest of a text is its tail from a position ----------

  lemma {:induction false} SkipBlanksSuffix(s: string)
    ensures SkipBlanks(s) == s[|s| - |SkipBlanks(s)|..]
  {
    if s != "" && Blank(s[0]) { SkipBlanksSuffix(s[1..]); }
  }

  /** r is what is left of s. */
  predicate Suffix(r: string, s: string) { |r| <= |s| && r == s[|s| - |r|..] }

  lemma SuffixSlice(s: string, n: nat, r: string)
    requires n <= |s| && Suffix(r, s[n..])
    ensures Suffix(r, s)
  {
  }

  lemma LexKeySuffix(s: string)
    requires LexKey(s).Some?
    ensures Suffix(LexKey(s).value.rest, s)
  {
    hide KeyLen, SkipBlanks, Suffix;
    var n := KeyLen(s);
    var t := SkipBlanks(s[n..]);
    var u := SkipBlanks(t[2..]);
    BlanksSuffix(t[2..]);
    SuffixSlice(t, 2, u);
    BlanksSuffix(s[n..]);
    SuffixTrans(u, t, s[n..]);
    SuffixSlice(s, n, u);
  }

  lemma BlanksSuffix(s: string)
    ensures Suffix(SkipBlanks(s), s)
  {
    SkipBlanksSuffix(s);
  }

  lemma SuffixTrans(a: string, b: string, c: string)
    requires Suffix(a, b) && Suffix(b, c)
    ensures Suffix(a, c)
  {
  }

  // ---------- the inner loops ----------

  method SkipSpaces(s: string, from: nat) returns (pos: nat)
    requires from <= |s|
    ensures from <= pos <= |s| && s[pos..] == SkipWs(s[from..])
  {
    pos := from;
    while pos < |s| && Ws(s[pos])
      invariant from <= pos <= |s| && SkipWs(s[pos..]) == SkipWs(s[from..])
    {
      assert s[pos..][1..] == s[pos + 1..];
      pos := pos + 1;
    }
  }

  method ScanBare(s: string, from: nat) returns (stop: nat)
    requires from <= |s|
    ensures stop == from + BareLen(s[from..]) <= |s|
  {
    stop := from;
    while stop < |s| && !Ws(s[stop])
      invariant from <= stop <= |s| && from + BareLen(s[from..]) == stop + BareLen(s[stop..])
    {
      assert s[stop..][1..] == s[stop + 1..];
      stop := stop + 1;
    }
  }

  function Shift(r: Option<nat>, n: nat): Option<nat> {
    match r case None => None case Some(k) => Some(k + n)
  }

  /** At pos, a backslash protects the character c or another backslash. */
  predicate Pair(s: string, pos: nat, c: char) {
    pos + 1 < |s| && s[pos] == '\\' && (s[pos + 1] == '\\' || s[pos + 1] == c)
  }

  lemma QuotedAt(s: string, pos: nat)
    requires pos < |s|
    ensures Pair(s, pos, '"') ==> QuotedLen(s[pos..]) == Shift(QuotedLen(s[pos + 2..]), 2)
    ensures !Pair(s, pos, '"') && s[pos] == '"' ==> QuotedLen(s[pos..]) == Some(0)
    ensures s[pos] == '\n' ==> QuotedLen(s[pos..]) == None
    ensures !Pair(s, pos, '"') && s[pos] != '"' && s[pos] != '\n'
            ==> QuotedLen(s[pos..]) == Shift(QuotedLen(s[pos + 1..]), 1)
  {
    var rest := s[pos..];
    assert pos + 1 < |s| ==> rest[2..] == s[pos + 2..];
    assert rest[1..] == s[pos + 1..];
  }

  method ScanQuoted(s: string, from: nat) returns (stop: Option<nat>)
    requires from <= |s|
    ensures stop == Shift(QuotedLen(s[from..]), from)
  {
    hide QuotedLen;
    var pos := from;
    while pos < |s|
      invariant from <= pos <= |s|
      invariant Shift(QuotedLen(s[from..]), from) == Shift(QuotedLen(s[pos..]), pos)
    {
      QuotedAt(s, pos);
      if s[pos] == '\\' && pos + 1 < |s| && (s[pos + 1] == '\\' || s[pos + 1] == '"') {
        pos := pos + 2;
      } else if s[pos] == '"' {
        return Some(pos);
      } else if s[pos] == '\n' {
        return None;
      } else {
        pos := pos + 1;
      }
    }
    ScanEnd(s);
    return None;
  }

  lemma ScanEnd(s: string)
    ensures s[|s|..] == "" && QuotedLen(s[|s|..]) == None && PatternOf(s[|s|..]) == None
  {
  }

  function Prepend(text: string, r: Option<Piece>): Option<Piece> {
    match r case None => None case Some(p) => Some(Piece(text + p.text, p.rest))
  }

  lemma PrependTwice(text: string, c: char, r: Option<Piece>)
    ensures Prepend(text, Prepend([c], r)) == Prepend(text + [c], r)
    ensures Prepend("", r) == r
  {
    if r.Some? {
      assert text + ([c] + r.value.text) == text + [c] + r.value.text;
      assert "" + r.value.text == r.value.text;
    }
  }

  lemma PatternAt(s: string, pos: nat)
    requires pos < |s|
    ensures Pair(s, pos, '/') ==> PatternOf(s[pos..]) == Prepend([s[pos + 1]], PatternOf(s[pos + 2..]))
    ensures !Pair(s, pos, '/') && s[pos] == '/' ==> PatternOf(s[pos..]) == Some(Piece("", s[pos + 1..]))
    ensures s[pos] == '\n' ==> PatternOf(s[pos..]) == None
    ensures !Pair(s, pos, '/') && s[pos] != '/' && s[pos] != '\n'
            ==> PatternOf(s[pos..]) == Prepend([s[pos]], PatternOf(s[pos + 1..]))
  {
    var rest := s[pos..];
    assert pos + 1 < |s| ==> rest[2..] == s[pos + 2..];
    assert rest[1..] == s[pos + 1..];
  }

  method ScanPattern(s: string, from: nat) returns (pattern: string, next: Option<nat>)
    requires from <= |s|
    ensures next.None? ==> PatternOf(s[from..]) == None
    ensures next.Some? ==> from < next.value <= |s| && PatternOf(s[from..]) == Some(Piece(pattern, s[next.value..]))
  {
    hide PatternOf;
    pattern := "";
    var pos := from;
    PrependTwice("", ' ', PatternOf(s[from..]));
    while pos < |s|
      invariant from <= pos <= |s|
      invariant PatternOf(s[from..]) == Prepend(pattern, PatternOf(s[pos..]))
    {
      PatternAt(s, pos);
      if s[pos] == '\\' && pos + 1 < |s| && (s[pos + 1] == '\\' || s[pos + 1] == '/') {
        PrependTwice(pattern, s[pos + 1], PatternOf(s[pos + 2..]));
        pattern := pattern + [s[pos + 1]];
        pos := pos + 2;
      } else if s[pos] == '/' {
        assert pattern + "" == pattern;
        return pattern, Some(pos + 1);
      } else if s[pos] == '\n' {
        return pattern, None;
      } else {
        PrependTwice(pattern, s[pos], PatternOf(s[pos + 1..]));
        pattern := pattern + [s[pos]];
        pos := pos + 1;
      }
    }
    ScanEnd(s);
    return pattern, None;
  }

  lemma SliceOf(s: string, from: nat, a: nat, b: nat)
    requires a <= b && from + b <= |s|
    ensures s[from..][a..b] == s[from + a..from + b]
    ensures s[from..][b..] == s[from + b..]
  {
  }

  predicate WordEnd(s: string, pos: nat) { pos >= |s| || Ws(s[pos]) }

  lemma BareOperand(s: string, op: Op, from: nat)
    requires from < |s| && (op.Eq? || op.Ne?) && s[from] != '"'
    ensures var stop := from + BareLen(s[from..]);
            Operand(op, s[from..]) == Some(Piece(s[from..stop], s[stop..]))
  {
    hide BareLen;
    SliceOf(s, from, 0, BareLen(s[from..]));
  }

  lemma QuotedOperand(s: string, op: Op, from: nat)
    requires from < |s| && (op.Eq? || op.Ne?) && s[from] == '"'
    ensures QuotedLen(s[from + 1..]) == None ==> Operand(op, s[from..]) == None
    ensures QuotedLen(s[from + 1..]).Some? ==>
              var stop := from + 1 + QuotedLen(s[from + 1..]).value;
              stop < |s| &&
              Operand(op, s[from..])
              == if WordEnd(s, stop + 1) then Some(Piece(s[from + 1..stop], s[stop + 1..])) else None
  {
    hide QuotedLen, EndsWord, BareLen, PatternOf, WordEnd;
    var rest := s[from..];
    SliceOf(s, from, 1, 1);
    if QuotedLen(s[from + 1..]).Some? {
      var n := QuotedLen(s[from + 1..]).value;
      SliceOf(s, from, 1, n + 1);
      SliceOf(s, from, n + 2, n + 2);
      EndsAt(s, from + n + 2);
    }
  }

  lemma EndsAt(s: string, pos: nat)
    requires pos <= |s|
    ensures EndsWord(s[pos..]) <==> WordEnd(s, pos)
  {
  }

  lemma SlashedOperand(s: string, op: Op, from: nat)
    requires from < |s| && (op.Re? || op.NotRe?)
    ensures s[from] != '/' || PatternOf(s[from + 1..]) == None ==> Operand(op, s[from..]) == None
    ensures s[from] == '/' && PatternOf(s[from + 1..]).Some? ==>
              var p := PatternOf(s[from + 1..]);
              Operand(op, s[from..]) == if EndsWord(p.value.rest) then p else None
  {
    hide PatternOf, EndsWord;
    SliceOf(s, from, 1, 1);
  }

  /** The operand that starts at a position, and the position after it. */
  method ReadOperand(s: string, op: Op, from: nat) returns (text: string, next: Option<nat>)
    requires from < |s|
    ensures next.None? ==> Operand(op, s[from..]) == None
    ensures next.Some? ==> from <= next.value <= |s| && Operand(op, s[from..]) == Some(Piece(text, s[next.value..]))
  {
    hide PatternOf, QuotedLen, BareLen, Operand;
    if op.Eq? || op.Ne? {
      if s[from] != '"' {
        BareOperand(s, op, from);
        var stop := ScanBare(s, from);
        return s[from..stop], Some(stop);
      }
      QuotedOperand(s, op, from);
      var stop := ScanQuoted(s, from + 1);
      if stop.None? { return "", None; }
      if stop.value + 1 < |s| && !Ws(s[stop.value + 1]) { return "", None; }
      return s[from + 1..stop.value], Some(stop.value + 1);
    } else {
      SlashedOperand(s, op, from);
      if s[from] != '/' { return "", None; }
      text, next := ScanPattern(s, from + 1);
      if next.Some? && next.value < |s| && !Ws(s[next.value]) { return "", None; }
    }
  }

  // ---------- after an operand ----------

  datatype Next = Fail | Stop(toks: seq<Item>) | Go(toks: seq<Item>, pos: nat, par: nat)

  ghost predicate NextIs(s: string, from: nat, par: nat, r: Next) {
    from <= |s| &&
    match r
    case Fail => After(s[from..], par) == Err
    case Stop(toks) => After(s[from..], par) == Ok(toks)
    case Go(toks, pos, left) =>
      from < pos <= |s| && After(s[from..], par) == Cat(toks, Term(s[pos..], left, true))
  }

  lemma AfterSkipped(s: string, from: nat, pos: nat, par: nat)
    requires from <= pos <= |s| && s[pos..] == SkipWs(s[from..])
    ensures After(s[pos..], par) == After(s[from..], par)
  {
    hide Term;
    var t := s[pos..];
    assert SkipWs(t) == t;
  }

  /** One step at a position that is not white space. */
  lemma AfterAt(s: string, pos: nat, par: nat)
    requires pos <= |s| && (pos < |s| ==> !Ws(s[pos]))
    ensures pos == |s| ==> After(s[pos..], par) == if par != 0 then Err else Ok([])
    ensures pos < |s| && s[pos] == ')' ==>
              After(s[pos..], par) == if par == 0 then Err else Cat([Close], After(s[pos + 1..], par - 1))
    ensures pos < |s| && "||" <= s[pos..] ==> After(s[pos..], par) == Cat([Or], Term(s[pos + 2..], par, true))
    ensures pos < |s| && "&&" <= s[pos..] ==> After(s[pos..], par) == Cat([And], Term(s[pos + 2..], par, true))
    ensures pos < |s| && s[pos] != ')' && !("||" <= s[pos..]) && !("&&" <= s[pos..]) ==> After(s[pos..], par) == Err
  {
    hide Term, Cat;
    var t := s[pos..];
    assert SkipWs(t) == t;
    if pos < |s| { SliceOf(s, pos, 1, 1); }
    if pos + 1 < |s| { SliceOf(s, pos, 2, 2); }
  }

  /** Closing parentheses, then the end of the text or an operator. */
  method ReadJoint(s: string, from: nat, par: nat) returns (r: Next)
    requires from <= |s|
    ensures NextIs(s, from, par, r)
    ensures !r.Fail? ==> forall t :: t in r.toks ==> !t.Leaf?
  {
    hide After, Term, Cat, SkipWs;
    var pos := SkipSpaces(s, from);
    AfterSkipped(s, from, pos, par);
    var toks: seq<Item>, left := [], par;
    CatCat([], [], After(s[from..], par));
    while pos < |s| && s[pos] == ')'
      invariant from <= pos <= |s| && (pos < |s| ==> !Ws(s[pos]))
      invariant After(s[from..], par) == Cat(toks, After(s[pos..], left))
      invariant forall t :: t in toks ==> !t.Leaf?
    {
      AfterAt(s, pos, left);
      CatCat(toks, [], Err);
      if left == 0 { return Fail; }
      var next := SkipSpaces(s, pos + 1);
      AfterSkipped(s, pos + 1, next, left - 1);
      CatCat(toks, [Close], After(s[next..], left - 1));
      toks, left, pos := toks + [Close], left - 1, next;
    }
    AfterAt(s, pos, left);
    CatCat(toks, [], After(s[pos..], left));
    if pos == |s| {
      return if left != 0 then Fail else Stop(toks);
    } else if "||" <= s[pos..] {
      CatCat(toks, [Or], Term(s[pos + 2..], left, true));
      return Go(toks + [Or], pos + 2, left);
    } else if "&&" <= s[pos..] {
      CatCat(toks, [And], Term(s[pos + 2..], left, true));
      return Go(toks + [And], pos + 2, left);
    }
    return Fail;
  }

  // ---------- the two readers ----------

  /** One step where an operand is expected: from is where the reader stands, at the first
      position from there on that is not white space. */
  lemma TermAt(s: string, from: nat, at: nat, par: nat, pending: bool)
    requires from <= at <= |s| && from < |s| && s[at..] == SkipWs(s[from..])
    ensures at == |s| ==> Term(s[from..], par, pending) == if par != 0 || pending then Err else Ok([])
    ensures at < |s| && LexKey(s[at..]).None? && s[at] == '(' ==>
              Term(s[from..], par, pending) == Cat([Open], Term(s[at + 1..], par + 1, false))
    ensures at < |s| && LexKey(s[at..]).None? && s[at] != '(' ==> Term(s[from..], par, pending) == Err
  {
    hide LexKey, SkipWs, After, Cat;
    if at < |s| { SliceOf(s, at, 1, 1); }
  }

  lemma TermAtKey(s: string, from: nat, at: nat, par: nat, pending: bool, k: KeyOp)
    requires from <= at < |s| && s[at..] == SkipWs(s[from..]) && LexKey(s[at..]) == Some(k)
    ensures |k.rest| > 0 && at <= |s| - |k.rest| && k.rest == s[|s| - |k.rest|..]
    ensures Operand(k.op, k.rest) == None ==> Term(s[from..], par, pending) == Err
    ensures Operand(k.op, k.rest).Some? ==>
              var p := Operand(k.op, k.rest).value;
              Term(s[from..], par, pending) == Cat([Leaf(Cmp(k.key, k.op, p.text))], After(p.rest, par))
  {
    hide SkipWs, After, Cat, Operand;
    LexKeySuffix(s[at..]);
    SliceOf(s, at, |s| - at - |k.rest|, |s| - at - |k.rest|);
  }

  lemma {:induction false} KeysConcat(items: seq<Item>, toks: seq<Item>)
    requires forall t :: t in toks ==> !t.Leaf?
    ensures Keys(items + toks) == Keys(items)
    decreases |toks|
  {
    if toks == [] {
      assert items + toks == items;
    } else {
      var n := |toks| - 1;
      KeysConcat(items, toks[..n]);
      assert (items + toks)[..|items| + n] == items + toks[..n];
      assert toks[n] in toks && (items + toks)[|items| + n] == toks[n];
    }
  }

  lemma KeysLeaf(items: seq<Item>, c: Cmp)
    ensures Keys(items + [Leaf(c)]) == AppendOnce(Keys(items), c.key)
  {
    assert (items + [Leaf(c)])[..|items|] == items;
  }

  /** A pattern that does not compile makes the reader fail, whatever follows. */
  lemma BadPattern(s: string, e: Engine, items: seq<Item>, c: Cmp, r: Result<seq<Item>>)
    requires Scan(s) == Cat(items, Cat([Leaf(c)], r)) && IsPattern(c)
    ensures !e.compiles(c.operand) ==> Fields(s, e) == Err
    ensures !e.compiles(NoCase(c.operand)) ==> forall alert :: Match(s, e, alert) == Err
  {
    hide Scan;
    CatCat(items, [Leaf(c)], r);
    if r.Ok? {
      assert Leaf(c) in Scan(s).value;
    }
  }

  lemma CompileMore(e: Engine, items: seq<Item>, toks: seq<Item>)
    requires forall t :: t in toks && t.Leaf? && IsPattern(t.v) ==> e.compiles(t.v.operand)
    requires CompilePlain(e, items)
    ensures CompilePlain(e, items + toks)
  {
  }

  lemma CompileMoreNoCase(e: Engine, items: seq<Item>, toks: seq<Item>)
    requires forall t :: t in toks && t.Leaf? && IsPattern(t.v) ==> e.compiles(NoCase(t.v.operand))
    requires Compile(e, items)
    ensures Compile(e, items + toks)
  {
  }

  lemma ScanErr(s: string, e: Engine)
    requires Scan(s) == Err
    ensures Fields(s, e) == Err && forall alert :: Match(s, e, alert) == Err
  {
  }

  /** The fields a rule needs, or an error. */
  method ParseAlertRule(s: string, e: Engine) returns (r: Result<seq<string>>)
    ensures r == Fields(s, e)
    ensures forall keys :: r == Ok(keys) <==> exists items :: S.Collects(s, e, keys, items)
  {
    hide S.Collects;
    S.FieldsExact(s, e);
    hide Term, After, Cat, SkipWs, LexKey, Operand, Keys, CompilePlain;
    var pos: nat, par: nat, pending := 0, 0, false;
    var fields: seq<string> := [];
    ghost var items: seq<Item> := [];
    StartFacts(s, e);
    while pos < |s|
      invariant pos <= |s| && Scan(s) == Cat(items, Term(s[pos..], par, pending))
      invariant fields == Keys(items) && CompilePlain(e, items)
    {
      ghost var rest := Term(s[pos..], par, pending);
      CatCat(items, [], rest);
      var at := SkipSpaces(s, pos);
      TermAt(s, pos, at, par, pending);
      if rest == Err { ScanErr(s, e); }
      if at == |s| {
        return if par != 0 || pending then Err else Ok(fields);
      }
      var lexed := LexKey(s[at..]);
      if lexed.None? {
        if s[at] != '(' { return Err; }
        CatCat(items, [Open], Term(s[at + 1..], par + 1, false));
        KeysConcat(items, [Open]);
        CompileMore(e, items, [Open]);
        items, par, pending, pos := items + [Open], par + 1, false, at + 1;
        continue;
      }
      var k := lexed.value;
      TermAtKey(s, pos, at, par, pending, k);
      var i := IndexOf(fields, k.key);
      if i < 0 { fields := fields + [k.key]; }
      var text, next := ReadOperand(s, k.op, |s| - |k.rest|);
      if next.None? { return Err; }
      ghost var c := Cmp(k.key, k.op, text);
      if k.op.Re? || k.op.NotRe? {
        if !e.compiles(text) {
          BadPattern(s, e, items, c, After(s[next.value..], par));
          return Err;
        }
      }
      KeysLeaf(items, c);
      CompileMore(e, items, [Leaf(c)]);
      CatCat(items, [Leaf(c)], After(s[next.value..], par));
      items := items + [Leaf(c)];
      var joint := ReadJoint(s, next.value, par);
      CatCat(items, [], After(s[next.value..], par));
      if joint.Fail? {
        ScanErr(s, e);
        return Err;
      }
      KeysConcat(items, joint.toks);
      CompileMore(e, items, joint.toks);
      if joint.Stop? {
        JointStop(s, items, joint.toks, next.value, par);
        items := items + joint.toks;
        return Ok(fields);
      }
      CatCat(items, joint.toks, Term(s[joint.pos..], joint.par, true));
      items, pos, par, pending := items + joint.toks, joint.pos, joint.par, true;
    }
    EndFacts(s, items, par, pending);
    return Ok(fields);
  }

  lemma StartFacts(s: string, e: Engine)
    ensures Scan(s) == Cat([], Term(s[0..], 0, false))
    ensures Keys([]) == [] && CompilePlain(e, []) && Compile(e, [])
  {
    CatCat([], [], Term(s, 0, false));
    assert s[0..] == s;
  }

  lemma EndFacts(s: string, items: seq<Item>, par: nat, pending: bool)
    requires Scan(s) == Cat(items, Term(s[|s|..], par, pending))
    ensures Scan(s) == Ok(items)
  {
    assert items + [] == items && Term(s[|s|..], par, pending) == Ok([]);
  }

  lemma JointStop(s: string, items: seq<Item>, toks: seq<Item>, from: nat, par: nat)
    requires from <= |s| && After(s[from..], par) == Ok(toks) && Scan(s) == Cat(items, After(s[from..], par))
    ensures Scan(s) == Ok(items + toks)
  {
  }

  /** The truth value of one comparison; None if its pattern does not compile. */
  method Judge(e: Engine, alert: map<string, string>, c: Cmp) returns (r: Option<bool>)
    ensures r == None <==> IsPattern(c) && !e.compiles(NoCase(c.operand))
    ensures r.Some? ==> TruthOf(e, alert, Leaf(c)) == Leaf(r.value)
  {
    var value := if c.key in alert then alert[c.key] else "";
    if c.op == Eq { return Some(c.operand == value); }
    if c.op == Ne { return Some(c.operand != value); }
    if !e.compiles(NoCase(c.operand)) { return None; }
    var found := e.matches(NoCase(c.operand), value);
    return Some(if c.op == Re then found else !found);
  }

  lemma MatchIs(s: string, e: Engine, alert: map<string, string>, items: seq<Item>)
    requires Scan(s) == Ok(items) && Compile(e, items)
    ensures Match(s, e, alert)
            == match Reduce(Truths(e, alert, items)) case None => Err case Some(v) => Ok(v)
  {
  }

  /** The verdict of a rule on an alert, or an error. */
  method MatchAlertRule(s: string, e: Engine, alert: map<string, string>) returns (r: Result<bool>)
    ensures r == Match(s, e, alert)
    ensures forall v :: r == Ok(v) <==> exists d :: S.Judged(s, e, alert, d, v)
  {
    hide S.Judged;
    S.MatchSpells(s, e, alert);
    hide Term, After, Cat, SkipWs, LexKey, Operand, Truths, Compile, Reduce, Denotes, TruthOf, Match, Scan;
    TruthsMore(e, alert, [], Open);
    var pos: nat, par: nat, pending := 0, 0, false;
    var stack: Stack := [];
    ghost var items: seq<Item> := [];
    StartFacts(s, e);
    while pos < |s|
      invariant pos <= |s| && Scan(s) == Cat(items, Term(s[pos..], par, pending))
      invariant stack == Truths(e, alert, items) && Compile(e, items)
    {
      ghost var rest := Term(s[pos..], par, pending);
      CatCat(items, [], rest);
      var at := SkipSpaces(s, pos);
      TermAt(s, pos, at, par, pending);
      if rest == Err { ScanErr(s, e); }
      if at == |s| {
        if par != 0 || pending { return Err; }
        MatchIs(s, e, alert, items);
        r := Verdict(stack);
        return;
      }
      var lexed := LexKey(s[at..]);
      if lexed.None? {
        if s[at] != '(' { return Err; }
        CatCat(items, [Open], Term(s[at + 1..], par + 1, false));
        TruthsMore(e, alert, items, Open);
        CompileMoreNoCase(e, items, [Open]);
        stack := stack + [Open];
        items, par, pending, pos := items + [Open], par + 1, false, at + 1;
        continue;
      }
      var k := lexed.value;
      TermAtKey(s, pos, at, par, pending, k);
      var text, next := ReadOperand(s, k.op, |s| - |k.rest|);
      if next.None? { return Err; }
      var c := Cmp(k.key, k.op, text);
      var truth := Judge(e, alert, c);
      if truth.None? {
        BadPattern(s, e, items, c, After(s[next.value..], par));
        return Err;
      }
      stack := stack + [Leaf(truth.value)];
      TruthsMore(e, alert, items, Leaf(c));
      CompileMoreNoCase(e, items, [Leaf(c)]);
      CatCat(items, [Leaf(c)], After(s[next.value..], par));
      items := items + [Leaf(c)];
      var joint := ReadJoint(s, next.value, par);
      CatCat(items, [], After(s[next.value..], par));
      if joint.Fail? {
        ScanErr(s, e);
        return Err;
      }
      TruthsConcat(e, alert, items, joint.toks);
      CompileMoreNoCase(e, items, joint.toks);
      stack := stack + Truths(e, alert, joint.toks);
      if joint.Stop? {
        JointStop(s, items, joint.toks, next.value, par);
        MatchIs(s, e, alert, items + joint.toks);
        r := Verdict(stack);
        return;
      }
      CatCat(items, joint.toks, Term(s[joint.pos..], joint.par, true));
      items, pos, par, pending := items + joint.toks, joint.pos, joint.par, true;
    }
    EndFacts(s, items, par, pending);
    MatchIs(s, e, alert, items);
    r := Verdict(stack);
  }

  lemma TruthsMore(e: Engine, alert: map<string, string>, items: seq<Item>, t: Item)
    ensures Truths(e, alert, items + [t]) == Truths(e, alert, items) + [TruthOf(e, alert, t)]
    ensures Truths(e, alert, []) == []
    ensures TruthOf(e, alert, Open) == Open
  {
    assert (items + [t])[..|items|] == items;
  }

  method Verdict(stack: Stack) returns (r: Result<bool>)
    ensures r == match Reduce(stack) case None => Err case Some(v) => Ok(v)
  {
    var v := ResolveStack(stack);
    return if v.None? then Err else Ok(v.value);
  }
}
