/** Writing expressions as rule texts: whatever is printed is read back, and evaluates as written. */
module RuleText {
  import opened Basics
  import opened RuleGrammar
  import opened RuleScan
  import opened RuleMeaning

  // ---------- printing ----------

  function OpText(op: Op): string {
    match op case Eq => "==" case Ne => "!=" case Re => "=~" case NotRe => "!~"
  }

  /** Backslash and slash get a backslash in front. */
  function EscapeChar(c: char): string { if c == '\\' || c == '/' then ['\\', c] else [c] }

  function Escape(p: string): string {
    if p == "" then "" else EscapeChar(p[0]) + Escape(p[1..])
  }

  function OperandText(c: Cmp): (r: string)
    ensures |r| >= 2
  {
    if IsPattern(c) then "/" + Escape(c.operand) + "/" else "\"" + c.operand + "\""
  }

  function TokText(t: Item): string {
    match t
    case Leaf(c) => c.key + " " + OpText(c.op) + " " + OperandText(c)
    case Open => "("
    case Close => ")"
    case And => "&&"
    case Or => "||"
  }

  predicate AllWs(s: string) { forall i :: 0 <= i < |s| ==> Ws(s[i]) }

  /** The tokens in order, a gap of white space before each. */
  function Text(gap: string, items: seq<Item>): string {
    if items == [] then "" else gap + TokText(items[0]) + Text(gap, items[1..])
  }

  // ---------- what can be printed ----------

  /** The quoted reading takes backslash pairs whole, so no quote or newline may stand outside a pair,
      and the text may not end on a backslash of its own. */
  predicate Quotable(v: string) {
    if v == "" then true
    else if v[0] == '\\' && |v| > 1 && (v[1] == '\\' || v[1] == '"') then Quotable(v[2..])
    else v != "\\" && v[0] != '"' && v[0] != '\n' && Quotable(v[1..])
  }

  predicate Printable(c: Cmp) {
    && c.key != "" && (forall i :: 0 <= i < |c.key| ==> KeyChar(c.key[i]))
    && if IsPattern(c) then '\n' !in c.operand else Quotable(c.operand)
  }

  predicate AllPrintable(items: seq<Item>) {
    forall t :: t in items && t.Leaf? ==> Printable(t.v)
  }

  /** A value reads back from between quotes exactly when it is quotable: the text is taken raw. */
  lemma {:induction false} QuotedExact(v: string, t: string)
    ensures QuotedLen(v + "\"" + t) == Some(|v|) <==> Quotable(v)
  {
    var s := v + "\"" + t;
    if v == "" {
    } else if v[0] == '\\' && |v| > 1 && (v[1] == '\\' || v[1] == '"') {
      assert s[2..] == v[2..] + "\"" + t;
      QuotedExact(v[2..], t);
    } else {
      assert s[1..] == v[1..] + "\"" + t;
      QuotedExact(v[1..], t);
    }
  }

  function Prefixed(c: char, r: Option<Piece>): Option<Piece> {
    match r case None => None case Some(p) => Some(Piece([c] + p.text, p.rest))
  }

  lemma PatternPlain(c: char, s: string)
    requires c != '\\' && c != '/' && c != '\n'
    ensures PatternOf([c] + s) == Prefixed(c, PatternOf(s))
  {
    assert ([c] + s)[1..] == s;
  }

  lemma PatternPair(c: char, s: string)
    requires c == '\\' || c == '/'
    ensures PatternOf(['\\', c] + s) == Prefixed(c, PatternOf(s))
  {
    assert (['\\', c] + s)[2..] == s;
  }

  lemma EscapeFirst(p: string)
    requires p != ""
    ensures Escape(p) == EscapeChar(p[0]) + Escape(p[1..])
    ensures [p[0]] + p[1..] == p
  {
    hide EscapeChar;
  }

  lemma {:induction false} PatternBack(p: string, t: string)
    requires '\n' !in p
    ensures PatternOf(Escape(p) + "/" + t) == Some(Piece(p, t))
  {
    if p == "" {
      assert Escape(p) + "/" + t == "/" + t && ("/" + t)[1..] == t;
    } else {
      hide PatternOf, Escape;
      PatternBack(p[1..], t);
      var e := Escape(p[1..]);
      EscapeFirst(p);
      var x := EscapeChar(p[0]);
      Assoc(x, e, "/");
      Assoc(x, e + "/", t);
      if p[0] == '\\' || p[0] == '/' {
        PatternPair(p[0], e + "/" + t);
      } else {
        PatternPlain(p[0], e + "/" + t);
      }
    }
  }

  // ---------- reading back ----------

  lemma {:induction false} SkipGap(gap: string, s: string)
    requires AllWs(gap)
    ensures SkipWs(gap + s) == SkipWs(s)
  {
    if gap == "" {
      assert gap + s == s;
    } else {
      assert (gap + s)[1..] == gap[1..] + s;
      SkipGap(gap[1..], s);
    }
  }

  lemma {:induction false} KeyBack(key: string, s: string)
    requires forall i :: 0 <= i < |key| ==> KeyChar(key[i])
    requires s != "" && !KeyChar(s[0])
    ensures KeyLen(key + s) == |key|
  {
    if key == "" {
      assert key + s == s;
    } else {
      assert (key + s)[1..] == key[1..] + s;
      KeyBack(key[1..], s);
    }
  }

  lemma OpBack(op: Op, rest: string)
    ensures OpAt(OpText(op) + rest) == Some(op) && (OpText(op) + rest)[2..] == rest
    ensures !Blank((OpText(op) + rest)[0])
  {
    var o := OpText(op);
    assert (o + rest)[0] == o[0] && (o + rest)[1] == o[1];
    assert forall p: string :: |p| == 2 && p <= o + rest ==> p[0] == o[0] && p[1] == o[1];
    assert o <= o + rest;
  }

  lemma SkipOne(s: string)
    requires s != "" && !Blank(s[0])
    ensures SkipBlanks(" " + s) == s
  {
    assert (" " + s)[1..] == s;
  }

  /** A key, one blank, an operator, one blank: lexed as they stand. */
  lemma LexParts(key: string, op: Op, u: string)
    requires key != "" && (forall i :: 0 <= i < |key| ==> KeyChar(key[i]))
    requires u != "" && !Blank(u[0]) && !Space(u[0])
    ensures LexKey(key + (" " + (OpText(op) + (" " + u)))) == Some(KeyOp(key, op, u))
  {
    hide OpText, OpAt, SkipBlanks, KeyLen;
    var v := OpText(op) + (" " + u);
    var w := " " + v;
    OpBack(op, " " + u);
    SkipOne(u);
    SkipOne(v);
    KeyBack(key, w);
    assert (key + w)[|key|..] == w && (key + w)[..|key|] == key;
  }

  lemma LexBack(c: Cmp, tail: string)
    requires Printable(c)
    ensures LexKey(TokText(Leaf(c)) + tail) == Some(KeyOp(c.key, c.op, OperandText(c) + tail))
  {
    var u := OperandText(c) + tail;
    assert u[0] == '"' || u[0] == '/';
    hide OperandText, OpText, LexKey;
    LexParts(c.key, c.op, u);
    var o := OpText(c.op);
    var t := OperandText(c);
    Assoc(c.key + " " + o + " ", t, tail);
    Assoc(c.key + " " + o, " ", u);
    Assoc(c.key + " ", o, " " + u);
    Assoc(c.key, " ", o + (" " + u));
  }

  lemma QuotedAlone(op: Op, v: string, rest: string)
    requires (op == Eq || op == Ne) && Quotable(v) && EndsWord(rest)
    ensures Operand(op, "\"" + v + "\"" + rest) == Some(Piece(v, rest))
  {
    hide Quotable, QuotedLen, EndsWord;
    var s := "\"" + v + "\"" + rest;
    assert s[1..] == v + "\"" + rest;
    QuotedExact(v, rest);
    assert s[1..|v| + 1] == v && s[|v| + 2..] == rest;
  }

  lemma OperandBack(c: Cmp, tail: string)
    requires Printable(c) && EndsWord(tail)
    ensures Operand(c.op, OperandText(c) + tail) == Some(Piece(c.operand, tail))
  {
    hide Escape, Quotable, EndsWord, Operand;
    if IsPattern(c) {
      EscapedAlone(c.op, c.operand, tail);
    } else {
      QuotedAlone(c.op, c.operand, tail);
    }
  }

  lemma EscapedAlone(op: Op, p: string, tail: string)
    requires !(op == Eq || op == Ne) && '\n' !in p && EndsWord(tail)
    ensures Operand(op, "/" + Escape(p) + "/" + tail) == Some(Piece(p, tail))
  {
    hide PatternOf, Escape, EndsWord;
    assert ("/" + Escape(p) + "/" + tail)[1..] == Escape(p) + "/" + tail;
    PatternBack(p, tail);
  }

  lemma AfterGap(gap: string, s: string, par: nat)
    requires AllWs(gap)
    ensures After(gap + s, par) == After(s, par)
  {
    SkipGap(gap, s);
  }

  lemma TermGap(gap: string, s: string, par: nat, pending: bool)
    requires AllWs(gap) && s != ""
    ensures Term(gap + s, par, pending) == Term(s, par, pending)
  {
    SkipGap(gap, s);
  }

  lemma LeafBack(c: Cmp, tail: string, par: nat, pending: bool)
    requires Printable(c) && EndsWord(tail)
    ensures Term(TokText(Leaf(c)) + tail, par, pending) == Cat([Leaf(c)], After(tail, par))
  {
    var s := TokText(Leaf(c)) + tail;
    assert s[0] == c.key[0];
    LexBack(c, tail);
    OperandBack(c, tail);
    hide LexKey, Operand, TokText, After;
    assert SkipWs(s) == s;
  }

  lemma OpenBack(tail: string, par: nat, pending: bool)
    ensures Term("(" + tail, par, pending) == Cat([Open], Term(tail, par + 1, false))
  {
    var s := "(" + tail;
    assert SkipWs(s) == s && KeyLen(s) == 0 && LexKey(s).None? && s[1..] == tail;
  }

  lemma SignBack(tail: string, par: nat)
    ensures par > 0 ==> After(")" + tail, par) == Cat([Close], After(tail, par - 1))
    ensures After("||" + tail, par) == Cat([Or], Term(tail, par, true))
    ensures After("&&" + tail, par) == Cat([And], Term(tail, par, true))
  {
    hide Term;
    assert (")" + tail)[1..] == tail && ("||" + tail)[2..] == tail && ("&&" + tail)[2..] == tail;
    assert SkipWs(")" + tail) == ")" + tail;
    assert SkipWs("||" + tail) == "||" + tail;
    assert SkipWs("&&" + tail) == "&&" + tail && ("&&" + tail)[0] == '&';
  }

  // ---------- whole expressions ----------

  lemma {:induction false} TextConcat(gap: string, a: seq<Item>, b: seq<Item>)
    ensures Text(gap, a + b) == Text(gap, a) + Text(gap, b)
    decreases |a|
  {
    hide TokText;
    if a == [] {
      assert a + b == b && Text(gap, a) + Text(gap, b) == Text(gap, b);
    } else {
      assert (a + b)[1..] == a[1..] + b && (a + b)[0] == a[0];
      TextConcat(gap, a[1..], b);
      Assoc(gap + TokText(a[0]), Text(gap, a[1..]), Text(gap, b));
    }
  }

  lemma TextOne(gap: string, t: Item)
    ensures Text(gap, [t]) == gap + TokText(t)
  {
    hide TokText;
    assert [t][1..] == [] && Text(gap, []) == "";
  }

  /** The text of a ++ [t] ++ b, followed by more. */
  lemma TextAround(gap: string, a: seq<Item>, t: Item, b: seq<Item>, tail: string)
    ensures Text(gap, a + [t] + b) + tail == Text(gap, a) + (gap + (TokText(t) + (Text(gap, b) + tail)))
  {
    TextConcat(gap, a + [t], b);
    TextConcat(gap, a, [t]);
    TextOne(gap, t);
    hide Text, TokText;
    var x, y, z := Text(gap, a), TokText(t), Text(gap, b);
    Assoc(x + (gap + y), z, tail);
    Assoc(x, gap + y, z + tail);
    Assoc(gap, y, z + tail);
  }

  ghost predicate Gap(gap: string) { gap != "" && AllWs(gap) }

  lemma JoinsBack(gap: string, x: seq<Item>, t: Item, y: seq<Item>, tail: string, par: nat)
    requires Gap(gap) && (t == And || t == Or)
    requires Term(Text(gap, y) + tail, par, true) == Cat(y, After(tail, par))
    ensures var more := gap + (TokText(t) + (Text(gap, y) + tail));
            EndsWord(more) && Cat(x, After(more, par)) == Cat(x + [t] + y, After(tail, par))
  {
    var u := Text(gap, y) + tail;
    SignBack(u, par);
    AfterGap(gap, TokText(t) + u, par);
    CatCat(x + [t], y, After(tail, par));
    CatCat(x, [t], Cat(y, After(tail, par)));
  }

  lemma {:induction false} TermD(gap: string, d: Disj<Cmp>, tail: string, par: nat, pending: bool)
    requires Gap(gap) && AllPrintable(PrintD(d)) && EndsWord(tail)
    ensures Term(Text(gap, PrintD(d)) + tail, par, pending) == Cat(PrintD(d), After(tail, par))
    decreases d
  {
    hide Term, After, Text, TokText, EndsWord, Cat, Gap;
    if d.One? {
      TermC(gap, d.c, tail, par, pending);
    } else {
      var x, y := PrintC(d.c), PrintD(d.d);
      TermD(gap, d.d, tail, par, true);
      JoinsBack(gap, x, Or, y, tail, par);
      TermC(gap, d.c, gap + (TokText(Or) + (Text(gap, y) + tail)), par, pending);
      TextAround(gap, x, Or, y, tail);
    }
  }

  lemma {:induction false} TermC(gap: string, c: Conj<Cmp>, tail: string, par: nat, pending: bool)
    requires Gap(gap) && AllPrintable(PrintC(c)) && EndsWord(tail)
    ensures Term(Text(gap, PrintC(c)) + tail, par, pending) == Cat(PrintC(c), After(tail, par))
    decreases c
  {
    hide Term, After, Text, TokText, EndsWord, Cat, Gap;
    if c.Single? {
      TermA(gap, c.a, tail, par, pending);
    } else {
      var x, y := PrintA(c.a), PrintC(c.c);
      TermC(gap, c.c, tail, par, true);
      JoinsBack(gap, x, And, y, tail, par);
      TermA(gap, c.a, gap + (TokText(And) + (Text(gap, y) + tail)), par, pending);
      TextAround(gap, x, And, y, tail);
    }
  }

  lemma {:induction false} TermA(gap: string, a: Atom<Cmp>, tail: string, par: nat, pending: bool)
    requires Gap(gap) && AllPrintable(PrintA(a)) && EndsWord(tail)
    ensures Term(Text(gap, PrintA(a)) + tail, par, pending) == Cat(PrintA(a), After(tail, par))
    decreases a
  {
    if a.Lit? {
      var t := Leaf(a.v);
      assert PrintA(a) == [t] && t in PrintA(a);
      TextOne(gap, t);
      hide Term, After, TokText, Text;
      Assoc(gap, TokText(t), tail);
      TermGap(gap, TokText(t) + tail, par, pending);
      LeafBack(a.v, tail, par, pending);
    } else {
      TermPar(gap, a.d, tail, par, pending);
    }
  }

  lemma {:induction false} TermPar(gap: string, d: Disj<Cmp>, tail: string, par: nat, pending: bool)
    requires Gap(gap) && AllPrintable(PrintA(Par(d))) && EndsWord(tail)
    ensures Term(Text(gap, PrintA(Par(d))) + tail, par, pending) == Cat(PrintA(Par(d)), After(tail, par))
    decreases Par(d), 0
  {
    hide Term, After, Text, EndsWord, Cat;
    var p := PrintD(d);
    assert forall t :: t in p ==> t in PrintA(Par(d));
    var more := gap + (")" + tail);
    var u := Text(gap, p) + more;
    TermGap(gap, "(" + u, par, pending);
    OpenBack(u, par, pending);
    EndsGap(gap, ")" + tail);
    TermD(gap, d, more, par + 1, false);
    AfterGap(gap, ")" + tail, par + 1);
    SignBack(tail, par + 1);
    CatCat([Open] + p, [Close], After(tail, par));
    CatCat([Open], p, Cat([Close], After(tail, par)));
    ParText(gap, p, tail);
  }

  lemma EndsGap(gap: string, s: string)
    requires Gap(gap)
    ensures EndsWord(gap + s)
  {
  }

  lemma ParText(gap: string, p: seq<Item>, tail: string)
    ensures Text(gap, [Open] + p + [Close]) + tail == gap + ("(" + (Text(gap, p) + (gap + (")" + tail))))
  {
    TextAround(gap, [Open] + p, Close, [], tail);
    assert [Open] + p + [Close] + [] == [Open] + p + [Close];
    TextAround(gap, [], Open, p, gap + (")" + tail));
    assert [] + [Open] + p == [Open] + p;
    assert Text(gap, []) == "";
    assert "" + tail == tail;
    var more := gap + ("(" + (Text(gap, p) + (gap + (")" + tail))));
    assert "" + more == more;
  }

  /** Printed with any white space between the tokens and at the end, an expression is read back. */
  lemma ReadBack(gap: string, d: Disj<Cmp>, end: string)
    requires Gap(gap) && AllWs(end) && AllPrintable(PrintD(d))
    ensures Scan(Text(gap, PrintD(d)) + end) == Ok(PrintD(d))
  {
    hide Text, PrintD;
    TermD(gap, d, end, 0, false);
    assert end + "" == end;
    SkipGap(end, "");
    assert PrintD(d) + [] == PrintD(d);
  }

  /** The verdict on a printed expression is the value of the expression on the alert, if its patterns compile. */
  lemma PrintedVerdict(gap: string, d: Disj<Cmp>, end: string, e: Engine, alert: map<string, string>)
    requires Gap(gap) && AllWs(end) && AllPrintable(PrintD(d))
    ensures Match(Text(gap, PrintD(d)) + end, e, alert) ==
            if Compile(e, PrintD(d)) then Ok(EvalD(ValueD(e, alert, d))) else Err
  {
    hide Text, PrintD, Reduce, Compile;
    ReadBack(gap, d, end);
    if Compile(e, PrintD(d)) { VerdictIsValue(Text(gap, PrintD(d)) + end, e, alert, d); }
  }

  /** A pattern may compile alone and not in the group: the field reader then accepts a rule that gives no verdict. */
  lemma GroupRefused(gap: string, key: string, p: string, end: string, e: Engine, alert: map<string, string>)
    requires Gap(gap) && AllWs(end) && Printable(Cmp(key, Re, p))
    requires e.compiles(p) && !e.compiles(NoCase(p))
    ensures var rule := Text(gap, [Leaf(Cmp(key, Re, p))]) + end;
            Fields(rule, e) == Ok([key]) && Match(rule, e, alert) == Err
  {
    var c := Cmp(key, Re, p);
    OneLeaf(c);
    OneKey(c);
    hide Text, PrintD, Scan, Keys, Reduce, NoCase;
    ReadBack(gap, One(Single(Lit(c))), end);
    assert Leaf(c) in [Leaf(c)];
  }

  lemma OneLeaf(c: Cmp)
    ensures PrintD(One(Single(Lit(c)))) == [Leaf(c)]
  {
    assert PrintA(Lit(c)) == [Leaf(c)];
    assert PrintC(Single(Lit(c))) == [Leaf(c)];
  }

  lemma OneKey(c: Cmp)
    ensures Keys([Leaf(c)]) == [c.key]
  {
    assert [Leaf(c)][..0] == [] && Keys([]) == [];
  }
}
