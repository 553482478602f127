/** The meaning of a rule text: printed expressions evaluate as written, the collected fields decide
    the verdict, and the cases in which an accepted rule cannot be evaluated. */
module RuleMeaning {
  import opened Basics
  import opened RuleGrammar
  import opened RuleScan
  import opened RuleFacts

  // ---------- the verdict is the value of the expression ----------

  function ValueD(e: Engine, alert: map<string, string>, d: Disj<Cmp>): Disj<bool> {
    match d
    case One(c) => One(ValueC(e, alert, c))
    case OrElse(c, f) => OrElse(ValueC(e, alert, c), ValueD(e, alert, f))
  }

  function ValueC(e: Engine, alert: map<string, string>, c: Conj<Cmp>): Conj<bool> {
    match c
    case Single(a) => Single(ValueA(e, alert, a))
    case AndAlso(a, f) => AndAlso(ValueA(e, alert, a), ValueC(e, alert, f))
  }

  function ValueA(e: Engine, alert: map<string, string>, a: Atom<Cmp>): Atom<bool> {
    match a
    case Lit(c) => Lit(Truth(e, alert, c))
    case Par(d) => Par(ValueD(e, alert, d))
  }

  lemma TruthsConcat(e: Engine, alert: map<string, string>, a: seq<Item>, b: seq<Item>)
    ensures Truths(e, alert, a + b) == Truths(e, alert, a) + Truths(e, alert, b)
  {
  }

  lemma TruthsOne(e: Engine, alert: map<string, string>, t: Item)
    ensures Truths(e, alert, [t]) == [TruthOf(e, alert, t)]
  {
    assert [t][..0] == [];
  }

  lemma {:induction false} TruthsD(e: Engine, alert: map<string, string>, d: Disj<Cmp>)
    ensures Truths(e, alert, PrintD(d)) == PrintD(ValueD(e, alert, d))
    decreases d
  {
    hide Truths, PrintC, ValueC;
    TruthsC(e, alert, d.c);
    TruthsOne(e, alert, Or);
    if d.OrElse? {
      TruthsD(e, alert, d.d);
      TruthsConcat(e, alert, PrintC(d.c) + [Or], PrintD(d.d));
      TruthsConcat(e, alert, PrintC(d.c), [Or]);
    }
  }

  lemma {:induction false} TruthsC(e: Engine, alert: map<string, string>, c: Conj<Cmp>)
    ensures Truths(e, alert, PrintC(c)) == PrintC(ValueC(e, alert, c))
    decreases c
  {
    hide Truths, PrintA, ValueA;
    TruthsA(e, alert, c.a);
    TruthsOne(e, alert, And);
    if c.AndAlso? {
      TruthsC(e, alert, c.c);
      TruthsConcat(e, alert, PrintA(c.a) + [And], PrintC(c.c));
      TruthsConcat(e, alert, PrintA(c.a), [And]);
    }
  }

  lemma {:induction false} TruthsA(e: Engine, alert: map<string, string>, a: Atom<Cmp>)
    ensures Truths(e, alert, PrintA(a)) == PrintA(ValueA(e, alert, a))
    decreases a
  {
    match a
    case Lit(c) => TruthsOne(e, alert, Leaf(c));
    case Par(d) =>
      TruthsD(e, alert, d);
      TruthsPar(e, alert, d);
  }

  lemma TruthsPar(e: Engine, alert: map<string, string>, d: Disj<Cmp>)
    requires Truths(e, alert, PrintD(d)) == PrintD(ValueD(e, alert, d))
    ensures Truths(e, alert, PrintA(Par(d))) == PrintA(ValueA(e, alert, Par(d)))
  {
    hide Truths, PrintD, ValueD;
    TruthsOne(e, alert, Open);
    TruthsOne(e, alert, Close);
    TruthsConcat(e, alert, [Open] + PrintD(d), [Close]);
    TruthsConcat(e, alert, [Open], PrintD(d));
  }

  /** The verdict on an accepted expression is its value, with && binding tighter than ||. */
  lemma {:induction false} VerdictIsValue(s: string, e: Engine, alert: map<string, string>, d: Disj<Cmp>)
    requires Scan(s) == Ok(PrintD(d)) && Compile(e, PrintD(d))
    ensures Match(s, e, alert) == Ok(EvalD(ValueD(e, alert, d)))
  {
    TruthsD(e, alert, d);
    var v := EvalD(ValueD(e, alert, d));
    assert Denotes(Truths(e, alert, PrintD(d)), v);
    ReduceDenotes(Truths(e, alert, PrintD(d)), v);
  }

  // ---------- when an accepted rule can be evaluated ----------

  /** An accepted rule gives a verdict exactly when its text does not end before an operand and its patterns also
      compile in the case-insensitive group. */
  lemma {:induction false} AcceptedEvaluates(s: string, e: Engine, alert: map<string, string>)
    requires Fields(s, e).Ok?
    ensures Match(s, e, alert).Ok? <==> Complete(Scan(s).value, false) && Compile(e, Scan(s).value)
  {
    hide Term, PrintD, Reduce;
    var items := Scan(s).value;
    AcceptedExpression(s);
    if Complete(items, false) && Compile(e, items) {
      var d :| PrintD(d) == items;
      VerdictIsValue(s, e, alert, d);
    }
    if Match(s, e, alert).Ok? {
      DenotesComplete(items, e, alert, Match(s, e, alert).value);
    }
  }

  lemma DenotesComplete(items: seq<Item>, e: Engine, alert: map<string, string>, v: bool)
    requires Reduce(Truths(e, alert, items)) == Some(v)
    ensures Complete(items, false)
  {
    hide PrintD;
    var a := Truths(e, alert, items);
    ReduceDenotes(a, v);
    var d :| PrintD(d) == a;
    LastToken(d);
    assert a[|a| - 1] == TruthOf(e, alert, items[|items| - 1]);
  }

  ghost predicate EndsInNewline(s: string) { s != "" && s[|s| - 1] == '\n' }

  lemma NewlineAfter(s: string, n: nat)
    requires EndsInNewline(s) && 0 < n <= |s| && s[n - 1] != '\n'
    ensures EndsInNewline(s[n..])
  {
  }

  lemma {:induction false} TermNewline(s: string, par: nat, pending: bool)
    requires EndsInNewline(s) && Term(s, par, pending).Ok?
    ensures Complete(Term(s, par, pending).value, !pending)
    ensures Term(s, par, pending).value == [] ==> par == 0
    decreases |s|, 1
  {
    hide LexKey, Operand, After;
    var t := SkipWs(s);
    if t != "" {
      match LexKey(t)
      case Some(k) =>
        var p := Operand(k.op, k.rest).value;
        AfterNewline(p.rest, par);
      case None =>
        NewlineAfter(t, 1);
        TermNewline(t[1..], par + 1, false);
    }
  }

  lemma {:induction false} AfterNewline(s: string, par: nat)
    requires (s == "" || EndsInNewline(s)) && After(s, par).Ok?
    ensures Complete(After(s, par).value, true)
    decreases |s|, 0
  {
    hide Term;
    var t := SkipWs(s);
    if t != "" {
      if t[0] == ')' {
        AfterNewline(t[1..], par - 1);
      } else {
        NewlineAfter(t, 2);
        TermNewline(t[2..], par, true);
      }
    }
  }

  lemma {:induction false} HasComparison<T>(d: Disj<T>) returns (v: T)
    ensures Leaf(v) in PrintD(d)
    decreases d
  {
    match d.c.a {
      case Lit(x) => v := x;
      case Par(e) => v := HasComparison(e);
    }
    assert Leaf(v) in PrintA(d.c.a);
    assert Leaf(v) in PrintC(d.c);
  }

  /** An accepted rule whose text ends in a newline gives a verdict exactly when it has a comparison and its patterns
      compile in the group. */
  lemma {:induction false} NewlineEvaluates(s: string, e: Engine, alert: map<string, string>)
    requires EndsInNewline(s) && Fields(s, e).Ok?
    ensures Match(s, e, alert).Ok? <==> Fields(s, e).value != [] && Compile(e, Scan(s).value)
  {
    TermNewline(s, 0, false);
    AcceptedEvaluates(s, e, alert);
    AcceptedExpression(s);
    hide Term, PrintD, Complete, Compile;
    var items := Scan(s).value;
    if Match(s, e, alert).Ok? {
      var d :| PrintD(d) == items;
      var c := HasComparison(d);
      assert c.key in Keys(items);
    } else {
      EmptyKeys(items);
    }
  }

  lemma EmptyKeys(items: seq<Item>)
    ensures items == [] ==> Keys(items) == []
    ensures !Complete(items, true) || Complete(items, false) || items == []
  {
  }

  /** Without the newline it need not: the field reader accepts a text that is cut off after a parenthesis. */
  lemma {:induction false} CutOff(e: Engine, alert: map<string, string>)
    ensures Fields("(", e) == Ok([]) && Match("(", e, alert) == Err
  {
    var items: seq<Item> := [Open];
    var t := "(";
    assert SkipWs(t) == t && KeyLen(t) == 0 && LexKey(t).None?;
    assert t[1..] == "" && Term(t[1..], 1, false) == Ok([]);
    assert items + [] == items;
    assert Term(t, 0, false) == Ok(items);
    assert items[..0] == [] && Keys(items) == [];
    AcceptedEvaluates("(", e, alert);
  }

  // ---------- the fields decide ----------

  lemma {:induction false} SameTruths(items: seq<Item>, e: Engine, a: map<string, string>, b: map<string, string>)
    requires forall t :: t in items && t.Leaf? ==> Field(a, t.v.key) == Field(b, t.v.key)
    ensures Truths(e, a, items) == Truths(e, b, items)
    decreases |items|
  {
    if items != [] {
      assert items[|items| - 1] in items;
      SameTruths(items[..|items| - 1], e, a, b);
    }
  }

  /** Two alerts that agree on the fields of a rule get the same verdict. */
  lemma {:induction false} FieldsDecide(s: string, e: Engine, a: map<string, string>, b: map<string, string>)
    requires Fields(s, e).Ok? && forall k :: k in Fields(s, e).value ==> Field(a, k) == Field(b, k)
    ensures Match(s, e, a) == Match(s, e, b)
  {
    hide Term;
    SameTruths(Scan(s).value, e, a, b);
  }
}
