/** What the scanner guarantees: the shape of accepted texts, and when they are expressions. */
module RuleFacts {
  import opened Basics
  import opened RuleGrammar
  import opened RuleScan

  // ---------- the shape of an accepted token list ----------

  /** The tokens can follow with depth parentheses open; after says whether an operand came last. */
  ghost predicate Shape(items: seq<Item>, depth: nat, after: bool)
    decreases |items|
  {
    if items == [] then after ==> depth == 0
    else
      match items[0]
      case Leaf(_) => !after && Shape(items[1..], depth, true)
      case Open => !after && Shape(items[1..], depth + 1, false)
      case Close => after && depth > 0 && Shape(items[1..], depth - 1, true)
      case And => after && Shape(items[1..], depth, false)
      case Or => after && Shape(items[1..], depth, false)
  }

  lemma {:induction false} TermShape(s: string, par: nat, pending: bool)
    ensures Term(s, par, pending).Ok? ==> Shape(Term(s, par, pending).value, par, false)
    decreases |s|, 1
  {
    hide LexKey, Operand, Shape, Cat, After;
    ShapeNil(par);
    var t := SkipWs(s);
    if t != "" {
      match LexKey(t)
      case Some(k) =>
        var p := Operand(k.op, k.rest);
        if p.Some? {
          AfterShape(p.value.rest, par);
          ShapeCons(Leaf(Cmp(k.key, k.op, p.value.text)), After(p.value.rest, par), par, false, par, true);
        }
      case None =>
        if t[0] == '(' {
          TermShape(t[1..], par + 1, false);
          ShapeCons(Open, Term(t[1..], par + 1, false), par, false, par + 1, false);
        }
    }
  }

  lemma {:induction false} AfterShape(s: string, par: nat)
    ensures After(s, par).Ok? ==> Shape(After(s, par).value, par, true)
    decreases |s|, 0
  {
    hide Term, Shape, Cat;
    ShapeNil(par);
    var t := SkipWs(s);
    if t != "" {
      if t[0] == ')' {
        if par > 0 {
          AfterShape(t[1..], par - 1);
          ShapeCons(Close, After(t[1..], par - 1), par, true, par - 1, true);
        }
      } else if "||" <= t {
        TermShape(t[2..], par, true);
        ShapeCons(Or, Term(t[2..], par, true), par, true, par, false);
      } else if "&&" <= t {
        TermShape(t[2..], par, true);
        ShapeCons(And, Term(t[2..], par, true), par, true, par, false);
      }
    }
  }

  lemma ShapeNil(d: nat)
    ensures Shape([], d, false) && Shape([], 0, true)
  {
  }

  lemma ShapeCons(x: Item, r: Result<seq<Item>>, d: nat, after: bool, d': nat, after': bool)
    requires r.Ok? ==> Shape(r.value, d', after')
    requires match x
             case Leaf(_) => !after && after' && d' == d
             case Open => !after && !after' && d' == d + 1
             case Close => after && after' && d' == d - 1
             case _ => after && !after' && d' == d
    ensures Cat([x], r).Ok? ==> Shape(Cat([x], r).value, d, after)
  {
    if r.Ok? { assert ([x] + r.value)[1..] == r.value; }
  }

  // ---------- a complete token list is an expression ----------

  /** What stands before the operand being read, at one level of parentheses. */
  datatype Before = Nothing | Joined(d: Disj<Cmp>, op: Item)

  datatype Level = Top | In(up: Level, before: Before)

  ghost function BeforeToks(b: Before): seq<Item> {
    match b case Nothing => [] case Joined(d, op) => PrintD(d) + [op]
  }

  ghost function LevelToks(l: Level): seq<Item> {
    match l case Top => [] case In(up, b) => LevelToks(up) + BeforeToks(b) + [Open]
  }

  ghost function Depth(l: Level): nat {
    match l case Top => 0 case In(up, _) => Depth(up) + 1
  }

  ghost predicate Operator(b: Before) { b.Joined? ==> b.op == And || b.op == Or }

  ghost predicate Operators(l: Level) { l.In? ==> Operator(l.before) && Operators(l.up) }

  ghost function AddAndC(c: Conj<Cmp>, a: Atom<Cmp>): Conj<Cmp> {
    match c case Single(b) => AndAlso(b, Single(a)) case AndAlso(b, e) => AndAlso(b, AddAndC(e, a))
  }

  ghost function AddAnd(d: Disj<Cmp>, a: Atom<Cmp>): Disj<Cmp> {
    match d case One(c) => One(AddAndC(c, a)) case OrElse(c, e) => OrElse(c, AddAnd(e, a))
  }

  ghost function AddOr(d: Disj<Cmp>, a: Atom<Cmp>): Disj<Cmp> {
    match d case One(c) => OrElse(c, One(Single(a))) case OrElse(c, e) => OrElse(c, AddOr(e, a))
  }

  ghost function Extend(b: Before, a: Atom<Cmp>): Disj<Cmp> {
    match b
    case Nothing => One(Single(a))
    case Joined(d, op) => if op == And then AddAnd(d, a) else AddOr(d, a)
  }

  lemma {:induction false} AddAndPrints(d: Disj<Cmp>, a: Atom<Cmp>)
    ensures PrintD(AddAnd(d, a)) == PrintD(d) + [And] + PrintA(a)
    decreases d
  {
    match d
    case One(c) => AddAndCPrints(c, a);
    case OrElse(c, e) => AddAndPrints(e, a);
  }

  lemma {:induction false} AddAndCPrints(c: Conj<Cmp>, a: Atom<Cmp>)
    ensures PrintC(AddAndC(c, a)) == PrintC(c) + [And] + PrintA(a)
    decreases c
  {
    match c
    case Single(b) => assert PrintC(Single(a)) == PrintA(a);
    case AndAlso(b, e) => AddAndCPrints(e, a);
  }

  lemma {:induction false} AddOrPrints(d: Disj<Cmp>, a: Atom<Cmp>)
    ensures PrintD(AddOr(d, a)) == PrintD(d) + [Or] + PrintA(a)
    decreases d
  {
    match d
    case One(c) => assert PrintC(Single(a)) == PrintA(a) && PrintD(One(Single(a))) == PrintA(a);
    case OrElse(c, e) => AddOrPrints(e, a);
  }

  lemma ExtendPrints(b: Before, a: Atom<Cmp>)
    requires Operator(b)
    ensures PrintD(Extend(b, a)) == BeforeToks(b) + PrintA(a)
  {
    match b
    case Nothing => assert PrintC(Single(a)) == PrintA(a);
    case Joined(d, op) => AddAndPrints(d, a); AddOrPrints(d, a);
  }

  /** The list ends with an operand; an empty one, if an operand came just before. */
  ghost predicate Complete(items: seq<Item>, after: bool) {
    if items == [] then after else items[|items| - 1].Leaf? || items[|items| - 1].Close?
  }

  lemma {:induction false} ReadOperand(items: seq<Item>, l: Level, b: Before) returns (d: Disj<Cmp>)
    requires Shape(items, Depth(l), false) && Complete(items, false) && Operators(l) && Operator(b)
    ensures PrintD(d) == LevelToks(l) + BeforeToks(b) + items
    decreases |items|
  {
    hide PrintD, PrintA, Extend;
    ShapeHead(items, Depth(l), false);
    assert items == [items[0]] + items[1..];
    hide Shape;
    if items[0].Leaf? {
      var c := items[0].v;
      ExtendPrints(b, Lit(c));
      LitToks(c);
      d := ReadRest(items[1..], l, Extend(b, Lit(c)));
    } else {
      d := ReadOperand(items[1..], In(l, b), Nothing);
    }
  }

  lemma LitToks(c: Cmp)
    ensures PrintA(Lit(c)) == [Leaf(c)]
  {
  }

  lemma ParToks(d: Disj<Cmp>)
    ensures PrintA(Par(d)) == [Open] + PrintD(d) + [Close]
  {
  }

  lemma ShapeHead(items: seq<Item>, depth: nat, after: bool)
    requires Shape(items, depth, after) && items != []
    ensures !after ==> items[0].Leaf? || items[0].Open?
    ensures after ==> items[0].Close? || items[0].And? || items[0].Or?
    ensures items[0].Leaf? ==> Shape(items[1..], depth, true)
    ensures items[0].Open? ==> Shape(items[1..], depth + 1, false)
    ensures items[0].Close? ==> depth > 0 && Shape(items[1..], depth - 1, true)
    ensures items[0].And? || items[0].Or? ==> Shape(items[1..], depth, false)
  {
  }

  lemma {:induction false} ReadRest(items: seq<Item>, l: Level, current: Disj<Cmp>) returns (d: Disj<Cmp>)
    requires Shape(items, Depth(l), true) && Complete(items, true) && Operators(l)
    ensures PrintD(d) == LevelToks(l) + PrintD(current) + items
    decreases |items|
  {
    hide PrintD, PrintA, Extend, Shape, LevelToks, BeforeToks;
    if items == [] {
      AtTop(items, l);
      assert PrintD(current) + [] == PrintD(current) && [] + PrintD(current) == PrintD(current);
      d := current;
    } else {
      ShapeHead(items, Depth(l), true);
      ConsAfter(LevelToks(l) + PrintD(current), items);
      if items[0].Close? {
        ExtendPrints(l.before, Par(current));
        ParToks(current);
        Closing(l, current);
        d := ReadRest(items[1..], l.up, Extend(l.before, Par(current)));
      } else {
        Joining(l, current, items[0]);
        d := ReadOperand(items[1..], l, Joined(current, items[0]));
      }
    }
  }

  lemma ConsAfter(a: seq<Item>, items: seq<Item>)
    requires items != []
    ensures a + items == a + [items[0]] + items[1..]
  {
  }

  lemma AtTop(items: seq<Item>, l: Level)
    requires items == [] && Shape(items, Depth(l), true)
    ensures l == Top && LevelToks(l) == []
  {
  }

  lemma Closing(l: Level, current: Disj<Cmp>)
    requires l.In?
    ensures LevelToks(l) + PrintD(current) + [Close]
            == LevelToks(l.up) + (BeforeToks(l.before) + ([Open] + PrintD(current) + [Close]))
  {
    hide PrintD, BeforeToks;
  }

  lemma Joining(l: Level, current: Disj<Cmp>, op: Item)
    ensures LevelToks(l) + BeforeToks(Joined(current, op)) == LevelToks(l) + PrintD(current) + [op]
  {
    hide PrintD, LevelToks;
  }

  lemma {:induction false} LastToken<T>(d: Disj<T>)
    ensures var t := PrintD(d)[|PrintD(d)| - 1]; t.Leaf? || t.Close?
    decreases d
  {
    match d
    case One(c) => LastTokenC(c);
    case OrElse(c, e) => LastToken(e);
  }

  lemma {:induction false} LastTokenC<T>(c: Conj<T>)
    ensures var t := PrintC(c)[|PrintC(c)| - 1]; t.Leaf? || t.Close?
    decreases c
  {
    match c
    case Single(a) => assert PrintC(c) == PrintA(a);
    case AndAlso(a, e) => LastTokenC(e);
  }

  /** An accepted text is an expression exactly when it ends with an operand. */
  lemma AcceptedExpression(s: string)
    requires Scan(s).Ok?
    ensures (exists d :: PrintD(d) == Scan(s).value) <==> Complete(Scan(s).value, false)
  {
    TermShape(s, 0, false);
    hide Term, PrintD, Shape;
    var items := Scan(s).value;
    if Complete(items, false) {
      var d := ReadOperand(items, Top, Nothing);
      assert PrintD(d) == items;
    }
    forall d | PrintD(d) == items ensures Complete(items, false) { LastToken(d); }
  }
}
