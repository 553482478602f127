/** Boolean expressions with parentheses, && binding tighter than ||, their token lists,
    and the in-place reduction that evaluates a token list. */
module RuleGrammar {
  import opened Basics

  datatype Tok<T> = Leaf(v: T) | Open | Close | And | Or

  datatype Disj<T> = One(c: Conj<T>) | OrElse(c: Conj<T>, d: Disj<T>)
  datatype Conj<T> = Single(a: Atom<T>) | AndAlso(a: Atom<T>, c: Conj<T>)
  datatype Atom<T> = Lit(v: T) | Par(d: Disj<T>)

  function PrintD<T>(d: Disj<T>): (r: seq<Tok<T>>)
    ensures |r| > 0
  {
    match d
    case One(c) => PrintC(c)
    case OrElse(c, e) => PrintC(c) + [Or] + PrintD(e)
  }

  function PrintC<T>(c: Conj<T>): (r: seq<Tok<T>>)
    ensures |r| > 0
  {
    match c
    case Single(a) => PrintA(a)
    case AndAlso(a, e) => PrintA(a) + [And] + PrintC(e)
  }

  function PrintA<T>(a: Atom<T>): (r: seq<Tok<T>>)
    ensures |r| > 0
  {
    match a
    case Lit(v) => [Leaf(v)]
    case Par(d) => [Open] + PrintD(d) + [Close]
  }

  function EvalD(d: Disj<bool>): bool {
    match d
    case One(c) => EvalC(c)
    case OrElse(c, e) => EvalC(c) || EvalD(e)
  }

  function EvalC(c: Conj<bool>): bool {
    match c
    case Single(a) => EvalA(a)
    case AndAlso(a, e) => EvalA(a) && EvalC(e)
  }

  function EvalA(a: Atom<bool>): bool {
    match a
    case Lit(v) => v
    case Par(d) => EvalD(d)
  }

  type Stack = seq<Tok<bool>>

  /** The token list is an expression of the grammar with value v. */
  ghost predicate Denotes(a: Stack, v: bool) {
    exists d :: PrintD(d) == a && EvalD(d) == v
  }

  // ---------- the reduction ----------

  /** First position at or after i where the open parentheses, depth of them, are closed. */
  function FindClose(a: Stack, i: nat, depth: nat): (r: nat)
    requires i <= |a| && depth > 0
    ensures i <= r <= |a| && (r < |a| ==> a[r] == Close)
    decreases |a| - i
  {
    if i == |a| then i
    else if a[i] == Close then
      if depth == 1 then i else FindClose(a, i + 1, depth - 1)
    else FindClose(a, i + 1, if a[i] == Open then depth + 1 else depth)
  }

  /** The value of a token list, or None if it is not an expression. */
  function Reduce(a: Stack): Option<bool>
    decreases |a|
  {
    if |a| == 0 then None
    else if |a| == 1 then (if a[0].Leaf? then Some(a[0].v) else None)
    else if |a| < 3 then None
    else
      match a[0]
      case Leaf(x) =>
        if !a[1].And? && !a[1].Or? then None
        else
          (match a[2]
           case Open =>
             var i := FindClose(a, 3, 1);
             if i == |a| then None
             else
               (match Reduce(a[3..i])
                case None => None
                case Some(u) => Reduce(a[..2] + [Leaf(u)] + a[i + 1..]))
           case Leaf(y) =>
             if a[1].And? then Reduce([Leaf(x && y)] + a[3..])
             else
               (match Reduce(a[2..])
                case None => None
                case Some(u) => Some(x || u))
           case _ => None)
      case Open =>
        var i := FindClose(a, 1, 1);
        if i == |a| then None
        else
          (match Reduce(a[1..i])
           case None => None
           case Some(u) => Reduce([Leaf(u)] + a[i + 1..]))
      case _ => None
  }

  // ---------- expressions seen as atoms joined by operators ----------

  ghost function FirstC(c: Conj<bool>): Atom<bool> { c.a }
  ghost function First(d: Disj<bool>): Atom<bool> { d.c.a }

  ghost function WithFirstC(c: Conj<bool>, a: Atom<bool>): Conj<bool> { c.(a := a) }
  ghost function WithFirst(d: Disj<bool>, a: Atom<bool>): Disj<bool> { d.(c := WithFirstC(d.c, a)) }

  /** What follows the first atom of an expression. */
  ghost function RestC(c: Conj<bool>): Stack { if c.Single? then [] else [And] + PrintC(c.c) }
  ghost function Rest(d: Disj<bool>): Stack { RestC(d.c) + if d.One? then [] else [Or] + PrintD(d.d) }

  lemma PrintFirstC(c: Conj<bool>, a: Atom<bool>)
    ensures PrintC(c) == PrintA(FirstC(c)) + RestC(c)
    ensures PrintC(WithFirstC(c, a)) == PrintA(a) + RestC(c)
    ensures EvalA(a) == EvalA(FirstC(c)) ==> EvalC(WithFirstC(c, a)) == EvalC(c)
  {
  }

  lemma PrintFirst(d: Disj<bool>, a: Atom<bool>)
    ensures PrintD(d) == PrintA(First(d)) + Rest(d)
    ensures PrintD(WithFirst(d, a)) == PrintA(a) + Rest(d)
    ensures EvalA(a) == EvalA(First(d)) ==> EvalD(WithFirst(d, a)) == EvalD(d)
  {
    hide RestC, PrintA, EvalA, FirstC, WithFirstC;
    PrintFirstC(d.c, a);
    FirstIs(d, a);
    if d.OrElse? {
      assert PrintA(First(d)) + RestC(d.c) + [Or] + PrintD(d.d) == PrintA(First(d)) + Rest(d);
      assert PrintA(a) + RestC(d.c) + [Or] + PrintD(d.d) == PrintA(a) + Rest(d);
    }
  }

  lemma FirstIs(d: Disj<bool>, a: Atom<bool>)
    ensures FirstC(d.c) == First(d) && WithFirst(d, a) == d.(c := WithFirstC(d.c, a))
  {
  }

  // ---------- finding the closing parenthesis ----------

  lemma CloseStep(a: Stack, i: nat, depth: nat)
    requires i < |a| && depth > 0
    ensures !a[i].Open? && !a[i].Close? ==> FindClose(a, i, depth) == FindClose(a, i + 1, depth)
    ensures a[i].Open? ==> FindClose(a, i, depth) == FindClose(a, i + 1, depth + 1)
    ensures a[i].Close? ==> FindClose(a, i, depth) == if depth == 1 then i else FindClose(a, i + 1, depth - 1)
  {
  }

  ghost predicate At(a: Stack, i: nat, toks: Stack) {
    i + |toks| <= |a| && a[i..i + |toks|] == toks
  }

  lemma AtParts(a: Stack, i: nat, x: Stack, y: Stack)
    requires At(a, i, x + y)
    ensures At(a, i, x) && At(a, i + |x|, y)
    ensures |x| == 1 ==> a[i] == x[0]
  {
    assert a[i..i + |x|] == (x + y)[..|x|];
    assert a[i + |x|..i + |x| + |y|] == (x + y)[|x|..];
    if |x| == 1 { assert a[i..i + 1][0] == x[0]; }
  }

  lemma AtOne(a: Stack, i: nat, k: Tok<bool>)
    requires At(a, i, [k])
    ensures i < |a| && a[i] == k
  {
    assert a[i..i + 1][0] == k;
  }

  /** An expression is passed over when the closing parenthesis is looked for. */
  lemma {:induction false} CloseOverD(a: Stack, i: nat, d: Disj<bool>, depth: nat)
    requires depth > 0 && At(a, i, PrintD(d))
    ensures FindClose(a, i, depth) == FindClose(a, i + |PrintD(d)|, depth)
    decreases d
  {
    hide FindClose, At, PrintC;
    match d
    case One(c) =>
      CloseOverC(a, i, c, depth);
    case OrElse(c, e) =>
      assert PrintD(d) == PrintC(c) + ([Or] + PrintD(e));
      AtParts(a, i, PrintC(c), [Or] + PrintD(e));
      AtParts(a, i + |PrintC(c)|, [Or], PrintD(e));
      CloseOverC(a, i, c, depth);
      AtOne(a, i + |PrintC(c)|, Or);
      CloseStep(a, i + |PrintC(c)|, depth);
      CloseOverD(a, i + |PrintC(c)| + 1, e, depth);
  }

  lemma AtInside(a: Stack, i: nat, toks: Stack)
    requires At(a, i, toks)
    ensures i + |toks| <= |a|
  {
  }

  lemma {:induction false} CloseOverC(a: Stack, i: nat, c: Conj<bool>, depth: nat)
    requires depth > 0 && At(a, i, PrintC(c))
    ensures i + |PrintC(c)| <= |a| && FindClose(a, i, depth) == FindClose(a, i + |PrintC(c)|, depth)
    decreases c
  {
    hide FindClose, At, PrintA;
    AtInside(a, i, PrintC(c));
    match c
    case Single(t) =>
      CloseOverA(a, i, t, depth);
    case AndAlso(t, e) =>
      assert PrintC(c) == PrintA(t) + ([And] + PrintC(e));
      AtParts(a, i, PrintA(t), [And] + PrintC(e));
      AtParts(a, i + |PrintA(t)|, [And], PrintC(e));
      CloseOverA(a, i, t, depth);
      CloseStep(a, i + |PrintA(t)|, depth);
      CloseOverC(a, i + |PrintA(t)| + 1, e, depth);
  }

  lemma {:induction false} CloseOverA(a: Stack, i: nat, t: Atom<bool>, depth: nat)
    requires depth > 0 && At(a, i, PrintA(t))
    ensures i + |PrintA(t)| <= |a| && FindClose(a, i, depth) == FindClose(a, i + |PrintA(t)|, depth)
    decreases t
  {
    hide FindClose, At, PrintD;
    AtInside(a, i, PrintA(t));
    match t
    case Lit(v) =>
      AtOne(a, i, Leaf(v));
      CloseStep(a, i, depth);
    case Par(d) =>
      var n := |PrintD(d)|;
      assert PrintA(t) == [Open] + (PrintD(d) + [Close]);
      AtParts(a, i, [Open], PrintD(d) + [Close]);
      AtParts(a, i + 1, PrintD(d), [Close]);
      AtOne(a, i + 1 + n, Close);
      CloseStep(a, i, depth);
      CloseOverD(a, i + 1, d, depth + 1);
      CloseStep(a, i + 1 + n, depth + 1);
  }

  /** The parenthesis that closes a group is the one the grammar says. */
  lemma CloseOfGroup(a: Stack, i: nat, d: Disj<bool>)
    requires At(a, i, PrintA(Par(d)))
    ensures i + 1 <= |a| && FindClose(a, i + 1, 1) == i + 1 + |PrintD(d)| < |a|
    ensures a[i + 1..FindClose(a, i + 1, 1)] == PrintD(d)
  {
    var n := |PrintD(d)|;
    assert PrintA(Par(d)) == [Open] + (PrintD(d) + [Close]);
    AtParts(a, i, [Open], PrintD(d) + [Close]);
    AtParts(a, i + 1, PrintD(d), [Close]);
    CloseOverD(a, i + 1, d, 1);
    assert a[i + 1 + n..i + 2 + n][0] == Close;
    CloseStep(a, i + 1 + n, 1);
  }

  // ---------- one reduction step keeps the value ----------

  /** x op t. */
  ghost function Join(x: bool, op: Tok<bool>, t: Disj<bool>): Disj<bool> {
    if op == And then t.(c := AndAlso(Lit(x), t.c)) else OrElse(Single(Lit(x)), t)
  }

  lemma JoinFacts(x: bool, op: Tok<bool>, t: Disj<bool>, a: Atom<bool>)
    requires op == And || op == Or
    ensures PrintD(Join(x, op, t)) == [Leaf(x), op] + PrintD(t)
    ensures EvalA(a) == EvalA(First(t)) ==> EvalD(Join(x, op, WithFirst(t, a))) == EvalD(Join(x, op, t))
  {
    assert PrintA(Lit(x)) == [Leaf(x)];
    assert PrintC(AndAlso(Lit(x), t.c)) == [Leaf(x), And] + PrintC(t.c);
    assert PrintC(Single(Lit(x))) == [Leaf(x)];
    if op == And {
      PrintFirstC(t.c, a);
      AndValue(x, t);
      AndValue(x, WithFirst(t, a));
    } else {
      PrintFirst(t, a);
      OrValue(x, t);
      OrValue(x, WithFirst(t, a));
    }
  }

  lemma OrValue(x: bool, t: Disj<bool>)
    ensures EvalD(Join(x, Or, t)) == (x || EvalD(t))
  {
    assert EvalA(Lit(x)) == x && EvalC(Single(Lit(x))) == x;
  }

  lemma AndValue(x: bool, t: Disj<bool>)
    ensures EvalD(Join(x, And, t)) == ((x && EvalC(t.c)) || (t.OrElse? && EvalD(t.d)))
  {
    assert EvalA(Lit(x)) == x && EvalC(AndAlso(Lit(x), t.c)) == (x && EvalC(t.c));
  }

  /** Two values joined by && may be replaced by their conjunction. */
  lemma AndMerges(x: bool, y: bool, t: Disj<bool>)
    requires First(t) == Lit(y)
    ensures EvalD(Join(x, And, t)) == EvalD(WithFirst(t, Lit(x && y)))
  {
    AndValue(x, t);
    assert EvalA(Lit(y)) == y && EvalA(Lit(x && y)) == (x && y);
    assert EvalC(t.c) == (y && (t.c.AndAlso? ==> EvalC(t.c.c)));
    assert EvalC(WithFirstC(t.c, Lit(x && y))) == (x && y && (t.c.AndAlso? ==> EvalC(t.c.c)));
  }

  /** An expression that starts with a value and an operator is a join. */
  lemma Unjoin(d: Disj<bool>, x: bool, op: Tok<bool>, rest: Stack) returns (t: Disj<bool>)
    requires PrintD(d) == [Leaf(x), op] + rest
    ensures (op == And || op == Or) && d == Join(x, op, t) && PrintD(t) == rest
  {
    FirstToken(d);
    PrintFirst(d, Lit(x));
    assert PrintD(d)[0] == Leaf(x);
    assert First(d) == Lit(x);
    assert Rest(d) == PrintD(d)[1..] == [op] + rest;
    if d.c.AndAlso? {
      assert op == Rest(d)[0] == And;
      t := d.(c := d.c.c);
    } else {
      assert d.OrElse? && op == Rest(d)[0] == Or;
      t := d.d;
    }
    JoinFacts(x, op, t, Lit(x));
    assert PrintD(t) == PrintD(d)[2..];
  }

  lemma FirstToken(d: Disj<bool>)
    ensures PrintD(d)[0] == PrintA(First(d))[0]
    ensures match First(d) case Lit(v) => PrintD(d)[0] == Leaf(v) case Par(_) => PrintD(d)[0] == Open
  {
    PrintFirst(d, First(d));
  }

  // Each lemma relates the value of a token list to that of the list after one reduction, both ways.

  /** ( s ) rest  becomes  u rest. */
  lemma GroupStep(a: Stack, i: nat, v: bool)
    requires |a| >= 3 && a[0] == Open && i == FindClose(a, 1, 1)
    ensures i == |a| ==> !Denotes(a, v)
    ensures i < |a| ==>
              (Denotes(a, v) <==> exists u :: Denotes(a[1..i], u) && Denotes([Leaf(u)] + a[i + 1..], v))
  {
    hide Denotes, FindClose;
    if Denotes(a, v) { GroupForth(a, i, v); }
    if i < |a| {
      forall u | Denotes(a[1..i], u) && Denotes([Leaf(u)] + a[i + 1..], v) ensures Denotes(a, v) {
        GroupBack(a, i, u, v);
      }
    }
  }

  /** An expression that starts with a group: its parts, and the expression with the group's value instead. */
  lemma GroupParts(a: Stack, k: nat, t: Disj<bool>) returns (e: Disj<bool>)
    requires k < |a| && a[k] == Open && PrintD(t) == a[k..]
    ensures var i, u := FindClose(a, k + 1, 1), EvalD(e);
            && i < |a| && PrintD(e) == a[k + 1..i] && First(t) == Par(e) && EvalA(First(t)) == EvalA(Lit(u)) == u
            && PrintD(WithFirst(t, Lit(u))) == [Leaf(u)] + a[i + 1..] && EvalD(WithFirst(t, Lit(u))) == EvalD(t)
  {
    hide PrintD, FindClose, Rest, WithFirst;
    FirstToken(t);
    e := First(t).d;
    var u := EvalD(e);
    PrintFirst(t, Lit(u));
    ParPrints(e, u);
    LitPrints(u);
    hide PrintA;
    var p := PrintA(Par(e));
    AtStart(a, k, p, Rest(t));
    CloseOfGroup(a, k, e);
  }

  lemma AtStart(a: Stack, k: nat, p: Stack, rest: Stack)
    requires k <= |a| && a[k..] == p + rest
    ensures At(a, k, p) && a[k + |p|..] == rest
  {
    assert a[k..][..|p|] == p && a[k..][|p|..] == rest;
  }

  lemma GroupForth(a: Stack, i: nat, v: bool)
    requires |a| >= 3 && a[0] == Open && i == FindClose(a, 1, 1) && Denotes(a, v)
    ensures i < |a| && exists u :: Denotes(a[1..i], u) && Denotes([Leaf(u)] + a[i + 1..], v)
  {
    hide FindClose, PrintD, EvalD, EvalA, WithFirst, First;
    var d :| PrintD(d) == a && EvalD(d) == v;
    assert a[0..] == a;
    var e := GroupParts(a, 0, d);
    var u := EvalD(e);
    assert Denotes(a[1..i], u);
    assert Denotes([Leaf(u)] + a[i + 1..], v);
  }

  lemma GroupBack(a: Stack, i: nat, u: bool, v: bool)
    requires |a| >= 3 && a[0] == Open && 1 <= i < |a| && a[i] == Close
    requires Denotes(a[1..i], u) && Denotes([Leaf(u)] + a[i + 1..], v)
    ensures Denotes(a, v)
  {
    var e :| PrintD(e) == a[1..i] && EvalD(e) == u;
    var d := SwapFirst([Leaf(u)] + a[i + 1..], a[i + 1..], u, v, Par(e));
    ParPrints(e, u);
    hide PrintD, PrintA;
    assert a == [Open] + a[1..i] + [Close] + a[i + 1..];
  }

  lemma ParPrints(e: Disj<bool>, u: bool)
    requires EvalD(e) == u
    ensures PrintA(Par(e)) == [Open] + PrintD(e) + [Close] && EvalA(Par(e)) == u
  {
  }

  /** An expression that starts with value u: any atom with that value may stand there instead. */
  lemma SwapFirst(a: Stack, rest: Stack, u: bool, v: bool, t: Atom<bool>) returns (d: Disj<bool>)
    requires a == [Leaf(u)] + rest && Denotes(a, v) && EvalA(t) == u
    ensures PrintD(d) == PrintA(t) + rest && EvalD(d) == v
  {
    var e :| PrintD(e) == a && EvalD(e) == v;
    FirstToken(e);
    assert First(e) == Lit(u);
    PrintFirst(e, t);
    assert Rest(e) == PrintD(e)[1..] == rest;
    d := WithFirst(e, t);
  }

  /** x op ( s ) rest  becomes  x op u rest. */
  lemma SecondGroupStep(a: Stack, i: nat, x: bool, v: bool)
    requires |a| >= 3 && a[0] == Leaf(x) && (a[1] == And || a[1] == Or) && a[2] == Open && i == FindClose(a, 3, 1)
    ensures i == |a| ==> !Denotes(a, v)
    ensures i < |a| ==>
              (Denotes(a, v) <==> exists u :: Denotes(a[3..i], u) && Denotes(a[..2] + [Leaf(u)] + a[i + 1..], v))
  {
    if Denotes(a, v) { SecondGroupForth(a, i, x, v); }
    if i < |a| {
      forall u | Denotes(a[3..i], u) && Denotes(a[..2] + [Leaf(u)] + a[i + 1..], v) ensures Denotes(a, v) {
        SecondGroupBack(a, i, x, u, v);
      }
    }
  }

  lemma SecondGroupForth(a: Stack, i: nat, x: bool, v: bool)
    requires |a| >= 3 && a[0] == Leaf(x) && (a[1] == And || a[1] == Or) && a[2] == Open && i == FindClose(a, 3, 1)
    requires Denotes(a, v)
    ensures i < |a| && exists u :: Denotes(a[3..i], u) && Denotes(a[..2] + [Leaf(u)] + a[i + 1..], v)
  {
    hide *;
    var d := Meaning(a, v);
    TwoHeads(a, x);
    var t := Unjoin(d, x, a[1], a[2..]);
    var e := GroupParts(a, 2, t);
    var u := EvalD(e);
    var t' := WithFirst(t, Lit(u));
    JoinFacts(x, a[1], t, Lit(u));
    JoinFacts(x, a[1], t', Lit(u));
    ThreeHeads(a, x, u, a[i + 1..]);
    Means(e, u);
    Means(Join(x, a[1], t'), v);
  }

  lemma TwoHeads(a: Stack, x: bool)
    requires |a| >= 2 && a[0] == Leaf(x)
    ensures a == [Leaf(x), a[1]] + a[2..]
  {
  }

  lemma ThreeHeads(a: Stack, x: bool, u: bool, rest: Stack)
    requires |a| >= 2 && a[0] == Leaf(x)
    ensures [Leaf(x), a[1]] + ([Leaf(u)] + rest) == a[..2] + [Leaf(u)] + rest
  {
  }

  lemma Means(d: Disj<bool>, v: bool)
    requires EvalD(d) == v
    ensures Denotes(PrintD(d), v)
  {
  }

  lemma Meaning(a: Stack, v: bool) returns (d: Disj<bool>)
    requires Denotes(a, v)
    ensures PrintD(d) == a && EvalD(d) == v
  {
    hide PrintD, EvalD;
    d :| PrintD(d) == a && EvalD(d) == v;
  }

  lemma SecondGroupBack(a: Stack, i: nat, x: bool, u: bool, v: bool)
    requires |a| >= 3 && a[0] == Leaf(x) && (a[1] == And || a[1] == Or) && a[2] == Open && i == FindClose(a, 3, 1) < |a|
    requires Denotes(a[3..i], u) && Denotes(a[..2] + [Leaf(u)] + a[i + 1..], v)
    ensures Denotes(a, v)
  {
    hide PrintA, PrintD, EvalD, EvalA, FindClose, Join, WithFirst, Rest;
    var e :| PrintD(e) == a[3..i] && EvalD(e) == u;
    var d :| PrintD(d) == a[..2] + [Leaf(u)] + a[i + 1..] && EvalD(d) == v;
    ParPrints(e, u);
    assert a[..2] + [Leaf(u)] + a[i + 1..] == [Leaf(x), a[1]] + ([Leaf(u)] + a[i + 1..]);
    var t := Unjoin(d, x, a[1], [Leaf(u)] + a[i + 1..]);
    PrintFirst(t, Par(e));
    LitRest(t, u, a[i + 1..]);
    JoinFacts(x, a[1], t, Par(e));
    JoinFacts(x, a[1], WithFirst(t, Par(e)), Par(e));
    assert a == [Leaf(x), a[1]] + ([Open] + a[3..i] + [Close] + a[i + 1..]);
  }

  lemma LitRest(t: Disj<bool>, u: bool, rest: Stack)
    requires PrintD(t) == [Leaf(u)] + rest
    ensures First(t) == Lit(u) && Rest(t) == rest && EvalA(First(t)) == u
  {
    FirstToken(t);
    PrintFirst(t, First(t));
    assert Rest(t) == PrintD(t)[1..] == rest;
  }

  /** x && y rest  becomes  z rest, with z the conjunction. */
  lemma AndStep(a: Stack, x: bool, y: bool, v: bool)
    requires |a| >= 3 && a[0] == Leaf(x) && a[1] == And && a[2] == Leaf(y)
    ensures Denotes(a, v) <==> Denotes([Leaf(x && y)] + a[3..], v)
  {
    hide Denotes;
    if Denotes(a, v) { AndForth(a, x, y, v); }
    if Denotes([Leaf(x && y)] + a[3..], v) { AndBack(a, x, y, v); }
  }

  lemma AndForth(a: Stack, x: bool, y: bool, v: bool)
    requires |a| >= 3 && a[0] == Leaf(x) && a[1] == And && a[2] == Leaf(y) && Denotes(a, v)
    ensures Denotes([Leaf(x && y)] + a[3..], v)
  {
    hide PrintD, PrintA, EvalD, EvalA, WithFirst, First, Join, Rest;
    var d :| PrintD(d) == a && EvalD(d) == v;
    assert a == [Leaf(x), And] + a[2..] && a[2..] == [Leaf(y)] + a[3..];
    var t := Unjoin(d, x, And, a[2..]);
    LitRest(t, y, a[3..]);
    PrintFirst(t, Lit(x && y));
    LitPrints(x && y);
    AndMerges(x, y, t);
    assert PrintD(WithFirst(t, Lit(x && y))) == [Leaf(x && y)] + a[3..];
  }

  lemma AndBack(a: Stack, x: bool, y: bool, v: bool)
    requires |a| >= 3 && a[0] == Leaf(x) && a[1] == And && a[2] == Leaf(y)
    requires Denotes([Leaf(x && y)] + a[3..], v)
    ensures Denotes(a, v)
  {
    hide PrintD, PrintA, EvalD, EvalA, Join, Rest;
    var d :| PrintD(d) == [Leaf(x && y)] + a[3..] && EvalD(d) == v;
    LitRest(d, x && y, a[3..]);
    PrintFirst(d, Lit(y));
    LitPrints(y);
    var t := WithFirst(d, Lit(y));
    AndMerges(x, y, t);
    assert WithFirst(t, Lit(x && y)) == d;
    JoinFacts(x, And, t, Lit(y));
    assert a == [Leaf(x), And] + ([Leaf(y)] + a[3..]);
    assert PrintD(Join(x, And, t)) == a;
  }

  lemma LitPrints(v: bool)
    ensures PrintA(Lit(v)) == [Leaf(v)]
  {
  }

  /** The value of  x || rest  is that of rest, or true. */
  lemma OrStep(a: Stack, x: bool, v: bool)
    requires |a| >= 3 && a[0] == Leaf(x) && a[1] == Or
    ensures Denotes(a, v) <==> exists u :: Denotes(a[2..], u) && v == (x || u)
  {
    assert a == [Leaf(x), Or] + a[2..];
    if Denotes(a, v) {
      var d :| PrintD(d) == a && EvalD(d) == v;
      var t := Unjoin(d, x, Or, a[2..]);
      OrValue(x, t);
      assert Denotes(a[2..], EvalD(t));
    }
    forall u | Denotes(a[2..], u) && v == (x || u) ensures Denotes(a, v) {
      var t :| PrintD(t) == a[2..] && EvalD(t) == u;
      OrValue(x, t);
      JoinFacts(x, Or, t, First(t));
      assert PrintD(Join(x, Or, t)) == a;
    }
  }

  /** Token lists that start in none of these ways are no expressions. */
  lemma NoExpression(a: Stack, v: bool)
    ensures Denotes(a, v) ==> |a| > 0 && (a[0].Leaf? || a[0].Open?)
    ensures Denotes(a, v) && a[0].Leaf? && |a| > 1 ==> (a[1].And? || a[1].Or?) && |a| >= 3 && (a[2].Leaf? || a[2].Open?)
    ensures Denotes(a, v) && a[0].Open? ==> |a| >= 3
  {
    if Denotes(a, v) {
      var d :| PrintD(d) == a && EvalD(d) == v;
      FirstToken(d);
      PrintFirst(d, First(d));
      if First(d).Lit? && |a| > 1 {
        assert a[1] == Rest(d)[0];
        assert a == [a[0], a[1]] + a[2..];
        var t := Unjoin(d, a[0].v, a[1], a[2..]);
        FirstToken(t);
        assert a[2] == PrintD(t)[0];
      }
    }
  }

  lemma SingleToken(a: Stack, v: bool)
    requires |a| == 1
    ensures Denotes(a, v) <==> a == [Leaf(v)]
  {
    if Denotes(a, v) {
      var d :| PrintD(d) == a && EvalD(d) == v;
      FirstToken(d);
      PrintFirst(d, First(d));
      assert |Rest(d)| == 0;
      assert d == One(Single(First(d)));
      assert EvalA(First(d)) == EvalC(d.c) == v;
    }
    if a == [Leaf(v)] {
      var d := One(Single(Lit(v)));
      assert PrintA(Lit(v)) == PrintC(Single(Lit(v))) == PrintD(d) == a;
      assert EvalA(Lit(v)) == EvalC(Single(Lit(v))) == EvalD(d) == v;
    }
  }

  /** The reduction succeeds exactly on the expressions of the grammar, and computes their value. */
  lemma {:induction false} ReduceDenotes(a: Stack, v: bool)
    ensures Denotes(a, v) <==> Reduce(a) == Some(v)
    decreases |a|
  {
    NoExpression(a, v);
    if |a| == 1 {
      SingleToken(a, v);
    } else if |a| >= 3 && a[0].Open? {
      var i := FindClose(a, 1, 1);
      GroupStep(a, i, v);
      if i < |a| {
        ReduceDenotes(a[1..i], true);
        ReduceDenotes(a[1..i], false);
        ReduceDenotes([Leaf(true)] + a[i + 1..], v);
        ReduceDenotes([Leaf(false)] + a[i + 1..], v);
      }
    } else if |a| >= 3 && a[0].Leaf? && (a[1].And? || a[1].Or?) {
      ReduceOperator(a, v);
    }
  }

  lemma {:induction false} ReduceOperator(a: Stack, v: bool)
    requires |a| >= 3 && a[0].Leaf? && (a[1].And? || a[1].Or?)
    ensures Denotes(a, v) <==> Reduce(a) == Some(v)
    decreases |a|, 0
  {
    NoExpression(a, v);
    var x := a[0].v;
    if a[2].Open? {
      var i := FindClose(a, 3, 1);
      SecondGroupStep(a, i, x, v);
      if i < |a| {
        ReduceDenotes(a[3..i], true);
        ReduceDenotes(a[3..i], false);
        ReduceDenotes(a[..2] + [Leaf(true)] + a[i + 1..], v);
        ReduceDenotes(a[..2] + [Leaf(false)] + a[i + 1..], v);
      }
    } else if a[2].Leaf? && a[1].And? {
      AndStep(a, x, a[2].v, v);
      ReduceDenotes([Leaf(x && a[2].v)] + a[3..], v);
    } else if a[2].Leaf? {
      OrStep(a, x, v);
      ReduceDenotes(a[2..], true);
      ReduceDenotes(a[2..], false);
      hide Denotes;
      match Reduce(a[2..]) {
        case None =>
        case Some(u) => assert Denotes(a[2..], u) && !Denotes(a[2..], !u);
      }
    }
  }

  // ---------- the in-place reduction ----------

  /** resolveStack: reduces the list from the left until one value is left. */
  method ResolveStack(stack: Stack) returns (r: Option<bool>)
    ensures r == Reduce(stack)
    ensures forall v :: Denotes(stack, v) <==> r == Some(v)
    decreases |stack|
  {
    forall v ensures Denotes(stack, v) <==> Reduce(stack) == Some(v) { ReduceDenotes(stack, v); }
    hide Denotes;
    if |stack| == 0 { return None; }
    var a := stack;
    while |a| > 1
      invariant 0 < |a| <= |stack| && Reduce(a) == Reduce(stack)
    {
      if |a| < 3 { return None; }
      if !a[0].Leaf? && a[0] != Open { return None; }
      if a[0].Leaf? {
        if a[1] != And && a[1] != Or { return None; }
        if !a[2].Leaf? && a[2] != Open { return None; }
        if a[2] == Open {
          var i := ScanClose(a, 3);
          if i == |a| { return None; }
          var sub := ResolveStack(a[3..i]);
          if sub.None? { return None; }
          a := a[..2] + [Leaf(sub.value)] + a[i + 1..];
        } else if a[1] == And {
          a := [Leaf(a[0].v && a[2].v)] + a[3..];
        } else {
          var sub := ResolveStack(a[2..]);
          if sub.None? { return None; }
          a := [Leaf(a[0].v || sub.value)];
        }
      } else {
        var i := ScanClose(a, 1);
        if i == |a| { return None; }
        var sub := ResolveStack(a[1..i]);
        if sub.None? { return None; }
        a := [Leaf(sub.value)] + a[i + 1..];
      }
    }
    if !a[0].Leaf? { return None; }
    return Some(a[0].v);
  }

  /** The loop that looks for the closing parenthesis. */
  method ScanClose(a: Stack, from: nat) returns (i: nat)
    requires from <= |a|
    ensures i == FindClose(a, from, 1)
  {
    i := from;
    var open := 1;
    while i < |a|
      invariant from <= i <= |a| && open > 0
      invariant FindClose(a, from, 1) == FindClose(a, i, open)
    {
      if a[i] == Close {
        open := open - 1;
        if open == 0 { break; }
      } else if a[i] == Open {
        open := open + 1;
      }
      i := i + 1;
    }
  }
}
