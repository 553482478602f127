/** The forest of tags: ancestors, and the question whether a tag lies under a root, asked with a memo
    and a limit on the depth. */
module TagAncestry {
  import opened Basics

  /** Every known tag, with its parent if it has one. */
  type Parents = map<string, Option<string>>

  /** n steps up. */
  function Up(p: Parents, tag: string, n: nat): Option<string>
    decreases n
  {
    if tag !in p then None
    else if n == 0 then Some(tag)
    else
      match p[tag] case None => None case Some(q) => Up(p, q, n - 1)
  }

  ghost predicate Ancestor(p: Parents, tag: string, root: string) { exists n: nat :: Up(p, tag, n) == Some(root) }

  /** The limit the program works with: 101 steps up from a tag there may be a tag, 102 steps up there is none. */
  const LIMIT := 101

  ghost predicate Shallow(p: Parents) { forall tag :: tag in p ==> Up(p, tag, 102) == None }

  lemma {:induction false} UpMore(p: Parents, tag: string, n: nat, k: nat)
    ensures Up(p, tag, n).Some? ==> Up(p, tag, n + k) == Up(p, Up(p, tag, n).value, k)
    ensures Up(p, tag, n).None? ==> Up(p, tag, n + k).None?
    decreases n
  {
    if n > 0 && tag in p && p[tag].Some? {
      UpMore(p, p[tag].value, n - 1, k);
    }
  }

  // ---------- the question with a memo ----------

  type Pairs = set<(string, string)>

  /** The entries has_root_<root> and no_root_<root>, as pairs of a tag and a root. */
  datatype Memo = Memo(has: Pairs, no: Pairs)

  const NOTHING := Memo({}, {})

  datatype Reply = Reply(answer: bool, memo: Memo)

  function Query(p: Parents, m: Memo, tag: string, root: string, counter: nat): Reply
    decreases LIMIT - counter
  {
    if counter > 100 || tag !in p then Reply(false, m)
    else if tag == root then Reply(true, m)
    else if (tag, root) in m.has then Reply(true, m)
    else if (tag, root) in m.no then Reply(false, m)
    else
      match p[tag]
      case None => Reply(false, m)
      case Some(q) =>
        if q == root then Reply(true, m.(has := m.has + {(tag, root)}))
        else
          var r := Query(p, m, q, root, counter + 1);
          if r.answer then Reply(true, r.memo.(has := r.memo.has + {(tag, root)}))
          else Reply(false, r.memo.(no := r.memo.no + {(tag, root)}))
  }

  ghost predicate Closed(p: Parents) { forall t :: t in p && p[t].Some? ==> p[t].value in p }

  ghost predicate YesSound(p: Parents, m: Memo) {
    forall t, r :: (t, r) in m.has ==> Ancestor(p, t, r)
  }

  ghost predicate Sound(p: Parents, m: Memo) {
    && YesSound(p, m)
    && forall t, r :: (t, r) in m.no ==> !Ancestor(p, t, r)
  }

  lemma AncestorStep(p: Parents, tag: string, root: string)
    requires tag in p && tag != root
    ensures Ancestor(p, tag, root) <==> p[tag].Some? && Ancestor(p, p[tag].value, root)
  {
    if Ancestor(p, tag, root) {
      var n: nat :| Up(p, tag, n) == Some(root);
      assert Up(p, p[tag].value, n - 1) == Some(root);
    }
    if p[tag].Some? && Ancestor(p, p[tag].value, root) {
      var n: nat :| Up(p, p[tag].value, n) == Some(root);
      assert Up(p, tag, n + 1) == Some(root);
    }
  }

  lemma AncestorSelf(p: Parents, tag: string)
    ensures tag in p ==> Ancestor(p, tag, tag)
    ensures tag !in p ==> forall root :: !Ancestor(p, tag, root)
  {
    assert tag in p ==> Up(p, tag, 0) == Some(tag);
  }

  /** root is at most n steps up. */
  ghost predicate Near(p: Parents, tag: string, root: string, n: int) {
    exists k: nat :: k <= n && Up(p, tag, k) == Some(root)
  }

  lemma NearStep(p: Parents, tag: string, root: string, n: int)
    requires Closed(p) && tag in p && tag != root
    ensures Near(p, tag, root, n) <==> p[tag].Some? && Near(p, p[tag].value, root, n - 1)
  {
    if Near(p, tag, root, n) {
      var k: nat :| k <= n && Up(p, tag, k) == Some(root);
      assert Up(p, p[tag].value, k - 1) == Some(root);
    }
    if p[tag].Some? && Near(p, p[tag].value, root, n - 1) {
      var k: nat :| k <= n - 1 && Up(p, p[tag].value, k) == Some(root);
      assert Up(p, tag, k + 1) == Some(root);
    }
  }

  lemma NearSelf(p: Parents, tag: string, root: string, n: int)
    requires Closed(p)
    ensures tag in p && n >= 0 ==> Near(p, tag, tag, n)
    ensures tag !in p || n < 0 ==> !Near(p, tag, root, n)
    ensures tag in p && n == 0 && tag != root ==> !Near(p, tag, root, n)
  {
    if tag in p { assert Up(p, tag, 0) == Some(tag); }
  }

  /** Whatever lies above a tag lies at most 101 steps above it. */
  ghost predicate InReach(p: Parents) {
    forall tag, root :: Ancestor(p, tag, root) ==> Near(p, tag, root, 101)
  }

  /** Chains that end in time are one way to be in reach; short cycles are another. */
  lemma ShallowInReach(p: Parents)
    requires Shallow(p)
    ensures InReach(p)
  {
    forall tag, root | Ancestor(p, tag, root) ensures Near(p, tag, root, LIMIT) { EndsNear(p, tag, root); }
  }

  /** If the root lies within the depth that is left, or not above the tag at all, the answer is right, and what
      is remembered is right. */
  lemma {:induction false} QueryRight(p: Parents, m: Memo, tag: string, root: string, counter: nat)
    requires Closed(p) && Sound(p, m) && counter <= LIMIT && (counter == LIMIT ==> tag != root)
    requires Ancestor(p, tag, root) ==> Near(p, tag, root, LIMIT - counter)
    ensures var r := Query(p, m, tag, root, counter);
            (r.answer <==> Ancestor(p, tag, root)) && Sound(p, r.memo)
    decreases LIMIT - counter
  {
    hide Ancestor, Near;
    AncestorSelf(p, tag);
    NearSelf(p, tag, root, LIMIT - counter);
    if tag in p && tag != root {
      AncestorStep(p, tag, root);
      NearStep(p, tag, root, LIMIT - counter);
      if p[tag].Some? {
        AncestorSelf(p, p[tag].value);
        if counter < LIMIT && p[tag].value != root {
          QueryRight(p, m, p[tag].value, root, counter + 1);
        }
      }
    }
  }

  // ---------- any number of questions, in any order ----------

  datatype Question = Question(tag: string, root: string)

  function Ask(p: Parents, m: Memo, qs: seq<Question>): seq<bool>
    decreases |qs|
  {
    if qs == [] then []
    else
      var r := Query(p, m, qs[0].tag, qs[0].root, 0);
      [r.answer] + Ask(p, r.memo, qs[1..])
  }

  /** Every answer says whether the root is the tag itself or above it. */
  ghost predicate AllRight(p: Parents, m: Memo, qs: seq<Question>) {
    && |Ask(p, m, qs)| == |qs|
    && forall i :: 0 <= i < |qs| ==> (Ask(p, m, qs)[i] <==> Ancestor(p, qs[i].tag, qs[i].root))
  }

  /** With all ancestors in reach every answer is the plain one, whatever was asked and remembered before. */
  lemma {:induction false} AskRight(p: Parents, m: Memo, qs: seq<Question>)
    requires Closed(p) && InReach(p) && Sound(p, m)
    ensures AllRight(p, m, qs)
    decreases |qs|
  {
    hide Query, Ancestor, Near, Sound, Closed;
    if qs != [] {
      QueryRight(p, m, qs[0].tag, qs[0].root, 0);
      AskRight(p, Query(p, m, qs[0].tag, qs[0].root, 0).memo, qs[1..]);
    }
  }

  // ---------- how far the limit reaches ----------

  /** Any parent table, deep or even cyclic: with nothing remembered, the answer is yes exactly when the
      root is at most 101 steps up. */
  lemma {:induction false} FreshReach(p: Parents, tag: string, root: string, counter: nat)
    requires Closed(p) && counter <= LIMIT && (counter == LIMIT ==> tag != root)
    ensures Query(p, NOTHING, tag, root, counter).answer <==> Near(p, tag, root, 101 - counter)
    decreases LIMIT - counter
  {
    hide Near;
    NearSelf(p, tag, root, LIMIT - counter);
    if tag in p && tag != root && counter < LIMIT {
      NearStep(p, tag, root, LIMIT - counter);
      if p[tag].Some? {
        var q := p[tag].value;
        NearSelf(p, q, root, LIMIT - counter - 1);
        if q != root { FreshReach(p, q, root, counter + 1); }
      }
    }
  }

  /** Starting with nothing remembered, one question leaves entries of one kind only, the asked tag's among them. */
  lemma {:induction false} Remembers(p: Parents, tag: string, root: string, counter: nat)
    ensures var r := Query(p, NOTHING, tag, root, counter);
            && (if r.answer then r.memo.no == {} else r.memo.has == {})
            && (counter <= 100 && tag in p && tag != root && p[tag].Some? ==>
                  if r.answer then (tag, root) in r.memo.has else (tag, root) in r.memo.no)
    decreases LIMIT - counter
  {
    if counter <= 100 && tag in p && tag != root && p[tag].Some? && p[tag].value != root {
      Remembers(p, p[tag].value, root, counter + 1);
    }
  }

  lemma AskTwo(p: Parents, a: Question, b: Question)
    ensures var r := Query(p, NOTHING, a.tag, a.root, 0);
            Ask(p, NOTHING, [a, b]) == [r.answer, Query(p, r.memo, b.tag, b.root, 0).answer]
  {
    hide Query;
    var r := Query(p, NOTHING, a.tag, a.root, 0);
    assert [a, b][1..] == [b] && [b][1..] == [];
    assert Ask(p, r.memo, [b]) == [Query(p, r.memo, b.tag, b.root, 0).answer];
  }

  /** One step further the order of the questions matters: if the parent is asked about first, both answers
      are yes; if the tag itself is asked about first, both are no, and the wrong no is remembered. */
  lemma OrderMatters(p: Parents, tag: string, root: string)
    requires Closed(p) && Up(p, tag, LIMIT + 1) == Some(root) && !Near(p, tag, root, LIMIT)
    ensures tag in p && p[tag].Some?
    ensures var q := p[tag].value;
            && Ask(p, NOTHING, [Question(q, root), Question(tag, root)]) == [true, true]
            && Ask(p, NOTHING, [Question(tag, root), Question(q, root)]) == [false, false]
  {
    var q := p[tag].value;
    assert Up(p, q, LIMIT) == Some(root);
    NearSelf(p, tag, root, LIMIT);
    NearStep(p, tag, root, LIMIT);
    NearSelf(p, q, root, LIMIT - 1);
    assert q != root && tag != root && p[q].Some?;
    FreshReach(p, q, root, 0);
    FreshReach(p, tag, root, 0);
    assert Near(p, q, root, LIMIT);
    Remembers(p, q, root, 0);
    Remembers(p, tag, root, 0);
    Remembers(p, q, root, 1);
    hide Near, Up;
    AskTwo(p, Question(q, root), Question(tag, root));
    AskTwo(p, Question(tag, root), Question(q, root));
    YesStays(p, Query(p, NOTHING, q, root, 0).memo, tag, q, root);
    NoSpreads(p, tag, q, root);
  }

  lemma YesStays(p: Parents, m: Memo, tag: string, q: string, root: string)
    requires tag in p && q in p && p[tag] == Some(q) && (q, root) in m.has && m.no == {}
    ensures Query(p, m, tag, root, 0).answer
  {
    assert Query(p, m, q, root, 1).answer;
  }

  lemma NoSpreads(p: Parents, tag: string, q: string, root: string)
    requires tag in p && q in p && p[tag] == Some(q) && p[q].Some? && tag != root && q != root
    requires !Query(p, NOTHING, tag, root, 0).answer
    ensures !Query(p, Query(p, NOTHING, tag, root, 0).memo, q, root, 0).answer
  {
    Remembers(p, q, root, 1);
    var r := Query(p, NOTHING, tag, root, 0);
    assert (q, root) in r.memo.no && r.memo.has == {} by { Remembers(p, tag, root, 0); }
  }

  /** Two questions get the same answers in either order. */
  ghost predicate EitherWay(p: Parents, a: Question, b: Question) {
    var x, y := Ask(p, NOTHING, [a, b]), Ask(p, NOTHING, [b, a]);
    |x| == |y| == 2 && x[0] == y[1] && x[1] == y[0]
  }

  /** The first time the root is met on the way up. */
  lemma {:induction false} FirstTime(p: Parents, tag: string, root: string, n: nat) returns (k: nat)
    requires Up(p, tag, n) == Some(root)
    ensures k <= n && Up(p, tag, k) == Some(root) && forall j: nat :: j < k ==> Up(p, tag, j) != Some(root)
  {
    k := n;
    if j: nat :| j < n && Up(p, tag, j) == Some(root) {
      k := FirstTime(p, tag, root, j);
    }
  }

  /** Out of reach, there is a tag that has some root exactly one step too far above it. */
  lemma OneTooFar(p: Parents, tag: string, root: string) returns (low: string)
    requires Ancestor(p, tag, root) && !Near(p, tag, root, LIMIT)
    ensures Up(p, low, LIMIT + 1) == Some(root) && !Near(p, low, root, LIMIT)
  {
    hide Up;
    var n: nat :| Up(p, tag, n) == Some(root);
    n := FirstTime(p, tag, root, n);
    assert n > LIMIT;
    var d := n - LIMIT - 1;
    UpMore(p, tag, d, LIMIT + 1);
    low := Up(p, tag, d).value;
    forall k: nat | k <= LIMIT ensures Up(p, low, k) != Some(root) {
      UpMore(p, tag, d, k);
    }
  }

  /** Exactly when the memoised question can be relied on: every list of questions is answered rightly, and the
      order of questions makes no difference, if and only if all ancestors are in reach. */
  lemma MemoExact(p: Parents)
    requires Closed(p)
    ensures InReach(p) <==> forall qs :: AllRight(p, NOTHING, qs)
    ensures InReach(p) <==> forall a, b :: EitherWay(p, a, b)
  {
    if InReach(p) {
      forall qs ensures AllRight(p, NOTHING, qs) { AskRight(p, NOTHING, qs); }
      forall a, b ensures EitherWay(p, a, b) {
        AskRight(p, NOTHING, [a, b]);
        AskRight(p, NOTHING, [b, a]);
      }
    } else {
      var tag, root :| Ancestor(p, tag, root) && !Near(p, tag, root, LIMIT);
      OneWrong(p, tag, root);
      var low := OneTooFar(p, tag, root);
      OrderMatters(p, low, root);
      assert !EitherWay(p, Question(p[low].value, root), Question(low, root));
    }
  }

  lemma OneWrong(p: Parents, tag: string, root: string)
    requires Closed(p) && Ancestor(p, tag, root) && !Near(p, tag, root, LIMIT)
    ensures !AllRight(p, NOTHING, [Question(tag, root)])
  {
    hide Near;
    NearSelf(p, tag, root, LIMIT);
    AncestorSelf(p, tag);
    FreshReach(p, tag, root, 0);
  }

  // ---------- the list of ancestors ----------

  /** All ancestors of a tag, nearest first; the parent id "0" counts as none. */
  function TagParents(p: Parents, tag: string, c: nat): Result<seq<string>>
    decreases 257 - c
  {
    if c > 256 || tag !in p then Err
    else
      var parent := if p[tag].Some? then p[tag].value else "0";
      if parent == "0" then Ok([])
      else
        match TagParents(p, parent, c + 1)
        case Err => Err
        case Ok(more) => Ok([parent] + more)
  }

  /** The list succeeds exactly when the chain ends in time, and then holds the tags above, step by step. */
  lemma {:induction false} TagParentsExact(p: Parents, tag: string, c: nat)
    requires Closed(p) && "0" !in p && tag in p && c <= 257
    ensures TagParents(p, tag, c).Ok? <==> Up(p, tag, 257 - c) == None
    ensures TagParents(p, tag, c).Ok? ==>
              var list := TagParents(p, tag, c).value;
              && (forall i :: 0 <= i < |list| ==> Up(p, tag, i + 1) == Some(list[i]))
              && Up(p, tag, |list| + 1) == None
    decreases 257 - c
  {
    if c <= 256 && p[tag].Some? {
      TagParentsExact(p, p[tag].value, c + 1);
      if TagParents(p, tag, c).Ok? {
        var list := TagParents(p, tag, c).value;
        forall i | 0 <= i < |list| ensures Up(p, tag, i + 1) == Some(list[i]) {
          if i > 0 { assert list[i] == list[1..][i - 1]; }
        }
      }
    }
  }

  /** Where the list succeeds it holds exactly the proper ancestors; the question, with nothing remembered, agrees with
      it exactly if the root, where it is above the tag, is at most 101 steps above. */
  lemma ListExact(p: Parents, tag: string, root: string)
    requires Closed(p) && "0" !in p && tag in p && TagParents(p, tag, 0).Ok?
    ensures Ancestor(p, tag, root) <==> root == tag || root in TagParents(p, tag, 0).value
    ensures (Query(p, NOTHING, tag, root, 0).answer <==> root == tag || root in TagParents(p, tag, 0).value)
            <==> (Ancestor(p, tag, root) ==> Near(p, tag, root, LIMIT))
  {
    TagParentsExact(p, tag, 0);
    AncestorSelf(p, tag);
    FreshReach(p, tag, root, 0);
    if root != tag { ListIsAncestors(p, tag, root, TagParents(p, tag, 0).value); }
    NearSelf(p, tag, root, LIMIT);
  }

  /** For a tag whose chain ends within 101 steps the list succeeds, and the question agrees with it whatever is
      remembered. */
  lemma ListAgrees(p: Parents, m: Memo, tag: string, root: string)
    requires Closed(p) && "0" !in p && tag in p && Sound(p, m) && Up(p, tag, LIMIT + 1) == None
    ensures TagParents(p, tag, 0).Ok?
    ensures Query(p, m, tag, root, 0).answer <==> root == tag || root in TagParents(p, tag, 0).value
  {
    UpMore(p, tag, LIMIT + 1, 155);
    TagParentsExact(p, tag, 0);
    ListExact(p, tag, root);
    EndsNear(p, tag, root);
    QueryRight(p, m, tag, root, 0);
  }

  lemma EndsNear(p: Parents, tag: string, root: string)
    requires Up(p, tag, LIMIT + 1) == None
    ensures Ancestor(p, tag, root) ==> Near(p, tag, root, LIMIT)
  {
    if Ancestor(p, tag, root) {
      var n: nat :| Up(p, tag, n) == Some(root);
      if n > LIMIT { UpMore(p, tag, LIMIT + 1, n - LIMIT - 1); }
    }
  }

  lemma ListIsAncestors(p: Parents, tag: string, root: string, list: seq<string>)
    requires forall i :: 0 <= i < |list| ==> Up(p, tag, i + 1) == Some(list[i])
    requires Up(p, tag, |list| + 1) == None && root != tag && tag in p
    ensures Ancestor(p, tag, root) <==> root in list
  {
    if Ancestor(p, tag, root) {
      var n: nat :| Up(p, tag, n) == Some(root);
      assert n > 0;
      if n > |list| { UpMore(p, tag, |list| + 1, n - |list| - 1); }
      hide Up;
      assert Up(p, tag, (n - 1) + 1) == Some(list[n - 1]);
    }
    if root in list {
      var i :| 0 <= i < |list| && list[i] == root;
      assert Up(p, tag, i + 1) == Some(root);
    }
  }
}
