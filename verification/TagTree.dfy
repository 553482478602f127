/** The tag tree shown below a root. */
module TagTree {
  import opened Basics
  import opened TagAncestry

  type Children = map<string, seq<string>>

  /** The lists of children mirror the parents: each child once in its parent's list, and nowhere else. */
  ghost predicate Mirrors(p: Parents, c: Children) {
    && c.Keys == p.Keys
    && (forall t, k :: t in c && k in c[t] ==> k in p && p[k] == Some(t))
    && (forall k :: k in p && p[k].Some? ==> p[k].value in c && k in c[p[k].value])
    && forall t :: t in c ==> forall i, j :: 0 <= i < j < |c[t]| ==> c[t][i] != c[t][j]
  }

  datatype Tree = Node(id: string, children: seq<Tree>)

  /** The subtrees of a list of tags; Err if the depth runs out or a tag is unknown. */
  function Branches(c: Children, tags: seq<string>, counter: nat): Result<seq<Tree>>
    decreases LIMIT + 1 - counter, |tags|
  {
    if tags == [] then Ok([])
    else
      match Branches(c, tags[..|tags| - 1], counter)
      case Err => Err
      case Ok(before) =>
        match Branch(c, tags[|tags| - 1], counter)
        case Err => Err
        case Ok(t) => Ok(before + [t])
  }

  function Branch(c: Children, tag: string, counter: nat): Result<Tree>
    decreases LIMIT + 1 - counter, 0
  {
    if counter > 100 || tag !in c then Err
    else
      match Branches(c, c[tag], counter + 1)
      case Err => Err
      case Ok(ts) => Ok(Node(tag, ts))
  }

  /** How often a tag occurs in a list of trees. */
  function Count(ts: seq<Tree>, tag: string): nat {
    if ts == [] then 0 else Count(ts[..|ts| - 1], tag) + CountIn(ts[|ts| - 1], tag)
  }

  function CountIn(t: Tree, tag: string): nat {
    (if t.id == tag then 1 else 0) + Count(t.children, tag)
  }

  // ---------- how deep a tree can be shown ----------

  /** No tag lies exactly n steps below top. */
  ghost predicate NoneAt(p: Parents, top: string, n: nat) {
    forall tag :: Up(p, tag, n) != Some(top)
  }

  /** Nothing lies more than 101 steps below the root. */
  ghost predicate Fits(p: Parents, root: string) {
    NoneAt(p, root, 102)
  }

  /** The next tag on the way from tag up to top. */
  lemma {:induction false} Step(p: Parents, tag: string, n: nat)
    requires Up(p, tag, n + 1).Some?
    ensures Up(p, tag, n).Some? && Up(p, tag, n).value in p
    ensures p[Up(p, tag, n).value] == Up(p, tag, n + 1)
    decreases n
  {
    if n > 0 { Step(p, p[tag].value, n - 1); }
  }

  /** What lies n + 1 steps below a tag lies n steps below one of its children. */
  lemma NoneBelow(p: Parents, c: Children, top: string, n: nat)
    requires Closed(p) && Mirrors(p, c) && top in c
    ensures NoneAt(p, top, n + 1) <==> forall kid :: kid in c[top] ==> NoneAt(p, kid, n)
  {
    if NoneAt(p, top, n + 1) {
      forall tag, kid | kid in c[top] ensures Up(p, tag, n) != Some(kid) {
        UpMore(p, tag, n, 1);
        assert Up(p, tag, n + 1) != Some(top) && Up(p, kid, 1) == Some(top);
      }
    } else {
      var tag := OneAt(p, top, n + 1);
      Step(p, tag, n);
      var kid := Up(p, tag, n).value;
      assert kid in c[top] && !NoneAt(p, kid, n);
    }
  }

  lemma OneAt(p: Parents, top: string, n: nat) returns (tag: string)
    requires !NoneAt(p, top, n)
    ensures Up(p, tag, n) == Some(top)
  {
    tag :| Up(p, tag, n) == Some(top);
  }

  lemma Self(p: Parents, top: string)
    requires top in p
    ensures !NoneAt(p, top, 0)
  {
    assert Up(p, top, 0) == Some(top);
  }

  lemma {:induction false} BranchExact(p: Parents, c: Children, top: string, counter: nat)
    requires Closed(p) && Mirrors(p, c) && top in c && counter <= LIMIT
    ensures Branch(c, top, counter).Ok? <==> NoneAt(p, top, LIMIT - counter)
    decreases LIMIT + 1 - counter, 0
  {
    hide NoneAt, Branches;
    if counter == LIMIT {
      Self(p, top);
    } else {
      NoneBelow(p, c, top, LIMIT - counter - 1);
      BranchesExact(p, c, c[top], counter + 1);
    }
  }

  lemma {:induction false} BranchesExact(p: Parents, c: Children, tops: seq<string>, counter: nat)
    requires Closed(p) && Mirrors(p, c) && counter <= LIMIT && forall t :: t in tops ==> t in c
    ensures Branches(c, tops, counter).Ok? <==> forall t :: t in tops ==> NoneAt(p, t, LIMIT - counter)
    decreases LIMIT + 1 - counter, |tops|
  {
    hide NoneAt, Mirrors, Closed, Branch, Branches;
    BranchesLast(c, tops, counter);
    if tops != [] {
      var k := |tops| - 1;
      BranchesExact(p, c, tops[..k], counter);
      BranchExact(p, c, tops[k], counter);
      assert tops[k] in tops;
      assert forall t :: t in tops[..k] ==> t in tops;
      assert forall t :: t in tops ==> t in tops[..k] || t == tops[k];
    }
  }

  lemma BranchesLast(c: Children, tops: seq<string>, counter: nat)
    ensures Branches(c, tops, counter).Ok? <==>
            (tops != [] ==>
               Branches(c, tops[..|tops| - 1], counter).Ok? && Branch(c, tops[|tops| - 1], counter).Ok?)
  {
    hide Branch;
  }

  // ---------- which tags a tree shows ----------

  /** Number of tags in a list that are tag itself or above it. */
  ghost function Above(p: Parents, tags: seq<string>, tag: string): nat {
    if tags == [] then 0
    else Above(p, tags[..|tags| - 1], tag) + if Ancestor(p, tag, tags[|tags| - 1]) then 1 else 0
  }

  /** A shown subtree holds a tag once if its top is the tag or above it, and otherwise not at all. */
  lemma {:induction false} BranchShows(p: Parents, c: Children, root: string, top: string, counter: nat, tag: string)
    requires Closed(p) && Mirrors(p, c) && Fits(p, root) && Ancestor(p, top, root) && Branch(c, top, counter).Ok?
    ensures CountIn(Branch(c, top, counter).value, tag) == if Ancestor(p, tag, top) then 1 else 0
    decreases LIMIT + 1 - counter, 0
  {
    KidsUnder(p, c, root, top);
    hide Mirrors, Fits, Ancestor;
    BranchesShow(p, c, root, c[top], counter + 1, tag);
    ChildrenAbove(p, c, root, top, tag);
  }

  lemma {:induction false} BranchesShow(p: Parents, c: Children, root: string, tops: seq<string>, counter: nat,
                                        tag: string)
    requires Closed(p) && Mirrors(p, c) && Fits(p, root) && Branches(c, tops, counter).Ok?
    requires forall t :: t in tops ==> Ancestor(p, t, root)
    ensures Count(Branches(c, tops, counter).value, tag) == Above(p, tops, tag)
    decreases LIMIT + 1 - counter, |tops|
  {
    hide Mirrors, Fits, Closed, Ancestor;
    if tops != [] {
      BranchesShow(p, c, root, tops[..|tops| - 1], counter, tag);
      BranchShows(p, c, root, tops[|tops| - 1], counter, tag);
      var ts := Branches(c, tops, counter).value;
      assert ts[..|ts| - 1] == Branches(c, tops[..|tops| - 1], counter).value;
    }
  }

  lemma KidsUnder(p: Parents, c: Children, root: string, top: string)
    requires Mirrors(p, c) && top in c && Ancestor(p, top, root)
    ensures forall kid :: kid in c[top] ==> kid in p && p[kid] == Some(top) && Ancestor(p, kid, root)
  {
    var n: nat :| Up(p, top, n) == Some(root);
    forall kid | kid in c[top] ensures Ancestor(p, kid, root) {
      assert Up(p, kid, n + 1) == Some(root);
    }
  }

  /** Below a root with a bounded depth there is no way from a tag back to itself. */
  lemma Loop(p: Parents, root: string, tag: string, n: nat)
    requires Fits(p, root) && Ancestor(p, tag, root) && n > 0
    ensures Up(p, tag, n) != Some(tag)
  {
    if Up(p, tag, n) == Some(tag) {
      var m: nat :| Up(p, tag, m) == Some(root);
      Around(p, tag, n, LIMIT + 1);
      var far := (LIMIT + 1) * n;
      UpMore(p, tag, far, m);
      var k := far + m - (LIMIT + 1);
      UpMore(p, tag, k, LIMIT + 1);
    }
  }

  lemma {:induction false} Around(p: Parents, tag: string, n: nat, k: nat)
    requires Up(p, tag, n) == Some(tag)
    ensures Up(p, tag, k * n) == Some(tag)
    decreases k
  {
    if k > 0 {
      Around(p, tag, n, k - 1);
      UpMore(p, tag, n, (k - 1) * n);
      assert k * n == n + (k - 1) * n;
    } else {
      assert tag in p;
    }
  }

  /** There a tag is met at one distance only. */
  lemma FurtherUp(p: Parents, root: string, tag: string, n: nat, m: nat)
    requires Fits(p, root) && Up(p, tag, n).Some? && Ancestor(p, Up(p, tag, n).value, root) && n < m
    ensures Up(p, tag, n) != Up(p, tag, m)
  {
    UpMore(p, tag, n, m - n);
    Loop(p, root, Up(p, tag, n).value, m - n);
  }

  /** A tag at or above some child of top: exactly the tags under top, each under one child. */
  lemma ChildrenAbove(p: Parents, c: Children, root: string, top: string, tag: string)
    requires Closed(p) && Mirrors(p, c) && Fits(p, root) && top in c && Ancestor(p, top, root)
    ensures (if top == tag then 1 else 0) + Above(p, c[top], tag) == if Ancestor(p, tag, top) then 1 else 0
  {
    var kids := c[top];
    if kid :| kid in kids && Ancestor(p, tag, kid) {
      forall other | other in kids && Ancestor(p, tag, other) ensures other == kid {
        OneKid(p, root, tag, top, kid, other);
      }
      AboveOne(p, kids, tag, kid);
      UnderKid(p, root, tag, top, kid);
    } else {
      AboveNone(p, kids, tag);
      if Ancestor(p, tag, top) && tag != top { HasKid(p, c, top, tag); }
      if tag == top { AncestorSelf(p, tag); }
    }
  }

  lemma HasKid(p: Parents, c: Children, top: string, tag: string)
    requires Closed(p) && Mirrors(p, c) && top in c && Ancestor(p, tag, top) && tag != top
    ensures exists kid :: kid in c[top] && Ancestor(p, tag, kid)
  {
    var n: nat :| Up(p, tag, n) == Some(top);
    assert n > 0;
    Step(p, tag, n - 1);
    var kid := Up(p, tag, n - 1).value;
    assert Ancestor(p, tag, kid);
    assert kid in c[top];
  }

  lemma UnderKid(p: Parents, root: string, tag: string, top: string, kid: string)
    requires Closed(p) && Fits(p, root) && kid in p && p[kid] == Some(top) && Ancestor(p, tag, kid)
    requires Ancestor(p, top, root)
    ensures Ancestor(p, tag, top) && tag != top
  {
    var n: nat :| Up(p, tag, n) == Some(kid);
    UpMore(p, tag, n, 1);
    assert Up(p, kid, 1) == Some(top);
    assert Up(p, tag, n + 1) == Some(top);
    if tag == top { Loop(p, root, tag, n + 1); }
  }

  lemma OneKid(p: Parents, root: string, tag: string, top: string, a: string, b: string)
    requires Closed(p) && Fits(p, root) && a in p && b in p && p[a] == Some(top) && p[b] == Some(top)
    requires Ancestor(p, tag, a) && Ancestor(p, tag, b) && Ancestor(p, top, root)
    ensures a == b
  {
    var n: nat :| Up(p, tag, n) == Some(a);
    var m: nat :| Up(p, tag, m) == Some(b);
    UpMore(p, tag, n, 1);
    UpMore(p, tag, m, 1);
    assert Up(p, a, 1) == Some(top) && Up(p, b, 1) == Some(top);
    if n < m { FurtherUp(p, root, tag, n + 1, m + 1); }
    if m < n { FurtherUp(p, root, tag, m + 1, n + 1); }
  }

  lemma {:induction false} AboveNone(p: Parents, tags: seq<string>, tag: string)
    requires forall t :: t in tags ==> !Ancestor(p, tag, t)
    ensures Above(p, tags, tag) == 0
    decreases |tags|
  {
    hide Ancestor;
    if tags != [] { AboveNone(p, tags[..|tags| - 1], tag); }
  }

  lemma {:induction false} AboveOne(p: Parents, tags: seq<string>, tag: string, one: string)
    requires one in tags && Ancestor(p, tag, one)
    requires forall t :: t in tags && Ancestor(p, tag, t) ==> t == one
    requires forall i, j :: 0 <= i < j < |tags| ==> tags[i] != tags[j]
    ensures Above(p, tags, tag) == 1
    decreases |tags|
  {
    hide Ancestor;
    var k := |tags| - 1;
    if tags[k] == one {
      assert one !in tags[..k];
      AboveNone(p, tags[..k], tag);
    } else {
      assert one in tags[..k];
      AboveOne(p, tags[..k], tag, one);
    }
  }

  // ---------- what stands where in a tree ----------

  /** Every tag in the tree has its children below it, and nothing else, in their order. */
  ghost predicate Grown(c: Children, t: Tree) {
    && t.id in c && |t.children| == |c[t.id]|
    && forall i :: 0 <= i < |t.children| ==> t.children[i].id == c[t.id][i] && Grown(c, t.children[i])
  }

  /** The subtree of a tag has the tag at its top. */
  lemma {:induction false} BranchGrown(c: Children, tag: string, counter: nat)
    requires Branch(c, tag, counter).Ok?
    ensures Branch(c, tag, counter).value.id == tag && Grown(c, Branch(c, tag, counter).value)
    decreases LIMIT + 1 - counter, 0
  {
    BranchesGrown(c, c[tag], counter + 1);
  }

  lemma {:induction false} BranchesGrown(c: Children, tags: seq<string>, counter: nat)
    requires Branches(c, tags, counter).Ok?
    ensures var ts := Branches(c, tags, counter).value;
            |ts| == |tags| && forall i :: 0 <= i < |ts| ==> ts[i].id == tags[i] && Grown(c, ts[i])
    decreases LIMIT + 1 - counter, |tags|
  {
    if tags != [] {
      var k := |tags| - 1;
      BranchesGrown(c, tags[..k], counter);
      BranchGrown(c, tags[k], counter);
    }
  }

  // ---------- the tree below a root ----------

  /** The tree below a root can be shown exactly if nothing lies more than 101 steps below the root; then it shows
      every tag that has the root above it, once, and no other. */
  lemma TreeShows(p: Parents, c: Children, root: string, tag: string)
    requires Closed(p) && Mirrors(p, c) && root in p
    ensures Branches(c, c[root], 0).Ok? <==> Fits(p, root)
    ensures Branches(c, c[root], 0).Ok? ==>
              Count(Branches(c, c[root], 0).value, tag) == if tag != root && Ancestor(p, tag, root) then 1 else 0
  {
    AncestorSelf(p, root);
    KidsUnder(p, c, root, root);
    hide Ancestor, Mirrors, NoneAt;
    NoneBelow(p, c, root, LIMIT);
    BranchesExact(p, c, c[root], 0);
    if Fits(p, root) {
      hide Fits;
      BranchesShow(p, c, root, c[root], 0, tag);
      ChildrenAbove(p, c, root, root, tag);
    }
  }

  /** Where the tree can be shown, the question with a memo and the tree agree. */
  lemma {:induction false} TreeAgrees(p: Parents, c: Children, m: Memo, root: string, tag: string)
    requires Closed(p) && Mirrors(p, c) && Sound(p, m) && root in p && tag in p
    requires Branches(c, c[root], 0).Ok?
    ensures Query(p, m, tag, root, 0).answer
            <==> tag == root || Count(Branches(c, c[root], 0).value, tag) == 1
  {
    TreeShows(p, c, root, tag);
    FitsNear(p, root, tag);
    hide Branches, Query, Count, Ancestor, Near, Sound, Closed, Mirrors;
    QueryRight(p, m, tag, root, 0);
    AncestorSelf(p, tag);
  }

  lemma FitsNear(p: Parents, root: string, tag: string)
    requires Fits(p, root)
    ensures Ancestor(p, tag, root) ==> Near(p, tag, root, LIMIT)
  {
    if Ancestor(p, tag, root) {
      var n: nat :| Up(p, tag, n) == Some(root);
      if n > LIMIT { UpMore(p, tag, n - LIMIT - 1, LIMIT + 1); }
    }
  }
}
