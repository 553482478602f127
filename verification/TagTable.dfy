/** The tag table in memory: loaded from rows, asked with its memo, and shown as a tree. */
module TagTable {
  import opened Basics
  import opened TagAncestry
  import opened TagTree

  datatype Row = Row(id: string, parent: Option<string>)

  /** The children of a tag among the rows, in the order of the rows. */
  function Kids(rows: seq<Row>, tag: string): (r: seq<string>)
    ensures forall k :: k in r <==> exists i :: 0 <= i < |rows| && rows[i] == Row(k, Some(tag))
  {
    if rows == [] then []
    else
      var last := rows[|rows| - 1];
      assert rows == rows[..|rows| - 1] + [last];
      if last.parent == Some(tag) then Kids(rows[..|rows| - 1], tag) + [last.id] else Kids(rows[..|rows| - 1], tag)
  }

  ghost predicate UniqueIds(rows: seq<Row>) {
    forall i, j :: 0 <= i < j < |rows| ==> rows[i].id != rows[j].id
  }

  lemma {:induction false} KidsOnce(rows: seq<Row>, tag: string)
    requires UniqueIds(rows)
    ensures forall i, j :: 0 <= i < j < |Kids(rows, tag)| ==> Kids(rows, tag)[i] != Kids(rows, tag)[j]
    decreases |rows|
  {
    if rows != [] {
      var n := |rows| - 1;
      KidsOnce(rows[..n], tag);
      assert rows[n].id !in Kids(rows[..n], tag);
    }
  }

  /** Children come in the order of their rows. */
  lemma {:induction false} KidsInOrder(rows: seq<Row>, tag: string, i: nat, j: nat)
    requires i < j < |rows| && rows[i].parent == Some(tag) && rows[j].parent == Some(tag)
    ensures exists a, b :: 0 <= a < b < |Kids(rows, tag)| && Kids(rows, tag)[a] == rows[i].id
                           && Kids(rows, tag)[b] == rows[j].id
    decreases |rows|
  {
    var n := |rows| - 1;
    var before := Kids(rows[..n], tag);
    if j == n {
      assert rows[..n][i] == Row(rows[i].id, Some(tag));
      var a :| 0 <= a < |before| && before[a] == rows[i].id;
      assert Kids(rows, tag)[a] == rows[i].id && Kids(rows, tag)[|before|] == rows[j].id;
    } else {
      KidsInOrder(rows[..n], tag, i, j);
      var a, b :| 0 <= a < b < |before| && before[a] == rows[i].id && before[b] == rows[j].id;
      assert Kids(rows, tag)[a] == before[a] && Kids(rows, tag)[b] == before[b];
    }
  }

  /** What the rows say, as tables. */
  ghost predicate Loaded(rows: seq<Row>, p: Parents, c: Children) {
    && (forall t :: t in p <==> exists i :: 0 <= i < |rows| && rows[i].id == t)
    && (forall i :: 0 <= i < |rows| ==> rows[i].id in p && p[rows[i].id] == rows[i].parent)
    && c.Keys == p.Keys
    && forall t :: t in c ==> c[t] == Kids(rows, t)
  }

  ghost predicate ParentsKnown(rows: seq<Row>) {
    forall i :: 0 <= i < |rows| && rows[i].parent.Some? ==>
      exists j :: 0 <= j < |rows| && rows[j].id == rows[i].parent.value
  }

  lemma {:induction false} LoadedMirrors(rows: seq<Row>, p: Parents, c: Children)
    requires UniqueIds(rows) && Loaded(rows, p, c) && ParentsKnown(rows)
    ensures Closed(p) && Mirrors(p, c)
  {
    forall t | t in c ensures forall i, j :: 0 <= i < j < |c[t]| ==> c[t][i] != c[t][j] { KidsOnce(rows, t); }
    forall k | k in p && p[k].Some? ensures p[k].value in c && k in c[p[k].value] {
      var i :| 0 <= i < |rows| && rows[i].id == k;
      assert rows[i] == Row(k, Some(p[k].value));
    }
  }

  lemma KidsMore(rows: seq<Row>, i: nat, tag: string)
    requires i < |rows|
    ensures Kids(rows[..i + 1], tag)
            == if rows[i].parent == Some(tag) then Kids(rows[..i], tag) + [rows[i].id] else Kids(rows[..i], tag)
    ensures Kids(rows[..0], tag) == []
  {
    assert rows[..i + 1][..i] == rows[..i];
  }

  /** First pass: every tag of the rows, without parent and children yet. */
  method Known(rows: seq<Row>) returns (p: Parents, c: Children)
    ensures OfRows(rows, p, c) && forall t :: t in p ==> p[t] == None && c[t] == []
  {
    p, c := map[], map[];
    for i := 0 to |rows|
      invariant p.Keys == c.Keys
      invariant forall t :: t in p <==> exists j :: 0 <= j < i && rows[j].id == t
      invariant forall t :: t in p ==> p[t] == None && c[t] == []
    {
      p, c := p[rows[i].id := None], c[rows[i].id := []];
    }
  }

  ghost predicate OfRows(rows: seq<Row>, p: Parents, c: Children) {
    p.Keys == c.Keys && forall t :: t in p <==> exists j :: 0 <= j < |rows| && rows[j].id == t
  }

  /** Parents and children are in place for the first i rows. */
  ghost predicate Half(rows: seq<Row>, i: nat, p: Parents, c: Children) {
    && i <= |rows|
    && (forall j :: 0 <= j < |rows| ==> rows[j].id in p && p[rows[j].id] == if j < i then rows[j].parent else None)
    && (forall j :: 0 <= j < i && rows[j].parent.Some? ==> rows[j].parent.value in p)
    && forall t :: t in c ==> c[t] == Kids(rows[..i], t)
  }

  lemma HalfStep(rows: seq<Row>, i: nat, p: Parents, c: Children)
    requires UniqueIds(rows) && i < |rows| && Half(rows, i, p, c) && p.Keys == c.Keys
    ensures rows[i].parent == None ==> Half(rows, i + 1, p, c)
    ensures rows[i].parent.Some? && rows[i].parent.value in p ==>
              var q := rows[i].parent.value;
              Half(rows, i + 1, p[rows[i].id := Some(q)], c[q := c[q] + [rows[i].id]])
  {
    hide Kids;
    forall t | t in c
      ensures Kids(rows[..i + 1], t) == if rows[i].parent == Some(t) then c[t] + [rows[i].id] else c[t]
    {
      KidsMore(rows, i, t);
    }
  }

  lemma HalfEnds(rows: seq<Row>, p: Parents, c: Children)
    requires OfRows(rows, p, c) && Half(rows, |rows|, p, c)
    ensures Loaded(rows, p, c) && ParentsKnown(rows)
  {
    hide Kids;
    assert rows[..|rows|] == rows;
  }

  lemma HalfBegins(rows: seq<Row>, p: Parents, c: Children)
    requires OfRows(rows, p, c) && forall t :: t in p ==> p[t] == None && c[t] == []
    ensures Half(rows, 0, p, c)
  {
    assert rows[..0] == [];
  }

  /** Second pass: parents, and children in the order of the rows. */
  method Linked(rows: seq<Row>, p0: Parents, c0: Children) returns (ok: bool, p: Parents, c: Children)
    requires UniqueIds(rows) && OfRows(rows, p0, c0) && forall t :: t in p0 ==> p0[t] == None && c0[t] == []
    ensures ok <==> ParentsKnown(rows)
    ensures ok ==> Loaded(rows, p, c)
  {
    hide Half, OfRows, UniqueIds, Loaded, ParentsKnown;
    p, c := p0, c0;
    HalfBegins(rows, p, c);
    for i := 0 to |rows|
      invariant OfRows(rows, p, c) && Half(rows, i, p, c)
    {
      InRows(rows, i, p, c);
      HalfStep(rows, i, p, c);
      var row := rows[i];
      if row.parent.Some? {
        var parent := row.parent.value;
        if parent !in p { return false, p, c; }
        p := p[row.id := Some(parent)];
        c := c[parent := c[parent] + [row.id]];
      }
    }
    HalfEnds(rows, p, c);
    return true, p, c;
  }

  lemma InRows(rows: seq<Row>, i: nat, p: Parents, c: Children)
    requires i < |rows| && OfRows(rows, p, c)
    ensures p.Keys == c.Keys && rows[i].id in p
    ensures rows[i].parent.Some? && rows[i].parent.value !in p ==> !ParentsKnown(rows)
    ensures rows[i].parent.Some? && rows[i].parent.value in p ==>
              var q := rows[i].parent.value;
              q in c && OfRows(rows, p[rows[i].id := Some(q)], c[q := c[q] + [rows[i].id]])
  {
  }

  class Table {
    var parents: Parents
    var children: Children
    var has: Pairs
    var no: Pairs

    ghost predicate Valid()
      reads this
    {
      Closed(parents) && Mirrors(parents, children) && Sound(parents, Memo(has, no))
    }

    constructor ()
      ensures Valid() && parents == map[] && children == map[]
    {
      parents, children, has, no := map[], map[], {}, {};
    }

    /** Replaces the tables by those of the rows; if a parent is missing, nothing changes. */
    method Load(rows: seq<Row>) returns (ok: bool)
      requires Valid() && UniqueIds(rows)
      modifies this
      ensures Valid() && (ok <==> ParentsKnown(rows))
      ensures ok ==> Loaded(rows, parents, children) && has == {} && no == {}
      ensures !ok ==> parents == old(parents) && children == old(children) && has == old(has) && no == old(no)
    {
      hide Kids, UniqueIds;
      var p, c := Known(rows);
      ok, p, c := Linked(rows, p, c);
      if ok {
        LoadedMirrors(rows, p, c);
        parents, children, has, no := p, c, {}, {};
      }
    }

    /** Whether tag is root or lies below it; the answers of the way up are remembered. */
    method TagHasRoot(tag: string, root: string, counter: nat) returns (answer: bool)
      modifies this`has, this`no
      ensures Reply(answer, Memo(has, no)) == Query(parents, old(Memo(has, no)), tag, root, counter)
      decreases LIMIT - counter
    {
      if counter > 100 { return false; }
      if tag !in parents { return false; }
      if tag == root { return true; }
      if (tag, root) in has { return true; }
      if (tag, root) in no { return false; }
      if parents[tag] == None { return false; }
      if parents[tag].value == root {
        has := has + {(tag, root)};
        return true;
      }
      answer := TagHasRoot(parents[tag].value, root, counter + 1);
      if answer {
        has := has + {(tag, root)};
      } else {
        no := no + {(tag, root)};
      }
    }

    /** A question from outside: right if all ancestors are in reach, and the table stays as it is for the next. */
    method Ask(tag: string, root: string) returns (answer: bool)
      requires Valid() && InReach(parents)
      modifies this`has, this`no
      ensures Valid() && (answer <==> Ancestor(parents, tag, root))
    {
      QueryRight(parents, Memo(has, no), tag, root, 0);
      answer := TagHasRoot(tag, root, 0);
    }

    /** Appends the subtree of a tag to a list of trees. */
    method TraverseTree(tag: string, addTo: seq<Tree>, counter: nat) returns (r: Result<seq<Tree>>)
      ensures r == match Branch(children, tag, counter) case Err => Err case Ok(t) => Ok(addTo + [t])
      ensures r.Ok? ==>
                && |r.value| == |addTo| + 1 && r.value[..|addTo|] == addTo
                && r.value[|addTo|].id == tag && Grown(children, r.value[|addTo|])
      decreases LIMIT - counter
    {
      if counter > 100 { return Err; }
      if tag !in children { return Err; }
      var kids: seq<Tree> := [];
      var ids := children[tag];
      for i := 0 to |ids|
        invariant Branches(children, ids[..i], counter + 1) == Ok(kids)
      {
        assert ids[..i + 1][..i] == ids[..i];
        var more := TraverseTree(ids[i], kids, counter + 1);
        if more.Err? {
          BranchesErr(children, ids, i + 1, counter + 1);
          return Err;
        }
        kids := more.value;
      }
      assert ids[..|ids|] == ids;
      BranchGrown(children, tag, counter);
      return Ok(addTo + [Node(tag, kids)]);
    }
  }

  /** A failure among the first tags is a failure of the whole list. */
  lemma {:induction false} BranchesErr(c: Children, tags: seq<string>, n: nat, counter: nat)
    requires n <= |tags| && Branches(c, tags[..n], counter) == Err
    ensures Branches(c, tags, counter) == Err
    decreases |tags|
  {
    if n < |tags| {
      assert tags[..|tags| - 1][..n] == tags[..n];
      BranchesErr(c, tags[..|tags| - 1], n, counter);
    } else {
      assert tags[..n] == tags;
    }
  }
}
