/** Link identifiers, and the string list helpers that the link lists are kept with. */
module LinkKey {
  import opened Basics

  type LinkId = string

  /** One end of a link: an interface of a device. */
  datatype Leg = Leg(dev: string, ifc: string)

  /** Lexicographic order of strings. */
  predicate Greater(a: string, b: string) {
    if a == [] then false
    else if b == [] then true
    else if a[0] != b[0] then a[0] > b[0]
    else Greater(a[1..], b[1..])
  }

  lemma {:induction false} GreaterTotal(a: string, b: string)
    ensures if a == b then !Greater(a, b) else Greater(a, b) <==> !Greater(b, a)
    decreases |a|
  {
    if a != [] && b != [] && a[0] == b[0] {
      GreaterTotal(a[1..], b[1..]);
      assert a == [a[0]] + a[1..] && b == [b[0]] + b[1..];
    }
  }

  function Written(hi: Leg, lo: Leg): LinkId {
    hi.dev + "@" + hi.ifc + "#" + lo.dev + "@" + lo.ifc
  }

  /** The identifier of the link between two legs: the greater leg is written first. */
  function Key(a: Leg, b: Leg): LinkId {
    if Greater(a.dev, b.dev) || (a.dev == b.dev && Greater(a.ifc, b.ifc)) then Written(a, b)
    else Written(b, a)
  }

  /** a comes after b in the dictionary: where they part, a has the later character or b has ended. */
  ghost predicate Later(a: string, b: string) {
    exists k :: 0 <= k <= |b| && k < |a| && a[..k] == b[..k] && (k < |b| ==> a[k] > b[k])
  }

  lemma {:induction false} GreaterLater(a: string, b: string)
    ensures Greater(a, b) <==> Later(a, b)
    decreases |a|
  {
    if a != [] && b != [] && a[0] == b[0] {
      GreaterLater(a[1..], b[1..]);
      LaterTails(a, b);
    } else {
      NothingShared(a, b);
      assert a[..0] == b[..0];
    }
  }

  lemma LaterTails(a: string, b: string)
    requires a != [] && b != [] && a[0] == b[0]
    ensures Later(a, b) <==> Later(a[1..], b[1..])
  {
    if k :| 0 <= k <= |b[1..]| && k < |a[1..]| && a[1..][..k] == b[1..][..k]
            && (k < |b[1..]| ==> a[1..][k] > b[1..][k])
    {
      FrontMore(a, b, k + 1);
      assert Later(a, b);
    }
    if k :| 0 <= k <= |b| && k < |a| && a[..k] == b[..k] && (k < |b| ==> a[k] > b[k]) {
      FrontMore(a, b, k);
      assert Later(a[1..], b[1..]);
    }
  }

  lemma FrontMore(a: string, b: string, k: nat)
    requires 0 < k <= |a| && k <= |b| && a[0] == b[0]
    ensures a[..k] == b[..k] <==> a[1..][..k - 1] == b[1..][..k - 1]
  {
    assert a[..k] == [a[0]] + a[1..][..k - 1] && b[..k] == [b[0]] + b[1..][..k - 1];
  }

  lemma NothingShared(a: string, b: string)
    requires a == [] || b == [] || a[0] != b[0]
    ensures forall k :: 0 < k <= |a| && k <= |b| ==> a[..k] != b[..k]
  {
    forall k | 0 < k <= |a| && k <= |b| ensures a[..k] != b[..k] {
      assert a[..k][0] == a[0] && b[..k][0] == b[0];
    }
  }

  /** The identifier as it is written: first the end with the later device id, or, on one device, the later name. */
  lemma KeyText(a: Leg, b: Leg)
    ensures Later(a.dev, b.dev) || (a.dev == b.dev && (Later(a.ifc, b.ifc) || a.ifc == b.ifc)) ==>
              Key(a, b) == Key(b, a) == a.dev + "@" + a.ifc + "#" + b.dev + "@" + b.ifc
    ensures a == b || Later(a.dev, b.dev) || Later(b.dev, a.dev)
            || (a.dev == b.dev && (Later(a.ifc, b.ifc) || Later(b.ifc, a.ifc)))
  {
    hide Greater, Later;
    GreaterLater(a.dev, b.dev);
    GreaterLater(b.dev, a.dev);
    GreaterLater(a.ifc, b.ifc);
    GreaterLater(b.ifc, a.ifc);
    GreaterTotal(a.dev, b.dev);
    GreaterTotal(a.ifc, b.ifc);
    KeySymmetric(a, b);
  }

  lemma KeySymmetric(a: Leg, b: Leg)
    ensures Key(a, b) == Key(b, a)
  {
    GreaterTotal(a.dev, b.dev);
    GreaterTotal(a.ifc, b.ifc);
  }

  /** Device ids without @ and interface names without # keep identifiers apart. */
  ghost predicate Clean(g: Leg) {
    '@' !in g.dev && '#' !in g.ifc
  }

  lemma SplitFirst(a: string, x: string, b: string, y: string, c: char)
    requires c !in a && c !in b && a + [c] + x == b + [c] + y
    ensures a == b && x == y
  {
    var s := a + [c] + x;
    assert s[|a|] == c && s[|b|] == c;
    assert |a| == |b|;
    assert a == s[..|a|] && b == s[..|b|];
    assert x == s[|a| + 1..] && y == s[|b| + 1..];
  }

  lemma WrittenInjective(a: Leg, b: Leg, c: Leg, d: Leg)
    requires Clean(a) && Clean(b) && Clean(c) && Clean(d) && Written(a, b) == Written(c, d)
    ensures a == c && b == d
  {
    var ra, rc := b.dev + "@" + b.ifc, d.dev + "@" + d.ifc;
    assert Written(a, b) == a.dev + ['@'] + (a.ifc + "#" + ra);
    assert Written(c, d) == c.dev + ['@'] + (c.ifc + "#" + rc);
    SplitFirst(a.dev, a.ifc + "#" + ra, c.dev, c.ifc + "#" + rc, '@');
    SplitFirst(a.ifc, ra, c.ifc, rc, '#');
    SplitFirst(b.dev, b.ifc, d.dev, d.ifc, '@');
  }

  /** Equal identifiers belong to the same unordered pair of interfaces. */
  lemma KeyInjective(a: Leg, b: Leg, c: Leg, d: Leg)
    requires Clean(a) && Clean(b) && Clean(c) && Clean(d) && Key(a, b) == Key(c, d)
    ensures {a, b} == {c, d}
  {
    var hi, lo := if Key(a, b) == Written(a, b) then a else b, if Key(a, b) == Written(a, b) then b else a;
    var hi', lo' := if Key(c, d) == Written(c, d) then c else d, if Key(c, d) == Written(c, d) then d else c;
    WrittenInjective(hi, lo, hi', lo');
  }

  // ---------- exactly when two links share an identifier ----------

  /** The greater and the lesser of two legs, as an identifier is written. */
  function High(a: Leg, b: Leg): Leg {
    if Greater(a.dev, b.dev) || (a.dev == b.dev && Greater(a.ifc, b.ifc)) then a else b
  }

  function Low(a: Leg, b: Leg): Leg { if High(a, b) == a then b else a }

  lemma HighLow(a: Leg, b: Leg)
    ensures Key(a, b) == Written(High(a, b), Low(a, b)) && {High(a, b), Low(a, b)} == {a, b}
    ensures High(a, b) == High(b, a) && Low(a, b) == Low(b, a)
  {
    GreaterTotal(a.dev, b.dev);
    GreaterTotal(a.ifc, b.ifc);
    hide Greater, Written;
    KeySymmetric(a, b);
  }

  /** A device id free of both marks. */
  predicate Unmarked(g: Leg) { '@' !in g.dev && '#' !in g.dev }

  /** The name a.ifc runs on past the name c.ifc, over the device id of d and into the name of d. */
  ghost predicate Overruns(a: Leg, b: Leg, c: Leg, d: Leg) {
    a.dev == c.dev
    && exists m: string :: a.ifc == c.ifc + ("#" + (d.dev + ("@" + m))) && d.ifc == m + ("#" + (b.dev + ("@" + b.ifc)))
  }

  lemma WrittenParts(a: Leg, b: Leg)
    ensures Written(a, b) == a.dev + ['@'] + (a.ifc + ("#" + (b.dev + ("@" + b.ifc))))
  {
  }

  /** Cutting a common text at two places. */
  lemma CutTwice(x: string, y: string, x': string, y': string)
    requires x + y == x' + y' && |x'| <= |x|
    ensures x == x' + x[|x'|..] && y' == x[|x'|..] + y
  {
    var s := x + y;
    assert x == s[..|x|] && x' == s[..|x'|] && y' == s[|x'|..] && y == s[|x|..];
    assert s[|x'|..] == s[|x'|..|x|] + s[|x|..];
  }

  lemma OverrunForth(a: Leg, b: Leg, c: Leg, d: Leg)
    requires Unmarked(d) && a.dev == c.dev && |c.ifc| < |a.ifc|
    requires a.ifc + ("#" + (b.dev + ("@" + b.ifc))) == c.ifc + ("#" + (d.dev + ("@" + d.ifc)))
    ensures Overruns(a, b, c, d)
  {
    var rest, rest' := "#" + (b.dev + ("@" + b.ifc)), "#" + (d.dev + ("@" + d.ifc));
    CutTwice(a.ifc, rest, c.ifc, rest');
    var x := a.ifc[|c.ifc|..];
    assert x[0] == rest'[0] == '#';
    var y := x[1..];
    assert x == "#" + y;
    assert y + rest == d.dev + ("@" + d.ifc) by {
      assert (x + rest)[1..] == y + rest && rest'[1..] == d.dev + ("@" + d.ifc);
    }
    PastId(y, rest, d.dev, "@" + d.ifc);
    CutTwice(y, rest, d.dev, "@" + d.ifc);
    var z := y[|d.dev|..];
    assert z[0] == ("@" + d.ifc)[0] == '@';
    var m := z[1..];
    assert z == "@" + m;
    assert d.ifc == m + rest by { assert ("@" + d.ifc)[1..] == d.ifc && (z + rest)[1..] == m + rest; }
    assert a.ifc == c.ifc + ("#" + (d.dev + ("@" + m)));
  }

  /** A text whose continuation starts with # reaches past an id without #. */
  lemma PastId(y: string, rest: string, id: string, tail: string)
    requires y + rest == id + tail && rest != "" && rest[0] == '#' && '#' !in id && tail != "" && tail[0] == '@'
    ensures |id| < |y|
  {
    assert (y + rest)[|y|] == '#' && (id + tail)[|id|] == '@';
    forall i | 0 <= i < |id| ensures (id + tail)[i] != '#' { }
  }

  lemma OverrunBack(a: Leg, b: Leg, c: Leg, d: Leg)
    requires Overruns(a, b, c, d)
    ensures Written(a, b) == Written(c, d)
  {
    var m: string :| a.ifc == c.ifc + ("#" + (d.dev + ("@" + m))) && d.ifc == m + ("#" + (b.dev + ("@" + b.ifc)));
    var r := "#" + (b.dev + ("@" + b.ifc));
    WrittenParts(a, b);
    WrittenParts(c, d);
    Assoc(c.ifc, "#" + (d.dev + ("@" + m)), r);
    Assoc("#", d.dev + ("@" + m), r);
    Assoc(d.dev, "@" + m, r);
    Assoc("@", m, r);
  }

  /** With unmarked device ids two written forms agree exactly if the legs do, or one name overruns the other. */
  lemma WrittenExact(a: Leg, b: Leg, c: Leg, d: Leg)
    requires Unmarked(a) && Unmarked(b) && Unmarked(c) && Unmarked(d)
    ensures Written(a, b) == Written(c, d) <==> (a == c && b == d) || Overruns(a, b, c, d) || Overruns(c, d, a, b)
  {
    if Written(a, b) == Written(c, d) { WrittenForth(a, b, c, d); }
    if Overruns(a, b, c, d) { OverrunBack(a, b, c, d); }
    if Overruns(c, d, a, b) { OverrunBack(c, d, a, b); }
  }

  lemma WrittenForth(a: Leg, b: Leg, c: Leg, d: Leg)
    requires Unmarked(a) && Unmarked(b) && Unmarked(c) && Unmarked(d) && Written(a, b) == Written(c, d)
    ensures (a == c && b == d) || Overruns(a, b, c, d) || Overruns(c, d, a, b)
  {
    hide Overruns;
    WrittenParts(a, b);
    WrittenParts(c, d);
    hide Written;
    var ra, rc := "#" + (b.dev + ("@" + b.ifc)), "#" + (d.dev + ("@" + d.ifc));
    SplitFirst(a.dev, a.ifc + ra, c.dev, c.ifc + rc, '@');
    if |c.ifc| < |a.ifc| {
      OverrunForth(a, b, c, d);
    } else if |a.ifc| < |c.ifc| {
      OverrunForth(c, d, a, b);
    } else {
      CutTwice(a.ifc, ra, c.ifc, rc);
      assert a.ifc == c.ifc && ra == rc;
      assert ra[1..] == b.dev + ("@" + b.ifc) && rc[1..] == d.dev + ("@" + d.ifc);
      Assoc(b.dev, "@", b.ifc);
      Assoc(d.dev, "@", d.ifc);
      SplitFirst(b.dev, b.ifc, d.dev, d.ifc, '@');
    }
  }

  /** With unmarked device ids two links share an identifier exactly if they are the same link, or the name at the
      greater end of one overruns that of the other. */
  lemma KeyExact(a: Leg, b: Leg, c: Leg, d: Leg)
    requires Unmarked(a) && Unmarked(b) && Unmarked(c) && Unmarked(d)
    ensures Key(a, b) == Key(c, d) <==>
            || {a, b} == {c, d}
            || Overruns(High(a, b), Low(a, b), High(c, d), Low(c, d))
            || Overruns(High(c, d), Low(c, d), High(a, b), Low(a, b))
  {
    hide Key, Written, Overruns;
    HighLow(a, b);
    HighLow(c, d);
    WrittenExact(High(a, b), Low(a, b), High(c, d), Low(c, d));
    SamePair(a, b, c, d);
  }

  lemma SamePair(a: Leg, b: Leg, c: Leg, d: Leg)
    ensures {a, b} == {c, d} <==> High(a, b) == High(c, d) && Low(a, b) == Low(c, d)
  {
    HighLow(a, b);
    HighLow(c, d);
    if {a, b} == {c, d} {
      assert a in {c, d} && b in {c, d} && c in {a, b} && d in {a, b};
    }
  }

  /** The name contains the id between the marks. */
  predicate Mentions(name: string, id: string) {
    exists i, j :: 0 <= i <= j <= |name| && name[i..j] == "#" + id + "@"
  }

  /** A condition that can be read off the names alone: while no interface name contains a device id between the
      marks # and @, different links have different identifiers. */
  lemma KeysApart(a: Leg, b: Leg, c: Leg, d: Leg)
    requires Unmarked(a) && Unmarked(b) && Unmarked(c) && Unmarked(d) && Key(a, b) == Key(c, d)
    requires forall g, h :: g in {a, b, c, d} && h in {a, b, c, d} ==> !Mentions(g.ifc, h.dev)
    ensures {a, b} == {c, d}
  {
    hide Key, Mentions, Overruns;
    KeyExact(a, b, c, d);
    HighLow(a, b);
    HighLow(c, d);
    var x, y, z, w := High(a, b), Low(a, b), High(c, d), Low(c, d);
    assert x in {a, b} && y in {a, b} && z in {c, d} && w in {c, d};
    if Overruns(x, y, z, w) { OverrunMentions(x, y, z, w); }
    if Overruns(z, w, x, y) { OverrunMentions(z, w, x, y); }
  }

  lemma OverrunMentions(a: Leg, b: Leg, c: Leg, d: Leg)
    requires Overruns(a, b, c, d)
    ensures Mentions(a.ifc, d.dev)
  {
    var m: string :| a.ifc == c.ifc + ("#" + (d.dev + ("@" + m))) && d.ifc == m + ("#" + (b.dev + ("@" + b.ifc)));
    var i, j := |c.ifc|, |c.ifc| + |d.dev| + 2;
    assert a.ifc[i..j] == "#" + d.dev + "@";
  }

  /** Two different links between serial-numbered devices that share an identifier. */
  lemma KeyCollision()
    ensures var a, b := Leg("serial:C", "x#serial:B@y"), Leg("serial:A", "z");
            var c, d := Leg("serial:C", "x"), Leg("serial:B", "y#serial:A@z");
            Key(a, b) == Key(c, d) && {a, b} != {c, d}
  {
    var a, b := Leg("serial:C", "x#serial:B@y"), Leg("serial:A", "z");
    var c, d := Leg("serial:C", "x"), Leg("serial:B", "y#serial:A@z");
    hide Greater, Overruns, Written;
    Serials();
    Overrunning(a, b, c, d);
    OverrunBack(a, b, c, d);
    assert Key(a, b) == Written(a, b) && Key(c, d) == Written(c, d);
    assert a.ifc != c.ifc by { assert |a.ifc| != |c.ifc|; }
    assert a.dev != d.dev by { assert a.dev[7] != d.dev[7]; }
    assert a in {a, b} && a !in {c, d};
  }

  lemma Overrunning(a: Leg, b: Leg, c: Leg, d: Leg)
    requires a == Leg("serial:C", "x#serial:B@y") && b == Leg("serial:A", "z")
    requires c == Leg("serial:C", "x") && d == Leg("serial:B", "y#serial:A@z")
    ensures Overruns(a, b, c, d)
  {
    assert a.ifc == c.ifc + ("#" + (d.dev + ("@" + "y")));
    assert d.ifc == "y" + ("#" + (b.dev + ("@" + b.ifc)));
  }

  lemma Serials()
    ensures Greater("serial:C", "serial:A") && Greater("serial:C", "serial:B")
  {
    GreaterCommon("serial:", "C", "A");
    GreaterCommon("serial:", "C", "B");
    assert "serial:" + "C" == "serial:C" && "serial:" + "A" == "serial:A" && "serial:" + "B" == "serial:B";
  }

  lemma {:induction false} GreaterCommon(common: string, a: string, b: string)
    ensures Greater(common + a, common + b) <==> Greater(a, b)
  {
    if common == "" {
      assert common + a == a && common + b == b;
    } else {
      assert (common + a)[1..] == common[1..] + a && (common + b)[1..] == common[1..] + b;
      GreaterCommon(common[1..], a, b);
    }
  }

  // ---------- string lists ----------

  method IndexOf(a: seq<string>, k: string) returns (i: int)
    ensures i == -1 <==> k !in a
    ensures i != -1 ==> 0 <= i < |a| && a[i] == k && k !in a[..i]
  {
    i := 0;
    while i < |a|
      invariant 0 <= i <= |a| && k !in a[..i]
    {
      if a[i] == k { return; }
      i := i + 1;
    }
    return -1;
  }

  function AppendOnce(a: seq<string>, s: string): (r: seq<string>)
    ensures a <= r && (forall x :: x in r <==> x in a || x == s)
  {
    if s in a then a else a + [s]
  }

  function Exclude(a: seq<string>, s: string): (r: seq<string>)
    ensures forall x :: x in r <==> x in a && x != s
    ensures |r| <= |a|
  {
    if a == [] then []
    else Exclude(a[..|a| - 1], s) + (if a[|a| - 1] == s then [] else [a[|a| - 1]])
  }

  ghost predicate NoDuplicates(a: seq<string>) {
    forall i, j :: 0 <= i < j < |a| ==> a[i] != a[j]
  }

  lemma AppendNoDuplicates(a: seq<string>, s: string)
    requires NoDuplicates(a)
    ensures NoDuplicates(AppendOnce(a, s))
  {
  }

  lemma {:induction false} ExcludeNoDuplicates(a: seq<string>, s: string)
    requires NoDuplicates(a)
    ensures NoDuplicates(Exclude(a, s))
    decreases |a|
  {
    if a != [] {
      ExcludeNoDuplicates(a[..|a| - 1], s);
      assert a[|a| - 1] !in a[..|a| - 1];
      assert a[|a| - 1] !in Exclude(a[..|a| - 1], s);
    }
  }

  method StrAppendOnce(a: seq<string>, s: string) returns (r: seq<string>)
    ensures r == AppendOnce(a, s)
  {
    var i := IndexOf(a, s);
    return if i < 0 then a + [s] else a;
  }

  method StrExclude(a: seq<string>, s: string) returns (r: seq<string>)
    ensures r == Exclude(a, s)
  {
    r := [];
    for i := 0 to |a|
      invariant r == Exclude(a[..i], s)
    {
      assert a[..i + 1][..i] == a[..i];
      if a[i] != s { r := r + [a[i]]; }
    }
    assert a[..|a|] == a;
  }
}
