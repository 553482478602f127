/** From two bitmaps of ports per VLAN to the VLAN lists of every port. */
module PortVlans {
  import opened Basics
  import opened Decimals
  import opened RangeList
  import opened RangePrinters
  import opened RangeReader
  import opened RangeRoundTrip
  import opened HexMaps

  datatype Mode = Access | Trunk(vlans: string) | Hybrid(untag: string, tag: string)

  /** What is collected for a port: its own VLAN, and the VLANs that list it, tagged or not. */
  datatype Port = Port(pvid: nat, member: seq<string>, untag: seq<string>)

  type Bitmaps = map<string, string>

  // ---------- what is collected ----------

  /** The VLANs of the list whose bitmap names the port, in the order of the list. */
  function Naming(vlans: seq<string>, maps: Bitmaps, port: string): (r: seq<string>)
    requires forall v :: v in vlans ==> v in maps
    ensures forall v :: v in r <==> v in vlans && port in PortNames(maps[v])
  {
    if vlans == [] then []
    else
      var last := vlans[|vlans| - 1];
      assert vlans == vlans[..|vlans| - 1] + [last];
      var before := Naming(vlans[..|vlans| - 1], maps, port);
      if port in PortNames(maps[last]) then before + [last] else before
  }

  function Minus(a: seq<string>, b: seq<string>): (r: seq<string>)
    ensures forall v :: v in r <==> v in a && v !in b
  {
    if a == [] then []
    else
      assert a == a[..|a| - 1] + [a[|a| - 1]];
      Minus(a[..|a| - 1], b) + if a[|a| - 1] in b then [] else [a[|a| - 1]]
  }

  function ModeOf(p: Port): Mode {
    if p.member == [Dec(p.pvid)] && p.untag == [Dec(p.pvid)] then Access
    else if p.untag == [Dec(p.pvid)] then Trunk(ArrayListing(p.member))
    else Hybrid(ArrayListing(p.untag), ArrayListing(Minus(p.member, p.untag)))
  }

  // ---------- VLAN numbers ----------

  predicate IsVlan(v: string) { ParseInt(v).Some? && ParseInt(v).value >= 0 && v == Dec(ParseInt(v).value) }

  function Number(v: string): nat
    requires IsVlan(v)
  {
    ParseInt(v).value
  }

  ghost predicate InOrder(vs: seq<string>) {
    && (forall i :: 0 <= i < |vs| ==> IsVlan(vs[i]))
    && forall i, j :: 0 <= i < j < |vs| ==> Number(vs[i]) < Number(vs[j])
  }

  lemma VlanOf(n: nat)
    requires n < INT64
    ensures IsVlan(Dec(n)) && Number(Dec(n)) == n
  {
    IntWritten(n);
  }

  /** VLAN texts in the order of their numbers. */
  method SortByNum(keys: set<string>) returns (list: seq<string>)
    requires forall v :: v in keys ==> IsVlan(v)
    ensures InOrder(list) && forall v :: v in list <==> v in keys
  {
    hide IsVlan, Number;
    list := [];
    var todo := keys;
    while todo != {}
      invariant todo <= keys && InOrder(list)
      invariant forall v :: v in list <==> v in keys && v !in todo
      invariant forall v, w :: v in list && w in todo ==> Number(v) < Number(w)
      decreases |todo|
    {
      var least := Least(todo);
      list, todo := list + [least], todo - {least};
    }
  }

  method Least(s: set<string>) returns (least: string)
    requires s != {} && forall v :: v in s ==> IsVlan(v)
    ensures least in s && forall v :: v in s && v != least ==> Number(least) < Number(v)
  {
    hide IsVlan, Number;
    least :| least in s;
    var todo := s - {least};
    while todo != {}
      invariant todo <= s && least in s && least !in todo
      invariant forall v :: v in s && v !in todo && v != least ==> Number(least) < Number(v)
      decreases |todo|
    {
      var v :| v in todo;
      Distinct(v, least);
      if Number(v) < Number(least) { least := v; }
      todo := todo - {v};
    }
  }

  lemma Distinct(v: string, w: string)
    requires IsVlan(v) && IsVlan(w) && v != w
    ensures Number(v) != Number(w)
  {
  }

  // ---------- the transposition ----------

  function Collected(pvid: nat, vlans: seq<string>, egress: Bitmaps, untagged: Bitmaps, port: string): Port
    requires forall v :: v in vlans ==> v in egress && v in untagged
  {
    Port(pvid, Naming(vlans, egress, port), Naming(vlans, untagged, port))
  }

  lemma NamingMore(vlans: seq<string>, v: string, maps: Bitmaps, port: string)
    requires v in maps && forall w :: w in vlans ==> w in maps
    ensures Naming(vlans + [v], maps, port)
            == if port in PortNames(maps[v]) then Naming(vlans, maps, port) + [v] else Naming(vlans, maps, port)
  {
    assert (vlans + [v])[..|vlans|] == vlans;
  }

  lemma {:induction false} NamingOrder(vlans: seq<string>, maps: Bitmaps, port: string)
    requires InOrder(vlans) && forall v :: v in vlans ==> v in maps
    ensures InOrder(Naming(vlans, maps, port))
    decreases |vlans|
  {
    hide IsVlan, Number, PortNames;
    if vlans != [] {
      var k := |vlans| - 1;
      NamingOrder(vlans[..k], maps, port);
      var before := Naming(vlans[..k], maps, port);
      forall i | 0 <= i < |before| ensures IsVlan(before[i]) && Number(before[i]) < Number(vlans[k]) {
        assert before[i] in vlans[..k];
      }
    }
  }

  lemma {:induction false} MinusOrder(a: seq<string>, b: seq<string>)
    requires InOrder(a)
    ensures InOrder(Minus(a, b))
    decreases |a|
  {
    hide IsVlan, Number, Minus;
    if a == [] {
      MinusNothing(b);
    } else {
      var k := |a| - 1;
      MinusOrder(a[..k], b);
      var before := Minus(a[..k], b);
      forall i | 0 <= i < |before| ensures IsVlan(before[i]) && Number(before[i]) < Number(a[k]) {
        assert before[i] in a[..k];
      }
      MinusLast(a, b);
    }
  }

  lemma MinusNothing(b: seq<string>)
    ensures Minus([], b) == []
  {
  }

  lemma MinusLast(a: seq<string>, b: seq<string>)
    requires a != []
    ensures Minus(a, b) == Minus(a[..|a| - 1], b) + if a[|a| - 1] in b then [] else [a[|a| - 1]]
  {
  }

  /** The printed form of VLAN texts in order denotes exactly their numbers. */
  lemma ArrayMeans(vs: seq<string>)
    requires InOrder(vs)
    ensures forall n: nat :: InText(n, Matches(ArrayListing(vs))) <==> n < INT64 && Dec(n) in vs
  {
    hide Matches, InText, Listing, DecInt, Dec;
    var ns: seq<int> := seq(|vs|, i requires 0 <= i < |vs| && IsVlan(vs[i]) => Number(vs[i]));
    forall i | 0 <= i < |vs| ensures TextsOf(ns)[i] == vs[i] && 0 <= ns[i] < INT64 { TextOfVlan(vs[i]); }
    assert TextsOf(ns) == vs;
    PrintersAgree(ns);
    PrintedMeans(ns);
    forall n: nat ensures n in ns <==> n < INT64 && Dec(n) in vs {
      if n < INT64 { VlanOf(n); }
      if n in ns {
        var i :| 0 <= i < |ns| && ns[i] == n;
        assert vs[i] in vs;
      }
      if n < INT64 && Dec(n) in vs {
        var i :| 0 <= i < |vs| && vs[i] == Dec(n);
        assert ns[i] == n;
      }
    }
  }

  lemma TextOfVlan(v: string)
    requires IsVlan(v)
    ensures DecInt(Number(v)) == v && Number(v) < INT64
  {
  }

  method Search(list: seq<string>, port: string) returns (found: bool)
    ensures found <==> port in list
  {
    for i := 0 to |list|
      invariant port !in list[..i]
    {
      if list[i] == port { return true; }
    }
    return false;
  }

  /** One VLAN: every port its bitmaps name gets the VLAN appended. */
  method AddVlan(table: map<string, Port>, v: string, egress: seq<string>, untagged: seq<string>)
    returns (r: map<string, Port>)
    ensures r.Keys == table.Keys
    ensures forall port :: port in table ==> r[port] == With(table[port], v, port in egress, port in untagged)
  {
    r := table;
    var todo := table.Keys;
    while todo != {}
      invariant todo <= table.Keys == r.Keys
      invariant forall port :: port in todo ==> r[port] == table[port]
      invariant forall port :: port in table && port !in todo ==>
                  r[port] == With(table[port], v, port in egress, port in untagged)
      decreases |todo|
    {
      var port :| port in todo;
      var listed := Search(egress, port);
      if listed { r := r[port := r[port].(member := r[port].member + [v])]; }
      listed := Search(untagged, port);
      if listed { r := r[port := r[port].(untag := r[port].untag + [v])]; }
      todo := todo - {port};
    }
  }

  function With(p: Port, v: string, member: bool, untag: bool): Port {
    Port(p.pvid, if member then p.member + [v] else p.member, if untag then p.untag + [v] else p.untag)
  }

  method TagList(member: seq<string>, untag: seq<string>) returns (tagged: seq<string>)
    ensures tagged == Minus(member, untag)
  {
    tagged := [];
    for i := 0 to |member|
      invariant tagged == Minus(member[..i], untag)
    {
      assert member[..i + 1][..i] == member[..i];
      var found := Search(untag, member[i]);
      if !found { tagged := tagged + [member[i]]; }
    }
    assert member[..|member|] == member;
  }

  method Classify(p: Port) returns (mode: Mode)
    ensures mode == ModeOf(p)
  {
    hide ArrayListing, Minus, Dec;
    if |p.member| == 1 && |p.untag| == 1 && p.member[0] == p.untag[0] && p.member[0] == Dec(p.pvid) {
      return Access;
    }
    if |p.untag| == 1 && p.untag[0] == Dec(p.pvid) {
      var vlans := ArrayToList(p.member);
      return Trunk(vlans);
    }
    var untag := ArrayToList(p.untag);
    var tagged := TagList(p.member, p.untag);
    var tag := ArrayToList(tagged);
    return Hybrid(untag, tag);
  }

  /** One pass over the VLANs, filling the table of ports. */
  method Collect(pvids: map<string, nat>, list: seq<string>, egress: Bitmaps, untagged: Bitmaps)
    returns (table: map<string, Port>)
    requires forall v :: v in list ==> v in egress && v in untagged
    ensures table.Keys == pvids.Keys
    ensures forall port :: port in pvids ==> table[port] == Collected(pvids[port], list, egress, untagged, port)
  {
    hide PortNames, Naming;
    table := map port | port in pvids :: Port(pvids[port], [], []);
    forall port | port in pvids ensures table[port] == Collected(pvids[port], list[..0], egress, untagged, port) {
      NamingNone(egress, port);
      NamingNone(untagged, port);
    }
    for i := 0 to |list|
      invariant table.Keys == pvids.Keys
      invariant forall port :: port in pvids ==>
                  table[port] == Collected(pvids[port], list[..i], egress, untagged, port)
    {
      var v := list[i];
      var d1qEgress := PortList(egress[v]);
      var d1qUntag := PortList(untagged[v]);
      ghost var before := table;
      table := AddVlan(table, v, d1qEgress, d1qUntag);
      assert list[..i + 1] == list[..i] + [v];
      forall port | port in pvids
        ensures table[port] == Collected(pvids[port], list[..i + 1], egress, untagged, port)
      {
        CollectMore(pvids[port], list[..i], v, egress, untagged, port);
      }
    }
    assert list[..|list|] == list;
  }

  lemma NamingNone(maps: Bitmaps, port: string)
    ensures Naming([], maps, port) == []
  {
  }

  lemma CollectMore(pvid: nat, vlans: seq<string>, v: string, egress: Bitmaps, untagged: Bitmaps, port: string)
    requires forall w :: w in vlans ==> w in egress && w in untagged
    requires v in egress && v in untagged
    ensures Collected(pvid, vlans + [v], egress, untagged, port)
            == With(Collected(pvid, vlans, egress, untagged, port), v,
                    port in PortNames(egress[v]), port in PortNames(untagged[v]))
  {
    hide PortNames, Naming;
    NamingMore(vlans, v, egress, port);
    NamingMore(vlans, v, untagged, port);
  }

  method ClassifyAll(table: map<string, Port>) returns (modes: map<string, Mode>)
    ensures modes.Keys == table.Keys && forall port :: port in table ==> modes[port] == ModeOf(table[port])
  {
    hide ModeOf;
    modes := map[];
    var todo := table.Keys;
    while todo != {}
      invariant todo <= table.Keys && modes.Keys == table.Keys - todo
      invariant forall port :: port in modes ==> modes[port] == ModeOf(table[port])
      decreases |todo|
    {
      var port :| port in todo;
      var mode := Classify(table[port]);
      modes, todo := modes[port := mode], todo - {port};
    }
  }

  /** The modes of all ports, each with the PVID given for it; None if a VLAN has no bitmap of untagged ports. */
  method PortModes(pvids: map<string, nat>, egress: Bitmaps, untagged: Bitmaps)
    returns (r: Option<map<string, Mode>>, ghost vlans: seq<string>)
    requires forall v :: v in egress ==> IsVlan(v)
    ensures r.None? <==> !(egress.Keys <= untagged.Keys)
    ensures r.Some? ==> InOrder(vlans) && (forall v :: v in vlans <==> v in egress) && r.value.Keys == pvids.Keys
    ensures r.Some? ==> forall port :: port in pvids ==>
                          r.value[port] == ModeOf(Collected(pvids[port], vlans, egress, untagged, port))
  {
    hide IsVlan, Number, PortNames, Naming, ModeOf, InOrder, Collected;
    vlans := [];
    if !(egress.Keys <= untagged.Keys) { return None, []; }
    var list := SortByNum(egress.Keys);
    var table := Collect(pvids, list, egress, untagged);
    var modes := ClassifyAll(table);
    return Some(modes), list;
  }

  // ---------- what the modes say ----------

  /** VLAN n lists port in the bitmaps. */
  predicate Lists(maps: Bitmaps, n: nat, port: string) {
    n < INT64 && Dec(n) in maps && port in PortNames(maps[Dec(n)])
  }

  /** The lists of a port denote its VLANs: a trunk's all VLANs that list it; a hybrid's those that list
      it untagged, and those that list it but not untagged. */
  lemma {:induction false} ModesMean(pvid: nat, vlans: seq<string>, egress: Bitmaps, untagged: Bitmaps, port: string)
    requires InOrder(vlans) && (forall v :: v in vlans <==> v in egress) && egress.Keys <= untagged.Keys
    ensures var mode := ModeOf(Collected(pvid, vlans, egress, untagged, port));
            (mode.Trunk? ==> forall n: nat :: InText(n, Matches(mode.vlans)) <==> Lists(egress, n, port))
    ensures var mode := ModeOf(Collected(pvid, vlans, egress, untagged, port));
            (mode.Hybrid? ==> forall n: nat :: InText(n, Matches(mode.untag))
                                               <==> Lists(untagged, n, port) && Dec(n) in egress)
    ensures var mode := ModeOf(Collected(pvid, vlans, egress, untagged, port));
            (mode.Hybrid? ==> forall n: nat :: InText(n, Matches(mode.tag))
                                               <==> Lists(egress, n, port) && !Lists(untagged, n, port))
  {
    hide IsVlan, Number, PortNames, Naming, Matches, InText, InOrder, ArrayListing, Minus;
    var p := Collected(pvid, vlans, egress, untagged, port);
    NamingOrder(vlans, egress, port);
    NamingOrder(vlans, untagged, port);
    MinusOrder(p.member, p.untag);
    ArrayMeans(p.member);
    ArrayMeans(p.untag);
    ArrayMeans(Minus(p.member, p.untag));
  }

  /** Among the VLANs with an egress bitmap, the one with number pvid, and no other, lists the port. */
  ghost predicate OnlyOwn(maps: Bitmaps, vlans: set<string>, pvid: nat, port: string)
    requires vlans <= maps.Keys
  {
    Dec(pvid) in vlans && forall v :: v in vlans ==> (port in PortNames(maps[v]) <==> v == Dec(pvid))
  }

  lemma Sole(vs: seq<string>, x: string)
    requires InOrder(vs)
    ensures vs == [x] <==> forall v :: v in vs <==> v == x
  {
    TwoDiffer(vs);
    hide InOrder;
    if forall v :: v in vs <==> v == x {
      assert x in vs;
    }
  }

  lemma TwoDiffer(vs: seq<string>)
    requires InOrder(vs)
    ensures |vs| > 1 ==> vs[0] in vs && vs[1] in vs && vs[0] != vs[1]
  {
  }

  lemma NamingSole(vlans: seq<string>, maps: Bitmaps, keys: set<string>, pvid: nat, port: string)
    requires InOrder(vlans) && (forall v :: v in vlans <==> v in keys) && keys <= maps.Keys
    ensures Naming(vlans, maps, port) == [Dec(pvid)] <==> OnlyOwn(maps, keys, pvid, port)
  {
    hide IsVlan, Number, PortNames, Naming, InOrder, Dec;
    NamingOrder(vlans, maps, port);
    Sole(Naming(vlans, maps, port), Dec(pvid));
  }

  /** An access port belongs, untagged, to its own VLAN alone; a trunk is untagged in that VLAN alone. */
  lemma {:induction false} ModesChosen(pvid: nat, vlans: seq<string>, egress: Bitmaps, untagged: Bitmaps, port: string)
    requires InOrder(vlans) && (forall v :: v in vlans <==> v in egress) && egress.Keys <= untagged.Keys
    ensures var mode := ModeOf(Collected(pvid, vlans, egress, untagged, port));
            var own := OnlyOwn(untagged, egress.Keys, pvid, port);
            && (mode.Hybrid? <==> !own)
            && (mode.Access? <==> own && OnlyOwn(egress, egress.Keys, pvid, port))
  {
    hide OnlyOwn, PortNames, Naming, ArrayListing, Dec, InOrder;
    NamingSole(vlans, egress, egress.Keys, pvid, port);
    NamingSole(vlans, untagged, egress.Keys, pvid, port);
  }
}
