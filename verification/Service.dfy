/** The life of the broker: it loads the stored records, enters their links again, and then takes what comes. */
module Service {
  import opened Basics
  import opened LinkKey
  import opened Topology
  import opened TopologyLinks
  import opened TopologyTable
  import opened Shrinking
  import opened BrokerFacts
  import opened Broker
  import opened LinkLaws
  import opened AddressLaws
  import A = AddressTable

  /** A record with the id computed from it, the time of its processing, and the time the device was last seen. */
  datatype Load = Load(rec: Device, id: string, now: int, reply: Option<int>)

  /** What can happen once the broker is up: a record arrives, an address is taken off the list, the periodic
      cleanup runs, a user wipes a device. */
  datatype Happening = Arrives(load: Load) | Leaves(ip: string) | Tidies(listed: set<string>) | Wipes(id: string)

  // ---------- the second pass at startup ----------

  /** Device d with its record among devs, as the device in hand. */
  ghost function InHand(devs: Devs, d: string): Work
    requires d in devs
  {
    Work(Net(devs, map[], map[]), devs[d], d, true)
  }

  /** Device d reports link k. */
  ghost predicate Says(devs: Devs, cdp2dev: map<string, string>, d: string, k: LinkId) {
    d in devs && Reported(InHand(devs, d), cdp2dev, k)
  }

  /** Link l is as made from a report of device d. */
  ghost predicate MadeBy(devs: Devs, cdp2dev: map<string, string>, d: string, l: Link) {
    d in devs && Fresh(l, InHand(devs, d), cdp2dev)
  }

  /** The link table after the devices in done were gone through: no link is lost, each link that one of them
      reports is there as one of its reporters makes it, and the other links are as before. */
  ghost predicate Relinked(devs: Devs, cdp2dev: map<string, string>, done: set<string>, before: Links, after: Links) {
    && (forall k :: k in before ==> k in after)
    && (forall d, k :: d in done && Says(devs, cdp2dev, d, k) ==>
          k in after && exists e :: e in done && Says(devs, cdp2dev, e, k) && MadeBy(devs, cdp2dev, e, after[k]))
    && (forall k :: k in after && (forall d :: d in done ==> !Says(devs, cdp2dev, d, k)) ==>
          k in before && after[k] == before[k])
  }

  lemma ReportsSame(w: Work, v: Work, cdp2dev: map<string, string>, i: string, g: Leg)
    requires DevsSameButLists(w.net.devs, v.net.devs) && SameButLists(w.rec, v.rec)
    ensures ReportsLldp(w, i, g) ==> ReportsLldp(v, i, g)
    ensures ReportsCdp(w, cdp2dev, i, g) ==> ReportsCdp(v, cdp2dev, i, g)
  {
    hide FindLldp, FindCdp, DevsSameButLists;
    if ReportsLldp(w, i, g) {
      var p, n :| p in w.rec.lldpPorts && n in w.rec.lldpPorts[p].neighbours
                  && w.rec.lldpPorts[p].ifName == Some(i) && FindLldp(w.net.devs, n) == Some(g);
      FindSame(w.net.devs, v.net.devs, cdp2dev, n, CdpNeighbour("", ""));
      assert p in v.rec.lldpPorts && n in v.rec.lldpPorts[p].neighbours;
    }
    if ReportsCdp(w, cdp2dev, i, g) {
      var p, n :| p in w.rec.cdpPorts && n in w.rec.cdpPorts[p].neighbours
                  && w.rec.cdpPorts[p].ifName == Some(i) && FindCdp(w.net.devs, cdp2dev, n) == Some(g);
      FindSame(w.net.devs, v.net.devs, cdp2dev, LldpNeighbour("", 0, "", 0), n);
      assert p in v.rec.cdpPorts && n in v.rec.cdpPorts[p].neighbours;
    }
  }

  /** What a device reports does not depend on the link lists. */
  lemma ReportedSame(w: Work, v: Work, cdp2dev: map<string, string>, k: LinkId)
    requires DevsSameButLists(w.net.devs, v.net.devs) && SameButLists(w.rec, v.rec) && w.id == v.id
    ensures Reported(w, cdp2dev, k) ==> Reported(v, cdp2dev, k)
  {
    hide ReportsLldp, ReportsCdp, Key, DevsSameButLists, SameButLists;
    if Reported(w, cdp2dev, k) {
      var i, g :| (ReportsLldp(w, i, g) || ReportsCdp(w, cdp2dev, i, g)) && g != Leg(w.id, i)
                  && k == Key(Leg(w.id, i), g);
      ReportsSame(w, v, cdp2dev, i, g);
    }
  }

  lemma FreshSame(w: Work, v: Work, cdp2dev: map<string, string>, l: Link)
    requires DevsSameButLists(w.net.devs, v.net.devs) && SameButLists(w.rec, v.rec) && w.id == v.id
    ensures Fresh(l, w, cdp2dev) ==> Fresh(l, v, cdp2dev)
  {
    assert DevsSameButLists(View(w), View(v)) by { hide SameButLists; }
    SameNames(w.net.devs, v.net.devs);
    SameNames(View(w), View(v));
    ReportsSame(w, v, cdp2dev, l.leg0.ifc, l.leg1);
    hide ReportsLldp, ReportsCdp, UpAt, View, DevsSameButLists;
  }

  lemma SameSwapped(a: Devs, b: Devs)
    requires DevsSameButLists(a, b)
    ensures DevsSameButLists(b, a)
  {
  }

  lemma SaysSame(devs: Devs, n: Net, cdp2dev: map<string, string>, d: string)
    requires DevsSameButLists(devs, n.devs) && d in devs
    ensures d in n.devs && forall k :: Says(devs, cdp2dev, d, k) <==> Reported(Work(n, n.devs[d], d, true), cdp2dev, k)
    ensures forall l :: MadeBy(devs, cdp2dev, d, l) <==> Fresh(l, Work(n, n.devs[d], d, true), cdp2dev)
  {
    hide Reported, Fresh;
    SameSwapped(devs, n.devs);
    assert SameButLists(devs[d], n.devs[d]) && SameButLists(n.devs[d], devs[d]);
    hide DevsSameButLists;
    forall k ensures Says(devs, cdp2dev, d, k) <==> Reported(Work(n, n.devs[d], d, true), cdp2dev, k) {
      ReportedSame(InHand(devs, d), Work(n, n.devs[d], d, true), cdp2dev, k);
      ReportedSame(Work(n, n.devs[d], d, true), InHand(devs, d), cdp2dev, k);
    }
    forall l ensures MadeBy(devs, cdp2dev, d, l) <==> Fresh(l, Work(n, n.devs[d], d, true), cdp2dev) {
      FreshSame(InHand(devs, d), Work(n, n.devs[d], d, true), cdp2dev, l);
      FreshSame(Work(n, n.devs[d], d, true), InHand(devs, d), cdp2dev, l);
    }
  }

  /** One more device was gone through. */
  lemma RelinkedMore(devs: Devs, cdp2dev: map<string, string>, done: set<string>, before: Links, mid: Links,
                     after: Links, d: string)
    requires Relinked(devs, cdp2dev, done, before, mid)
    requires forall k :: Says(devs, cdp2dev, d, k) ==> k in after && MadeBy(devs, cdp2dev, d, after[k])
    requires forall k :: k in mid ==> k in after
    requires forall k :: k in after && !Says(devs, cdp2dev, d, k) ==> k in mid && after[k] == mid[k]
    ensures Relinked(devs, cdp2dev, done + {d}, before, after)
  {
    hide Says, MadeBy;
    forall e, k | e in done + {d} && Says(devs, cdp2dev, e, k)
      ensures k in after
      ensures exists f :: f in done + {d} && Says(devs, cdp2dev, f, k) && MadeBy(devs, cdp2dev, f, after[k])
    {
      if Says(devs, cdp2dev, d, k) {
        assert d in done + {d};
      } else {
        var f :| f in done && Says(devs, cdp2dev, f, k) && MadeBy(devs, cdp2dev, f, mid[k]);
        assert f in done + {d};
      }
    }
    forall k | k in after && (forall e :: e in done + {d} ==> !Says(devs, cdp2dev, e, k))
      ensures k in before && after[k] == before[k]
    {
      assert d in done + {d};
      assert forall e :: e in done ==> e in done + {d};
    }
  }

  /** The links of all stored devices are entered again, now that all are loaded: afterwards the table holds every
      link that any of them reports. */
  method RelinkAll(t: Tables)
    requires t.Valid()
    modifies t`devs, t`links, t`refs
    ensures t.Valid() && DevsSameButLists(old(t.devs), t.devs)
    ensures Relinked(t.devs, t.cdp2dev, t.devs.Keys, old(t.links), t.links)
  {
    hide Inv, A.Agree, Owned, CdpRight, Reported, Relinked, Says, MadeBy, Fresh, SameButLists, DevsSameButLists;
    ghost var devs, links := t.devs, t.links;
    ghost var done: set<string> := {};
    DevsSameRefl(devs);
    NothingRelinked(devs, t.cdp2dev, links);
    var todo := t.devs.Keys;
    while todo != {}
      invariant t.Valid() && DevsSameButLists(devs, t.devs) && todo + done == devs.Keys
      invariant Relinked(devs, t.cdp2dev, done, links, t.links)
      decreases todo
    {
      var d :| d in todo;
      todo := todo - {d};
      ghost var n := t.Graph();
      SaysSame(devs, n, t.cdp2dev, d);
      t.Relink(d);
      DevsSameTrans(devs, n.devs, t.devs);
      RelinkedMore(devs, t.cdp2dev, done, links, n.links, t.links, d);
      done := done + {d};
    }
    RelinkedSame(devs, t.devs, t.cdp2dev, links, t.links);
  }

  lemma NothingRelinked(devs: Devs, cdp2dev: map<string, string>, links: Links)
    ensures Relinked(devs, cdp2dev, {}, links, links)
  {
  }

  lemma SaysStill(a: Devs, b: Devs, cdp2dev: map<string, string>, d: string)
    requires DevsSameButLists(a, b)
    ensures forall k :: Says(a, cdp2dev, d, k) <==> Says(b, cdp2dev, d, k)
    ensures forall l :: MadeBy(a, cdp2dev, d, l) <==> MadeBy(b, cdp2dev, d, l)
  {
    hide Reported, Fresh, SameButLists;
    if d in a { SaysSame(a, Net(b, map[], map[]), cdp2dev, d); }
  }

  lemma RelinkedSame(a: Devs, b: Devs, cdp2dev: map<string, string>, before: Links, after: Links)
    requires DevsSameButLists(a, b) && Relinked(a, cdp2dev, a.Keys, before, after)
    ensures Relinked(b, cdp2dev, b.Keys, before, after)
  {
    hide Says, MadeBy, SameButLists;
    forall d, k ensures Says(a, cdp2dev, d, k) <==> Says(b, cdp2dev, d, k) { SaysStill(a, b, cdp2dev, d); }
    forall d, l ensures MadeBy(a, cdp2dev, d, l) <==> MadeBy(b, cdp2dev, d, l) { SaysStill(a, b, cdp2dev, d); }
  }

  // ---------- which records are loaded ----------

  /** The record that is stored for a device after the loads, if any: a later record of the same device takes over
      if it supersedes the one there is, and is stored if its reply can be read. */
  function Winner(loads: seq<Load>, id: string): Option<Load>
    decreases |loads|
  {
    if loads == [] then None
    else
      var l, before := loads[|loads| - 1], Winner(loads[..|loads| - 1], id);
      if l.id != id || (before.Some? && !Supersedes(l.rec, before.value.rec)) then before
      else if l.reply.Some? then Some(l)
      else None
  }

  lemma {:induction false} WinnerLoaded(loads: seq<Load>, id: string)
    ensures Winner(loads, id).Some? ==> Winner(loads, id).value in loads && Winner(loads, id).value.id == id
    decreases |loads|
  {
    if loads != [] { WinnerLoaded(loads[..|loads| - 1], id); }
  }

  /** If all replies can be read, each loaded device is stored, with a record that no other record of it supersedes. */
  lemma {:induction false} WinnerBest(loads: seq<Load>, id: string, l: Load)
    requires forall m :: m in loads ==> m.reply.Some?
    requires l in loads && l.id == id
    ensures var w := Winner(loads, id);
            && w.Some? && (l.rec.ok ==> w.value.rec.ok)
            && (l.rec.ok == w.value.rec.ok ==> l.rec.saveTime <= w.value.rec.saveTime)
    decreases |loads|
  {
    var k := |loads| - 1;
    if l in loads[..k] {
      WinnerBest(loads[..k], id, l);
    } else {
      assert l == loads[k];
    }
  }

  /** A device with one record is stored if the reply can be read. */
  lemma {:induction false} WinnerAlone(loads: seq<Load>, l: Load)
    requires l in loads && forall m :: m in loads && m.id == l.id ==> m == l
    requires forall i, j :: 0 <= i < j < |loads| ==> loads[i].rec.ip != loads[j].rec.ip
    ensures Winner(loads, l.id) == if l.reply.Some? then Some(l) else None
    decreases |loads|
  {
    var k := |loads| - 1;
    if l in loads[..k] {
      var i :| 0 <= i < k && loads[i] == l;
      WinnerAlone(loads[..k], l);
    } else {
      WinnerLoaded(loads[..k], l.id);
    }
  }

  /** Device d is stored as the given load says, if there is one, and otherwise not. */
  ghost predicate StoredAs(devs: Devs, d: string, w: Option<Load>) {
    && (d in devs <==> w.Some?)
    && (w.Some? ==>
          SameButLists(w.value.rec.(lastSeen := devs[d].lastSeen, cdpId := devs[d].cdpId), devs[d]))
  }

  /** Exactly the winners are stored. */
  ghost predicate Loaded(devs: Devs, loads: seq<Load>) {
    forall d :: StoredAs(devs, d, Winner(loads, d))
  }

  lemma StoredStill(a: Devs, b: Devs, d: string, w: Option<Load>)
    requires StoredAs(a, d, w) && (d in a <==> d in b) && (d in a ==> SameButLists(a[d], b[d]))
    ensures StoredAs(b, d, w)
  {
  }

  /** What is stored for a device comes from another address than the next record. */
  lemma OtherAddress(loads: seq<Load>, i: nat, devs: Devs)
    requires forall a, b :: 0 <= a < b < |loads| ==> loads[a].rec.ip != loads[b].rec.ip
    requires i < |loads| && Loaded(devs, loads[..i])
    ensures loads[i].id in devs ==> devs[loads[i].id].ip != loads[i].rec.ip
  {
    hide Winner;
    WinnerLoaded(loads[..i], loads[i].id);
    assert StoredAs(devs, loads[i].id, Winner(loads[..i], loads[i].id));
    if loads[i].id in devs {
      var a :| 0 <= a < i && loads[a] == Winner(loads[..i], loads[i].id).value;
    }
  }

  /** At a new address nothing was known before, so only a stored record of the same device can be in the way. */
  lemma NewAddress(devs: Devs, devList: map<string, Option<string>>, l: Load)
    requires l.rec.ip !in devList && (l.id in devs ==> devs[l.id].ip != l.rec.ip)
    ensures var list := Noted(devList, l.rec.ip);
            && Verdict(devs, list, l.rec, l.id, l.reply) ==
               (if Refused(devs, l.rec, l.id) then Conflict else if l.reply.Some? then Stored else Failed)
            && list == devList[l.rec.ip := None]
            && devs.Keys - Evicted(devs, list, l.rec.ip, l.id) == devs.Keys - {l.id}
  {
  }

  /** The stored records after one more was processed: before are those until then, and kept those left to it. */
  ghost predicate Processed(before: Devs, kept: Devs, after: Devs, l: Load, decoded: Device) {
    && (l.id in before ==> before[l.id].ip != l.rec.ip)
    && (forall e :: e in kept ==> e in before && SameButLists(before[e], kept[e]))
    && if Refused(before, l.rec, l.id) then kept == after == before
       else
         && kept.Keys == before.Keys - {l.id}
         && if l.reply.None? then after == kept
            else
              && l.id in after && SameButLists(decoded, after[l.id])
              && decoded == l.rec.(lastSeen := decoded.lastSeen, cdpId := decoded.cdpId)
              && DevsSameButLists(kept - {l.id}, after - {l.id})
  }

  lemma LoadStep(loads: seq<Load>, i: nat, before: Devs, kept: Devs, after: Devs, decoded: Device)
    requires i < |loads| && Processed(before, kept, after, loads[i], decoded) && Loaded(before, loads[..i])
    ensures Loaded(after, loads[..i + 1])
  {
    hide Processed, StoredAs, Winner;
    var next := loads[..i + 1];
    forall d ensures StoredAs(after, d, Winner(next, d)) {
      assert StoredAs(before, d, Winner(loads[..i], d));
      StoredNext(loads, i, before, kept, after, decoded, d);
    }
  }

  lemma StoredNext(loads: seq<Load>, i: nat, before: Devs, kept: Devs, after: Devs, decoded: Device, d: string)
    requires i < |loads| && Processed(before, kept, after, loads[i], decoded)
    requires StoredAs(before, d, Winner(loads[..i], d))
    ensures StoredAs(after, d, Winner(loads[..i + 1], d))
  {
    hide Winner, Refused;
    var l, w := loads[i], Winner(loads[..i], d);
    WinnerNext(loads, i, d);
    if d != l.id {
      OthersStay(before, kept, after, l, decoded, d);
      StoredStill(before, after, d, w);
    } else {
      RefusedIs(before, l, w);
    }
  }

  lemma RefusedIs(devs: Devs, l: Load, w: Option<Load>)
    requires StoredAs(devs, l.id, w) && (l.id in devs ==> devs[l.id].ip != l.rec.ip)
    ensures Refused(devs, l.rec, l.id) <==> w.Some? && !Supersedes(l.rec, w.value.rec)
  {
  }

  lemma OthersStay(before: Devs, kept: Devs, after: Devs, l: Load, decoded: Device, d: string)
    requires Processed(before, kept, after, l, decoded) && d != l.id
    ensures (d in before <==> d in after) && (d in before ==> SameButLists(before[d], after[d]))
  {
    hide Refused;
    if d in before { SameRefl(before[d]); }
    if !Refused(before, l.rec, l.id) && l.reply.Some? {
      assert (kept - {l.id}).Keys == (after - {l.id}).Keys;
      assert d in kept <==> d in kept - {l.id};
      assert d in after <==> d in after - {l.id};
      if d in before { SameTrans(before[d], kept[d], after[d]); }
    }
  }

  lemma WinnerNext(loads: seq<Load>, i: nat, d: string)
    requires i < |loads|
    ensures var l, w := loads[i], Winner(loads[..i], d);
            Winner(loads[..i + 1], d) ==
            if l.id != d || (w.Some? && !Supersedes(l.rec, w.value.rec)) then w
            else if l.reply.Some? then Some(l) else None
  {
    assert loads[..i + 1][..i] == loads[..i];
  }

  // ---------- the runs of the broker ----------

  /** The stored records are loaded, one for each address, and then their links are entered again. */
  method Start(loads: seq<Load>) returns (t: Tables)
    requires forall l :: l in loads ==> Decoded(l.id, l.rec)
    requires forall i, j :: 0 <= i < j < |loads| ==> loads[i].rec.ip != loads[j].rec.ip
    ensures fresh(t) && t.Valid()
    ensures Loaded(t.devs, loads)
    ensures forall d, k :: d in t.devs && Says(t.devs, t.cdp2dev, d, k) ==> k in t.links
    ensures forall d, k :: d in t.devs && Heard(InHand(t.devs, d), t.cdp2dev, k) ==> k in t.links
  {
    hide Heard;
    hide Inv, Owned, A.Agree, CdpRight, Decoded, Updated, AddressesUpdated, DevsSameButLists, SameButLists;
    hide Says, MadeBy, Shrunk, Loaded, Winner, Verdict, LastSeen, KeptCdp, WithCdp, Evicted, Refused;
    t := new Tables();
    NothingLoaded();
    for i := 0 to |loads|
      invariant t.Valid() && fresh(t)
      invariant forall ip :: ip in t.devList <==> exists j :: 0 <= j < i && loads[j].rec.ip == ip
      invariant Loaded(t.devs, loads[..i])
    {
      var l := loads[i];
      ghost var n0, b0 := t.Graph(), t.Addresses();
      OtherAddress(loads, i, t.devs);
      NewAddress(t.devs, t.devList, l);
      var outcome, decoded, n, b := t.ProcessIpData(l.rec, l.id, true, l.now, l.reply);
      LeftSame(n0, b0, n, b);
      LoadStep(loads, i, n0.devs, n.devs, t.devs, decoded);
    }
    assert loads[..|loads|] == loads;
    ghost var devs := t.devs;
    RelinkAll(t);
    LoadedStill(devs, t.devs, loads);
    SaysHeard(t.devs, t.cdp2dev);
  }

  lemma NothingLoaded()
    ensures Loaded(map[], [])
  {
  }

  lemma LeftSame(n0: Net, b0: A.Book, n: Net, b: A.Book)
    requires Shrunk(n0, b0, n, b)
    ensures forall e :: e in n.devs ==> e in n0.devs && SameButLists(n0.devs[e], n.devs[e])
  {
    hide SameButLists, Has, Between, A.Owner;
    var left := map d | d in n0.devs && d in n.devs :: n0.devs[d];
    assert left.Keys == n.devs.Keys;
  }

  lemma LoadedStill(a: Devs, b: Devs, loads: seq<Load>)
    requires DevsSameButLists(a, b) && Loaded(a, loads)
    ensures Loaded(b, loads)
  {
    hide Winner, SameButLists;
    forall d ensures StoredAs(b, d, Winner(loads, d)) { StoredStill(a, b, d, Winner(loads, d)); }
  }

  /** A device reports the links that one of its interfaces hears. */
  lemma SaysHeard(devs: Devs, cdp2dev: map<string, string>)
    ensures forall d, k :: d in devs && Heard(InHand(devs, d), cdp2dev, k) ==> Says(devs, cdp2dev, d, k)
  {
    hide Heard, Reported, InHand;
    forall d, k | d in devs && Heard(InHand(devs, d), cdp2dev, k) ensures Says(devs, cdp2dev, d, k) {
      HeardIs(InHand(devs, d), cdp2dev, k);
    }
  }

  /** Whatever happens, in any order, the tables stay sound. */
  method Serve(t: Tables, happenings: seq<Happening>)
    requires t.Valid() && forall h :: h in happenings && h.Arrives? ==> Decoded(h.load.id, h.load.rec)
    modifies t
    ensures t.Valid()
  {
    hide Decoded, Shrunk, Updated, AddressesUpdated, DevsSameButLists, SameButLists;
    for i := 0 to |happenings|
      invariant t.Valid()
    {
      var h := happenings[i];
      assert h in happenings;
      match h {
        case Arrives(l) =>
          var outcome, decoded, n, b := t.ProcessIpData(l.rec, l.id, false, l.now, l.reply);
        case Leaves(ip) => t.PurgeIp(ip);
        case Tidies(listed) => t.Cleanup(listed);
        case Wipes(id) => t.WipeDevOwned(id);
      }
    }
  }

  lemma OneMore(kept: Devs, devs: Devs, id: string)
    requires id in devs && DevsSameButLists(kept - {id}, devs - {id})
    ensures devs.Keys == kept.Keys + {id}
  {
    hide SameButLists;
    assert (kept - {id}).Keys == (devs - {id}).Keys;
    assert forall d :: d in devs && d != id ==> d in devs - {id};
    assert forall d :: d in kept && d != id ==> d in kept - {id};
  }

  /** A record that arrives and is not refused. */
  method TakeIn(t: Tables, l: Load)
    requires t.Valid() && Decoded(l.id, l.rec) && l.reply.Some? && !Refused(t.devs, l.rec, l.id)
    modifies t
    ensures t.Valid() && t.devList == Noted(old(t.devList), l.rec.ip)[l.rec.ip := Some(l.id)]
    ensures t.devs.Keys ==
            old(t.devs.Keys) - Evicted(old(t.devs), Noted(old(t.devList), l.rec.ip), l.rec.ip, l.id) + {l.id}
    ensures var d := t.devs[l.id]; d.ip == l.rec.ip && d.ok == l.rec.ok && d.saveTime == l.rec.saveTime
  {
    hide Inv, Owned, A.Agree, CdpRight, Decoded, Updated, AddressesUpdated, LastSeen, KeptCdp, WithCdp, Shrunk;
    hide Evicted, DevsSameButLists, Refused;
    var outcome, decoded, n, b := t.ProcessIpData(l.rec, l.id, false, l.now, l.reply);
    OneMore(n.devs, t.devs, l.id);
  }

  /** A device moves to another address, and then another device answers at its former address: the device that moved
      is wiped, although nobody else has its address, and the list still names it there. */
  method MovedDeviceLost(first: Load, moved: Load, other: Load) returns (t: Tables)
    requires Decoded(first.id, first.rec) && Decoded(moved.id, moved.rec) && Decoded(other.id, other.rec)
    requires first.reply.Some? && moved.reply.Some? && other.reply.Some?
    requires first.id == moved.id != other.id && Supersedes(moved.rec, first.rec)
    requires first.rec.ip == other.rec.ip != moved.rec.ip
    ensures fresh(t) && t.Valid() && t.devs.Keys == {other.id}
    ensures t.devList == map[other.rec.ip := Some(other.id), moved.rec.ip := Some(moved.id)]
  {
    hide Inv, Owned, A.Agree, CdpRight, Decoded, Evicted, Noted;
    t := new Tables();
    NewAddress(t.devs, t.devList, first);
    TakeIn(t, first);
    NewAddress(t.devs, t.devList, moved);
    TakeIn(t, moved);
    KnownAddress(t.devs, t.devList, other, moved.id);
    TakeIn(t, other);
  }

  lemma KnownAddress(devs: Devs, devList: map<string, Option<string>>, l: Load, former: string)
    requires l.rec.ip in devList && devList[l.rec.ip] == Some(former) && l.id !in devs && former != l.id
    ensures var list := Noted(devList, l.rec.ip);
            list == devList && devs.Keys - Evicted(devs, list, l.rec.ip, l.id) == devs.Keys - {former}
  {
  }

  /** Every state the broker can reach is sound: after any loads and any happenings. */
  method Live(loads: seq<Load>, happenings: seq<Happening>) returns (t: Tables)
    requires forall l :: l in loads ==> Decoded(l.id, l.rec)
    requires forall i, j :: 0 <= i < j < |loads| ==> loads[i].rec.ip != loads[j].rec.ip
    requires forall h :: h in happenings && h.Arrives? ==> Decoded(h.load.id, h.load.rec)
    ensures fresh(t) && t.Valid() && Sound(t.Graph(), t.Addresses(), t.devList, t.cdp2dev)
  {
    hide *;
    t := Start(loads);
    Serve(t, happenings);
    TablesSound(t);
  }

  /** What this means for a reader of the tables: the graph is drawn on both sides, addresses are indexed, each stored
      device is the one seen at its address, and no two devices share an address, or a CDP id while they work. */
  ghost predicate Sound(n: Net, b: A.Book, devList: map<string, Option<string>>, cdp2dev: map<string, string>) {
    && Drawn(n) && Indexed(n.devs, b.table, b.held)
    && (forall d :: d in n.devs ==> (n.devs[d].ip, Some(d)) in devList.Items)
    && (forall d, e :: d in n.devs && e in n.devs && d != e ==>
          n.devs[d].ip != n.devs[e].ip
          && (n.devs[d].ok && n.devs[e].ok && n.devs[d].cdpId.Some? ==> n.devs[d].cdpId != n.devs[e].cdpId))
  }

  lemma TablesSound(t: Tables)
    requires t.Valid()
    ensures Sound(t.Graph(), t.Addresses(), t.devList, t.cdp2dev)
  {
    hide Inv, A.Agree, Drawn, Indexed;
    InvDrawn(t.Graph());
    AgreeIndexed(t.devs, t.Addresses(), t.devList);
  }
}
