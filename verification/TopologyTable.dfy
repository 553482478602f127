/** What processing a device does to the link table: which links it makes, keeps and drops. */
module TopologyTable {
  import opened Basics
  import opened LinkKey
  import opened Topology
  import opened TopologyWipe
  import opened TopologyLinks

  // ---------- resolving a neighbour report ----------

  function LowerChar(c: char): char {
    if 'A' <= c <= 'Z' then (c as int + 32) as char else c
  }

  function Lower(s: string): string { seq(|s|, i requires 0 <= i < |s| => LowerChar(s[i])) }

  /** The interface an LLDP neighbour report points to. */
  function FindLldp(devs: Devs, nei: LldpNeighbour): Option<Leg> {
    var id := "lldp:" + Lower(nei.chassisId);
    if id !in devs then None
    else
      var dev := devs[id];
      if dev.chassisSubtype != Some(nei.chassisSubtype) then None
      else if && nei.portSubtype == 7 && nei.portId in dev.lldpIndex
              && dev.lldpIndex[nei.portId] in dev.lldpPorts
              && dev.lldpPorts[dev.lldpIndex[nei.portId]].subtype == Some(nei.portSubtype) then
        match dev.lldpPorts[dev.lldpIndex[nei.portId]].ifName
        case None => None
        case Some(name) => Some(Leg(id, name))
      else if nei.portSubtype == 5 && nei.portId in dev.ifaces && dev.ifaces[nei.portId].lldpPort then
        Some(Leg(id, nei.portId))
      else None
  }

  /** The interface a CDP neighbour report points to. */
  function FindCdp(devs: Devs, cdp2dev: map<string, string>, nei: CdpNeighbour): Option<Leg> {
    if nei.remDevId !in cdp2dev || cdp2dev[nei.remDevId] !in devs then None
    else
      var id := cdp2dev[nei.remDevId];
      var dev := devs[id];
      if nei.remIfName in dev.cdpIndex && dev.cdpIndex[nei.remIfName] in dev.cdpPorts then
        match dev.cdpPorts[dev.cdpIndex[nei.remIfName]].ifName
        case None => None
        case Some(name) => Some(Leg(id, name))
      else None
  }

  ghost predicate AllPortsNamed(devs: Devs) {
    forall d :: d in devs ==> PortsNamed(devs[d])
  }

  ghost predicate Exists(devs: Devs, g: Leg) {
    g.dev in devs && g.ifc in devs[g.dev].ifaces
  }

  lemma FindExists(devs: Devs, cdp2dev: map<string, string>, n: LldpNeighbour, c: CdpNeighbour)
    requires AllPortsNamed(devs)
    ensures FindLldp(devs, n).Some? ==> Exists(devs, FindLldp(devs, n).value)
    ensures FindCdp(devs, cdp2dev, c).Some? ==> Exists(devs, FindCdp(devs, cdp2dev, c).value)
  {
    hide Lower;
    assert forall d :: d in devs ==> PortsNamed(devs[d]);
  }

  /** Link lists play no part in resolving a report. */
  lemma FindSame(a: Devs, b: Devs, cdp2dev: map<string, string>, n: LldpNeighbour, c: CdpNeighbour)
    requires DevsSameButLists(a, b)
    ensures FindLldp(a, n) == FindLldp(b, n) && FindCdp(a, cdp2dev, c) == FindCdp(b, cdp2dev, c)
  {
    hide Lower;
  }

  /** The record in hand reports, on interface i, a neighbour that resolves to the interface g. */
  ghost predicate ReportsLldp(w: Work, i: string, g: Leg) {
    && w.rec.hasChassisId
    && exists p, n :: p in w.rec.lldpPorts && n in w.rec.lldpPorts[p].neighbours
                      && w.rec.lldpPorts[p].ifName == Some(i) && FindLldp(w.net.devs, n) == Some(g)
  }

  ghost predicate ReportsCdp(w: Work, cdp2dev: map<string, string>, i: string, g: Leg) {
    && w.rec.cdpId.Some?
    && exists p, n :: p in w.rec.cdpPorts && n in w.rec.cdpPorts[p].neighbours
                      && w.rec.cdpPorts[p].ifName == Some(i) && FindCdp(w.net.devs, cdp2dev, n) == Some(g)
  }

  /** Link k is reported: a neighbour on some interface resolves to another interface. */
  ghost predicate Reported(w: Work, cdp2dev: map<string, string>, k: LinkId) {
    exists i, g ::
      (ReportsLldp(w, i, g) || ReportsCdp(w, cdp2dev, i, g)) && g != Leg(w.id, i) && k == Key(Leg(w.id, i), g)
  }

  /** Interface i reports link k. */
  ghost predicate ReportedAt(w: Work, cdp2dev: map<string, string>, i: string, k: LinkId) {
    exists g :: (ReportsLldp(w, i, g) || ReportsCdp(w, cdp2dev, i, g)) && g != Leg(w.id, i) && k == Key(Leg(w.id, i), g)
  }

  /** A record that is not stored yet lists a link only where it was reported. */
  ghost predicate ListsReported(w0: Work, cdp2dev: map<string, string>, w: Work) {
    !w.stored ==> forall i, k :: k in List(w.rec, i) ==> ReportedAt(w0, cdp2dev, i, k)
  }

  /** The record lists the links seen exactly where they were reported. */
  ghost predicate SeenListed(w0: Work, cdp2dev: map<string, string>, rec: Device, seen: set<LinkId>) {
    forall i, k :: k in seen ==> (k in List(rec, i) <==> ReportedAt(w0, cdp2dev, i, k))
  }

  // ---------- the history of the table ----------

  /** A link as made from a report of device w.id, of the kind its protocol says. Its status takes the near end from
      the record in hand and the far end as it is stored. */
  ghost predicate Fresh(l: Link, w: Work, cdp2dev: map<string, string>) {
    && l.creator == w.id && l.leg0.dev == w.id && l.time == w.rec.lastSeen
    && (if l.proto.Lldp? then ReportsLldp(w, l.leg0.ifc, l.leg1) else ReportsCdp(w, cdp2dev, l.leg0.ifc, l.leg1))
    && (l.up <==> UpAt(View(w), l.leg0) && UpAt(w.net.devs, l.leg1))
  }

  ghost predicate SameButStatus(l: Link, m: Link) { m == l.(up := m.up) }

  /** The table after some of the work: seen links are fresh, handled ones were judged by Keep,
      links of other devices are as before. */
  ghost predicate History(w0: Work, cdp2dev: map<string, string>, w: Work, seen: set<LinkId>, handled: set<LinkId>) {
    var before, after := w0.net.links, w.net.links;
    && (forall k :: k in before && !Touches(before[k], w0.id) ==> k in after && after[k] == before[k])
    && (forall k :: k in after && !Touches(after[k], w0.id) ==> k in before)
    && (forall k :: k in seen ==> k in after && Fresh(after[k], w0, cdp2dev))
    && (forall k :: k in after && k !in seen ==>
          && k in before && SameButStatus(before[k], after[k]) && (k !in handled ==> after[k] == before[k])
          && (k in handled ==> Keep(before[k], w0.id, View(w0)) || !Touches(before[k], w0.id)))
    && (forall k :: k in before && k !in after ==> k in handled && !Keep(before[k], w0.id, View(w0)))
  }

  ghost predicate Unchanged(w0: Work, w: Work) {
    && w.id == w0.id && w.stored == w0.stored && SameButLists(w0.rec, w.rec)
    && DevsSameButLists(w0.net.devs, w.net.devs) && DevsSameButLists(View(w0), View(w))
  }

  /** The links of other devices are listed as before. */
  ghost predicate FarLists(w0: Work, w: Work) {
    forall g, k :: k in w.net.links && !Touches(w.net.links[k], w.id) ==> (Has(View(w), g, k) <==> Has(View(w0), g, k))
  }

  lemma FarStays(w0: Work, w: Work, w': Work, k: LinkId)
    requires FarLists(w0, w) && w'.id == w.id && (k in w'.net.links ==> Touches(w'.net.links[k], w.id))
    requires forall x :: x in w'.net.links && x != k ==> x in w.net.links && w'.net.links[x] == w.net.links[x]
    requires forall e, x :: x != k ==> (Has(View(w), e, x) <==> Has(View(w'), e, x))
    ensures FarLists(w0, w')
  {
    hide Has, View, Touches;
  }

  lemma KeptOthers(w: Work, w': Work, k: LinkId, l: Link)
    requires Entered(w, w', k, l)
    ensures DevsSameButLists(View(w), View(w')) && DevsSameButLists(w.net.devs, w'.net.devs)
    ensures forall e, x :: x != k ==> (Has(View(w), e, x) <==> Has(View(w'), e, x))
  {
    hide Has, View;
  }

  lemma LeftOthers(w: Work, w': Work, k: LinkId, l: Link)
    requires Left(w, w', k, l)
    ensures DevsSameButLists(View(w), View(w')) && DevsSameButLists(w.net.devs, w'.net.devs)
    ensures forall e, x :: x != k ==> (Has(View(w), e, x) <==> Has(View(w'), e, x))
  {
    hide Has, View;
  }

  /** While neighbours are being entered. */
  ghost predicate Entering(w0: Work, cdp2dev: map<string, string>, w: Work, seen: set<LinkId>) {
    && Mid(w, seen) && NoneGone(w) && AllNamed(w0.net.links) && AllPortsNamed(w0.net.devs) && PortsNamed(w0.rec)
    && Unchanged(w0, w) && History(w0, cdp2dev, w, seen, {})
    && ListsReported(w0, cdp2dev, w) && FarLists(w0, w)
    && forall k :: k in seen ==> Reported(w0, cdp2dev, k)
  }

  lemma EnteringStarts(w: Work, cdp2dev: map<string, string>)
    requires Mid(w, {}) && NoneGone(w) && AllNamed(w.net.links) && AllPortsNamed(w.net.devs) && PortsNamed(w.rec)
    requires ListsReported(w, cdp2dev, w)
    ensures Entering(w, cdp2dev, w, {})
  {
    hide Mid, NoneGone, AllNamed, AllPortsNamed, PortsNamed, ListsReported, Unchanged, History;
    UnchangedRefl(w);
    HistoryRefl(w, cdp2dev);
  }

  lemma UnchangedRefl(w: Work)
    ensures Unchanged(w, w)
  {
    SameRefl(w.rec);
    DevsSameRefl(w.net.devs);
    DevsSameRefl(View(w));
    hide View, SameButLists, DevsSameButLists;
  }

  lemma HistoryRefl(w: Work, cdp2dev: map<string, string>)
    ensures History(w, cdp2dev, w, {}, {})
  {
    hide Keep, View, Fresh;
  }

  lemma {:induction false} EnterOne(w0: Work, cdp2dev: map<string, string>, w: Work, seen: set<LinkId>, proto: Proto,
                                    i: string, g: Leg)
    requires Entering(w0, cdp2dev, w, seen) && i in w0.rec.ifaces && Exists(w0.net.devs, g) && g != Leg(w0.id, i)
    requires if proto.Lldp? then ReportsLldp(w0, i, g) else ReportsCdp(w0, cdp2dev, i, g)
    ensures i in w.rec.ifaces && Exists(w.net.devs, g)
    ensures Entering(w0, cdp2dev, Linked(w, proto, i, g), seen + {Key(Leg(w0.id, i), g)})
  {
    hide Key, History, ReportsLldp, ReportsCdp, UpAt, View, Has, ListsReported, FarLists, Mid, NoneGone, Unchanged;
    hide Linked, NewLink, Entered, Sound1, Fresh, LinkNamed, PortsNamed, AllPortsNamed, AllNamed;
    MidNames(w, seen);
    UnchangedIfaces(w0, w, i, g);
    var k, l, w' := Key(Leg(w0.id, i), g), NewLink(w, proto, i, g), Linked(w, proto, i, g);
    LinkedMid(w, seen, proto, i, g);
    LinkedEntered(w, proto, i, g);
    LinkedUnchanged(w0, w, proto, i, g);
    NewLinkFresh(w0, cdp2dev, w, proto, i, g);
    EnteredParts(w, w', k, l);
    FreshTouches(l, w0, cdp2dev);
    EnteredHistory(w0, cdp2dev, w, w', seen, k, l);
    LinkedReported(w0, cdp2dev, w, proto, i, g);
    KeptOthers(w, w', k, l);
    FarStays(w0, w, w', k);
  }

  lemma MidNames(w: Work, seen: set<LinkId>)
    requires Mid(w, seen)
    ensures Coherent(w) && NamesClean(View(w)) && NamesClean(w.net.devs)
  {
  }

  lemma UnchangedIfaces(w0: Work, w: Work, i: string, g: Leg)
    requires Unchanged(w0, w)
    ensures w.id == w0.id && (i in w.rec.ifaces <==> i in w0.rec.ifaces)
    ensures Exists(w.net.devs, g) <==> Exists(w0.net.devs, g)
  {
    SameIfaces(w0.net.devs, w.net.devs, g);
  }

  lemma EnteredParts(w: Work, w': Work, k: LinkId, l: Link)
    requires Entered(w, w', k, l) && Sound1(w', k, l)
    ensures w'.id == w.id && w'.net.links == w.net.links[k := l] && LinkNamed(k, l)
  {
  }

  lemma LinkedCdp(w: Work, i: string, g: Leg)
    requires g.dev in w.net.devs
    ensures var links := Linked(w, Cdp, i, g).net.links;
            CdpMade(links, Key(Leg(w.id, i), g)) && CdpGrows(w.net.links, links)
  {
    hide Key, Put;
  }

  lemma NewLinkFresh(w0: Work, cdp2dev: map<string, string>, w: Work, proto: Proto, i: string, g: Leg)
    requires Unchanged(w0, w) && if proto.Lldp? then ReportsLldp(w0, i, g) else ReportsCdp(w0, cdp2dev, i, g)
    ensures Fresh(NewLink(w, proto, i, g), w0, cdp2dev)
  {
    SameNames(w0.net.devs, w.net.devs);
    SameNames(View(w0), View(w));
    hide UpAt, View, ReportsLldp, ReportsCdp, DevsSameButLists;
  }

  /** The reporting interface of the record in hand lists the link, and no other newly does. */
  lemma LinkedList(w: Work, proto: Proto, i: string, g: Leg)
    requires i in w.rec.ifaces && g.dev in w.net.devs && Coherent(w)
    ensures var k, rec := Key(Leg(w.id, i), g), Linked(w, proto, i, g).rec;
            && ListsGrow(w.rec, rec) && k in List(rec, i)
            && (!w.stored ==> forall j, x :: x in List(rec, j) ==> x in List(w.rec, j) || (j == i && x == k))
  {
    hide Key, SameButLists, NewLink;
    var k := Key(Leg(w.id, i), g);
    var w1 := PutRec(w, i, k);
    PutFacts(w.rec, i, k);
    PutFacts(w1.net.devs[g.dev], g.ifc, k);
    hide Put, List;
  }

  /** Lists only get longer. */
  ghost predicate ListsGrow(a: Device, b: Device) {
    forall i, k :: k in List(a, i) ==> k in List(b, i)
  }

  lemma LinkedReported(w0: Work, cdp2dev: map<string, string>, w: Work, proto: Proto, i: string, g: Leg)
    requires ListsReported(w0, cdp2dev, w) && w.id == w0.id && i in w.rec.ifaces && g.dev in w.net.devs && Coherent(w)
    requires (ReportsLldp(w0, i, g) || ReportsCdp(w0, cdp2dev, i, g)) && g != Leg(w0.id, i)
    ensures ListsReported(w0, cdp2dev, Linked(w, proto, i, g))
  {
    hide Key, ReportsLldp, ReportsCdp, List;
    LinkedList(w, proto, i, g);
    assert ReportedAt(w0, cdp2dev, i, Key(Leg(w.id, i), g));
    LinkedStored(w, proto, i, g);
    hide Linked, ReportedAt;
  }

  lemma LinkedStored(w: Work, proto: Proto, i: string, g: Leg)
    requires g.dev in w.net.devs
    ensures Linked(w, proto, i, g).stored == w.stored
  {
  }

  lemma LinkedUnchanged(w0: Work, w: Work, proto: Proto, i: string, g: Leg)
    requires Unchanged(w0, w) && Coherent(w) && i in w.rec.ifaces && g.dev in w.net.devs
    requires Entered(w, Linked(w, proto, i, g), Key(Leg(w.id, i), g), NewLink(w, proto, i, g))
    ensures Unchanged(w0, Linked(w, proto, i, g))
  {
    var w' := Linked(w, proto, i, g);
    PutRecFacts(w, i, Key(Leg(w.id, i), g));
    PutDevsFacts(PutRec(w, i, Key(Leg(w.id, i), g)), g, Key(Leg(w.id, i), g));
    SameTrans(w.rec, PutRec(w, i, Key(Leg(w.id, i), g)).rec, w'.rec);
    hide PutRec, PutDevs, Key;
    SameTrans(w0.rec, w.rec, w'.rec);
    DevsSameTrans(w0.net.devs, w.net.devs, w'.net.devs);
    DevsSameTrans(View(w0), View(w), View(w'));
  }

  lemma EnteredHistory(w0: Work, cdp2dev: map<string, string>, w: Work, w': Work, seen: set<LinkId>, k: LinkId, l: Link)
    requires History(w0, cdp2dev, w, seen, {}) && AllNamed(w0.net.links) && w'.net.links == w.net.links[k := l]
    requires LinkNamed(k, l) && Fresh(l, w0, cdp2dev)
    ensures History(w0, cdp2dev, w', seen + {k}, {})
  {
    hide Keep, LinkNamed, View, HasEnd, Touches, SelfLink, Fresh;
    FreshTouches(l, w0, cdp2dev);
    if k in w0.net.links { SameKeySameEnds(k, w0.net.links[k], l); }
  }

  lemma FreshTouches(l: Link, w: Work, cdp2dev: map<string, string>)
    ensures Fresh(l, w, cdp2dev) ==> Touches(l, w.id)
  {
  }

  predicate CdpMade(links: Links, k: LinkId) { k in links && links[k].proto == Cdp }

  /** Links made from CDP reports stay such links. */
  ghost predicate CdpGrows(a: Links, b: Links) {
    forall k :: CdpMade(a, k) ==> CdpMade(b, k)
  }

  /** What CDP reports is a CDP link, whatever LLDP says. */
  ghost predicate CdpTells(w0: Work, cdp2dev: map<string, string>, links: Links, seen: set<LinkId>) {
    forall i, g :: ReportsCdp(w0, cdp2dev, i, g) && g != Leg(w0.id, i) ==>
      Key(Leg(w0.id, i), g) in seen && CdpMade(links, Key(Leg(w0.id, i), g))
  }

  lemma CdpStays(w0: Work, cdp2dev: map<string, string>, a: Links, b: Links, seen: set<LinkId>, k: LinkId)
    requires CdpTells(w0, cdp2dev, a, seen) && k !in seen
    requires forall x :: x in a && x != k ==> x in b && b[x] == a[x]
    ensures CdpTells(w0, cdp2dev, b, seen)
  {
    hide ReportsCdp, Key;
  }

  /** While the links that were not reported any more are looked at. The old record stays as it is. */
  ghost predicate Sweeping(w0: Work, cdp2dev: map<string, string>, w: Work, seen: set<LinkId>, handled: set<LinkId>,
                           stale: Device)
  {
    && Mid(w, seen + handled) && !w.stored && Unchanged(w0, w) && History(w0, cdp2dev, w, seen, handled)
    && w.id in w.net.devs && w.net.devs[w.id] == stale
    && SeenListed(w0, cdp2dev, w.rec, seen) && HandledWhole(w, handled) && FarLists(w0, w)
    && CdpTells(w0, cdp2dev, w.net.links, seen)
  }

  /** The links that were looked at and kept are whole. */
  ghost predicate HandledWhole(w: Work, handled: set<LinkId>) {
    forall k :: k in handled && k in w.net.links ==> Whole(View(w), k, w.net.links[k])
  }

  lemma WholeStays(a: Devs, b: Devs, k: LinkId, l: Link)
    requires Whole(a, k, l) && DevsSameButLists(a, b)
    requires Has(a, l.leg0, k) ==> Has(b, l.leg0, k)
    requires Has(a, l.leg1, k) ==> Has(b, l.leg1, k)
    ensures Whole(b, k, l)
  {
    SameNames(a, b);
    hide Has, UpAt;
  }

  lemma KeptWhole(w: Work, w': Work, handled: set<LinkId>, k: LinkId, l: Link)
    requires HandledWhole(w, handled) && Entered(w, w', k, l) && Whole(View(w'), k, l)
    ensures HandledWhole(w', handled + {k})
  {
    hide Whole, Has, View, DevsSameButLists, RefsOf, Coherent, ListsOnce;
    forall x | x in handled + {k} && x in w'.net.links ensures Whole(View(w'), x, w'.net.links[x]) {
      if x != k { WholeStays(View(w), View(w'), x, w.net.links[x]); }
    }
  }

  lemma LeftWhole(w: Work, w': Work, handled: set<LinkId>, k: LinkId, l: Link)
    requires HandledWhole(w, handled) && Left(w, w', k, l)
    ensures HandledWhole(w', handled + {k})
  {
    hide Whole, Has, View, DevsSameButLists, RefsOf, ListsOnce;
    forall x | x in handled + {k} && x in w'.net.links ensures Whole(View(w'), x, w'.net.links[x]) {
      WholeStays(View(w), View(w'), x, w.net.links[x]);
    }
  }

  /** The record in hand is the device's own part of the view. */
  lemma OwnView(w: Work, i: string, k: LinkId)
    ensures Has(View(w), Leg(w.id, i), k) <==> k in List(w.rec, i)
  {
  }

  /** An edit for one link leaves the lists of the others. */
  lemma SeenStays(w0: Work, cdp2dev: map<string, string>, w: Work, w': Work, seen: set<LinkId>, k: LinkId)
    requires SeenListed(w0, cdp2dev, w.rec, seen) && k !in seen && w'.id == w.id
    requires forall e, x :: x != k ==> (Has(View(w), e, x) <==> Has(View(w'), e, x))
    ensures SeenListed(w0, cdp2dev, w'.rec, seen)
  {
    hide ReportedAt, View, Has, List;
    forall i, x | x in seen ensures x in List(w'.rec, i) <==> ReportedAt(w0, cdp2dev, i, x) {
      OwnView(w, i, x);
      OwnView(w', i, x);
    }
  }

  lemma KeepSame(l: Link, m: Link, id: string, a: Devs, b: Devs)
    requires SameButStatus(l, m) && DevsSameButLists(a, b)
    ensures Keep(l, id, a) <==> Keep(m, id, b)
  {
  }

  lemma OldFixed(w: Work, k: LinkId)
    requires !w.stored && w.id in w.net.devs && k in w.net.links
    ensures w.net.links[k].leg0.dev in View(w) && w.net.links[k].leg1.dev in View(w) ==>
              w.id in Kept(w, k).net.devs && Kept(w, k).net.devs[w.id] == w.net.devs[w.id]
    ensures w.id in Dropped(w, k).net.devs && Dropped(w, k).net.devs[w.id] == w.net.devs[w.id]
  {
    hide Put, Take;
  }

  lemma {:induction false} SweepKept(w0: Work, cdp2dev: map<string, string>, w: Work, seen: set<LinkId>,
                                     handled: set<LinkId>, stale: Device, k: LinkId)
    requires Sweeping(w0, cdp2dev, w, seen, handled, stale) && k !in seen && k in w.net.links
    requires Keep(w.net.links[k], w.id, View(w))
    ensures Sweeping(w0, cdp2dev, Kept(w, k), seen, handled + {k}, stale)
  {
    hide Mid, Key, History, Unchanged, Kept, View, Keep, LinkNamed, SeenListed, HandledWhole, Entered, Sound1, Whole;
    hide FarLists, CdpTells;
    MidFacts(w, seen + handled, k);
    KeptMid(w, seen + handled, k);
    assert seen + handled + {k} == seen + (handled + {k});
    KeptEntered(w, k);
    KeepEnds(w.net.links[k], w.id, View(w));
    KeptOthers(w, Kept(w, k), k, Restated(w, w.net.links[k]));
    OldFixed(w, k);
    KeptRec(w, k);
    UnchangedStep(w0, w, Kept(w, k));
    HistoryAt(w0, cdp2dev, w, seen, handled, k);
    UnchangedKeep(w0, w, w0.net.links[k], w.net.links[k]);
    SweptHistory(w0, cdp2dev, w, Kept(w, k), seen, handled, k);
    KeptWhole(w, Kept(w, k), handled, k, Restated(w, w.net.links[k]));
    SeenStays(w0, cdp2dev, w, Kept(w, k), seen, k);
    FarStays(w0, w, Kept(w, k), k);
    CdpStays(w0, cdp2dev, w.net.links, Kept(w, k).net.links, seen, k);
  }

  lemma MidFacts(w: Work, seen: set<LinkId>, k: LinkId)
    requires Mid(w, seen) && k in w.net.links
    ensures Coherent(w) && LinkNamed(k, w.net.links[k])
  {
  }

  lemma KeepEnds(l: Link, id: string, view: Devs)
    requires Keep(l, id, view)
    ensures l.leg0.dev in view && l.leg1.dev in view && Touches(l, id)
  {
  }

  lemma UnchangedStep(w0: Work, w: Work, w': Work)
    requires Unchanged(w0, w) && w'.id == w.id && w'.stored == w.stored && SameButLists(w.rec, w'.rec)
    requires DevsSameButLists(w.net.devs, w'.net.devs) && DevsSameButLists(View(w), View(w'))
    ensures Unchanged(w0, w')
  {
    SameTrans(w0.rec, w.rec, w'.rec);
    DevsSameTrans(w0.net.devs, w.net.devs, w'.net.devs);
    DevsSameTrans(View(w0), View(w), View(w'));
  }

  lemma UnchangedKeep(w0: Work, w: Work, l: Link, m: Link)
    requires Unchanged(w0, w) && SameButStatus(l, m)
    ensures w.id == w0.id && (Keep(l, w0.id, View(w0)) <==> Keep(m, w.id, View(w)))
  {
    KeepSame(l, m, w.id, View(w0), View(w));
  }

  /** A link not seen yet is as it was, but for its status. */
  lemma HistoryAt(w0: Work, cdp2dev: map<string, string>, w: Work, seen: set<LinkId>, handled: set<LinkId>, k: LinkId)
    requires History(w0, cdp2dev, w, seen, handled) && k in w.net.links && k !in seen
    ensures k in w0.net.links && SameButStatus(w0.net.links[k], w.net.links[k])
  {
  }

  /** One more link was judged: it is kept, but for its status, or dropped. */
  lemma SweptHistory(w0: Work, cdp2dev: map<string, string>, w: Work, w': Work, seen: set<LinkId>,
                     handled: set<LinkId>, k: LinkId)
    requires History(w0, cdp2dev, w, seen, handled) && k in w.net.links && k !in seen
    requires w.id == w0.id && k in w0.net.links
    requires Touches(w.net.links[k], w.id) && SameButStatus(w0.net.links[k], w.net.links[k])
    requires Keep(w0.net.links[k], w0.id, View(w0)) <==> Keep(w.net.links[k], w.id, View(w))
    requires if Keep(w.net.links[k], w.id, View(w)) then w'.net.links == w.net.links[k := Restated(w, w.net.links[k])]
             else w'.net.links == w.net.links - {k}
    ensures History(w0, cdp2dev, w', seen, handled + {k})
  {
    hide Keep, View, Restated, SameButStatus, Touches, Fresh;
    RestatedStatus(w, w.net.links[k]);
    StatusTrans(w0.net.links[k], w.net.links[k], Restated(w, w.net.links[k]), w.id);
  }

  lemma StatusTrans(a: Link, b: Link, c: Link, d: string)
    requires SameButStatus(a, b) && SameButStatus(b, c)
    ensures SameButStatus(a, c) && (Touches(a, d) <==> Touches(c, d)) && (Touches(b, d) <==> Touches(c, d))
  {
  }

  lemma RestatedStatus(w: Work, l: Link)
    ensures SameButStatus(l, Restated(w, l))
  {
  }

  lemma KeptRec(w: Work, k: LinkId)
    requires !w.stored && k in w.net.links
    requires w.net.links[k].leg0.dev in View(w) && w.net.links[k].leg1.dev in View(w)
    ensures SameButLists(w.rec, Kept(w, k).rec)
    ensures Kept(w, k).id == w.id && !Kept(w, k).stored
    ensures Kept(w, k).net.links == w.net.links[k := Restated(w, w.net.links[k])]
  {
    hide Has, SameButLists, Grows, Put;
    var l := w.net.links[k];
    var w1 := PutView(w, l.leg0, k);
    PutViewFacts(w, l.leg0, k);
    SameKeys(View(w), View(w1));
    PutViewFacts(w1, l.leg1, k);
    SameTrans(w.rec, w1.rec, PutView(w1, l.leg1, k).rec);
  }

  lemma {:induction false} SweepDropped(w0: Work, cdp2dev: map<string, string>, w: Work, seen: set<LinkId>,
                                        handled: set<LinkId>, stale: Device, k: LinkId)
    requires Sweeping(w0, cdp2dev, w, seen, handled, stale)
    requires k !in seen && k in w.net.links && Touches(w.net.links[k], w.id)
    requires !Keep(w.net.links[k], w.id, View(w))
    ensures Sweeping(w0, cdp2dev, Dropped(w, k), seen, handled + {k}, stale)
  {
    hide Mid, Key, History, Unchanged, Dropped, View, Keep, SeenListed, HandledWhole, Left;
    hide FarLists, CdpTells;
    DroppedMid(w, seen + handled, k);
    DroppedLeft(w, k);
    LeftOthers(w, Dropped(w, k), k, w.net.links[k]);
    OldFixed(w, k);
    DroppedRec(w, k);
    MidMonotonic(Dropped(w, k), seen + handled, seen + (handled + {k}), k);
    UnchangedStep(w0, w, Dropped(w, k));
    HistoryAt(w0, cdp2dev, w, seen, handled, k);
    UnchangedKeep(w0, w, w0.net.links[k], w.net.links[k]);
    SweptHistory(w0, cdp2dev, w, Dropped(w, k), seen, handled, k);
    LeftWhole(w, Dropped(w, k), handled, k, w.net.links[k]);
    SeenStays(w0, cdp2dev, w, Dropped(w, k), seen, k);
    FarStays(w0, w, Dropped(w, k), k);
    CdpStays(w0, cdp2dev, w.net.links, Dropped(w, k).net.links, seen, k);
  }

  lemma DroppedRec(w: Work, k: LinkId)
    requires k in w.net.links
    ensures SameButLists(w.rec, Dropped(w, k).rec)
    ensures Dropped(w, k).id == w.id && Dropped(w, k).stored == w.stored && Dropped(w, k).net.links == w.net.links - {k}
  {
    var l := w.net.links[k];
    TakeFacts(w.rec, l.leg0.ifc, k);
    SameRefl(w.rec);
    TakeFacts(TakeView(w, l.leg0, k).rec, l.leg1.ifc, k);
    SameRefl(TakeView(w, l.leg0, k).rec);
    SameTrans(w.rec, TakeView(w, l.leg0, k).rec, Dropped(w, k).rec);
  }

  /** A link that is gone may count as looked at. */
  lemma MidMonotonic(w: Work, seen: set<LinkId>, seen': set<LinkId>, k: LinkId)
    requires Mid(w, seen) && seen' == seen + {k} && k !in w.net.links
    ensures Mid(w, seen')
  {
    hide Pending, Settled;
  }

  // ---------- the whole update ----------

  /** The link table after device w0.id was processed. */
  ghost predicate Updated(w0: Work, cdp2dev: map<string, string>, after: Links) {
    var before := w0.net.links;
    && (forall k :: k in before && !Touches(before[k], w0.id) ==> k in after && after[k] == before[k])
    && (forall k :: k in after && !Touches(after[k], w0.id) ==> k in before)
    && (forall k :: Reported(w0, cdp2dev, k) ==> k in after && Fresh(after[k], w0, cdp2dev))
    && (forall k :: k in after && !Reported(w0, cdp2dev, k) ==> k in before && SameButStatus(before[k], after[k]))
    && (forall k :: k in before && Touches(before[k], w0.id) && !Reported(w0, cdp2dev, k) ==>
          (k in after <==> Keep(before[k], w0.id, View(w0))))
    && (forall i, g :: ReportsCdp(w0, cdp2dev, i, g) && g != Leg(w0.id, i) ==> CdpMade(after, Key(Leg(w0.id, i), g)))
  }

  /** Every link that the old record lists was reported again, or looked at, or is gone. */
  ghost predicate AllLooked(w: Work, looked: set<LinkId>) {
    forall g: Leg, k :: g.dev == w.id && Has(w.net.devs, g, k) && k in w.net.links ==> k in looked
  }

  ghost predicate SeenExactly(w0: Work, cdp2dev: map<string, string>, seen: set<LinkId>) {
    forall k :: k in seen <==> Reported(w0, cdp2dev, k)
  }

  /** How the links of the device are listed after it was processed: one that was reported exactly at the interfaces
      that reported it, as far as they are its own, and any other at both its ends, with the right status. Links of
      other devices are listed there as before. */
  ghost predicate ListsRight(w0: Work, cdp2dev: map<string, string>, devs: Devs, links: Links) {
    && w0.id in devs
    && (forall i, k :: Reported(w0, cdp2dev, k) ==> (k in List(devs[w0.id], i) <==> ReportedAt(w0, cdp2dev, i, k)))
    && (forall k :: k in links && Touches(links[k], w0.id) && !Reported(w0, cdp2dev, k) ==> Whole(devs, k, links[k]))
    && (forall g: Leg, k :: g.dev != w0.id && k in links && !Touches(links[k], w0.id) ==>
          (Has(devs, g, k) <==> Has(w0.net.devs, g, k)))
  }

  /** A link between two interfaces of the device is listed at both, unless it was reported from one of them only. */
  lemma SelfLinkListed(w0: Work, cdp2dev: map<string, string>, devs: Devs, links: Links, k: LinkId)
    requires ListsRight(w0, cdp2dev, devs, links) && k in links && SelfLink(links[k]) && Touches(links[k], w0.id)
    ensures var l := links[k];
            Has(devs, l.leg0, k) && Has(devs, l.leg1, k) <==>
              (Reported(w0, cdp2dev, k) ==>
                 ReportedAt(w0, cdp2dev, l.leg0.ifc, k) && ReportedAt(w0, cdp2dev, l.leg1.ifc, k))
  {
    hide Reported, ReportedAt, List, UpAt;
  }

  lemma ViewListsRight(w0: Work, cdp2dev: map<string, string>, w: Work, seen: set<LinkId>)
    requires SeenExactly(w0, cdp2dev, seen) && SeenListed(w0, cdp2dev, w.rec, seen) && w.id == w0.id
    requires FarLists(w0, w)
    requires forall k :: k in w.net.links && Touches(w.net.links[k], w.id) && k !in seen ==>
               Whole(View(w), k, w.net.links[k])
    ensures ListsRight(w0, cdp2dev, View(w), w.net.links)
  {
    hide Reported, ReportedAt, Whole, List;
    forall g: Leg, k | g.dev != w0.id ensures Has(View(w0), g, k) <==> Has(w0.net.devs, g, k) { }
  }

  lemma FinishSweep(w0: Work, cdp2dev: map<string, string>, w: Work, seen: set<LinkId>, handled: set<LinkId>,
                    stale: Device)
    requires Sweeping(w0, cdp2dev, w, seen, handled, stale) && SeenExactly(w0, cdp2dev, seen)
    requires AllLooked(w, seen + handled)
    requires w.id == w0.id
    ensures Inv(w.net.(devs := View(w))) && Updated(w0, cdp2dev, w.net.links)
    ensures ListsRight(w0, cdp2dev, View(w), w.net.links)
  {
    hide ReportedAt, Whole, List, SeenListed, CdpTells;
    hide Has, View, Keep, Reported, Mid, Inv, History, Unchanged;
    forall k | k in w.net.links && Touches(w.net.links[k], w.id)
      ensures k in seen + handled
    {
      StillListed(w, seen + handled, k);
    }
    Commit(w, seen + handled);
    ViewListsRight(w0, cdp2dev, w, seen);
    SweptTable(w0, cdp2dev, w, seen, handled);
  }

  lemma StillListed(w: Work, looked: set<LinkId>, k: LinkId)
    requires Mid(w, looked) && k in w.net.links && Touches(w.net.links[k], w.id)
    ensures k in looked || exists g: Leg :: g.dev == w.id && Has(w.net.devs, g, k)
  {
    hide Has, RefsOf, Settled, UpAt;
  }

  lemma SweptTable(w0: Work, cdp2dev: map<string, string>, w: Work, seen: set<LinkId>, handled: set<LinkId>)
    requires History(w0, cdp2dev, w, seen, handled) && SeenExactly(w0, cdp2dev, seen) && w.id == w0.id
    requires forall k :: k in w.net.links && Touches(w.net.links[k], w.id) ==>
               k in seen + handled
    requires CdpTells(w0, cdp2dev, w.net.links, seen)
    ensures Updated(w0, cdp2dev, w.net.links)
  {
    hide Keep, View, Reported, ReportsCdp, Key;
  }
}
