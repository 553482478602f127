/** Processing a device: the pure edits of processLinks on the stored net and on the record that
    is about to be stored, and the proof that committing the record leaves a sound net. */
module TopologyLinks {
  import opened Basics
  import opened LinkKey
  import opened Topology
  import opened TopologyWipe

  /** The stored net, and the record in hand for device id. In the relinking pass at startup the
      record in hand is the stored one; otherwise it is a new one, and the old one is still stored. */
  datatype Work = Work(net: Net, rec: Device, id: string, stored: bool)

  /** The devices as they will be once the record in hand is stored. */
  function View(w: Work): Devs { w.net.devs[w.id := w.rec] }

  ghost predicate Coherent(w: Work) {
    w.stored ==> w.id in w.net.devs && w.net.devs[w.id] == w.rec
  }

  // ---------- edits ----------

  /** Adds a link to a list of the record in hand. */
  function PutRec(w: Work, i: string, k: LinkId): Work {
    var rec := Put(w.rec, i, k);
    w.(rec := rec, net := w.net.(devs := if w.stored then w.net.devs[w.id := rec] else w.net.devs))
  }

  /** Adds a link to a list of a stored device. */
  function PutDevs(w: Work, g: Leg, k: LinkId): Work
    requires g.dev in w.net.devs
  {
    var dev := Put(w.net.devs[g.dev], g.ifc, k);
    w.(net := w.net.(devs := w.net.devs[g.dev := dev]), rec := if w.stored && g.dev == w.id then dev else w.rec)
  }

  function PutView(w: Work, g: Leg, k: LinkId): Work
    requires g.dev in View(w)
  {
    if g.dev == w.id then PutRec(w, g.ifc, k) else PutDevs(w, g, k)
  }

  function TakeView(w: Work, g: Leg, k: LinkId): Work {
    if g.dev == w.id then w.(rec := Take(w.rec, g.ifc, k))
    else w.(net := w.net.(devs := TakeAt(w.net.devs, g, k)))
  }

  function RefAdd(refs: Refs, d: string, k: LinkId): Refs { refs[d := RefsOf(refs, d) + {k}] }

  function NewLink(w: Work, proto: Proto, i: string, g: Leg): Link {
    Link(proto, w.id, Leg(w.id, i), g, w.rec.lastSeen,
         UpAt(View(w), Leg(w.id, i)) && UpAt(w.net.devs, g))
  }

  /** A neighbour was reported on interface i of the record in hand. */
  function Linked(w: Work, proto: Proto, i: string, g: Leg): Work
    requires g.dev in w.net.devs
  {
    var k := Key(Leg(w.id, i), g);
    var w1 := PutDevs(PutRec(w, i, k), g, k);
    w1.(net := w1.net.(links := w.net.links[k := NewLink(w, proto, i, g)],
                       refs := RefAdd(RefAdd(w.net.refs, w.id, k), g.dev, k)))
  }

  /** Whether a link that was not reported any more is kept. */
  predicate Keep(l: Link, id: string, view: Devs) {
    && Touches(l, id) && l.leg0 != l.leg1
    && l.leg0.dev in view && l.leg1.dev in view
    && var d0, d1 := view[l.leg0.dev], view[l.leg1.dev];
    && l.leg0.ifc in d0.ifaces && l.leg1.ifc in d1.ifaces
    && var i0, i1 := d0.ifaces[l.leg0.ifc], d1.ifaces[l.leg1.ifc];
    && (|| (d0.ok && d1.ok && !i0.operUp && !i1.operUp)
        || (d0.ok && d1.ok && i0.operUp && i1.operUp && l.creator != id && l.time == d0.lastSeen)
        || !d0.ok || !d1.ok)
    && i0.adminUp && i1.adminUp
  }

  function Kept(w: Work, k: LinkId): Work
    requires k in w.net.links && w.net.links[k].leg0.dev in View(w) && w.net.links[k].leg1.dev in View(w)
  {
    var l := w.net.links[k];
    var w1 := PutView(PutView(w, l.leg0, k), l.leg1, k);
    w1.(net := w1.net.(links := w.net.links[k := l.(up := UpAt(View(w), l.leg0) && UpAt(View(w), l.leg1))],
                       refs := RefAdd(RefAdd(w.net.refs, l.leg0.dev, k), l.leg1.dev, k)))
  }

  function Dropped(w: Work, k: LinkId): Work
    requires k in w.net.links
  {
    var l := w.net.links[k];
    var w1 := TakeView(TakeView(w, l.leg0, k), l.leg1, k);
    w1.(net := w1.net.(links := w.net.links - {k},
                       refs := RefDel(RefDel(w.net.refs, l.leg0.dev, k), l.leg1.dev, k)))
  }

  // ---------- what holds between the edits ----------

  /** The old record lists only links that are gone or end there. */
  ghost predicate OldListsSound(w: Work) {
    forall g: Leg, k :: g.dev == w.id && Has(w.net.devs, g, k) && k in w.net.links ==> HasEnd(w.net.links[k], g)
  }

  /** Before the cleanup starts, the old record lists no link that is gone. */
  ghost predicate NoneGone(w: Work) {
    forall g: Leg, k :: g.dev == w.id && Has(w.net.devs, g, k) ==> k in w.net.links
  }

  /** A link of the device that has not been looked at yet is still known through the old record. */
  ghost predicate Pending(w: Work, k: LinkId, l: Link) {
    Listed(w.net.devs, k, l) && (w.stored ==> StatusRight(View(w), l))
  }

  ghost predicate Settled(w: Work, k: LinkId, l: Link) {
    Listed(View(w), k, l) && StatusRight(View(w), l)
  }

  /** Every link between two devices is settled, or touches the device and is pending. */
  ghost predicate Progress(w: Work, seen: set<LinkId>) {
    forall k :: k in w.net.links ==>
      if Touches(w.net.links[k], w.id) && k !in seen then Pending(w, k, w.net.links[k])
      else Settled(w, k, w.net.links[k])
  }

  ghost predicate Mid(w: Work, seen: set<LinkId>) {
    && Coherent(w) && NamesClean(View(w)) && NamesClean(w.net.devs) && AllNamed(w.net.links)
    && ListsSound(View(w), w.net.links) && OldListsSound(w)
    && ListsOnce(View(w)) && ListsOnce(w.net.devs)
    && RefsExact(View(w), w.net.links, w.net.refs)
    && Progress(w, seen)
  }

  // ---------- facts about the edits ----------

  lemma PutDevFacts(devs: Devs, g: Leg, k: LinkId)
    requires g.dev in devs
    ensures var devs' := devs[g.dev := Put(devs[g.dev], g.ifc, k)];
            && DevsSameButLists(devs, devs')
            && forall h, x :: Has(devs', h, x) <==>
                 Has(devs, h, x) || (h == g && x == k && g.ifc in devs[g.dev].ifaces)
    ensures ListsOnce(devs) ==> ListsOnce(devs[g.dev := Put(devs[g.dev], g.ifc, k)])
  {
    PutFacts(devs[g.dev], g.ifc, k);
    hide Put, List, DeviceOnce;
    var devs' := devs[g.dev := Put(devs[g.dev], g.ifc, k)];
    forall h, x
      ensures Has(devs', h, x) <==> Has(devs, h, x) || (h == g && x == k && g.ifc in devs[g.dev].ifaces)
    {
      assert Leg(h.dev, h.ifc) == h && Leg(g.dev, g.ifc) == g;
    }
  }

  /** Nothing changed but that legs g and h may have got link k into their lists. */
  ghost predicate Grows(devs: Devs, devs': Devs, k: LinkId, g: Leg, h: Leg) {
    && DevsSameButLists(devs, devs')
    && (forall e, x :: Has(devs', e, x) ==> Has(devs, e, x) || (x == k && (e == g || e == h)))
    && (forall e, x :: Has(devs, e, x) ==> Has(devs', e, x))
    && (ListsOnce(devs) ==> ListsOnce(devs'))
  }

  lemma GrowsTrans(a: Devs, b: Devs, c: Devs, k: LinkId, g: Leg, h: Leg)
    requires Grows(a, b, k, g, g) && Grows(b, c, k, h, h)
    ensures Grows(a, c, k, g, h)
  {
    DevsSameTrans(a, b, c);
    hide Has, DevsSameButLists;
  }

  /** Leg g may have got link k into its list; nothing else changed. */
  ghost predicate OnePut(w: Work, w': Work, g: Leg, k: LinkId) {
    && Coherent(w') && w'.id == w.id && w'.stored == w.stored
    && w'.net == w.net.(devs := w'.net.devs) && SameButLists(w.rec, w'.rec)
    && Grows(View(w), View(w'), k, g, g) && Grows(w.net.devs, w'.net.devs, k, g, g)
  }

  lemma PutGrows(devs: Devs, g: Leg, k: LinkId)
    requires g.dev in devs
    ensures var devs' := devs[g.dev := Put(devs[g.dev], g.ifc, k)];
            && Grows(devs, devs', k, g, g) && SameButLists(devs[g.dev], devs'[g.dev])
            && (g.ifc in devs[g.dev].ifaces ==> Has(devs', g, k))
  {
    hide Put, Has, SameButLists, ListsOnce;
    PutDevFacts(devs, g, k);
  }

  lemma GrowsRefl(devs: Devs, k: LinkId, g: Leg)
    ensures Grows(devs, devs, k, g, g)
  {
    hide Has, ListsOnce;
    DevsSameRefl(devs);
  }

  lemma PutRecFacts(w: Work, i: string, k: LinkId)
    requires Coherent(w)
    ensures OnePut(w, PutRec(w, i, k), Leg(w.id, i), k)
    ensures i in w.rec.ifaces ==> Has(View(PutRec(w, i, k)), Leg(w.id, i), k)
  {
    hide Put, List, SameButLists, Grows, Has;
    var g := Leg(w.id, i);
    PutGrows(View(w), g, k);
    GrowsRefl(w.net.devs, k, g);
    assert View(PutRec(w, i, k)) == View(w)[w.id := Put(w.rec, i, k)];
    if w.stored { PutGrows(w.net.devs, g, k); }
  }

  lemma SameRefl(dev: Device)
    ensures SameButLists(dev, dev)
  {
  }

  lemma DevsSameRefl(devs: Devs)
    ensures DevsSameButLists(devs, devs)
  {
    forall d | d in devs ensures SameButLists(devs[d], devs[d]) { SameRefl(devs[d]); }
  }

  lemma PutDevsFacts(w: Work, g: Leg, k: LinkId)
    requires Coherent(w) && g.dev in w.net.devs
    ensures OnePut(w, PutDevs(w, g, k), g, k)
    ensures g.ifc in w.net.devs[g.dev].ifaces && g.dev != w.id ==> Has(View(PutDevs(w, g, k)), g, k)
  {
    hide Put, List, SameButLists, Has;
    var w' := PutDevs(w, g, k);
    PutDevFacts(w.net.devs, g, k);
    SameRefl(w.rec);
    if g.dev != w.id {
      PutDevFacts(View(w), g, k);
      assert View(w') == View(w)[g.dev := Put(w.net.devs[g.dev], g.ifc, k)];
    } else if w.stored {
      assert View(w') == w'.net.devs && View(w) == w.net.devs;
    } else {
      assert View(w') == View(w);
      DevsSameRefl(View(w));
    }
  }

  lemma TakeLoses(devs: Devs, g: Leg, k: LinkId)
    ensures Loses(devs, TakeAt(devs, g, k), k, iset{g}) && Loses(devs, devs, k, iset{})
  {
    hide Has, TakeAt, ListsOnce;
    DevsSameRefl(devs);
    TakeAtFacts(devs, g, k);
  }

  lemma TakeViewFacts(w: Work, g: Leg, k: LinkId)
    requires !w.stored
    ensures var w' := TakeView(w, g, k);
            && w'.net == w.net.(devs := w'.net.devs) && w' == w.(net := w'.net, rec := w'.rec)
            && Loses(View(w), View(w'), k, iset{g})
            && Loses(w.net.devs, w'.net.devs, k, iset h | h == g && h.dev != w.id)
  {
    hide Take, List, Loses;
    var w' := TakeView(w, g, k);
    TakeLoses(View(w), g, k);
    TakeLoses(w.net.devs, g, k);
    assert View(w') == TakeAt(View(w), g, k);
    if g.dev == w.id {
      assert (iset h: Leg | h == g && h.dev != w.id) == iset{};
    } else {
      assert (iset h: Leg | h == g && h.dev != w.id) == iset{g};
    }
  }

  lemma RefAddFacts(refs: Refs, d: string, k: LinkId)
    ensures forall e, x :: x in RefsOf(RefAdd(refs, d, k), e) <==> x in RefsOf(refs, e) || (e == d && x == k)
  {
  }

  /** Same names, same states, same ends. */
  lemma SameNames(a: Devs, b: Devs)
    requires DevsSameButLists(a, b)
    ensures NamesClean(a) ==> NamesClean(b)
    ensures forall g :: UpAt(a, g) <==> UpAt(b, g)
  {
    hide Clean;
  }

  /** A link reported between two interfaces of the device in hand goes into the list of the reporting interface only,
      as far as the record about to be stored is concerned: it is listed at both ends exactly if the far interface
      lists it already, because it was reported from there as well. */
  lemma SelfLinkHalf(w: Work, proto: Proto, i: string, j: string)
    requires !w.stored && w.id in w.net.devs && i in w.rec.ifaces && i != j
    ensures var g := Leg(w.id, j);
            var k, l, w' := Key(Leg(w.id, i), g), NewLink(w, proto, i, g), Linked(w, proto, i, g);
            && w'.net.links[k] == l && SelfLink(l) && Has(View(w'), l.leg0, k)
            && (Has(View(w'), l.leg1, k) <==> k in List(w.rec, j))
  {
    hide Key, UpAt, NewLink;
    var g := Leg(w.id, j);
    var k := Key(Leg(w.id, i), g);
    PutFacts(w.rec, i, k);
    hide Put, SameButLists, DeviceOnce;
    NewLinkEnds(w, proto, i, g);
  }

  lemma NewLinkEnds(w: Work, proto: Proto, i: string, g: Leg)
    ensures NewLink(w, proto, i, g).leg0 == Leg(w.id, i) && NewLink(w, proto, i, g).leg1 == g
  {
  }

  // ---------- the shared shape of the three edits ----------

  /** How an edit that puts link k with value l into the tables changes the views. */
  ghost predicate Entered(w: Work, w': Work, k: LinkId, l: Link) {
    && w'.id == w.id && w'.stored == w.stored && Coherent(w')
    && Grows(View(w), View(w'), k, l.leg0, l.leg1) && Grows(w.net.devs, w'.net.devs, k, l.leg0, l.leg1)
    && w'.net.links == w.net.links[k := l]
    && (forall d, x :: x in RefsOf(w'.net.refs, d) <==> x in RefsOf(w.net.refs, d) || (x == k && Touches(l, d)))
  }

  /** The link in hand: well named, with stored ends, listed and with the right status unless it is a self-link. */
  ghost predicate Sound1(w: Work, k: LinkId, l: Link) {
    && LinkNamed(k, l) && l.leg0.dev in View(w) && l.leg1.dev in View(w)
    && Settled(w, k, l)
  }

  lemma SameKeySameEnds(k: LinkId, l: Link, m: Link)
    requires LinkNamed(k, l) && LinkNamed(k, m)
    ensures forall g :: HasEnd(l, g) <==> HasEnd(m, g)
    ensures forall d :: Touches(l, d) <==> Touches(m, d)
    ensures SelfLink(l) <==> SelfLink(m)
  {
    KeyInjective(l.leg0, l.leg1, m.leg0, m.leg1);
    hide Key;
    assert m.leg0 in {l.leg0, l.leg1} && m.leg1 in {l.leg0, l.leg1};
    assert l.leg0 in {m.leg0, m.leg1} && l.leg1 in {m.leg0, m.leg1};
  }

  lemma EnteredMid(w: Work, w': Work, seen: set<LinkId>, k: LinkId, l: Link)
    requires Mid(w, seen) && Entered(w, w', k, l) && Sound1(w', k, l) && (k in w.net.links || NoneGone(w))
    ensures Mid(w', seen + {k})
    ensures NoneGone(w) ==> NoneGone(w')
  {
    hide Has, RefsOf, Key, Clean, UpAt, DevsSameButLists;
    SameNames(View(w), View(w'));
    SameNames(w.net.devs, w'.net.devs);
    EnteredViews(w, w', k, l);
    EnteredProgress(w, w', seen, k, l);
  }

  lemma EnteredViews(w: Work, w': Work, k: LinkId, l: Link)
    requires AllNamed(w.net.links) && Entered(w, w', k, l) && Sound1(w', k, l)
    requires ListsSound(View(w), w.net.links) && OldListsSound(w) && RefsExact(View(w), w.net.links, w.net.refs)
    requires k in w.net.links || NoneGone(w)
    ensures AllNamed(w'.net.links) && ListsSound(View(w'), w'.net.links) && OldListsSound(w')
    ensures RefsExact(View(w'), w'.net.links, w'.net.refs)
  {
    hide Has, RefsOf, View, LinkNamed, Settled, Coherent, ListsSound, OldListsSound, RefsExact;
    if k in w.net.links { SameKeySameEnds(k, w.net.links[k], l); }
    EnteredLists(w, w', k, l);
    EnteredRefs(w, w', k, l);
  }

  ghost predicate SameEndsIfThere(links: Links, k: LinkId, l: Link) {
    k in links ==>
      && (forall g :: HasEnd(links[k], g) <==> HasEnd(l, g))
      && (forall d :: Touches(links[k], d) <==> Touches(l, d))
  }

  lemma EnteredLists(w: Work, w': Work, k: LinkId, l: Link)
    requires Entered(w, w', k, l) && ListsSound(View(w), w.net.links) && OldListsSound(w)
    requires SameEndsIfThere(w.net.links, k, l) && (k in w.net.links || NoneGone(w))
    ensures ListsSound(View(w'), w'.net.links) && OldListsSound(w')
  {
    hide Has, RefsOf, View, Coherent, Touches;
  }

  lemma EnteredRefs(w: Work, w': Work, k: LinkId, l: Link)
    requires Entered(w, w', k, l) && RefsExact(View(w), w.net.links, w.net.refs)
    requires DevsSameButLists(View(w), View(w'))
    requires SameEndsIfThere(w.net.links, k, l) && l.leg0.dev in View(w') && l.leg1.dev in View(w')
    ensures RefsExact(View(w'), w'.net.links, w'.net.refs)
  {
    hide Grows, RefsOf, Coherent, HasEnd, DevsSameButLists;
    SameKeys(View(w), View(w'));
    hide View;
    forall d, x ensures x in RefsOf(w'.net.refs, d) <==> x in w'.net.links && Touches(w'.net.links[x], d) {
    }
  }

  lemma SameKeys(a: Devs, b: Devs)
    ensures DevsSameButLists(a, b) ==> a.Keys == b.Keys
  {
  }

  lemma EnteredProgress(w: Work, w': Work, seen: set<LinkId>, k: LinkId, l: Link)
    requires Progress(w, seen) && Entered(w, w', k, l) && Sound1(w', k, l)
    ensures Progress(w', seen + {k})
  {
    hide Has, RefsOf, View, LinkNamed, UpAt, Coherent;
    SameNames(View(w), View(w'));
  }

  // ---------- the three edits ----------

  /** Link k gets value l, and both its legs were put into lists. */
  lemma TwoPuts(w: Work, w1: Work, w2: Work, w': Work, k: LinkId, l: Link)
    requires Coherent(w)
    requires OnePut(w, w1, l.leg0, k) && OnePut(w1, w2, l.leg1, k)
    requires w' == w2.(net := w2.net.(links := w.net.links[k := l],
                                      refs := RefAdd(RefAdd(w.net.refs, l.leg0.dev, k), l.leg1.dev, k)))
    ensures Entered(w, w', k, l) && View(w') == View(w2)
  {
    GrowsTrans(View(w), View(w1), View(w2), k, l.leg0, l.leg1);
    GrowsTrans(w.net.devs, w1.net.devs, w2.net.devs, k, l.leg0, l.leg1);
    RefAddFacts(w.net.refs, l.leg0.dev, k);
    RefAddFacts(RefAdd(w.net.refs, l.leg0.dev, k), l.leg1.dev, k);
    assert View(w') == View(w2) && w'.net.devs == w2.net.devs;
    hide Grows, RefAdd, RefsOf, SameButLists, View;
  }

  lemma SameIfaces(a: Devs, b: Devs, g: Leg)
    requires DevsSameButLists(a, b)
    ensures g.dev in a <==> g.dev in b
    ensures g.dev in a ==> (g.ifc in a[g.dev].ifaces <==> g.ifc in b[g.dev].ifaces)
  {
  }

  lemma {:induction false} LinkedMid(w: Work, seen: set<LinkId>, proto: Proto, i: string, g: Leg)
    requires Mid(w, seen) && NoneGone(w)
    requires i in w.rec.ifaces && g.dev in w.net.devs && g.ifc in w.net.devs[g.dev].ifaces && g != Leg(w.id, i)
    ensures Mid(Linked(w, proto, i, g), seen + {Key(Leg(w.id, i), g)}) && NoneGone(Linked(w, proto, i, g))
  {
    var k := Key(Leg(w.id, i), g);
    var l := NewLink(w, proto, i, g);
    var w' := Linked(w, proto, i, g);
    LinkedEntered(w, proto, i, g);
    EnteredMid(w, w', seen, k, l);
  }

  lemma LinkedEntered(w: Work, proto: Proto, i: string, g: Leg)
    requires Coherent(w) && NamesClean(View(w)) && NamesClean(w.net.devs)
    requires i in w.rec.ifaces && g.dev in w.net.devs && g.ifc in w.net.devs[g.dev].ifaces && g != Leg(w.id, i)
    ensures var k, l, w' := Key(Leg(w.id, i), g), NewLink(w, proto, i, g), Linked(w, proto, i, g);
            Entered(w, w', k, l) && Sound1(w', k, l)
  {
    var a := Leg(w.id, i);
    var k := Key(a, g);
    var l := NewLink(w, proto, i, g);
    var w1 := PutRec(w, i, k);
    var w2 := PutDevs(w1, g, k);
    var w' := Linked(w, proto, i, g);
    PutRecFacts(w, i, k);
    SameIfaces(w.net.devs, w1.net.devs, g);
    PutDevsFacts(w1, g, k);
    TwoPuts(w, w1, w2, w', k, l);
    hide Has, UpAt, DevsSameButLists, RefAdd, PutRec, PutDevs, Put, Key, Clean, View, SameButLists;
    LinkedNamed(w, proto, i, g);
    LinkedStatus(w, w', proto, i, g);
  }

  lemma LinkedNamed(w: Work, proto: Proto, i: string, g: Leg)
    requires NamesClean(View(w)) && NamesClean(w.net.devs)
    requires i in w.rec.ifaces && g.dev in w.net.devs && g.ifc in w.net.devs[g.dev].ifaces && g != Leg(w.id, i)
    ensures LinkNamed(Key(Leg(w.id, i), g), NewLink(w, proto, i, g))
  {
    hide Key, Clean;
    assert View(w)[w.id] == w.rec;
  }

  lemma LinkedStatus(w: Work, w': Work, proto: Proto, i: string, g: Leg)
    requires DevsSameButLists(View(w), View(w')) && g.dev in w.net.devs
    ensures w.id in View(w') && g.dev in View(w')
    ensures StatusRight(View(w'), NewLink(w, proto, i, g))
  {
    SameNames(View(w), View(w'));
    if g.dev != w.id { OtherUp(w, g); }
    hide UpAt, SameButLists;
  }

  lemma OtherUp(w: Work, g: Leg)
    requires g.dev != w.id
    ensures UpAt(w.net.devs, g) <==> UpAt(View(w), g)
  {
  }

  lemma PutViewFacts(w: Work, g: Leg, k: LinkId)
    requires Coherent(w) && g.dev in View(w)
    ensures OnePut(w, PutView(w, g, k), g, k)
    ensures g.ifc in View(w)[g.dev].ifaces ==> Has(View(PutView(w, g, k)), g, k)
  {
    hide Has, Put, OnePut, PutRec, PutDevs;
    assert Leg(w.id, g.ifc) == g || g.dev != w.id;
    if g.dev == w.id { PutRecFacts(w, g.ifc, k); } else { PutDevsFacts(w, g, k); }
  }

  lemma {:induction false} KeptMid(w: Work, seen: set<LinkId>, k: LinkId)
    requires Mid(w, seen) && !w.stored && k in w.net.links && Keep(w.net.links[k], w.id, View(w))
    ensures Mid(Kept(w, k), seen + {k})
  {
    hide Entered, Sound1, Progress, Keep, Kept, View;
    KeptEntered(w, k);
    EnteredMid(w, Kept(w, k), seen, k, Restated(w, w.net.links[k]));
  }

  /** The link with its status taken afresh. */
  function Restated(w: Work, l: Link): Link {
    l.(up := UpAt(View(w), l.leg0) && UpAt(View(w), l.leg1))
  }

  lemma KeptEntered(w: Work, k: LinkId)
    requires Coherent(w) && k in w.net.links && LinkNamed(k, w.net.links[k]) && Keep(w.net.links[k], w.id, View(w))
    ensures var w', l := Kept(w, k), Restated(w, w.net.links[k]);
            Entered(w, w', k, l) && Sound1(w', k, l) && Whole(View(w'), k, l)
  {
    hide Has, UpAt, RefAdd, PutRec, PutDevs, Key, Clean, SameButLists, View;
    var l, l' := w.net.links[k], Restated(w, w.net.links[k]);
    var w1 := PutView(w, l.leg0, k);
    PutViewFacts(w, l.leg0, k);
    SameIfaces(View(w), View(w1), l.leg0);
    SameIfaces(View(w), View(w1), l.leg1);
    var w2 := PutView(w1, l.leg1, k);
    PutViewFacts(w1, l.leg1, k);
    TwoPuts(w, w1, w2, Kept(w, k), k, l');
    SameNames(View(w), View(Kept(w, k)));
    SameKeys(View(w), View(Kept(w, k)));
  }

  /** Nothing changed but that the given legs lost link k. */
  ghost predicate Loses(devs: Devs, devs': Devs, k: LinkId, legs: iset<Leg>) {
    && DevsSameButLists(devs, devs')
    && (forall e, x :: Has(devs', e, x) <==> Has(devs, e, x) && !(x == k && e in legs))
    && (ListsOnce(devs) ==> ListsOnce(devs'))
  }

  lemma LosesTrans(a: Devs, b: Devs, c: Devs, k: LinkId, g: iset<Leg>, h: iset<Leg>)
    requires Loses(a, b, k, g) && Loses(b, c, k, h)
    ensures Loses(a, c, k, g + h)
  {
    DevsSameTrans(a, b, c);
    hide Has, DevsSameButLists;
  }

  /** How dropping link k changes the views: its ends lose it. */
  ghost predicate Left(w: Work, w': Work, k: LinkId, l: Link) {
    && w'.id == w.id && !w'.stored
    && Loses(View(w), View(w'), k, iset g | HasEnd(l, g))
    && Loses(w.net.devs, w'.net.devs, k, iset g | HasEnd(l, g) && g.dev != w.id)
    && w'.net.links == w.net.links - {k}
    && (forall d, x :: x in RefsOf(w'.net.refs, d) <==> x in RefsOf(w.net.refs, d) && !(x == k && Touches(l, d)))
  }

  lemma DroppedIs(w: Work, k: LinkId)
    requires k in w.net.links
    ensures var l, d := w.net.links[k], Dropped(w, k);
            var w2 := TakeView(TakeView(w, l.leg0, k), l.leg1, k);
            && d.id == w.id && d.stored == w.stored && View(d) == View(w2) && d.net.devs == w2.net.devs
            && d.net.links == w.net.links - {k}
            && d.net.refs == RefDel(RefDel(w.net.refs, l.leg0.dev, k), l.leg1.dev, k)
  {
    hide Take, RefDel;
  }

  lemma DroppedLeft(w: Work, k: LinkId)
    requires !w.stored && k in w.net.links
    ensures Left(w, Dropped(w, k), k, w.net.links[k])
  {
    hide Has, TakeView, View, Loses, RefsOf, RefDel, Dropped;
    var l := w.net.links[k];
    var w1 := TakeView(w, l.leg0, k);
    var w2 := TakeView(w1, l.leg1, k);
    DroppedIs(w, k);
    TakeViewFacts(w, l.leg0, k);
    TakeViewFacts(w1, l.leg1, k);
    RefDelFacts(w.net.refs, l.leg0.dev, k);
    RefDelFacts(RefDel(w.net.refs, l.leg0.dev, k), l.leg1.dev, k);
    var s0, s1 := iset{l.leg0}, iset{l.leg1};
    var t0, t1 := iset g | g == l.leg0 && g.dev != w.id, iset g | g == l.leg1 && g.dev != w.id;
    LosesTrans(View(w), View(w1), View(w2), k, s0, s1);
    LosesTrans(w.net.devs, w1.net.devs, w2.net.devs, k, t0, t1);
    assert s0 + s1 == iset g | HasEnd(l, g);
    assert t0 + t1 == iset g | HasEnd(l, g) && g.dev != w.id;
  }

  lemma {:induction false} DroppedMid(w: Work, seen: set<LinkId>, k: LinkId)
    requires Mid(w, seen) && !w.stored && k in w.net.links
    ensures Mid(Dropped(w, k), seen)
  {
    var w' := Dropped(w, k);
    DroppedLeft(w, k);
    hide Has, UpAt, Key, Clean, DevsSameButLists, Dropped;
    SameNames(View(w), View(w'));
    SameNames(w.net.devs, w'.net.devs);
    SameKeys(View(w), View(w'));
    LeftViews(w, w', k);
    LeftProgress(w, w', seen, k);
  }

  lemma LeftViews(w: Work, w': Work, k: LinkId)
    requires k in w.net.links && Left(w, w', k, w.net.links[k]) && View(w).Keys == View(w').Keys
    requires ListsSound(View(w), w.net.links) && OldListsSound(w) && RefsExact(View(w), w.net.links, w.net.refs)
    ensures ListsSound(View(w'), w'.net.links) && OldListsSound(w') && RefsExact(View(w'), w'.net.links, w'.net.refs)
  {
    hide Has, View, DevsSameButLists, RefsOf;
  }

  lemma LeftProgress(w: Work, w': Work, seen: set<LinkId>, k: LinkId)
    requires k in w.net.links && Left(w, w', k, w.net.links[k]) && Progress(w, seen)
    ensures Progress(w', seen)
  {
    hide Has, View, DevsSameButLists, RefsOf, UpAt;
    SameNames(View(w), View(w'));
  }

  // ---------- beginning and end ----------

  /** A decoded record has clean names, names existing interfaces in its port tables, and no link lists yet. */
  ghost predicate Decoded(id: string, rec: Device) {
    && (forall i :: i in rec.ifaces ==> Clean(Leg(id, i)) && rec.ifaces[i].links == [])
    && PortsNamed(rec)
  }

  ghost predicate PortsNamed(rec: Device) {
    && (forall p :: p in rec.lldpPorts && rec.lldpPorts[p].ifName.Some? ==> rec.lldpPorts[p].ifName.value in rec.ifaces)
    && (forall p :: p in rec.cdpPorts && rec.cdpPorts[p].ifName.Some? ==> rec.cdpPorts[p].ifName.value in rec.ifaces)
  }

  lemma {:induction false} StartFresh(net: Net, rec: Device, id: string)
    requires Inv(net) && Decoded(id, rec)
    ensures Mid(Work(net, rec, id, false), {}) && NoneGone(Work(net, rec, id, false))
  {
    hide UpAt, Key, Clean, Has, RefsOf, NamesClean, ListsOnce, Decoded;
    var w := Work(net, rec, id, false);
    FreshView(net, rec, id);
    assert net.devs.Keys <= View(w).Keys;
    hide View;
    forall k | k in net.links && !Touches(net.links[k], id)
      ensures Settled(w, k, net.links[k])
    {
      FarSettled(w, k, net.links[k]);
    }
  }

  /** A decoded record lists nothing. */
  lemma FreshView(net: Net, rec: Device, id: string)
    requires NamesClean(net.devs) && ListsOnce(net.devs) && Decoded(id, rec)
    ensures var view := View(Work(net, rec, id, false));
            && NamesClean(view) && ListsOnce(view)
            && forall g: Leg, k :: Has(view, g, k) <==> g.dev != id && Has(net.devs, g, k)
  {
    hide Clean, PortsNamed;
  }

  /** The links of other devices are not affected by the record in hand. */
  lemma FarSettled(w: Work, k: LinkId, l: Link)
    requires Listed(w.net.devs, k, l) && StatusRight(w.net.devs, l) && !Touches(l, w.id)
    requires l.leg0.dev in w.net.devs && l.leg1.dev in w.net.devs
    ensures Settled(w, k, l)
  {
    hide UpAt;
    OtherUp(w, l.leg0);
    OtherUp(w, l.leg1);
  }

  lemma {:induction false} StartStored(net: Net, id: string)
    requires Inv(net) && id in net.devs
    ensures Mid(Work(net, net.devs[id], id, true), {}) && NoneGone(Work(net, net.devs[id], id, true))
  {
    hide UpAt, Key, Clean, Has, RefsOf;
    assert View(Work(net, net.devs[id], id, true)) == net.devs;
  }

  /** Storing the record in hand gives a sound net, once every link of the device has been looked at. */
  lemma {:induction false} Commit(w: Work, seen: set<LinkId>)
    requires Mid(w, seen)
    requires w.stored ||
             forall k :: k in w.net.links && Touches(w.net.links[k], w.id) ==> k in seen
    ensures Inv(w.net.(devs := View(w)))
  {
    hide UpAt, Key, Clean, Has, RefsOf;
    assert w.stored ==> View(w) == w.net.devs;
  }
}
