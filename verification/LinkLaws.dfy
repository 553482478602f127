/** What the link table says after a device was processed, told by the fields of the records alone. */
module LinkLaws {
  import opened Basics
  import opened LinkKey
  import opened Topology
  import opened TopologyLinks
  import opened TopologyTable

  // ---------- which interface a report means ----------

  /** The same text with small letters for capitals. */
  ghost predicate InSmall(text: string, small: string) {
    && |small| == |text|
    && forall i :: 0 <= i < |text| ==>
         if 'A' <= text[i] <= 'Z' then small[i] as int - 'a' as int == text[i] as int - 'A' as int
         else small[i] == text[i]
  }

  /** Interface g of a stored device sends LLDP announcements as in report n: with the chassis id of the device, which
      its own id is made of, and either an id of its port (subtype 7) or its own name (subtype 5). */
  ghost predicate AnnouncesLldp(devs: Devs, g: Leg, n: LldpNeighbour) {
    && g.dev in devs && devs[g.dev].chassisSubtype == Some(n.chassisSubtype)
    && (exists small :: InSmall(n.chassisId, small) && g.dev == "lldp:" + small)
    && (|| (n.portSubtype == 7 && SendsId(devs[g.dev], g.ifc, n.portId))
        || (n.portSubtype == 5 && SendsName(devs[g.dev], g.ifc, n.portId)))
  }

  /** The interface belongs to the LLDP port of the device that has the given id as a local id. */
  ghost predicate SendsId(dev: Device, ifc: string, id: string) {
    exists p :: (id, p) in dev.lldpIndex.Items && p in dev.lldpPorts
                && dev.lldpPorts[p].subtype == Some(7) && dev.lldpPorts[p].ifName == Some(ifc)
  }

  /** The interface has an LLDP port, which has its name. */
  ghost predicate SendsName(dev: Device, ifc: string, name: string) {
    name == ifc && ifc in dev.ifaces && dev.ifaces[ifc].lldpPort
  }

  /** Interface g sends CDP announcements as in report n. */
  ghost predicate AnnouncesCdp(devs: Devs, cdp2dev: map<string, string>, g: Leg, n: CdpNeighbour) {
    && (n.remDevId, g.dev) in cdp2dev.Items && g.dev in devs
    && exists p :: (n.remIfName, p) in devs[g.dev].cdpIndex.Items && p in devs[g.dev].cdpPorts
                   && devs[g.dev].cdpPorts[p].ifName == Some(g.ifc)
  }

  lemma LowerInSmall(text: string, small: string)
    ensures InSmall(text, small) <==> small == Lower(text)
  {
    if InSmall(text, small) {
      assert forall i :: 0 <= i < |text| ==> small[i] == LowerChar(text[i]);
    }
  }

  /** An LLDP report means an interface exactly if that interface announces it. */
  lemma LldpExact(devs: Devs, n: LldpNeighbour, g: Leg)
    ensures FindLldp(devs, n) == Some(g) <==> AnnouncesLldp(devs, g, n)
  {
    LowerInSmall(n.chassisId, Lower(n.chassisId));
    forall small | InSmall(n.chassisId, small) ensures small == Lower(n.chassisId) { LowerInSmall(n.chassisId, small); }
    hide InSmall, Lower;
    assert Leg(g.dev, g.ifc) == g;
    if g.dev in devs && n.portId in devs[g.dev].lldpIndex {
      assert (n.portId, devs[g.dev].lldpIndex[n.portId]) in devs[g.dev].lldpIndex.Items;
    }
  }

  /** A CDP report means an interface exactly if that interface announces it. */
  lemma CdpExact(devs: Devs, cdp2dev: map<string, string>, n: CdpNeighbour, g: Leg)
    ensures FindCdp(devs, cdp2dev, n) == Some(g) <==> AnnouncesCdp(devs, cdp2dev, g, n)
  {
    assert Leg(g.dev, g.ifc) == g;
    if n.remDevId in cdp2dev { assert (n.remDevId, cdp2dev[n.remDevId]) in cdp2dev.Items; }
    if g.dev in devs && n.remIfName in devs[g.dev].cdpIndex {
      assert (n.remIfName, devs[g.dev].cdpIndex[n.remIfName]) in devs[g.dev].cdpIndex.Items;
    }
  }

  // ---------- which links a device reports ----------

  /** Interface i of the record in hand hears an LLDP announcement of interface g. */
  ghost predicate HearsLldp(w: Work, i: string, g: Leg) {
    && w.rec.hasChassisId
    && exists p, n :: p in w.rec.lldpPorts && n in w.rec.lldpPorts[p].neighbours
                      && w.rec.lldpPorts[p].ifName == Some(i) && AnnouncesLldp(w.net.devs, g, n)
  }

  ghost predicate HearsCdp(w: Work, cdp2dev: map<string, string>, i: string, g: Leg) {
    && w.rec.cdpId.Some?
    && exists p, n :: p in w.rec.cdpPorts && n in w.rec.cdpPorts[p].neighbours
                      && w.rec.cdpPorts[p].ifName == Some(i) && AnnouncesCdp(w.net.devs, cdp2dev, g, n)
  }

  lemma HearsIs(w: Work, cdp2dev: map<string, string>, i: string, g: Leg)
    ensures ReportsLldp(w, i, g) <==> HearsLldp(w, i, g)
    ensures ReportsCdp(w, cdp2dev, i, g) <==> HearsCdp(w, cdp2dev, i, g)
  {
    hide AnnouncesLldp, AnnouncesCdp, FindLldp, FindCdp;
    forall n ensures FindLldp(w.net.devs, n) == Some(g) <==> AnnouncesLldp(w.net.devs, g, n) {
      LldpExact(w.net.devs, n, g);
    }
    forall n ensures FindCdp(w.net.devs, cdp2dev, n) == Some(g) <==> AnnouncesCdp(w.net.devs, cdp2dev, g, n) {
      CdpExact(w.net.devs, cdp2dev, n, g);
    }
  }

  /** Link k is heard: some interface of the record hears another interface, and k joins the two. */
  ghost predicate Heard(w: Work, cdp2dev: map<string, string>, k: LinkId) {
    exists i, g :: (HearsLldp(w, i, g) || HearsCdp(w, cdp2dev, i, g)) && g != Leg(w.id, i) && k == Key(Leg(w.id, i), g)
  }

  lemma HeardIs(w: Work, cdp2dev: map<string, string>, k: LinkId)
    ensures Reported(w, cdp2dev, k) <==> Heard(w, cdp2dev, k)
  {
    hide ReportsLldp, ReportsCdp, HearsLldp, HearsCdp, Key;
    forall i, g
      ensures ReportsLldp(w, i, g) <==> HearsLldp(w, i, g)
      ensures ReportsCdp(w, cdp2dev, i, g) <==> HearsCdp(w, cdp2dev, i, g)
    {
      HearsIs(w, cdp2dev, i, g);
    }
  }

  // ---------- the link table afterwards ----------

  /** A link made by the device now, between an interface of it and one that this interface hears by the protocol of
      the link. It is up if both interfaces and both devices are. */
  ghost predicate Made(w: Work, cdp2dev: map<string, string>, l: Link) {
    && l.creator == w.id && l.leg0.dev == w.id && l.time == w.rec.lastSeen
    && (if l.proto == Lldp then HearsLldp(w, l.leg0.ifc, l.leg1) else HearsCdp(w, cdp2dev, l.leg0.ifc, l.leg1))
    && (l.up <==>
          && w.rec.ok && l.leg0.ifc in w.rec.ifaces && w.rec.ifaces[l.leg0.ifc].operUp
          && l.leg1.dev in w.net.devs && w.net.devs[l.leg1.dev].ok
          && l.leg1.ifc in w.net.devs[l.leg1.dev].ifaces && w.net.devs[l.leg1.dev].ifaces[l.leg1.ifc].operUp)
  }

  /** Whether a link is still believed that the device does not report: both interfaces are there and enabled, and
      one of the devices does not work, or both interfaces are down, or both are up and the other device saw the link
      when it was last seen. */
  ghost predicate Believed(l: Link, id: string, devs: Devs) {
    && l.leg0.dev in devs && l.leg0.ifc in devs[l.leg0.dev].ifaces && devs[l.leg0.dev].ifaces[l.leg0.ifc].adminUp
    && l.leg1.dev in devs && l.leg1.ifc in devs[l.leg1.dev].ifaces && devs[l.leg1.dev].ifaces[l.leg1.ifc].adminUp
    && var up0, up1 := devs[l.leg0.dev].ifaces[l.leg0.ifc].operUp, devs[l.leg1.dev].ifaces[l.leg1.ifc].operUp;
       devs[l.leg0.dev].ok && devs[l.leg1.dev].ok ==>
         up0 == up1 && (up0 ==> l.creator != id && l.time == devs[l.leg0.dev].lastSeen)
  }

  /** The link table after a record was processed, by what the record and the stored devices say: each link heard is
      there, as made now, by CDP if CDP hears it; an old link of the device that is not heard stays exactly if it is
      still believed, unchanged but for its status; links of other devices are untouched; and there are no others. */
  ghost predicate Told(w: Work, cdp2dev: map<string, string>, after: Links) {
    var before, devs := w.net.links, w.net.devs[w.id := w.rec];
    && (forall i, g :: (HearsLldp(w, i, g) || HearsCdp(w, cdp2dev, i, g)) && g != Leg(w.id, i) ==>
          Key(Leg(w.id, i), g) in after && Made(w, cdp2dev, after[Key(Leg(w.id, i), g)]))
    && (forall i, g :: HearsCdp(w, cdp2dev, i, g) && g != Leg(w.id, i) && Key(Leg(w.id, i), g) in after ==>
          after[Key(Leg(w.id, i), g)].proto == Cdp)
    && (forall k :: k in after && !Heard(w, cdp2dev, k) ==> k in before && after[k] == before[k].(up := after[k].up))
    && (forall k :: k in before && before[k].leg0.dev != w.id && before[k].leg1.dev != w.id ==>
          k in after && after[k] == before[k])
    && (forall k ::
          k in before && (before[k].leg0.dev == w.id || before[k].leg1.dev == w.id) && !Heard(w, cdp2dev, k) ==>
            (k in after <==> Believed(before[k], w.id, devs)))
  }

  lemma MadeIs(w: Work, cdp2dev: map<string, string>, l: Link)
    ensures Fresh(l, w, cdp2dev) ==> Made(w, cdp2dev, l)
  {
    hide ReportsLldp, ReportsCdp, HearsLldp, HearsCdp;
    HearsIs(w, cdp2dev, l.leg0.ifc, l.leg1);
  }

  lemma BelievedIs(l: Link, id: string, devs: Devs)
    requires Touches(l, id) && l.leg0 != l.leg1
    ensures Keep(l, id, devs) <==> Believed(l, id, devs)
  {
  }

  lemma UpdatedTold(w: Work, cdp2dev: map<string, string>, after: Links)
    requires Updated(w, cdp2dev, after) && AllNamed(w.net.links)
    ensures Told(w, cdp2dev, after)
  {
    hide ReportsLldp, ReportsCdp, HearsLldp, HearsCdp, Key, Keep, Believed, Fresh, Made, Reported;
    forall k ensures Reported(w, cdp2dev, k) <==> Heard(w, cdp2dev, k) { HeardIs(w, cdp2dev, k); }
    forall i, g | (HearsLldp(w, i, g) || HearsCdp(w, cdp2dev, i, g)) && g != Leg(w.id, i)
      ensures Key(Leg(w.id, i), g) in after && Made(w, cdp2dev, after[Key(Leg(w.id, i), g)])
    {
      var k := Key(Leg(w.id, i), g);
      assert Heard(w, cdp2dev, k);
      MadeIs(w, cdp2dev, after[k]);
    }
    forall i, g | HearsCdp(w, cdp2dev, i, g) && g != Leg(w.id, i) ensures CdpMade(after, Key(Leg(w.id, i), g)) {
      HearsIs(w, cdp2dev, i, g);
    }
    hide Heard;
    forall k | k in w.net.links && Touches(w.net.links[k], w.id)
      ensures Keep(w.net.links[k], w.id, View(w)) <==> Believed(w.net.links[k], w.id, w.net.devs[w.id := w.rec])
    {
      assert LinkNamed(k, w.net.links[k]);
      BelievedIs(w.net.links[k], w.id, View(w));
    }
  }

  // ---------- the graph in every reachable state ----------

  /** Every link joins interfaces of stored devices and is in the index of both; between two devices it is in the lists
      of both interfaces, and up exactly if both interfaces and both devices are. No index and no list names anything
      else. */
  ghost predicate Drawn(n: Net) {
    && (forall k :: k in n.links ==>
          var l := n.links[k];
          && l.leg0.dev in n.devs && l.leg1.dev in n.devs
          && l.leg0.dev in n.refs && k in n.refs[l.leg0.dev] && l.leg1.dev in n.refs && k in n.refs[l.leg1.dev]
          && (l.leg0.dev != l.leg1.dev ==>
                Joined(n.devs[l.leg0.dev], l.leg0.ifc, n.devs[l.leg1.dev], l.leg1.ifc, k, l.up)))
    && (forall d, k :: d in n.refs && k in n.refs[d] ==>
          k in n.links && (n.links[k].leg0.dev == d || n.links[k].leg1.dev == d))
    && (forall d, i, k :: d in n.devs && i in n.devs[d].ifaces && k in n.devs[d].ifaces[i].links ==>
          k in n.links && (n.links[k].leg0 == Leg(d, i) || n.links[k].leg1 == Leg(d, i)))
  }

  ghost predicate Joined(a: Device, i: string, b: Device, j: string, k: LinkId, up: bool) {
    && i in a.ifaces && k in a.ifaces[i].links && j in b.ifaces && k in b.ifaces[j].links
    && (up <==> a.ok && b.ok && a.ifaces[i].operUp && b.ifaces[j].operUp)
  }

  lemma InvDrawn(n: Net)
    requires Inv(n)
    ensures Drawn(n)
  {
    hide Joined, Key, Clean, NamesClean, ListsOnce, AllNamed, ListsSound, RefsExact, Listed, StatusRight;
    IndexNames(n);
    ListsName(n);
    forall k | k in n.links && !SelfLink(n.links[k])
      ensures var l := n.links[k];
              Joined(n.devs[l.leg0.dev], l.leg0.ifc, n.devs[l.leg1.dev], l.leg1.ifc, k, l.up)
    {
      ListedJoined(n.devs, k, n.links[k]);
    }
  }

  lemma IndexNames(n: Net)
    requires RefsExact(n.devs, n.links, n.refs)
    ensures forall k :: k in n.links ==>
              var l := n.links[k];
              && l.leg0.dev in n.devs && l.leg1.dev in n.devs
              && l.leg0.dev in n.refs && k in n.refs[l.leg0.dev] && l.leg1.dev in n.refs && k in n.refs[l.leg1.dev]
    ensures forall d, k :: d in n.refs && k in n.refs[d] ==> k in n.links && Touches(n.links[k], d)
  {
    forall k | k in n.links
      ensures k in RefsOf(n.refs, n.links[k].leg0.dev) && k in RefsOf(n.refs, n.links[k].leg1.dev) { }
    forall d, k | d in n.refs && k in n.refs[d] ensures k in RefsOf(n.refs, d) { }
  }

  lemma ListsName(n: Net)
    requires ListsSound(n.devs, n.links)
    ensures forall d, i, k :: d in n.devs && i in n.devs[d].ifaces && k in n.devs[d].ifaces[i].links ==>
              k in n.links && HasEnd(n.links[k], Leg(d, i))
  {
    forall d, i, k | d in n.devs && i in n.devs[d].ifaces && k in n.devs[d].ifaces[i].links
      ensures k in n.links && HasEnd(n.links[k], Leg(d, i))
    {
      assert Has(n.devs, Leg(d, i), k);
    }
  }

  lemma ListedJoined(devs: Devs, k: LinkId, l: Link)
    requires Listed(devs, k, l) && StatusRight(devs, l) && !SelfLink(l)
    ensures Joined(devs[l.leg0.dev], l.leg0.ifc, devs[l.leg1.dev], l.leg1.ifc, k, l.up)
  {
  }
}
