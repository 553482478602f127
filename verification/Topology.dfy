/** Devices, the table of layer 2 links, the link lists of interfaces and the reference index:
    four views of one graph, and the edits that keep them in step. */
module Topology {
  import opened Basics
  import opened LinkKey

  datatype LldpNeighbour = LldpNeighbour(chassisId: string, chassisSubtype: int, portId: string, portSubtype: int)
  datatype LldpPort = LldpPort(subtype: Option<int>, ifName: Option<string>, neighbours: set<LldpNeighbour>)
  datatype CdpNeighbour = CdpNeighbour(remDevId: string, remIfName: string)
  datatype CdpPort = CdpPort(ifName: Option<string>, neighbours: set<CdpNeighbour>)

  /** operUp and adminUp say that ifOperStatus and ifAdminStatus are 1.
      An absent l2_links list is the empty list: the code never stores an empty one. */
  datatype Iface = Iface(
    operUp: bool, adminUp: bool, lldpPort: bool, links: seq<LinkId>, ips: map<string, Option<string>>)

  datatype Device = Device(
    ip: string, ok: bool, saveTime: int, lastSeen: int,
    chassisSubtype: Option<int>, hasChassisId: bool,
    lldpIndex: map<string, string>, lldpPorts: map<string, LldpPort>,
    cdpId: Option<string>, cdpIndex: map<string, string>, cdpPorts: map<string, CdpPort>,
    ifaces: map<string, Iface>)

  datatype Proto = Lldp | Cdp

  /** up is status 1, !up is status 2. */
  datatype Link = Link(proto: Proto, creator: string, leg0: Leg, leg1: Leg, time: int, up: bool)

  type Devs = map<string, Device>
  type Links = map<LinkId, Link>
  type Refs = map<string, set<LinkId>>

  datatype Net = Net(devs: Devs, links: Links, refs: Refs)

  // ---------- reading the views ----------

  function RefsOf(refs: Refs, d: string): set<LinkId> {
    if d in refs then refs[d] else {}
  }

  function List(dev: Device, i: string): seq<LinkId> {
    if i in dev.ifaces then dev.ifaces[i].links else []
  }

  predicate Has(devs: Devs, g: Leg, k: LinkId) {
    g.dev in devs && k in List(devs[g.dev], g.ifc)
  }

  predicate HasEnd(l: Link, g: Leg) { l.leg0 == g || l.leg1 == g }

  predicate Touches(l: Link, d: string) { l.leg0.dev == d || l.leg1.dev == d }

  /** A self-link joins two interfaces of one device. */
  predicate SelfLink(l: Link) { l.leg0.dev == l.leg1.dev }

  predicate UpAt(devs: Devs, g: Leg) {
    && g.dev in devs && devs[g.dev].ok
    && g.ifc in devs[g.dev].ifaces && devs[g.dev].ifaces[g.ifc].operUp
  }

  // ---------- the invariant ----------

  ghost predicate NamesClean(devs: Devs) {
    forall d, i :: d in devs && i in devs[d].ifaces ==> Clean(Leg(d, i))
  }

  ghost predicate LinkNamed(k: LinkId, l: Link) {
    && k == Key(l.leg0, l.leg1) && l.creator == l.leg0.dev
    && l.leg0 != l.leg1 && Clean(l.leg0) && Clean(l.leg1)
  }

  ghost predicate AllNamed(links: Links) {
    forall k :: k in links ==> LinkNamed(k, links[k])
  }

  /** No link list names a missing link or an interface that is not an end of the link. */
  ghost predicate ListsSound(devs: Devs, links: Links) {
    forall g, k :: Has(devs, g, k) ==> k in links && HasEnd(links[k], g)
  }

  /** No link list holds a key twice. */
  ghost predicate ListsOnce(devs: Devs) {
    forall d :: d in devs ==> DeviceOnce(devs[d])
  }

  ghost predicate DeviceOnce(dev: Device) {
    forall i :: i in dev.ifaces ==> NoDuplicates(dev.ifaces[i].links)
  }

  /** The index names, for each device, exactly the links that have an end there;
      and those ends are stored devices. */
  ghost predicate RefsExact(devs: Devs, links: Links, refs: Refs) {
    && (forall d, k :: k in RefsOf(refs, d) <==> k in links && Touches(links[k], d))
    && (forall k :: k in links ==> links[k].leg0.dev in devs && links[k].leg1.dev in devs)
  }

  /** A link is in the lists of both its ends; one between two interfaces of a device at least in the list of the
      interface that reported it last. */
  ghost predicate Listed(devs: Devs, k: LinkId, l: Link) {
    Has(devs, l.leg0, k) && (SelfLink(l) || Has(devs, l.leg1, k))
  }

  /** The status of a link between two devices. */
  ghost predicate StatusRight(devs: Devs, l: Link) {
    SelfLink(l) || (l.up <==> UpAt(devs, l.leg0) && UpAt(devs, l.leg1))
  }

  /** A link, whatever its ends, that is in both lists and has the right status. */
  ghost predicate Whole(devs: Devs, k: LinkId, l: Link) {
    Has(devs, l.leg0, k) && Has(devs, l.leg1, k) && (l.up <==> UpAt(devs, l.leg0) && UpAt(devs, l.leg1))
  }

  ghost predicate Inv(n: Net) {
    && NamesClean(n.devs) && AllNamed(n.links) && ListsSound(n.devs, n.links) && ListsOnce(n.devs)
    && RefsExact(n.devs, n.links, n.refs)
    && forall k :: k in n.links ==> Listed(n.devs, k, n.links[k]) && StatusRight(n.devs, n.links[k])
  }

  // ---------- edits of one link list ----------

  function SetList(dev: Device, i: string, list: seq<LinkId>): Device
    requires i in dev.ifaces
  {
    dev.(ifaces := dev.ifaces[i := dev.ifaces[i].(links := list)])
  }

  function Put(dev: Device, i: string, k: LinkId): Device {
    if i in dev.ifaces then SetList(dev, i, AppendOnce(List(dev, i), k)) else dev
  }

  function Take(dev: Device, i: string, k: LinkId): Device {
    if i in dev.ifaces then SetList(dev, i, Exclude(List(dev, i), k)) else dev
  }

  /** The same record up to its link lists. */
  ghost predicate SameButLists(a: Device, b: Device) {
    && b == a.(ifaces := b.ifaces) && a.ifaces.Keys == b.ifaces.Keys
    && forall i :: i in a.ifaces ==> b.ifaces[i] == a.ifaces[i].(links := b.ifaces[i].links)
  }

  ghost predicate DevsSameButLists(a: Devs, b: Devs) {
    a.Keys == b.Keys && forall d :: d in a ==> SameButLists(a[d], b[d])
  }

  lemma SameTrans(a: Device, b: Device, c: Device)
    requires SameButLists(a, b) && SameButLists(b, c)
    ensures SameButLists(a, c)
  {
  }

  lemma DevsSameTrans(a: Devs, b: Devs, c: Devs)
    requires DevsSameButLists(a, b) && DevsSameButLists(b, c)
    ensures DevsSameButLists(a, c)
  {
    forall d | d in a ensures SameButLists(a[d], c[d]) { SameTrans(a[d], b[d], c[d]); }
  }

  /** Status and names do not depend on link lists. */
  lemma SameUpAt(a: Devs, b: Devs, g: Leg)
    requires g.dev in a && g.dev in b && SameButLists(a[g.dev], b[g.dev])
    ensures UpAt(a, g) <==> UpAt(b, g)
  {
  }

  lemma SetListFacts(dev: Device, i: string, list: seq<LinkId>)
    requires i in dev.ifaces
    ensures SameButLists(dev, SetList(dev, i, list))
    ensures forall j :: List(SetList(dev, i, list), j) == if j == i then list else List(dev, j)
  {
  }

  lemma PutOnce(dev: Device, i: string, k: LinkId)
    requires DeviceOnce(dev)
    ensures DeviceOnce(Put(dev, i, k))
  {
    if i in dev.ifaces { AppendNoDuplicates(List(dev, i), k); }
  }

  lemma TakeOnce(dev: Device, i: string, k: LinkId)
    requires DeviceOnce(dev)
    ensures DeviceOnce(Take(dev, i, k))
  {
    if i in dev.ifaces { ExcludeNoDuplicates(List(dev, i), k); }
  }

  lemma PutFacts(dev: Device, i: string, k: LinkId)
    ensures SameButLists(dev, Put(dev, i, k))
    ensures forall j, x :: x in List(Put(dev, i, k), j) <==>
              x in List(dev, j) || (x == k && j == i && i in dev.ifaces)
    ensures DeviceOnce(dev) ==> DeviceOnce(Put(dev, i, k))
  {
    if DeviceOnce(dev) { PutOnce(dev, i, k); }
    hide SetList, List, DeviceOnce;
    if i in dev.ifaces { SetListFacts(dev, i, AppendOnce(List(dev, i), k)); }
  }

  lemma TakeFacts(dev: Device, i: string, k: LinkId)
    ensures SameButLists(dev, Take(dev, i, k))
    ensures forall j, x :: x in List(Take(dev, i, k), j) <==> x in List(dev, j) && !(x == k && j == i)
    ensures DeviceOnce(dev) ==> DeviceOnce(Take(dev, i, k))
  {
    if DeviceOnce(dev) { TakeOnce(dev, i, k); }
    if i in dev.ifaces {
      hide SetList, List, DeviceOnce;
      SetListFacts(dev, i, Exclude(List(dev, i), k));
    }
  }
}
