/** The broker's global tables and the operations that edit them in place. Each operation runs
    under the global lock and is one step. */
module Broker {
  import opened Basics
  import opened LinkKey
  import opened Topology
  import opened TopologyWipe
  import opened TopologyLinks
  import opened TopologyTable
  import opened LinkLaws
  import opened AddressLaws
  import opened Shrinking
  import opened BrokerFacts
  import A = AddressTable

  class Tables {
    var devs: Devs
    var links: Links
    var refs: Refs
    var l3: A.Table
    var held: A.Held
    var devList: map<string, Option<string>>   // management address -> id of the device last seen there
    var cdp2dev: map<string, string>

    function Graph(): Net reads this { Net(devs, links, refs) }

    function Addresses(): A.Book reads this { A.Book(l3, held) }

    /** The stored net with the record in hand for device id. */
    function Now(rec: Device, id: string, stored: bool): Work reads this { Work(Graph(), rec, id, stored) }

    constructor ()
      ensures Valid() && devs == map[] && links == map[] && l3 == map[] && devList == map[] && cdp2dev == map[]
    {
      devs, links, refs, l3, held, devList, cdp2dev := map[], map[], map[], map[], map[], map[], map[];
    }

    // ---------- wiping a device ----------

    /** Removes a link from the views of the device at its other end, and from the table. */
    method WipeLink(id: string, k: LinkId)
      modifies `devs, `links, `refs
      ensures Graph() == WipeOne(old(Graph()), id, k)
    {
      if k in links {
        var nei := if links[k].creator == id then links[k].leg1 else links[k].leg0;
        if nei.dev != id {
          if nei.dev in devs && nei.ifc in devs[nei.dev].ifaces {
            var list := StrExclude(devs[nei.dev].ifaces[nei.ifc].links, k);
            devs := devs[nei.dev := SetList(devs[nei.dev], nei.ifc, list)];
          }
          if nei.dev in refs {
            refs := refs[nei.dev := refs[nei.dev] - {k}];
          }
        }
        links := links - {k};
      }
      assert Graph().devs == WipeOne(old(Graph()), id, k).devs;
    }

    method WipeLinks(id: string)
      requires Inv(Graph())
      modifies `devs, `links, `refs
      ensures Inv(Graph()) && Wiped(old(Graph()), id, Graph())
    {
      hide NamesClean, AllNamed, ListsSound, ListsOnce, Listed, StatusRight;
      ghost var n0 := Graph();
      devs := devs - {id};
      WipeStart(n0, id);
      if id in refs {
        var todo := refs[id];
        ghost var done: set<LinkId> := {};
        while todo != {}
          invariant done + todo == RefsOf(n0.refs, id) && done !! todo
          invariant Wiping(n0, id, done, Graph())
          decreases todo
        {
          var k :| k in todo;
          WipeOneStep(n0, id, done, Graph(), k);
          WipeLink(id, k);
          todo := todo - {k};
          done := done + {k};
        }
      }
      WipeEnds(n0, id, Graph());
      refs := refs - {id};
    }

    /** Deletes the addresses that device id owns from the table, by its index, and then the index. */
    method WipeAddresses(id: string)
      requires A.Agree(Addresses())
      modifies `l3, `held
      ensures A.AddressesWiped(old(Addresses()), Addresses(), id)
    {
      ghost var b0 := Addresses();
      ghost var done: iset<(string, string)> := iset{};
      if id in held {
        var nets := held[id].Keys;
        while nets != {}
          invariant held == b0.held && nets <= held[id].Keys
          invariant OwnersCleared(b0, l3, id, done)
          invariant forall net, ip :: A.Holds(held, id, net, ip) && net !in nets ==> (net, ip) in done
          decreases nets
        {
          var net :| net in nets;
          var ips := held[id][net];
          while ips != {}
            invariant held == b0.held && ips <= held[id][net]
            invariant OwnersCleared(b0, l3, id, done)
            invariant forall n, ip :: A.Holds(held, id, n, ip) && (n !in nets || (n == net && ip !in ips)) ==>
                        (n, ip) in done
            decreases ips
          {
            var ip :| ip in ips;
            ClearOwner(b0, l3, id, done, net, ip);
            if net in l3 && ip in l3[net] && l3[net][ip].dev == id {
              l3 := A.DropOwner(l3, net, ip);
            }
            done := done + iset{(net, ip)};
            ips := ips - {ip};
          }
          nets := nets - {net};
        }
      }
      AddressesGone(b0, l3, id, done);
      held := held - {id};
    }

    /** wipe_dev: the device leaves every table, with its links and its addresses. */
    method WipeDev(id: string)
      requires Inv(Graph()) && A.Agree(Addresses())
      modifies `devs, `links, `refs, `l3, `held
      ensures Inv(Graph()) && Wiped(old(Graph()), id, Graph())
      ensures A.AddressesWiped(old(Addresses()), Addresses(), id)
    {
      WipeLinks(id);
      WipeAddresses(id);
    }

    // ---------- entering the neighbours a device reports ----------

    method EnterLink(rec: Device, id: string, stored: bool, proto: Proto, i: string, g: Leg) returns (rec': Device)
      requires Coherent(Now(rec, id, stored)) && i in rec.ifaces && Exists(devs, g)
      modifies `devs, `links, `refs
      ensures Now(rec', id, stored) == Linked(old(Now(rec, id, stored)), proto, i, g)
    {
      hide Key, AppendOnce, Put, Coherent;
      var k := Key(Leg(id, i), g);
      rec' := ListBothEnds(rec, id, stored, i, g, k);
      refs := refs[id := RefsOf(refs, id) + {k}];
      refs := refs[g.dev := RefsOf(refs, g.dev) + {k}];
      var up := && rec'.ifaces[i].operUp && rec'.ok
                && devs[g.dev].ifaces[g.ifc].operUp && devs[g.dev].ok;
      links := links[k := Link(proto, id, Leg(id, i), g, rec'.lastSeen, up)];
    }

    /** Link k goes into the lists of both its ends. */
    method ListBothEnds(rec: Device, id: string, stored: bool, i: string, g: Leg, k: LinkId) returns (rec': Device)
      requires Coherent(Now(rec, id, stored)) && i in rec.ifaces && Exists(devs, g)
      modifies `devs
      ensures Now(rec', id, stored) == PutDevs(PutRec(old(Now(rec, id, stored)), i, k), g, k)
      ensures i in rec'.ifaces && rec'.ifaces[i].operUp == rec.ifaces[i].operUp
      ensures rec'.ok == rec.ok && rec'.lastSeen == rec.lastSeen
      ensures Exists(devs, g) && devs[g.dev].ifaces[g.ifc].operUp == old(devs[g.dev].ifaces[g.ifc].operUp)
      ensures devs[g.dev].ok == old(devs[g.dev].ok)
    {
      var list := StrAppendOnce(rec.ifaces[i].links, k);
      rec' := SetList(rec, i, list);
      if stored { devs := devs[id := rec']; }
      list := StrAppendOnce(devs[g.dev].ifaces[g.ifc].links, k);
      devs := devs[g.dev := SetList(devs[g.dev], g.ifc, list)];
      if stored && g.dev == id { rec' := devs[id]; }
    }

    method SeeLldpNeighbour(ghost w0: Work, rec0: Device, id: string, stored: bool, seen0: set<LinkId>,
                            p: string, n: LldpNeighbour)
      returns (rec: Device, seen: set<LinkId>)
      requires w0.id == id && w0.stored == stored && w0.rec.hasChassisId
      requires Entering(w0, cdp2dev, Now(rec0, id, stored), seen0)
      requires p in w0.rec.lldpPorts && n in w0.rec.lldpPorts[p].neighbours && w0.rec.lldpPorts[p].ifName.Some?
      requires rec0.lldpPorts == w0.rec.lldpPorts
      modifies `devs, `links, `refs
      ensures Entering(w0, cdp2dev, Now(rec, id, stored), seen) && seen0 <= seen && ListsGrow(rec0, rec)
      ensures LldpDone(w0, rec, seen, p, n)
    {
      hide Mid, NoneGone, History, Unchanged, Reported, ReportsLldp, ReportsCdp, FindLldp, View, Linked, Key;
      rec, seen := rec0, seen0;
      var i := rec0.lldpPorts[p].ifName.value;
      var g := FindLldp(devs, n);
      GrowRefl(rec);
      LldpResolved(w0, cdp2dev, Now(rec, id, stored), seen, p, n);
      if g.Some? && g.value != Leg(id, i) {
        EnterOne(w0, cdp2dev, Now(rec, id, stored), seen, Lldp, i, g.value);
        EnteringCoherent(w0, cdp2dev, Now(rec, id, stored), seen);
        LinkedList(Now(rec, id, stored), Lldp, i, g.value);
        rec := EnterLink(rec, id, stored, Lldp, i, g.value);
        seen := seen + {Key(Leg(id, i), g.value)};
      }
    }

    method SeeLldp(ghost w0: Work, rec0: Device, id: string, stored: bool) returns (rec: Device, seen: set<LinkId>)
      requires w0 == Now(rec0, id, stored) && Entering(w0, cdp2dev, w0, {})
      modifies `devs, `links, `refs
      ensures Entering(w0, cdp2dev, Now(rec, id, stored), seen) && LldpSeen(w0, rec, seen)
    {
      hide Entering, LldpDone, ListsGrow;
      rec, seen := rec0, {};
      if rec0.hasChassisId {
        var ports := rec0.lldpPorts.Keys;
        while ports != {}
          invariant ports <= rec0.lldpPorts.Keys && rec.lldpPorts == rec0.lldpPorts
          invariant Entering(w0, cdp2dev, Now(rec, id, stored), seen)
          invariant forall p, n :: p in rec0.lldpPorts && p !in ports ==> LldpDone(w0, rec, seen, p, n)
          decreases ports
        {
          var p :| p in ports;
          ports := ports - {p};
          var todo := if rec0.lldpPorts[p].ifName.Some? then rec0.lldpPorts[p].neighbours else {};
          NothingToDo(w0, cdp2dev, rec, links, seen);
          while todo != {}
            invariant todo <= rec0.lldpPorts[p].neighbours && rec.lldpPorts == rec0.lldpPorts
            invariant todo != {} ==> rec0.lldpPorts[p].ifName.Some?
            invariant Entering(w0, cdp2dev, Now(rec, id, stored), seen)
            invariant forall q, n :: q in rec0.lldpPorts && q !in ports && (q != p || n !in todo) ==>
                        LldpDone(w0, rec, seen, q, n)
            decreases todo
          {
            var n :| n in todo;
            todo := todo - {n};
            ghost var before, lists := seen, rec;
            rec, seen := SeeLldpNeighbour(w0, rec, id, stored, seen, p, n);
            SameRecord(w0, cdp2dev, Now(rec, id, stored), seen);
            LldpMore(w0, lists, before, rec, seen);
          }
        }
      }
      LldpAllSeen(w0, rec, seen);
    }

    method SeeCdpNeighbour(ghost w0: Work, rec0: Device, id: string, stored: bool, seen0: set<LinkId>,
                           p: string, n: CdpNeighbour)
      returns (rec: Device, seen: set<LinkId>)
      requires w0.id == id && w0.stored == stored && w0.rec.cdpId.Some?
      requires Entering(w0, cdp2dev, Now(rec0, id, stored), seen0)
      requires p in w0.rec.cdpPorts && n in w0.rec.cdpPorts[p].neighbours && w0.rec.cdpPorts[p].ifName.Some?
      requires rec0.cdpPorts == w0.rec.cdpPorts
      modifies `devs, `links, `refs
      ensures Entering(w0, cdp2dev, Now(rec, id, stored), seen) && seen0 <= seen && ListsGrow(rec0, rec)
      ensures CdpDone(w0, cdp2dev, rec, links, seen, p, n) && CdpGrows(old(links), links)
    {
      hide Mid, NoneGone, History, Unchanged, Reported, ReportsLldp, ReportsCdp, FindCdp, View, Linked, Key;
      rec, seen := rec0, seen0;
      var i := rec0.cdpPorts[p].ifName.value;
      var g := FindCdp(devs, cdp2dev, n);
      GrowRefl(rec);
      CdpResolved(w0, cdp2dev, Now(rec, id, stored), seen, p, n);
      if g.Some? && g.value != Leg(id, i) {
        EnterOne(w0, cdp2dev, Now(rec, id, stored), seen, Cdp, i, g.value);
        EnteringCoherent(w0, cdp2dev, Now(rec, id, stored), seen);
        LinkedList(Now(rec, id, stored), Cdp, i, g.value);
        LinkedCdp(Now(rec, id, stored), i, g.value);
        rec := EnterLink(rec, id, stored, Cdp, i, g.value);
        seen := seen + {Key(Leg(id, i), g.value)};
      }
    }

    method SeeCdp(ghost w0: Work, rec0: Device, id: string, stored: bool, seen0: set<LinkId>)
      returns (rec: Device, seen: set<LinkId>)
      requires w0.id == id && w0.stored == stored && Entering(w0, cdp2dev, Now(rec0, id, stored), seen0)
      modifies `devs, `links, `refs
      ensures Entering(w0, cdp2dev, Now(rec, id, stored), seen) && seen0 <= seen
      ensures CdpSeen(w0, cdp2dev, rec, links, seen)
      ensures ListsGrow(rec0, rec)
    {
      hide Entering, CdpDone, ListsGrow, CdpGrows;
      rec, seen := rec0, seen0;
      SameRecord(w0, cdp2dev, Now(rec, id, stored), seen);
      GrowRefl(rec0);
      if rec0.cdpId.Some? {
        var ports := rec0.cdpPorts.Keys;
        while ports != {}
          invariant ports <= rec0.cdpPorts.Keys && rec.cdpPorts == rec0.cdpPorts
          invariant seen0 <= seen && ListsGrow(rec0, rec)
          invariant Entering(w0, cdp2dev, Now(rec, id, stored), seen)
          invariant forall p, n :: p in rec0.cdpPorts && p !in ports ==> CdpDone(w0, cdp2dev, rec, links, seen, p, n)
          decreases ports
        {
          var p :| p in ports;
          ports := ports - {p};
          var todo := if rec0.cdpPorts[p].ifName.Some? then rec0.cdpPorts[p].neighbours else {};
          NothingToDo(w0, cdp2dev, rec, links, seen);
          while todo != {}
            invariant todo <= rec0.cdpPorts[p].neighbours && rec.cdpPorts == rec0.cdpPorts
            invariant seen0 <= seen && ListsGrow(rec0, rec)
            invariant todo != {} ==> rec0.cdpPorts[p].ifName.Some?
            invariant Entering(w0, cdp2dev, Now(rec, id, stored), seen)
            invariant forall q, n :: q in rec0.cdpPorts && q !in ports && (q != p || n !in todo) ==>
                        CdpDone(w0, cdp2dev, rec, links, seen, q, n)
            decreases todo
          {
            var n :| n in todo;
            todo := todo - {n};
            ghost var before, lists, table := seen, rec, links;
            rec, seen := SeeCdpNeighbour(w0, rec, id, stored, seen, p, n);
            SameRecord(w0, cdp2dev, Now(rec, id, stored), seen);
            GrowTrans(rec0, lists, rec);
            CdpMore(w0, cdp2dev, lists, table, before, rec, links, seen);
          }
        }
      }
      CdpAllSeen(w0, cdp2dev, rec, links, seen);
    }

    // ---------- judging the links that were not reported again ----------

    /** Appends a link to the list of an interface, of the record in hand or of a stored device. */
    method AddToList(rec0: Device, id: string, g: Leg, k: LinkId) returns (rec: Device)
      requires Exists(devs[id := rec0], g)
      modifies `devs
      ensures Now(rec, id, false) == PutView(old(Now(rec0, id, false)), g, k)
    {
      rec := rec0;
      if g.dev == id {
        var list := StrAppendOnce(rec.ifaces[g.ifc].links, k);
        rec := SetList(rec, g.ifc, list);
      } else {
        var list := StrAppendOnce(devs[g.dev].ifaces[g.ifc].links, k);
        devs := devs[g.dev := SetList(devs[g.dev], g.ifc, list)];
      }
    }

    method TakeFromList(rec0: Device, id: string, g: Leg, k: LinkId) returns (rec: Device)
      modifies `devs
      ensures Now(rec, id, false) == TakeView(old(Now(rec0, id, false)), g, k)
    {
      rec := rec0;
      if g.dev == id {
        if g.ifc in rec.ifaces {
          var list := StrExclude(rec.ifaces[g.ifc].links, k);
          rec := SetList(rec, g.ifc, list);
        }
      } else if g.dev in devs && g.ifc in devs[g.dev].ifaces {
        var list := StrExclude(devs[g.dev].ifaces[g.ifc].links, k);
        devs := devs[g.dev := SetList(devs[g.dev], g.ifc, list)];
      }
      assert Now(rec, id, false).net.devs == TakeView(old(Now(rec0, id, false)), g, k).net.devs;
    }

    method KeepLink(rec0: Device, id: string, k: LinkId) returns (rec: Device)
      requires k in links && Exists(devs[id := rec0], links[k].leg0) && Exists(devs[id := rec0], links[k].leg1)
      modifies `devs, `links, `refs
      ensures Now(rec, id, false) == Kept(old(Now(rec0, id, false)), k)
    {
      var l := links[k];
      var up := UpAt(devs[id := rec0], l.leg0) && UpAt(devs[id := rec0], l.leg1);
      links := links[k := l.(up := up)];
      hide UpAt, PutView;
      ghost var w := Now(rec0, id, false);
      PutViewExists(w, l.leg0, k, l.leg1);
      KeptParts(w, k);
      rec := AddToList(rec0, id, l.leg0, k);
      rec := AddToList(rec, id, l.leg1, k);
      refs := refs[l.leg0.dev := RefsOf(refs, l.leg0.dev) + {k}];
      refs := refs[l.leg1.dev := RefsOf(refs, l.leg1.dev) + {k}];
    }

    method DropLink(rec0: Device, id: string, k: LinkId) returns (rec: Device)
      requires k in links
      modifies `devs, `links, `refs
      ensures Now(rec, id, false) == Dropped(old(Now(rec0, id, false)), k)
    {
      var l := links[k];
      rec := TakeFromList(rec0, id, l.leg0, k);
      rec := TakeFromList(rec, id, l.leg1, k);
      if l.leg0.dev in refs { refs := refs[l.leg0.dev := refs[l.leg0.dev] - {k}]; }
      if l.leg1.dev in refs { refs := refs[l.leg1.dev := refs[l.leg1.dev] - {k}]; }
      links := links - {k};
    }

    method JudgeLink(ghost w0: Work, rec0: Device, id: string, seen: set<LinkId>, ghost handled: set<LinkId>,
                     ghost stale: Device, k: LinkId)
      returns (rec: Device)
      requires w0.id == id && Sweeping(w0, cdp2dev, Now(rec0, id, false), seen, handled, stale)
      requires k !in seen && k in links
      requires Touches(links[k], id)
      modifies `devs, `links, `refs
      ensures Sweeping(w0, cdp2dev, Now(rec, id, false), seen, handled + {k}, stale)
      ensures links.Keys <= old(links.Keys)
    {
      hide Mid, History, Unchanged, Kept, Dropped, Keep;
      ghost var w := Now(rec0, id, false);
      if Keep(links[k], id, devs[id := rec0]) {
        SweepKept(w0, cdp2dev, w, seen, handled, stale, k);
        KeepExists(links[k], id, devs[id := rec0]);
        KeptRec(w, k);
        rec := KeepLink(rec0, id, k);
      } else {
        SweepDropped(w0, cdp2dev, w, seen, handled, stale, k);
        DroppedRec(w, k);
        rec := DropLink(rec0, id, k);
      }
    }

    /** Goes through the lists of the old record and judges what was not reported again. */
    method SweepLinks(ghost w0: Work, rec0: Device, id: string, seen: set<LinkId>) returns (rec: Device)
      requires id in devs && w0.id == id && SeenExactly(w0, cdp2dev, seen)
      requires Sweeping(w0, cdp2dev, Now(rec0, id, false), seen, {}, devs[id])
      modifies `devs, `links, `refs
      ensures Inv(Graph().(devs := devs[id := rec])) && Updated(w0, cdp2dev, links)
      ensures ListsRight(w0, cdp2dev, devs[id := rec], links)
      ensures Unchanged(w0, Now(rec, id, false))
    {
      hide Sweeping, Updated, Inv, SeenExactly, AllLooked, Unchanged, ListsRight;
      rec := rec0;
      var stale := devs[id];
      ghost var handled: set<LinkId> := {};
      var todo := stale.ifaces.Keys;
      while todo != {}
        invariant todo <= stale.ifaces.Keys && Sweeping(w0, cdp2dev, Now(rec, id, false), seen, handled, stale)
        invariant forall i, k :: i in stale.ifaces && i !in todo && k in stale.ifaces[i].links ==>
                    k in seen + handled || k !in links
        decreases todo
      {
        var i :| i in todo;
        todo := todo - {i};
        var list := stale.ifaces[i].links;
        for j := 0 to |list|
          invariant Sweeping(w0, cdp2dev, Now(rec, id, false), seen, handled, stale)
          invariant forall m, k :: m in stale.ifaces && m !in todo && m != i && k in stale.ifaces[m].links ==>
                      k in seen + handled || k !in links
          invariant forall k :: k in list[..j] ==> k in seen + handled || k !in links
        {
          var k := list[j];
          if k !in seen && k in links {
            OldTouches(w0, cdp2dev, Now(rec, id, false), seen, handled, stale, i, k);
            rec := JudgeLink(w0, rec, id, seen, handled, stale, k);
            handled := handled + {k};
          }
        }
      }
      LookedAtAll(w0, cdp2dev, Now(rec, id, false), seen, handled, stale);
      FinishSweep(w0, cdp2dev, Now(rec, id, false), seen, handled, stale);
      SweptUnchanged(w0, cdp2dev, Now(rec, id, false), seen, handled, stale);
    }

    /** processLinks: the record gets its links, and the tables follow. */
    method ProcessLinks(rec0: Device, id: string, startup: bool) returns (rec: Device)
      requires Inv(Graph()) && AllPortsNamed(devs) && Decoded(id, rec0) && (startup ==> id !in devs)
      modifies `devs, `links, `refs
      ensures Inv(Graph().(devs := devs[id := rec]))
      ensures Updated(old(Now(rec0, id, false)), cdp2dev, links)
      ensures Told(old(Now(rec0, id, false)), cdp2dev, links)
      ensures ListsRight(old(Now(rec0, id, false)), cdp2dev, devs[id := rec], links)
      ensures SameButLists(rec0, rec) && DevsSameButLists(old(devs), devs)
    {
      hide Inv, Decoded, Mid, Entering, Sweeping, Updated, SameButLists, DevsSameButLists, AllPortsNamed;
      hide ListsRight, SeenListed, Told, AllNamed, CdpSeen, CdpTells;
      ghost var w0 := Now(rec0, id, false);
      InvNamed(w0.net);
      StartEntering(w0, cdp2dev);
      var seen;
      rec, seen := SeeLldp(w0, rec0, id, false);
      ghost var lldp, lists := seen, rec;
      rec, seen := SeeCdp(w0, rec, id, false, seen);
      EverythingSeen(w0, cdp2dev, Now(rec, id, false), lists, lldp, seen);
      if !startup && id in devs {
        StartSweep(w0, cdp2dev, Now(rec, id, false), seen);
        rec := SweepLinks(w0, rec, id, seen);
      } else {
        UnchangedParts(w0, Now(rec, id, false));
        SameKeys(w0.net.devs, devs);
        FinishNew(w0, cdp2dev, Now(rec, id, false), seen);
      }
      UpdatedTold(w0, cdp2dev, links);
      UnchangedParts(w0, Now(rec, id, false));
    }

    // ---------- the addresses of a device ----------

    /** One reported address: it is registered unless its present owner blocks that. */
    method ReportAddress(id: string, ifc: string, net: string, ip: string, now: int, startup: bool)
      modifies `l3, `held
      ensures Addresses() == A.Report(old(Addresses()), Working(devs), id, ifc, net, ip, now, startup)
    {
      var register := true;
      if net in l3 && ip in l3[net] {
        var e := l3[net][ip];
        if e.dev != id || e.ifc != ifc {
          if startup || (e.dev in devs && devs[e.dev].ok && (e.dev != id || e.time == now)) {
            register := false;
          } else {
            held := A.Release(held, e.dev, net, ip);
          }
        }
      }
      if register {
        l3 := A.SetOwner(l3, net, ip, A.Entry(id, ifc, now));
        held := A.Hold(held, id, net, ip);
      }
    }

    method ReportAddresses(rec: Device, id: string, now: int, startup: bool)
      requires A.Agree(Addresses())
      modifies `l3, `held
      ensures A.Reported(old(Addresses()), Addresses(), Working(devs), id, now, startup, Claims(rec))
    {
      hide A.Agree, A.Reported, A.Report;
      ghost var b0 := Addresses();
      ghost var claims: A.Claims := iset{};
      NothingReported(b0, Working(devs), id, now, startup);
      var ifaces := rec.ifaces.Keys;
      while ifaces != {}
        invariant ifaces <= rec.ifaces.Keys
        invariant A.Reported(b0, Addresses(), Working(devs), id, now, startup, claims)
        invariant claims == iset c | c in Claims(rec) && c.0 !in ifaces
        decreases ifaces
      {
        var i :| i in ifaces;
        ghost var outside := claims;
        var ips := if rec.ifaces[i].adminUp then rec.ifaces[i].ips.Keys else {};
        while ips != {}
          invariant ips <= rec.ifaces[i].ips.Keys && (ips != {} ==> rec.ifaces[i].adminUp)
          invariant A.Reported(b0, Addresses(), Working(devs), id, now, startup, claims)
          invariant claims == outside + iset c | c in Claims(rec) && c.0 == i && c.2 !in ips
          decreases ips
        {
          var ip :| ip in ips;
          ips := ips - {ip};
          var net := rec.ifaces[i].ips[ip];
          if net.Some? && Registrable(ip) {
            A.ReportStep(b0, Addresses(), Working(devs), id, now, startup, claims, i, net.value, ip);
            ReportAddress(id, i, net.value, ip, now, startup);
            claims := claims + iset{(i, net.value, ip)};
          }
        }
        ifaces := ifaces - {i};
      }
      assert claims == Claims(rec);
    }

    /** Addresses of the device that are older than this run go. */
    method SweepAddresses(id: string, now: int)
      requires A.Agree(Addresses())
      modifies `l3, `held
      ensures A.Swept(old(Addresses()), Addresses(), id, now)
    {
      hide A.Agree, A.DropOwner, A.Release;
      ghost var b0 := Addresses();
      ghost var gone := iset p: (string, string) | A.Stale(A.Owner(b0.table, p.0, p.1), id, now);
      ghost var done: iset<(string, string)> := iset{};
      var nets := l3.Keys;
      while nets != {}
        invariant A.Cleared(b0, Addresses(), done, gone)
        invariant forall p :: p in done ==> p.0 !in nets
        invariant forall n, i :: A.Owner(b0.table, n, i).Some? && n !in nets ==> (n, i) in done
        decreases nets
      {
        var net :| net in nets;
        var ips := if net in l3 then l3[net].Keys else {};
        while ips != {}
          invariant A.Cleared(b0, Addresses(), done, gone)
          invariant forall p :: p in done ==> p.0 !in nets || (p.0 == net && p.1 !in ips)
          invariant forall n, i :: A.Owner(b0.table, n, i).Some? && (n !in nets || (n == net && i !in ips)) ==>
                      (n, i) in done
          decreases ips
        {
          var ip :| ip in ips;
          A.ClearOne(b0, Addresses(), id, done, gone, net, ip);
          if net in l3 && ip in l3[net] && l3[net][ip].dev == id && l3[net][ip].time != now {
            l3 := A.DropOwner(l3, net, ip);
            held := A.Release(held, id, net, ip);
          }
          done := done + iset{(net, ip)};
          ips := ips - {ip};
        }
        nets := nets - {net};
      }
    }

    // ---------- the operations of the broker ----------

    /** What holds between operations. */
    ghost predicate Valid()
      reads this
    {
      Inv(Graph()) && A.Agree(Addresses()) && Owned(devs, l3, devList) && CdpRight(devs, cdp2dev)
    }

    /** The addresses the record reports are registered, and older ones of the device go. */
    method UpdateAddresses(rec: Device, id: string, startup: bool, now: int)
      requires A.Agree(Addresses()) && (startup ==> forall net, ip :: !A.Owns(l3, id, net, ip))
      modifies `l3, `held
      ensures A.Agree(Addresses())
      ensures AddressesUpdated(old(Addresses()), Addresses(), Working(devs), id, now, startup, Claims(rec))
    {
      hide A.Agree, A.Owner, A.Reported, A.Swept, AddressesUpdated, Claims, Working;
      ghost var b0 := Addresses();
      ReportAddresses(rec, id, now, startup);
      ghost var b1 := Addresses();
      ReportedAgrees(b0, b1, Working(devs), id, now, startup, Claims(rec));
      SweepAddresses(id, now);
      SweptAgrees(b1, Addresses(), id, now);
      ReportedThenSwept(b0, b1, Addresses(), Working(devs), id, now, startup, Claims(rec));
    }

    /** Links, addresses and the record itself are stored, in this order. */
    method StoreDevice(rec0: Device, id: string, startup: bool, now: int) returns (rec: Device)
      requires Valid() && Decoded(id, rec0) && (startup ==> id !in devs)
      requires rec0.ip in devList && devList[rec0.ip] == Some(id)
      requires rec0.cdpId.Some? ==> rec0.cdpId.value in cdp2dev && cdp2dev[rec0.cdpId.value] == id
      modifies `devs, `links, `refs, `l3, `held
      ensures Valid()
      ensures id in devs && devs[id] == rec && SameButLists(rec0, rec)
      ensures DevsSameButLists(old(devs) - {id}, devs - {id})
      ensures Updated(old(Now(rec0, id, false)), cdp2dev, links) && Told(old(Now(rec0, id, false)), cdp2dev, links)
      ensures ListsRight(old(Now(rec0, id, false)), cdp2dev, devs, links)
      ensures AddressesUpdated(old(Addresses()), Addresses(), Working(old(devs)), id, now, startup, Claims(rec0))
      ensures Assigned(old(devs), old(l3), l3, rec0, id, now, startup)
    {
      hide ListsRight, Told, Assigned;
      hide Inv, Updated, Decoded, A.Owner, A.Owns, A.Agree, A.Reported, A.Swept, AddressesUpdated, DevsSameButLists;
      hide Owned, Claims, Working, PortsNamed, SameButLists, AllPortsNamed, CdpRight;
      OwnedParts(devs, l3, devList);
      rec := ProcessLinks(rec0, id, startup);
      SameWorking(old(devs), devs);
      SameClaims(rec0, rec);
      ghost var b0 := Addresses();
      NoOwner(old(devs), b0.table, devList, id);
      UpdateAddresses(rec, id, startup, now);
      DecodedPorts(id, rec0);
      OwnedAfter(old(devs), devs, rec0, rec, b0, Addresses(), devList, id, Working(devs), now, startup, Claims(rec));
      OthersSame(old(devs), devs, id);
      UpdatedAssigned(old(devs), b0, Addresses(), rec0, id, now, startup);
      CdpStored(old(devs), devs, rec0, rec, id, cdp2dev);
      ghost var others := devs - {id};
      devs := devs[id := rec];
      assert devs - {id} == others;
    }

    /** The address is in the list of management addresses from now on. */
    method NoteAddress(ip: string)
      requires Valid()
      modifies `devList
      ensures Valid() && devList == Noted(old(devList), ip)
    {
      ListGrows(devs, l3, devList, ip);
      if ip !in devList { devList := devList[ip := None]; }
    }

    /** What a new record goes through before it is stored: a conflict of device ids is decided for one of
        the two management addresses, and an address whose device changed loses the previous device.
        reply is the time the device was last seen at this address, or None if that could not be read.
        n and b are the tables after the wiping, on which the record is then processed. */
    method ProcessIpData(rec0: Device, id: string, startup: bool, now: int, reply: Option<int>)
      returns (outcome: Outcome, decoded: Device, ghost n: Net, ghost b: A.Book)
      requires Valid() && Decoded(id, rec0)
      requires startup && id in devs ==> devs[id].ip != rec0.ip
      modifies this
      ensures Valid()
      ensures outcome == Verdict(old(devs), Noted(old(devList), rec0.ip), rec0, id, reply)
      ensures outcome == Conflict <==>
                old(id in devs && devs[id].ip != rec0.ip
                    && (if rec0.ok then devs[id].ok && rec0.saveTime <= devs[id].saveTime
                        else devs[id].ok || rec0.saveTime <= devs[id].saveTime))
      ensures outcome == Failed <==>
                && outcome != Conflict && reply.None?
                && old(rec0.ip in devList && devList[rec0.ip].Some? ==> devList[rec0.ip].value == id)
      ensures Shrunk(old(Graph()), old(Addresses()), n, b)
      ensures outcome == Conflict ==>
                && n == old(Graph()) && b == old(Addresses()) && devList == Noted(old(devList), rec0.ip)
      ensures outcome != Conflict ==>
                && n.devs.Keys == old(devs.Keys) - Evicted(old(devs), Noted(old(devList), rec0.ip), rec0.ip, id)
                && devList == Noted(old(devList), rec0.ip)[rec0.ip := Some(id)]
      ensures outcome != Stored ==> Graph() == n && Addresses() == b && cdp2dev == old(cdp2dev)
      ensures outcome == Stored && old(Ordinary(rec0.ip, id)) ==> n == old(Graph()) && b == old(Addresses())
      ensures outcome == Stored ==>
                && id in devs && SameButLists(decoded, devs[id])
                && decoded == rec0.(lastSeen := LastSeen(Noted(old(devList), rec0.ip), rec0, id, reply),
                                    cdpId := KeptCdp(n.devs, old(cdp2dev), rec0, id))
                && cdp2dev == WithCdp(old(cdp2dev), decoded.cdpId, id)
                && forall d :: d in devs && d != id ==> devs[d].ip != rec0.ip
      ensures outcome == Stored ==>
                && Updated(Work(n, decoded, id, false), cdp2dev, links)
                && Told(Work(n, decoded, id, false), cdp2dev, links)
                && ListsRight(Work(n, decoded, id, false), cdp2dev, devs, links)
                && AddressesUpdated(b, Addresses(), Working(n.devs), id, now, startup, Claims(rec0))
                && Assigned(n.devs, b.table, l3, decoded, id, now, startup)
                && DevsSameButLists(n.devs - {id}, devs - {id})
      ensures forall d :: d in devs ==> devs[d].ip == rec0.ip || (d in old(devs) && devs[d].ip == old(devs)[d].ip)
    {
      hide Inv, Decoded, A.Agree, Updated, AddressesUpdated, DevsSameButLists, SameButLists;
      hide Owned, Claims, Working, Shrunk, ListsRight, Told, CdpRight, Assigned;
      decoded := rec0;
      NoteAddress(rec0.ip);
      var seen;
      outcome, seen := Admit(rec0, id, reply);
      n, b := Graph(), Addresses();
      if outcome == Stored {
        decoded := StoreAdmitted(rec0, id, startup, now, seen);
        AddressesKept(n.devs, devs, id, decoded);
      }
    }

    method StoreAdmitted(rec0: Device, id: string, startup: bool, now: int, seen: int) returns (decoded: Device)
      requires Valid() && Decoded(id, rec0) && (startup ==> id !in devs)
      requires rec0.ip in devList && devList[rec0.ip] == Some(id)
      modifies `devs, `links, `refs, `l3, `held, `cdp2dev
      ensures Valid()
      ensures decoded == rec0.(lastSeen := if seen < rec0.saveTime then rec0.saveTime else seen,
                               cdpId := KeptCdp(old(devs), old(cdp2dev), rec0, id))
      ensures cdp2dev == WithCdp(old(cdp2dev), decoded.cdpId, id)
      ensures id in devs && SameButLists(decoded, devs[id])
      ensures forall d :: d in devs && d != id ==> devs[d].ip != rec0.ip
      ensures Updated(Work(old(Graph()), decoded, id, false), cdp2dev, links)
      ensures Told(Work(old(Graph()), decoded, id, false), cdp2dev, links)
      ensures ListsRight(Work(old(Graph()), decoded, id, false), cdp2dev, devs, links)
      ensures AddressesUpdated(old(Addresses()), Addresses(), Working(old(devs)), id, now, startup, Claims(rec0))
      ensures Assigned(old(devs), old(l3), l3, decoded, id, now, startup)
      ensures DevsSameButLists(old(devs) - {id}, devs - {id})
    {
      hide Inv, Decoded, A.Agree, Updated, AddressesUpdated, DevsSameButLists, SameButLists, Owned, Claims, Working;
      hide ListsRight, Told, CdpRight, Assigned;
      decoded := NoteCdp(rec0.(lastSeen := if seen < rec0.saveTime then rec0.saveTime else seen), id);
      StillDecoded(id, rec0, decoded);
      CdpNoted(devs, old(cdp2dev), rec0, id);
      var rec := StoreDevice(decoded, id, startup, now);
      AddressUnique(devs, l3, devList, id, rec0.ip);
    }

    /** The decision about ids and addresses. Stored means that the record goes on. */
    method Admit(rec0: Device, id: string, reply: Option<int>) returns (outcome: Outcome, seen: int)
      requires Valid() && rec0.ip in devList
      modifies `devs, `links, `refs, `l3, `held, `devList
      ensures Valid()
      ensures outcome == Verdict(old(devs), old(devList), rec0, id, reply)
      ensures outcome == Conflict ==> unchanged(this)
      ensures outcome == Stored ==>
                (if seen < rec0.saveTime then rec0.saveTime else seen) == LastSeen(old(devList), rec0, id, reply)
      ensures outcome != Conflict ==>
                && devs.Keys == old(devs.Keys) - Evicted(old(devs), old(devList), rec0.ip, id)
                && devList == old(devList)[rec0.ip := Some(id)]
      ensures outcome == Stored && old(Ordinary(rec0.ip, id)) ==>
                Graph() == old(Graph()) && Addresses() == old(Addresses())
      ensures Shrunk(old(Graph()), old(Addresses()), Graph(), Addresses())
      ensures forall d :: d in devs ==> d in old(devs) && devs[d].ip == old(devs)[d].ip
    {
      hide Inv, A.Agree, CdpRight, Owned, Shrunk, Supersedes, Evicted, Refused;
      NothingShrinks(Graph(), Addresses(), devList);
      EvictedParts(devs, devList, rec0.ip, id);
      var goesOn := SettleConflict(rec0, id);
      if !goesOn { return Conflict, 0; }
      ghost var n, b := Graph(), Addresses();
      outcome, seen := SettleAddress(rec0.ip, id, reply);
      ShrunkTrans(old(Graph()), old(Addresses()), n, b, Graph(), Addresses());
    }

    /** Two management addresses with one device id: if the new record supersedes the stored one, that is wiped. */
    method SettleConflict(rec0: Device, id: string) returns (goesOn: bool)
      requires Valid()
      modifies `devs, `links, `refs, `l3, `held
      ensures Valid() && Shrunk(old(Graph()), old(Addresses()), Graph(), Addresses())
      ensures goesOn <==> !Refused(old(devs), rec0, id)
      ensures !goesOn || old(id in devs ==> devs[id].ip == rec0.ip) ==>
                Graph() == old(Graph()) && Addresses() == old(Addresses())
      ensures goesOn && old(id in devs && devs[id].ip != rec0.ip) ==> devs.Keys == old(devs.Keys) - {id}
      ensures forall d :: d in devs ==> d in old(devs) && devs[d].ip == old(devs)[d].ip
    {
      hide Inv, A.Agree, CdpRight, Owned, Shrunk, Wiped, A.AddressesWiped;
      NothingShrinks(Graph(), Addresses(), devList);
      if id in devs && devs[id].ip != rec0.ip {
        if !Supersedes(rec0, devs[id]) { return false; }
        WipeDevOwned(id);
      }
      return true;
    }

    /** The address has a new device id: the device known there before is wiped. */
    method SettleAddress(ip: string, id: string, reply: Option<int>) returns (outcome: Outcome, seen: int)
      requires Valid() && ip in devList && (id in devs ==> devs[id].ip == ip)
      modifies `devs, `links, `refs, `l3, `held, `devList
      ensures Valid() && Shrunk(old(Graph()), old(Addresses()), Graph(), Addresses())
      ensures outcome != Conflict && devList == old(devList)[ip := Some(id)]
      ensures var former := old(devList)[ip];
              if Replaces(former, id) then
                outcome == Stored && seen == 0 && devs.Keys == old(devs.Keys) - {former.value}
              else
                && outcome == (if reply.Some? then Stored else Failed) && (reply.Some? ==> seen == reply.value)
                && Graph() == old(Graph()) && Addresses() == old(Addresses())
      ensures forall d :: d in devs ==> d in old(devs) && devs[d].ip == old(devs)[d].ip
    {
      hide Inv, A.Agree, CdpRight, Owned, Shrunk, Wiped, A.AddressesWiped;
      NothingShrinks(Graph(), Addresses(), devList);
      var former := devList[ip];
      if former.Some? && former.value != id { WipeDevOwned(former.value); }
      OwnedListed(devs, l3, devList, id, ip);
      devList := devList[ip := Some(id)];
      if former.Some? && former.value != id { return Stored, 0; }
      if reply.None? { return Failed, 0; }
      return Stored, reply.value;
    }

    /** Notes the CDP id of the device, unless a working device has it already. */
    method NoteCdp(rec0: Device, id: string) returns (rec: Device)
      modifies `cdp2dev
      ensures rec == rec0.(cdpId := rec.cdpId)
      ensures rec.cdpId == KeptCdp(devs, old(cdp2dev), rec0, id)
      ensures cdp2dev == WithCdp(old(cdp2dev), rec.cdpId, id)
    {
      rec := rec0;
      if rec.cdpId.Some? {
        var c := rec.cdpId.value;
        if c in cdp2dev && cdp2dev[c] != id && cdp2dev[c] in devs && devs[cdp2dev[c]].ok {
          rec := rec.(cdpId := None);
        } else {
          cdp2dev := cdp2dev[c := id];
        }
      }
    }

    /** Wiping a device between operations. */
    method WipeDevOwned(id: string)
      requires Valid()
      modifies `devs, `links, `refs, `l3, `held
      ensures Valid()
      ensures Wiped(old(Graph()), id, Graph()) && A.AddressesWiped(old(Addresses()), Addresses(), id)
      ensures Shrunk(old(Graph()), old(Addresses()), Graph(), Addresses())
      ensures devs.Keys == old(devs.Keys) - {id}
      ensures forall d :: d in devs ==> devs[d].ip == old(devs)[d].ip
    {
      hide Inv, A.Agree, A.Owner, Shrunk, Wiped, A.AddressesWiped, CdpRight;
      WipeDev(id);
      CdpWiped(old(Graph()), Graph(), id, cdp2dev);
      OwnedWithout(old(Graph()), old(Addresses()), Graph(), Addresses(), devList, id);
      WipingShrinks(old(Graph()), old(Addresses()), Graph(), Addresses(), devList, id);
    }

    /** The same in the middle of a larger operation that removes devices. */
    method WipeAlso(ghost n0: Net, ghost b0: A.Book, id: string)
      requires Valid() && Shrunk(n0, b0, Graph(), Addresses())
      modifies `devs, `links, `refs, `l3, `held
      ensures Valid() && Shrunk(n0, b0, Graph(), Addresses())
      ensures devs.Keys == old(devs.Keys) - {id}
      ensures forall d :: d in devs ==> devs[d].ip == old(devs)[d].ip
    {
      hide Inv, A.Agree, CdpRight, Owned, Wiped, A.AddressesWiped, Shrunk;
      WipeDevOwned(id);
      ShrunkTrans(n0, b0, old(Graph()), old(Addresses()), Graph(), Addresses());
    }

    /** The second pass at startup: the links of a stored device are entered again, now that all
        devices are loaded. The record in hand is the stored one, so both ends are updated in place. */
    method Relink(id: string)
      requires Valid() && id in devs
      modifies `devs, `links, `refs
      ensures Valid() && DevsSameButLists(old(devs), devs)
      ensures forall k :: Reported(Work(old(Graph()), old(devs)[id], id, true), cdp2dev, k) ==>
                k in links && Fresh(links[k], Work(old(Graph()), old(devs)[id], id, true), cdp2dev)
      ensures forall k :: k in old(links) ==> k in links
      ensures forall k :: k in links && !Reported(Work(old(Graph()), old(devs)[id], id, true), cdp2dev, k) ==>
                k in old(links) && links[k] == old(links)[k]
    {
      hide Inv, A.Agree, Entering, SameButLists, DevsSameButLists, Reported, Mid, NoneGone, CdpRight;
      ghost var w0 := Now(devs[id], id, true);
      StartRelink(w0, cdp2dev, l3, devList);
      var rec, seen := SeeLldp(w0, devs[id], id, true);
      ghost var lldp, lists := seen, rec;
      rec, seen := SeeCdp(w0, rec, id, true, seen);
      EverythingSeen(w0, cdp2dev, Now(rec, id, true), lists, lldp, seen);
      FinishRelink(w0, cdp2dev, Now(rec, id, true), seen, l3, devList);
      CdpSame(old(devs), devs, cdp2dev);
    }

    /** An address left the list of devices: what is stored for it goes. */
    method PurgeIp(ip: string)
      requires Valid()
      modifies `devs, `links, `refs, `l3, `held, `devList
      ensures Valid()
      ensures forall d :: d in devs <==> d in old(devs) && old(devs)[d].ip != ip
      ensures Shrunk(old(Graph()), old(Addresses()), Graph(), Addresses())
      ensures devList == old(devList) - {ip}
    {
      hide Inv, A.Agree, CdpRight, Owned, Wiped, A.AddressesWiped, Shrunk;
      NothingShrinks(Graph(), Addresses(), devList);
      ghost var n0, b0 := Graph(), Addresses();
      var todo := devs.Keys;
      while todo != {}
        invariant Shrunk(n0, b0, Graph(), Addresses())
        invariant Valid() && devList == old(devList) && todo <= old(devs.Keys)
        invariant forall d :: d in devs <==> d in old(devs) && (old(devs)[d].ip != ip || d in todo)
        invariant forall d :: d in devs ==> devs[d].ip == old(devs)[d].ip
        decreases todo
      {
        var d :| d in todo;
        todo := todo - {d};
        if d in devs && devs[d].ip == ip { WipeAlso(n0, b0, d); }
      }
      ListShrinks(devs, l3, devList, ip);
      devList := devList - {ip};
    }

    /** An address goes from the list of devices, with the device last seen there. */
    method Unlist(ghost n0: Net, ghost b0: A.Book, ip: string)
      requires Valid() && ip in devList && Shrunk(n0, b0, Graph(), Addresses())
      modifies `devs, `links, `refs, `l3, `held, `devList
      ensures Valid() && Shrunk(n0, b0, Graph(), Addresses())
      ensures forall d :: d in devs <==> d in old(devs) && old(devList)[ip] != Some(d)
      ensures forall d :: d in devs ==> devs[d].ip == old(devs)[d].ip
      ensures devList == old(devList) - {ip}
    {
      hide Inv, A.Agree, CdpRight, Owned, Shrunk;
      if devList[ip].Some? { WipeAlso(n0, b0, devList[ip].value); }
      NobodyThere(devs, l3, devList, ip);
      ListShrinks(devs, l3, devList, ip);
      devList := devList - {ip};
    }

    /** First pass of the cleanup: addresses that are not listed go, with the device last seen there. */
    method CleanupList(listed: set<string>)
      requires Valid()
      modifies `devs, `links, `refs, `l3, `held, `devList
      ensures Valid()
      ensures forall d :: d in devs <==> d in old(devs) && !old(NamedByUnlisted(d, listed))
      ensures forall d :: d in devs ==> devs[d].ip == old(devs)[d].ip
      ensures Shrunk(old(Graph()), old(Addresses()), Graph(), Addresses())
      ensures devList == map ip | ip in old(devList) && ip in listed :: old(devList)[ip]
    {
      hide Inv, A.Agree, CdpRight, Owned, Wiped, A.AddressesWiped, Shrunk, Named;
      NothingShrinks(Graph(), Addresses(), devList);
      NobodyNamed(devList, devList.Keys - listed - devList.Keys);
      ghost var n0, b0 := Graph(), Addresses();
      var ips := devList.Keys;
      while ips != {}
        invariant Shrunk(n0, b0, Graph(), Addresses())
        invariant Valid() && ips <= old(devList.Keys)
        invariant devList == map ip | ip in old(devList) && (ip in listed || ip in ips) :: old(devList)[ip]
        invariant forall d :: d in devs <==> d in old(devs) && !Named(old(devList), old(devList).Keys - listed - ips, d)
        invariant forall d :: d in devs ==> devs[d].ip == old(devs)[d].ip
        decreases ips
      {
        var ip :| ip in ips;
        NamedMore(old(devList), old(devList).Keys - listed - ips, ip);
        GoneMore(old(devList).Keys, listed, ips, ip);
        ips := ips - {ip};
        if ip !in listed { Unlist(n0, b0, ip); }
      }
      assert old(devList).Keys - listed - ips == old(devList).Keys - listed;
      NamedMeans(old(devList), listed);
    }

    /** Second pass: devices whose address is not listed, or not known, go. */
    method CleanupDevs(listed: set<string>)
      requires Valid()
      modifies `devs, `links, `refs, `l3, `held, `devList
      ensures Valid()
      ensures forall d :: d in devs <==> d in old(devs) && old(devs)[d].ip in listed
      ensures forall d :: d in devs ==> devs[d].ip == old(devs)[d].ip
      ensures forall ip :: ip in devList ==> ip in old(devList) && devList[ip] == old(devList)[ip]
      ensures forall ip :: ip in old(devList) && ip in listed ==> ip in devList
      ensures Shrunk(old(Graph()), old(Addresses()), Graph(), Addresses())
    {
      hide Inv, A.Agree, CdpRight, Owned, Wiped, A.AddressesWiped, Shrunk;
      NothingShrinks(Graph(), Addresses(), devList);
      ghost var n0, b0 := Graph(), Addresses();
      AllListed(devs, l3, devList);
      var todo := devs.Keys;
      while todo != {}
        invariant Shrunk(n0, b0, Graph(), Addresses())
        invariant Valid() && todo <= old(devs.Keys)
        invariant forall ip :: ip in devList ==> ip in old(devList) && devList[ip] == old(devList)[ip]
        invariant forall ip :: ip in old(devList) && ip in listed ==> ip in devList
        invariant forall d :: d in devs <==> d in old(devs) && (d in todo || old(devs)[d].ip in listed)
        invariant forall d :: d in devs ==> devs[d].ip == old(devs)[d].ip
        decreases todo
      {
        var d :| d in todo;
        todo := todo - {d};
        var ip := devs[d].ip;
        if ip !in listed || ip !in devList {
          UniqueAddress(devs, l3, devList, d);
          WipeAlso(n0, b0, d);
          ListShrinks(devs, l3, devList, ip);
          devList := devList - {ip};
        }
      }
    }

    /** The periodic cleanup against the current list of addresses: a device stays if its address is
        listed and no address that left the list was last used by it. */
    method Cleanup(listed: set<string>)
      requires Valid()
      modifies `devs, `links, `refs, `l3, `held, `devList
      ensures Valid()
      ensures forall d :: d in devs <==> d in old(devs) && old(devs)[d].ip in listed && !old(NamedByUnlisted(d, listed))
      ensures Shrunk(old(Graph()), old(Addresses()), Graph(), Addresses())
      ensures devList == map ip | ip in old(devList) && ip in listed :: old(devList)[ip]
    {
      hide Inv, A.Agree, CdpRight, Owned, Shrunk;
      CleanupList(listed);
      ghost var n, b := Graph(), Addresses();
      CleanupDevs(listed);
      ShrunkTrans(old(Graph()), old(Addresses()), n, b, Graph(), Addresses());
    }

    /** Some address that is not listed any more was last used by device d. */
    ghost predicate NamedByUnlisted(d: string, listed: set<string>)
      reads this
    {
      exists ip :: ip in devList && ip !in listed && devList[ip] == Some(d)
    }

    /** No conflict and no change of id at this address. */
    predicate Ordinary(ip: string, id: string)
      reads this
    {
      && (id in devs ==> devs[id].ip == ip)
      && (ip in devList && devList[ip].Some? ==> devList[ip].value == id)
    }
  }
}
