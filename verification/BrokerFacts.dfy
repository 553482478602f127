/** Predicates and facts about the broker's tables: ownership of addresses, conflicts between records,
    and the steps that connect the edits of the tables to their invariants. */
module BrokerFacts {
  import opened Basics
  import opened LinkKey
  import opened Topology
  import opened TopologyWipe
  import opened TopologyLinks
  import opened TopologyTable
  import opened Shrinking
  import A = AddressTable

  datatype Outcome = Stored | Conflict | Failed

  /** Whether a record takes over the id of a stored device with another address: a working device
      beats one that is not, and otherwise the later data wins. */
  predicate Supersedes(rec: Device, stored: Device) {
    if rec.ok != stored.ok then rec.ok else rec.saveTime > stored.saveTime
  }

  /** The stored devices whose status is "ok". */
  function Working(devs: Devs): set<string> { set d | d in devs && devs[d].ok }

  /** Loopback, link-local and zero addresses are not registered. */
  predicate Registrable(ip: string) {
    !("127." <= ip) && !("169.254." <= ip) && !("0." <= ip)
  }

  /** The addresses a record reports: interface, network, address. */
  ghost function Claims(rec: Device): A.Claims {
    iset c: (string, string, string) |
      && c.0 in rec.ifaces && rec.ifaces[c.0].adminUp && c.2 in rec.ifaces[c.0].ips
      && rec.ifaces[c.0].ips[c.2] == Some(c.1) && Registrable(c.2)
  }

  /** Port tables name existing interfaces; address owners are stored devices; and the device
      stored for a management address is the one last seen there, so no two devices share an address. */
  ghost predicate Owned(devs: Devs, l3: A.Table, devList: map<string, Option<string>>) {
    && AllPortsNamed(devs)
    && (forall d, net, ip :: A.Owns(l3, d, net, ip) ==> d in devs)
    && (forall d :: d in devs ==> devs[d].ip in devList && devList[devs[d].ip] == Some(d))
  }

  /** The addresses after device id was processed. A reported address is decided as the table says; an address of
      the device that was not reported is gone, unless it was registered at this very moment; no other address
      changed hands. */
  ghost predicate AddressesUpdated(b0: A.Book, b: A.Book, oks: set<string>, id: string, now: int, startup: bool,
                                   claims: A.Claims)
  {
    forall net, ip ::
      if A.Claimed(claims, net, ip) then A.Decided(b0, b, oks, id, now, startup, claims, net, ip)
      else
        A.Owner(b.table, net, ip) ==
          if A.Stale(A.Owner(b0.table, net, ip), id, now) then None else A.Owner(b0.table, net, ip)
  }

  lemma ReportedThenSwept(b0: A.Book, b1: A.Book, b2: A.Book, oks: set<string>, id: string, now: int, startup: bool,
                          claims: A.Claims)
    requires A.Reported(b0, b1, oks, id, now, startup, claims) && A.Swept(b1, b2, id, now)
    requires startup ==> forall net, ip :: !A.Owns(b0.table, id, net, ip)
    ensures AddressesUpdated(b0, b2, oks, id, now, startup, claims)
  {
    hide A.Agree, A.Owner, A.Decided;
    forall net, ip | A.Claimed(claims, net, ip) ensures A.Decided(b0, b2, oks, id, now, startup, claims, net, ip) {
      assert startup ==> !A.Owns(b0.table, id, net, ip);
      DecidedSwept(b0, b1, b2, oks, id, now, startup, claims, net, ip);
    }
  }

  /** What was decided is of this moment or not the device's, so the sweep leaves it. */
  lemma DecidedSwept(b0: A.Book, b1: A.Book, b2: A.Book, oks: set<string>, id: string, now: int, startup: bool,
                     claims: A.Claims, net: string, ip: string)
    requires A.Decided(b0, b1, oks, id, now, startup, claims, net, ip) && A.Swept(b1, b2, id, now)
    requires startup ==> !A.Owns(b0.table, id, net, ip)
    ensures A.Decided(b0, b2, oks, id, now, startup, claims, net, ip)
  {
    hide A.Agree, A.Owner;
    if A.Since(b1.table, id, now, claims, net, ip) {
      var i :| (i, net, ip) in claims && A.Owner(b1.table, net, ip) == Some(A.Entry(id, i, now));
      assert A.Owner(b2.table, net, ip) == A.Owner(b1.table, net, ip);
    }
  }

  lemma OwnedParts(devs: Devs, l3: A.Table, devList: map<string, Option<string>>)
    requires Owned(devs, l3, devList)
    ensures AllPortsNamed(devs)
  {
  }

  /** Storing the record keeps the owners among the stored devices. */
  lemma OwnedAfter(before: Devs, after: Devs, rec0: Device, rec: Device, b0: A.Book, b: A.Book,
                   devList: map<string, Option<string>>, id: string, oks: set<string>, now: int, startup: bool,
                   claims: A.Claims)
    requires Owned(before, b0.table, devList) && DevsSameButLists(before, after)
    requires PortsNamed(rec0) && SameButLists(rec0, rec) && rec.ip in devList && devList[rec.ip] == Some(id)
    requires AddressesUpdated(b0, b, oks, id, now, startup, claims)
    ensures Owned(after[id := rec], b.table, devList)
  {
    hide Owned, AddressesUpdated, DevsSameButLists, PortsNamed, SameButLists;
    OwnedSame(before, after, b0.table, devList);
    PortsSameDev(rec0, rec);
    OwnersIn(after, b0.table, devList);
    OwnersAfter(after, b0, b, id, oks, now, startup, claims);
    OwnedStored(after, rec, b0.table, b.table, devList, id);
  }

  lemma OwnersIn(devs: Devs, l3: A.Table, devList: map<string, Option<string>>)
    requires Owned(devs, l3, devList)
    ensures forall d, net, ip :: A.Owns(l3, d, net, ip) ==> d in devs
  {
  }

  lemma OwnedStored(devs: Devs, rec: Device, l3: A.Table, l3': A.Table, devList: map<string, Option<string>>,
                    id: string)
    requires Owned(devs, l3, devList) && PortsNamed(rec) && rec.ip in devList && devList[rec.ip] == Some(id)
    requires forall d, net, ip :: A.Owns(l3', d, net, ip) ==> d == id || d in devs
    ensures Owned(devs[id := rec], l3', devList)
  {
    hide A.Owns, PortsNamed;
  }

  /** An owner afterwards is the device itself or one that owned the address before. */
  lemma OwnersAfter(before: Devs, b0: A.Book, b: A.Book, id: string, oks: set<string>, now: int, startup: bool,
                    claims: A.Claims)
    requires forall d, net, ip :: A.Owns(b0.table, d, net, ip) ==> d in before
    requires AddressesUpdated(b0, b, oks, id, now, startup, claims)
    ensures forall d, net, ip :: A.Owns(b.table, d, net, ip) ==> d == id || d in before
  {
    hide A.Owner;
    forall d, net, ip | A.Owns(b.table, d, net, ip) ensures d == id || d in before {
      if A.Claimed(claims, net, ip) && A.Since(b.table, id, now, claims, net, ip) {
        var i :| (i, net, ip) in claims && A.Owner(b.table, net, ip) == Some(A.Entry(id, i, now));
      } else {
        assert A.Owns(b0.table, d, net, ip);
      }
    }
  }

  lemma AddressesKept(before: Devs, after: Devs, id: string, rec: Device)
    requires id in after && SameButLists(rec, after[id]) && DevsSameButLists(before - {id}, after - {id})
    ensures forall d :: d in after ==>
              after[d].ip == if d == id then rec.ip else if d in before then before[d].ip else rec.ip
    ensures forall d :: d in after && d != id ==> d in before
  {
    forall d | d in after && d != id ensures d in before && after[d].ip == before[d].ip {
      assert d in after - {id} && d in before - {id};
    }
  }

  lemma OthersSame(before: Devs, after: Devs, id: string)
    requires DevsSameButLists(before, after)
    ensures DevsSameButLists(before - {id}, after - {id})
  {
  }

  lemma ReportedAgrees(b0: A.Book, b: A.Book, oks: set<string>, id: string, now: int, startup: bool,
                       claims: A.Claims)
    requires A.Reported(b0, b, oks, id, now, startup, claims)
    ensures A.Agree(b)
  {
  }

  lemma SweptAgrees(b0: A.Book, b: A.Book, id: string, now: int)
    requires A.Swept(b0, b, id, now)
    ensures A.Agree(b)
  {
  }

  lemma NoOwner(devs: Devs, l3: A.Table, devList: map<string, Option<string>>, id: string)
    requires Owned(devs, l3, devList)
    ensures id !in devs ==> forall net, ip :: !A.Owns(l3, id, net, ip)
  {
  }

  lemma StillDecoded(id: string, rec: Device, decoded: Device)
    requires Decoded(id, rec) && decoded == rec.(lastSeen := decoded.lastSeen, cdpId := decoded.cdpId)
    ensures Decoded(id, decoded) && decoded.ip == rec.ip && Claims(decoded) == Claims(rec)
  {
    hide Registrable;
  }

  /** An address may be given to the id id if no other device is stored for it. */
  lemma OwnedListed(devs: Devs, l3: A.Table, devList: map<string, Option<string>>, id: string, ip: string)
    requires Owned(devs, l3, devList) && ip in devList
    requires devList[ip].Some? && devList[ip].value != id ==> devList[ip].value !in devs
    ensures Owned(devs, l3, devList[ip := Some(id)])
  {
    hide A.Owner;
  }

  lemma UniqueAddress(devs: Devs, l3: A.Table, devList: map<string, Option<string>>, d: string)
    requires Owned(devs, l3, devList) && d in devs
    ensures forall e :: e in devs && e != d ==> devs[e].ip != devs[d].ip
  {
  }

  /** The device seen at an address before, when it is another one. */
  predicate Replaces(former: Option<string>, id: string) { former.Some? && former.value != id }

  /** A record that loses against the one stored for the same id at another address. */
  predicate Refused(devs: Devs, rec: Device, id: string) {
    id in devs && devs[id].ip != rec.ip && !Supersedes(rec, devs[id])
  }

  /** How an update ends. reply is the time the device was last seen at the address, or None if that could not be
      read; it is not asked for when the device at the address changes. */
  function Verdict(devs: Devs, devList: map<string, Option<string>>, rec: Device, id: string,
                   reply: Option<int>): Outcome
    requires rec.ip in devList
  {
    if Refused(devs, rec, id) then Conflict
    else if Replaces(devList[rec.ip], id) || reply.Some? then Stored
    else Failed
  }

  /** The time a stored record was last seen. */
  function LastSeen(devList: map<string, Option<string>>, rec: Device, id: string, reply: Option<int>): int
    requires rec.ip in devList
  {
    var seen := if Replaces(devList[rec.ip], id) || reply.None? then 0 else reply.value;
    if seen < rec.saveTime then rec.saveTime else seen
  }

  /** Another stored device, a working one, has the CDP id. */
  predicate CdpTaken(devs: Devs, cdp2dev: map<string, string>, c: string, id: string) {
    c in cdp2dev && cdp2dev[c] != id && cdp2dev[c] in devs && devs[cdp2dev[c]].ok
  }

  /** The table of CDP ids names, for the id of a working device, that device. */
  ghost predicate CdpRight(devs: Devs, cdp2dev: map<string, string>) {
    forall d :: d in devs && devs[d].ok && devs[d].cdpId.Some? ==>
      devs[d].cdpId.value in cdp2dev && cdp2dev[devs[d].cdpId.value] == d
  }

  lemma CdpFewer(a: Devs, b: Devs, cdp2dev: map<string, string>)
    requires CdpRight(a, cdp2dev) && forall d :: d in b ==> d in a && SameButLists(a[d], b[d])
    ensures CdpRight(b, cdp2dev)
  {
  }

  lemma CdpWiped(n0: Net, n: Net, id: string, cdp2dev: map<string, string>)
    requires CdpRight(n0.devs, cdp2dev) && Wiped(n0, id, n)
    ensures CdpRight(n.devs, cdp2dev)
  {
    hide SameButLists, Has, RefsOf;
    forall d | d in n.devs ensures d in n0.devs && SameButLists(n0.devs[d], n.devs[d]) {
      assert d in n0.devs - {id};
    }
    CdpFewer(n0.devs, n.devs, cdp2dev);
  }

  lemma CdpNoted(devs: Devs, cdp2dev: map<string, string>, rec: Device, id: string)
    requires CdpRight(devs, cdp2dev)
    ensures CdpRight(devs, WithCdp(cdp2dev, KeptCdp(devs, cdp2dev, rec, id), id))
  {
  }

  lemma CdpStored(before: Devs, after: Devs, rec0: Device, rec: Device, id: string, cdp2dev: map<string, string>)
    requires CdpRight(before, cdp2dev) && DevsSameButLists(before, after) && SameButLists(rec0, rec)
    requires rec0.cdpId.Some? ==> rec0.cdpId.value in cdp2dev && cdp2dev[rec0.cdpId.value] == id
    ensures CdpRight(after[id := rec], cdp2dev)
  {
    CdpFewer(before, after, cdp2dev);
  }

  lemma CdpSame(before: Devs, after: Devs, cdp2dev: map<string, string>)
    requires CdpRight(before, cdp2dev) && DevsSameButLists(before, after)
    ensures CdpRight(after, cdp2dev)
  {
    CdpFewer(before, after, cdp2dev);
  }

  /** The CDP id a record is stored with. */
  function KeptCdp(devs: Devs, cdp2dev: map<string, string>, rec: Device, id: string): Option<string> {
    if rec.cdpId.Some? && CdpTaken(devs, cdp2dev, rec.cdpId.value, id) then None else rec.cdpId
  }

  /** A record loses its CDP id if another working device is stored with it, and only to a working device. */
  lemma CdpLost(devs: Devs, cdp2dev: map<string, string>, rec: Device, id: string)
    requires CdpRight(devs, cdp2dev) && rec.cdpId.Some?
    ensures KeptCdp(devs, cdp2dev, rec, id) == rec.cdpId || KeptCdp(devs, cdp2dev, rec, id) == None
    ensures (exists d :: d in devs && d != id && devs[d].ok && devs[d].cdpId == rec.cdpId) ==>
              KeptCdp(devs, cdp2dev, rec, id) == None
    ensures KeptCdp(devs, cdp2dev, rec, id) == None ==>
              exists d :: d in devs && d != id && devs[d].ok && (rec.cdpId.value, d) in cdp2dev.Items
  {
    if KeptCdp(devs, cdp2dev, rec, id) == None {
      var d := cdp2dev[rec.cdpId.value];
      assert (rec.cdpId.value, d) in cdp2dev.Items;
    }
  }

  /** A device is last seen at the later of the times its data and its reply say; at an address that was another
      device's the reply does not count. */
  lemma SeenLatest(devList: map<string, Option<string>>, rec: Device, id: string, reply: int)
    requires rec.ip in devList
    ensures var seen := LastSeen(devList, rec, id, Some(reply));
            if devList[rec.ip] == None || devList[rec.ip] == Some(id) then
              seen >= rec.saveTime && seen >= reply && (seen == rec.saveTime || seen == reply)
            else seen >= rec.saveTime && seen >= 0 && (seen == rec.saveTime || seen == 0)
  {
  }

  function WithCdp(cdp2dev: map<string, string>, cdp: Option<string>, id: string): map<string, string> {
    if cdp.Some? then cdp2dev[cdp.value := id] else cdp2dev
  }

  /** The devices that make room for device id at address ip: its own record for another address, and the device
      known at the address before. */
  function Evicted(devs: Devs, devList: map<string, Option<string>>, ip: string, id: string): set<string> {
    (if id in devs && devs[id].ip != ip then {id} else {})
    + if ip in devList && devList[ip].Some? && devList[ip].value != id then {devList[ip].value} else {}
  }

  lemma EvictedParts(devs: Devs, devList: map<string, Option<string>>, ip: string, id: string)
    requires ip in devList
    ensures var former, all := devList[ip], Evicted(devs, devList, ip, id);
            var first := if id in devs && devs[id].ip != ip then devs.Keys - {id} else devs.Keys;
            devs.Keys - all == if former.Some? && former.value != id then first - {former.value} else first
  {
  }

  /** Nobody is stored for an address whose last device is gone. */
  lemma NobodyThere(devs: Devs, l3: A.Table, devList: map<string, Option<string>>, ip: string)
    requires Owned(devs, l3, devList) && ip in devList
    requires devList[ip].Some? ==> devList[ip].value !in devs
    ensures forall d :: d in devs ==> devs[d].ip != ip
  {
  }

  /** The list of addresses with ip in it; its device is not known yet. */
  function Noted(devList: map<string, Option<string>>, ip: string): map<string, Option<string>> {
    if ip in devList then devList else devList[ip := None]
  }

  lemma ListGrows(devs: Devs, l3: A.Table, devList: map<string, Option<string>>, ip: string)
    requires Owned(devs, l3, devList)
    ensures Owned(devs, l3, Noted(devList, ip))
  {
    hide A.Owns, PortsNamed;
  }

  lemma ListShrinks(devs: Devs, l3: A.Table, devList: map<string, Option<string>>, ip: string)
    requires Owned(devs, l3, devList) && forall d :: d in devs ==> devs[d].ip != ip
    ensures Owned(devs, l3, devList - {ip})
  {
    hide A.Owner, PortsNamed;
  }

  lemma AllListed(devs: Devs, l3: A.Table, devList: map<string, Option<string>>)
    requires Owned(devs, l3, devList)
    ensures forall d :: d in devs ==> devs[d].ip in devList
  {
  }

  lemma StartRelink(w: Work, cdp2dev: map<string, string>, l3: A.Table, devList: map<string, Option<string>>)
    requires Inv(w.net) && Owned(w.net.devs, l3, devList) && w.stored && w.id in w.net.devs && w.net.devs[w.id] == w.rec
    ensures Entering(w, cdp2dev, w, {})
  {
    hide Mid, NoneGone, PortsNamed, LinkNamed, A.Owner;
    StartStored(w.net, w.id);
    assert w == Work(w.net, w.net.devs[w.id], w.id, true);
    EnteringStarts(w, cdp2dev);
  }

  lemma FinishRelink(w0: Work, cdp2dev: map<string, string>, w: Work, seen: set<LinkId>, l3: A.Table,
                     devList: map<string, Option<string>>)
    requires Entering(w0, cdp2dev, w, seen) && w.stored && Owned(w0.net.devs, l3, devList)
    ensures Inv(w.net) && Owned(w.net.devs, l3, devList) && DevsSameButLists(w0.net.devs, w.net.devs)
    ensures forall k :: k in seen ==> k in w.net.links && Fresh(w.net.links[k], w0, cdp2dev)
    ensures forall k :: k in w0.net.links ==> k in w.net.links
    ensures forall k :: k in w.net.links && k !in seen ==> k in w0.net.links && w.net.links[k] == w0.net.links[k]
  {
    hide Mid, NoneGone, View, A.Owner, Keep, Inv, Owned, History;
    EnteringParts(w0, cdp2dev, w, seen);
    Commit(w, seen);
    RelinkView(w, seen);
    RelinkHistory(w0, cdp2dev, w, seen);
    OwnedSame(w0.net.devs, w.net.devs, l3, devList);
  }

  lemma EnteringParts(w0: Work, cdp2dev: map<string, string>, w: Work, seen: set<LinkId>)
    requires Entering(w0, cdp2dev, w, seen)
    ensures Mid(w, seen) && DevsSameButLists(w0.net.devs, w.net.devs) && History(w0, cdp2dev, w, seen, {})
  {
  }

  lemma RelinkHistory(w0: Work, cdp2dev: map<string, string>, w: Work, seen: set<LinkId>)
    requires History(w0, cdp2dev, w, seen, {})
    ensures forall k :: k in seen ==> k in w.net.links && Fresh(w.net.links[k], w0, cdp2dev)
    ensures forall k :: k in w0.net.links ==> k in w.net.links
    ensures forall k :: k in w.net.links && k !in seen ==> k in w0.net.links && w.net.links[k] == w0.net.links[k]
  {
    hide Keep, View, Fresh, Touches;
  }

  lemma OwnedSame(a: Devs, b: Devs, l3: A.Table, devList: map<string, Option<string>>)
    requires Owned(a, l3, devList) && DevsSameButLists(a, b)
    ensures Owned(b, l3, devList)
  {
    hide A.Owns;
    forall d | d in b ensures PortsNamed(b[d]) && b[d].ip == a[d].ip { PortsSameDev(a[d], b[d]); }
  }

  lemma RelinkView(w: Work, seen: set<LinkId>)
    requires Mid(w, seen) && w.stored
    ensures w.net.(devs := View(w)) == w.net
  {
    assert View(w) == w.net.devs;
  }

  lemma AddressUnique(devs: Devs, l3: A.Table, devList: map<string, Option<string>>, id: string, ip: string)
    requires Owned(devs, l3, devList) && ip in devList && devList[ip] == Some(id)
    ensures forall d :: d in devs && d != id ==> devs[d].ip != ip
  {
  }

  lemma OwnedWithout(n0: Net, b0: A.Book, n: Net, b: A.Book, devList: map<string, Option<string>>, id: string)
    requires Owned(n0.devs, b0.table, devList) && Wiped(n0, id, n) && A.AddressesWiped(b0, b, id)
    ensures Owned(n.devs, b.table, devList) && n.devs.Keys == n0.devs.Keys - {id}
    ensures forall d :: d in n.devs ==> n.devs[d].ip == n0.devs[d].ip
  {
    hide A.Owner, Has, RefsOf, PortsNamed;
    forall d | d in n.devs ensures PortsNamed(n.devs[d]) {
      PortsSameDev(n0.devs[d], n.devs[d]);
    }
    forall d, net, ip | A.Owns(b.table, d, net, ip) ensures d in n.devs {
      assert A.Owns(b0.table, d, net, ip);
    }
  }

  lemma OwnersFrom(devs: Devs, l3: A.Table, devList: map<string, Option<string>>)
    requires Owned(devs, l3, devList)
    ensures OwnersStored(devs, l3)
  {
    forall net, ip | A.Owner(l3, net, ip).Some? ensures A.Owner(l3, net, ip).value.dev in devs {
      assert A.Owns(l3, A.Owner(l3, net, ip).value.dev, net, ip);
    }
  }

  lemma WipingShrinks(n0: Net, b0: A.Book, n: Net, b: A.Book, devList: map<string, Option<string>>, id: string)
    requires Inv(n0) && Owned(n0.devs, b0.table, devList) && Wiped(n0, id, n) && A.AddressesWiped(b0, b, id)
    ensures Shrunk(n0, b0, n, b)
  {
    hide Owned, OwnersStored, Shrunk, Wiped, A.AddressesWiped, RefsExact;
    OwnersFrom(n0.devs, b0.table, devList);
    WipedShrinks(n0, b0, n, b, id);
  }

  lemma NothingShrinks(n: Net, b: A.Book, devList: map<string, Option<string>>)
    requires Inv(n) && Owned(n.devs, b.table, devList)
    ensures Shrunk(n, b, n, b)
  {
    hide Owned, OwnersStored, Shrunk, RefsExact, ListsSound;
    OwnersFrom(n.devs, b.table, devList);
    ShrunkSelf(n, b);
  }

  lemma PortsSameDev(a: Device, b: Device)
    requires PortsNamed(a) && SameButLists(a, b)
    ensures PortsNamed(b)
  {
  }

  lemma DecodedPorts(id: string, rec: Device)
    requires Decoded(id, rec)
    ensures PortsNamed(rec)
  {
  }

  lemma SameWorking(a: Devs, b: Devs)
    requires DevsSameButLists(a, b)
    ensures Working(a) == Working(b)
  {
  }

  lemma SameClaims(a: Device, b: Device)
    requires SameButLists(a, b)
    ensures Claims(a) == Claims(b) && b.ip == a.ip
  {
    hide Registrable;
  }

  lemma NothingReported(b: A.Book, oks: set<string>, id: string, now: int, startup: bool)
    requires A.Agree(b)
    ensures A.Reported(b, b, oks, id, now, startup, iset{})
  {
    hide A.Agree, A.Owner;
  }

  // ---------- glue ----------

  lemma PutViewExists(w: Work, g: Leg, k: LinkId, h: Leg)
    requires !w.stored && Exists(View(w), g) && Exists(View(w), h)
    ensures Exists(View(PutView(w, g, k)), h)
  {
    PutViewFacts(w, g, k);
    SameIfaces(View(w), View(PutView(w, g, k)), h);
  }

  /** Putting into lists does not depend on the link table and the index. */
  lemma KeptParts(w: Work, k: LinkId)
    requires !w.stored && k in w.net.links
    requires w.net.links[k].leg0.dev in View(w) && w.net.links[k].leg1.dev in View(w)
    ensures var l, w' := w.net.links[k], Kept(w, k);
            forall links, refs ::
              var w0 := w.(net := w.net.(links := links, refs := refs));
              && l.leg0.dev in View(w0) && l.leg1.dev in View(PutView(w0, l.leg0, k))
              && PutView(PutView(w0, l.leg0, k), l.leg1, k) == w'.(net := w'.net.(links := links, refs := refs))
  {
    hide Put, UpAt;
  }

  lemma KeepExists(l: Link, id: string, view: Devs)
    requires Keep(l, id, view)
    ensures Exists(view, l.leg0) && Exists(view, l.leg1)
  {
  }

  lemma OldTouches(w0: Work, cdp2dev: map<string, string>, w: Work, seen: set<LinkId>, handled: set<LinkId>,
                   stale: Device, i: string, k: LinkId)
    requires Sweeping(w0, cdp2dev, w, seen, handled, stale)
    requires i in stale.ifaces && k in stale.ifaces[i].links && k in w.net.links
    ensures Touches(w.net.links[k], w.id)
  {
    hide History, Unchanged, NamesClean, AllNamed, ListsSound, RefsExact, Progress, Coherent, View;
    assert Has(w.net.devs, Leg(w.id, i), k);
  }

  lemma LookedAtAll(w0: Work, cdp2dev: map<string, string>, w: Work, seen: set<LinkId>, handled: set<LinkId>,
                    stale: Device)
    requires Sweeping(w0, cdp2dev, w, seen, handled, stale)
    requires forall i, k :: i in stale.ifaces && k in stale.ifaces[i].links ==> k in seen + handled || k !in w.net.links
    ensures AllLooked(w, seen + handled)
  {
    hide Mid, History, Unchanged;
  }

  lemma SweptUnchanged(w0: Work, cdp2dev: map<string, string>, w: Work, seen: set<LinkId>, handled: set<LinkId>,
                       stale: Device)
    requires Sweeping(w0, cdp2dev, w, seen, handled, stale)
    ensures Unchanged(w0, w) && w.id == w0.id
  {
  }

  lemma InvNamed(n: Net)
    requires Inv(n)
    ensures AllNamed(n.links)
  {
  }

  lemma StartEntering(w: Work, cdp2dev: map<string, string>)
    requires Inv(w.net) && AllPortsNamed(w.net.devs) && !w.stored && Decoded(w.id, w.rec)
    ensures Entering(w, cdp2dev, w, {})
  {
    hide Mid, NoneGone, PortsNamed, LinkNamed;
    StartFresh(w.net, w.rec, w.id);
    assert w == Work(w.net, w.rec, w.id, false);
    EnteringStarts(w, cdp2dev);
  }

  lemma EverythingSeen(w0: Work, cdp2dev: map<string, string>, w: Work, rec: Device, lldp: set<LinkId>,
                       seen: set<LinkId>)
    requires Entering(w0, cdp2dev, w, seen) && LldpSeen(w0, rec, lldp) && lldp <= seen && ListsGrow(rec, w.rec)
    requires CdpSeen(w0, cdp2dev, w.rec, w.net.links, seen)
    ensures CdpTells(w0, cdp2dev, w.net.links, seen)
    ensures SeenExactly(w0, cdp2dev, seen) && Unchanged(w0, w)
    ensures !w.stored ==> SeenListed(w0, cdp2dev, w.rec, seen)
  {
    hide Mid, NoneGone, History, ReportsLldp, ReportsCdp, Key, List;
  }

  lemma StartSweep(w0: Work, cdp2dev: map<string, string>, w: Work, seen: set<LinkId>)
    requires Entering(w0, cdp2dev, w, seen) && !w.stored && w.id in w.net.devs
    requires SeenListed(w0, cdp2dev, w.rec, seen) && CdpTells(w0, cdp2dev, w.net.links, seen)
    ensures Sweeping(w0, cdp2dev, w, seen, {}, w.net.devs[w.id])
  {
    assert seen + {} == seen;
    hide Mid, NoneGone, History, Unchanged;
  }

  /** A device that was not stored before had no links. */
  lemma FinishNew(w0: Work, cdp2dev: map<string, string>, w: Work, seen: set<LinkId>)
    requires Inv(w0.net) && w0.id !in w0.net.devs && Entering(w0, cdp2dev, w, seen) && SeenExactly(w0, cdp2dev, seen)
    requires SeenListed(w0, cdp2dev, w.rec, seen) && CdpTells(w0, cdp2dev, w.net.links, seen)
    ensures Inv(w.net.(devs := View(w))) && Updated(w0, cdp2dev, w.net.links) && Unchanged(w0, w)
    ensures ListsRight(w0, cdp2dev, View(w), w.net.links)
  {
    hide Mid, NoneGone, Keep, Reported, ListsSound, AllNamed, NamesClean, Listed, StatusRight, View;
    forall k | k in w.net.links && Touches(w.net.links[k], w.id) ensures k in seen {
      LinkDevsNew(w0, k);
    }
    Commit(w, seen);
    hide Inv, SeenListed, ListsRight, CdpTells;
    ViewListsRight(w0, cdp2dev, w, seen);
    SweptTable(w0, cdp2dev, w, seen, {});
  }

  lemma LinkDevsNew(w: Work, k: LinkId)
    requires RefsExact(w.net.devs, w.net.links, w.net.refs) && w.id !in w.net.devs
    ensures k in w.net.links ==> !Touches(w.net.links[k], w.id)
  {
  }

  lemma UnchangedParts(w0: Work, w: Work)
    requires Unchanged(w0, w)
    ensures SameButLists(w0.rec, w.rec) && DevsSameButLists(w0.net.devs, w.net.devs)
  {
  }

  // ---------- what the two neighbour loops have covered ----------

  ghost predicate LldpDone(w0: Work, rec: Device, seen: set<LinkId>, p: string, n: LldpNeighbour) {
    p in w0.rec.lldpPorts && n in w0.rec.lldpPorts[p].neighbours && w0.rec.lldpPorts[p].ifName.Some? ==>
      var a, g := Leg(w0.id, w0.rec.lldpPorts[p].ifName.value), FindLldp(w0.net.devs, n);
      g.Some? && g.value != a ==> Key(a, g.value) in seen && Key(a, g.value) in List(rec, a.ifc)
  }

  ghost predicate CdpDone(w0: Work, cdp2dev: map<string, string>, rec: Device, links: Links, seen: set<LinkId>,
                          p: string, n: CdpNeighbour)
  {
    p in w0.rec.cdpPorts && n in w0.rec.cdpPorts[p].neighbours && w0.rec.cdpPorts[p].ifName.Some? ==>
      var a, g := Leg(w0.id, w0.rec.cdpPorts[p].ifName.value), FindCdp(w0.net.devs, cdp2dev, n);
      g.Some? && g.value != a ==> Key(a, g.value) in seen && Key(a, g.value) in List(rec, a.ifc)
                                        && CdpMade(links, Key(a, g.value))
  }

  ghost predicate LldpSeen(w0: Work, rec: Device, seen: set<LinkId>) {
    forall i, g :: ReportsLldp(w0, i, g) && g != Leg(w0.id, i) ==>
      Key(Leg(w0.id, i), g) in seen && Key(Leg(w0.id, i), g) in List(rec, i)
  }

  ghost predicate CdpSeen(w0: Work, cdp2dev: map<string, string>, rec: Device, links: Links, seen: set<LinkId>) {
    forall i, g :: ReportsCdp(w0, cdp2dev, i, g) && g != Leg(w0.id, i) ==>
      Key(Leg(w0.id, i), g) in seen && Key(Leg(w0.id, i), g) in List(rec, i)
      && CdpMade(links, Key(Leg(w0.id, i), g))
  }

  lemma LldpResolved(w0: Work, cdp2dev: map<string, string>, w: Work, seen: set<LinkId>, p: string, n: LldpNeighbour)
    requires Entering(w0, cdp2dev, w, seen) && w0.rec.hasChassisId
    requires p in w0.rec.lldpPorts && n in w0.rec.lldpPorts[p].neighbours && w0.rec.lldpPorts[p].ifName.Some?
    ensures var i, g := w0.rec.lldpPorts[p].ifName.value, FindLldp(w.net.devs, n);
            g == FindLldp(w0.net.devs, n)
            && (g.Some? ==> ReportsLldp(w0, i, g.value) && i in w0.rec.ifaces && i in w.rec.ifaces
                            && Exists(w0.net.devs, g.value) && Exists(w.net.devs, g.value))
  {
    hide Mid, NoneGone, History, Reported, FindLldp, FindCdp, View;
    FindSame(w0.net.devs, w.net.devs, cdp2dev, n, CdpNeighbour("", ""));
    FindExists(w0.net.devs, cdp2dev, n, CdpNeighbour("", ""));
    var g := FindLldp(w0.net.devs, n);
    if g.Some? { SameIfaces(w0.net.devs, w.net.devs, g.value); }
  }

  lemma CdpResolved(w0: Work, cdp2dev: map<string, string>, w: Work, seen: set<LinkId>, p: string, n: CdpNeighbour)
    requires Entering(w0, cdp2dev, w, seen) && w0.rec.cdpId.Some?
    requires p in w0.rec.cdpPorts && n in w0.rec.cdpPorts[p].neighbours && w0.rec.cdpPorts[p].ifName.Some?
    ensures var i, g := w0.rec.cdpPorts[p].ifName.value, FindCdp(w.net.devs, cdp2dev, n);
            g == FindCdp(w0.net.devs, cdp2dev, n)
            && (g.Some? ==> ReportsCdp(w0, cdp2dev, i, g.value) && i in w0.rec.ifaces && i in w.rec.ifaces
                            && Exists(w0.net.devs, g.value) && Exists(w.net.devs, g.value))
  {
    hide Mid, NoneGone, History, Reported, FindLldp, FindCdp, View;
    FindSame(w0.net.devs, w.net.devs, cdp2dev, LldpNeighbour("", 0, "", 0), n);
    FindExists(w0.net.devs, cdp2dev, LldpNeighbour("", 0, "", 0), n);
    var g := FindCdp(w0.net.devs, cdp2dev, n);
    if g.Some? { SameIfaces(w0.net.devs, w.net.devs, g.value); }
  }

  lemma SameRecord(w0: Work, cdp2dev: map<string, string>, w: Work, seen: set<LinkId>)
    requires Entering(w0, cdp2dev, w, seen)
    ensures w.rec.cdpPorts == w0.rec.cdpPorts && w.rec.cdpId == w0.rec.cdpId
    ensures w.rec.lldpPorts == w0.rec.lldpPorts && w.id == w0.id && w.stored == w0.stored
  {
  }

  lemma EnteringCoherent(w0: Work, cdp2dev: map<string, string>, w: Work, seen: set<LinkId>)
    requires Entering(w0, cdp2dev, w, seen)
    ensures Coherent(w)
  {
  }

  lemma NothingToDo(w0: Work, cdp2dev: map<string, string>, rec: Device, links: Links, seen: set<LinkId>)
    ensures forall p, n :: p in w0.rec.lldpPorts ==>
              w0.rec.lldpPorts[p].ifName.None? || n !in w0.rec.lldpPorts[p].neighbours ==> LldpDone(w0, rec, seen, p, n)
    ensures forall p, n :: p in w0.rec.cdpPorts ==>
              w0.rec.cdpPorts[p].ifName.None? || n !in w0.rec.cdpPorts[p].neighbours ==>
                CdpDone(w0, cdp2dev, rec, links, seen, p, n)
  {
    hide FindLldp, FindCdp, Key;
  }

  lemma LldpMore(w0: Work, rec: Device, seen: set<LinkId>, rec': Device, seen': set<LinkId>)
    requires seen <= seen' && ListsGrow(rec, rec')
    ensures forall p, n :: LldpDone(w0, rec, seen, p, n) ==> LldpDone(w0, rec', seen', p, n)
  {
    hide FindLldp, Key, List;
  }

  lemma CdpMore(w0: Work, cdp2dev: map<string, string>, rec: Device, links: Links, seen: set<LinkId>, rec': Device,
                links': Links, seen': set<LinkId>)
    requires seen <= seen' && ListsGrow(rec, rec') && CdpGrows(links, links')
    ensures forall p, n :: CdpDone(w0, cdp2dev, rec, links, seen, p, n) ==>
              CdpDone(w0, cdp2dev, rec', links', seen', p, n)
  {
    hide FindCdp, Key, List, CdpMade;
  }

  lemma GrowRefl(a: Device)
    ensures ListsGrow(a, a)
  {
  }

  lemma GrowTrans(a: Device, b: Device, c: Device)
    requires ListsGrow(a, b) && ListsGrow(b, c)
    ensures ListsGrow(a, c)
  {
    hide List;
  }

  lemma LldpAllSeen(w0: Work, rec: Device, seen: set<LinkId>)
    requires w0.rec.hasChassisId ==> forall p, n :: p in w0.rec.lldpPorts ==> LldpDone(w0, rec, seen, p, n)
    ensures LldpSeen(w0, rec, seen)
  {
    hide FindLldp, Key;
    forall i, g | ReportsLldp(w0, i, g) && g != Leg(w0.id, i)
      ensures Key(Leg(w0.id, i), g) in seen && Key(Leg(w0.id, i), g) in List(rec, i)
    {
      var p, n :| p in w0.rec.lldpPorts && n in w0.rec.lldpPorts[p].neighbours
                  && w0.rec.lldpPorts[p].ifName == Some(i) && FindLldp(w0.net.devs, n) == Some(g);
      assert LldpDone(w0, rec, seen, p, n);
    }
  }

  lemma CdpAllSeen(w0: Work, cdp2dev: map<string, string>, rec: Device, links: Links, seen: set<LinkId>)
    requires w0.rec.cdpId.Some? ==> forall p, n :: p in w0.rec.cdpPorts ==> CdpDone(w0, cdp2dev, rec, links, seen, p, n)
    ensures CdpSeen(w0, cdp2dev, rec, links, seen)
  {
    hide FindCdp, Key;
    forall i, g | ReportsCdp(w0, cdp2dev, i, g) && g != Leg(w0.id, i)
      ensures Key(Leg(w0.id, i), g) in seen && Key(Leg(w0.id, i), g) in List(rec, i)
              && CdpMade(links, Key(Leg(w0.id, i), g))
    {
      var p, n :| p in w0.rec.cdpPorts && n in w0.rec.cdpPorts[p].neighbours
                  && w0.rec.cdpPorts[p].ifName == Some(i) && FindCdp(w0.net.devs, cdp2dev, n) == Some(g);
      assert CdpDone(w0, cdp2dev, rec, links, seen, p, n);
    }
  }

  /** The owners among the pairs in done that are device id's are gone from the table. */
  ghost predicate OwnersCleared(b0: A.Book, t: A.Table, id: string, done: iset<(string, string)>) {
    && (forall net :: net in t ==> t[net] != map[])
    && forall net, ip :: A.Owner(t, net, ip) ==
         if (net, ip) in done && A.Owns(b0.table, id, net, ip) then None else A.Owner(b0.table, net, ip)
  }

  lemma ClearOwner(b0: A.Book, t: A.Table, id: string, done: iset<(string, string)>, net: string, ip: string)
    requires OwnersCleared(b0, t, id, done)
    ensures OwnersCleared(b0, if A.Owns(t, id, net, ip) then A.DropOwner(t, net, ip) else t, id, done + iset{(net, ip)})
  {
    A.DropOwnerFacts(t, net, ip);
    hide A.DropOwner, A.Owner;
  }

  lemma AddressesGone(b0: A.Book, t: A.Table, id: string, done: iset<(string, string)>)
    requires A.Agree(b0) && OwnersCleared(b0, t, id, done)
    requires forall net, ip :: A.Holds(b0.held, id, net, ip) ==> (net, ip) in done
    ensures A.AddressesWiped(b0, A.Book(t, b0.held - {id}), id)
  {
    hide A.Owner;
    forall d, net, ip ensures A.Holds(b0.held - {id}, d, net, ip) <==> d != id && A.Holds(b0.held, d, net, ip) { }
    hide A.Holds;
  }

  lemma WipeStart(n: Net, id: string)
    ensures Wiping(n, id, {}, n.(devs := n.devs - {id}))
  {
    DevsSameRefl(n.devs - {id});
    hide SameButLists, List;
  }

  // ---------- devices named by addresses that go ----------

  /** One of the addresses was last used by device d. */
  ghost predicate Named(devList: map<string, Option<string>>, ips: set<string>, d: string) {
    exists ip :: ip in ips && ip in devList && devList[ip] == Some(d)
  }

  lemma NamedMore(devList: map<string, Option<string>>, ips: set<string>, ip: string)
    requires ip in devList
    ensures forall d :: Named(devList, ips + {ip}, d) <==> Named(devList, ips, d) || devList[ip] == Some(d)
  {
  }

  lemma NobodyNamed(devList: map<string, Option<string>>, ips: set<string>)
    requires ips == {}
    ensures forall d :: !Named(devList, ips, d)
  {
  }

  lemma GoneMore(all: set<string>, listed: set<string>, ips: set<string>, ip: string)
    requires ip in ips && ips <= all
    ensures all - listed - (ips - {ip}) == if ip in listed then all - listed - ips else all - listed - ips + {ip}
  {
  }

  lemma NamedMeans(devList: map<string, Option<string>>, listed: set<string>)
    ensures forall d :: Named(devList, devList.Keys - listed, d) <==>
                        exists ip :: ip in devList && ip !in listed && devList[ip] == Some(d)
  {
  }
}
