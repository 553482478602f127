/** What the address table says after a device was processed, told by the record and the entries alone. */
module AddressLaws {
  import opened Basics
  import opened Topology
  import opened BrokerFacts
  import A = AddressTable

  /** The table gives address ip of network net to e. */
  ghost predicate Gives(t: A.Table, net: string, ip: string, e: A.Entry) {
    exists ips :: (net, ips) in t.Items && (ip, e) in ips.Items
  }

  /** The record has the address on interface i, which is enabled, and the address is not a loopback, link-local or
      zero address. */
  ghost predicate Carries(rec: Device, i: string, net: string, ip: string) {
    && i in rec.ifaces && rec.ifaces[i].adminUp && (ip, Some(net)) in rec.ifaces[i].ips.Items
    && forall rest :: ip != "127." + rest && ip != "169.254." + rest && ip != "0." + rest
  }

  ghost predicate CarriedBy(rec: Device, net: string, ip: string) {
    exists i :: Carries(rec, i, net, ip)
  }

  /** An owner gives way to a device that carries the address if it is not a stored device that works. While the
      stored records are loaded nobody does. */
  ghost predicate GivesWay(e: A.Entry, devs: Devs, startup: bool) {
    !startup && (e.dev in devs ==> !devs[e.dev].ok)
  }

  /** An entry of this very moment remains if its device works or does not carry the address. */
  ghost predicate Remains(e: A.Entry, devs: Devs, rec: Device, net: string, ip: string) {
    (e.dev in devs && devs[e.dev].ok) || !CarriedBy(rec, net, ip)
  }

  /** The table after device id was processed. Another device keeps an address exactly as it was, or loses it, which
      happens exactly if the record carries the address and that device gives way; nobody else gains anything. The
      device owns each address it carries unless another one keeps it, and what it owns is of this moment, on an
      interface that carries the address, or as it was made at this moment already. */
  ghost predicate Assigned(devs: Devs, t0: A.Table, t: A.Table, rec: Device, id: string, now: int, startup: bool) {
    && (forall net, ip, e :: Gives(t, net, ip, e) && e.dev != id ==> Gives(t0, net, ip, e))
    && (forall net, ip, e :: Gives(t0, net, ip, e) && e.dev != id ==>
          (Gives(t, net, ip, e) <==> !(CarriedBy(rec, net, ip) && GivesWay(e, devs, startup))))
    && (forall net, ip :: CarriedBy(rec, net, ip) ==>
          exists e :: Gives(t, net, ip, e) && (e.dev == id || !GivesWay(e, devs, startup)))
    && (forall net, ip, e :: Gives(t, net, ip, e) && e.dev == id ==>
          && e.time == now
          && (Carries(rec, e.ifc, net, ip) || (Gives(t0, net, ip, e) && Remains(e, devs, rec, net, ip))))
    && (forall net, ip, e :: Gives(t0, net, ip, e) && e.dev == id && e.time == now ==>
          Remains(e, devs, rec, net, ip) ==> Gives(t, net, ip, e))
  }

  lemma GivesIs(t: A.Table, net: string, ip: string, e: A.Entry)
    ensures Gives(t, net, ip, e) <==> A.Owner(t, net, ip) == Some(e)
  {
    if A.Owner(t, net, ip) == Some(e) {
      assert (net, t[net]) in t.Items && (ip, e) in t[net].Items;
    }
  }

  lemma StartsWith(ip: string, p: string)
    ensures p <= ip <==> exists rest :: ip == p + rest
  {
    if p <= ip { assert ip == p + ip[|p|..]; }
  }

  lemma CarriesIs(rec: Device, i: string, net: string, ip: string)
    ensures Carries(rec, i, net, ip) <==> (i, net, ip) in Claims(rec)
  {
    StartsWith(ip, "127.");
    StartsWith(ip, "169.254.");
    StartsWith(ip, "0.");
  }

  lemma CarriedIs(rec: Device, net: string, ip: string)
    ensures CarriedBy(rec, net, ip) <==> A.Claimed(Claims(rec), net, ip)
  {
    hide Carries, Claims;
    forall i ensures Carries(rec, i, net, ip) <==> (i, net, ip) in Claims(rec) { CarriesIs(rec, i, net, ip); }
  }

  /** One address. */
  lemma OneAssigned(devs: Devs, b0: A.Book, b: A.Book, rec: Device, id: string, now: int, startup: bool,
                   net: string, ip: string)
    requires AddressesUpdated(b0, b, Working(devs), id, now, startup, Claims(rec))
    requires startup ==> !A.Owns(b0.table, id, net, ip)
    ensures var o, p, carried := A.Owner(b0.table, net, ip), A.Owner(b.table, net, ip), CarriedBy(rec, net, ip);
            && (p.Some? && p.value.dev != id ==> p == o)
            && (o.Some? && o.value.dev != id ==> (p == o <==> !(carried && GivesWay(o.value, devs, startup))))
            && (carried ==> p.Some? && (p.value.dev == id || !GivesWay(p.value, devs, startup)))
            && (p.Some? && p.value.dev == id ==>
                  && p.value.time == now
                  && (Carries(rec, p.value.ifc, net, ip) || (p == o && Remains(p.value, devs, rec, net, ip))))
            && (o.Some? && o.value.dev == id && o.value.time == now && Remains(o.value, devs, rec, net, ip) ==> p == o)
  {
    hide Carries, CarriedBy, Claims, A.Owner;
    CarriedIs(rec, net, ip);
    forall i ensures Carries(rec, i, net, ip) <==> (i, net, ip) in Claims(rec) { CarriesIs(rec, i, net, ip); }
  }

  lemma UpdatedAssigned(devs: Devs, b0: A.Book, b: A.Book, rec: Device, id: string, now: int, startup: bool)
    requires AddressesUpdated(b0, b, Working(devs), id, now, startup, Claims(rec))
    requires startup ==> forall net, ip :: !A.Owns(b0.table, id, net, ip)
    ensures Assigned(devs, b0.table, b.table, rec, id, now, startup)
  {
    hide Gives, Carries, CarriedBy, GivesWay, Remains, A.Owner, A.Owns, AddressesUpdated, Claims, Working;
    forall net, ip, e
      ensures Gives(b0.table, net, ip, e) <==> A.Owner(b0.table, net, ip) == Some(e)
      ensures Gives(b.table, net, ip, e) <==> A.Owner(b.table, net, ip) == Some(e)
    {
      GivesIs(b0.table, net, ip, e);
      GivesIs(b.table, net, ip, e);
    }
    forall net, ip
      ensures var o, p, carried := A.Owner(b0.table, net, ip), A.Owner(b.table, net, ip), CarriedBy(rec, net, ip);
              && (p.Some? && p.value.dev != id ==> p == o)
              && (o.Some? && o.value.dev != id ==> (p == o <==> !(carried && GivesWay(o.value, devs, startup))))
              && (carried ==> p.Some? && (p.value.dev == id || !GivesWay(p.value, devs, startup)))
              && (p.Some? && p.value.dev == id ==>
                    && p.value.time == now
                    && (Carries(rec, p.value.ifc, net, ip) || (p == o && Remains(p.value, devs, rec, net, ip))))
              && (o.Some? && o.value.dev == id && o.value.time == now && Remains(o.value, devs, rec, net, ip) ==>
                    p == o)
    {
      assert startup ==> !A.Owns(b0.table, id, net, ip);
      OneAssigned(devs, b0, b, rec, id, now, startup, net, ip);
    }
    forall net, ip | CarriedBy(rec, net, ip)
      ensures exists e :: Gives(b.table, net, ip, e) && (e.dev == id || !GivesWay(e, devs, startup))
    {
      assert Gives(b.table, net, ip, A.Owner(b.table, net, ip).value);
    }
  }

  // ---------- the table in every reachable state ----------

  /** The index of a device names an address exactly if the table gives it to the device, which is stored then, and no
      network is kept without an address. */
  ghost predicate Indexed(devs: Devs, t: A.Table, held: A.Held) {
    && (forall d, net, ip :: GivesTo(t, net, ip, d) <==> d in held && net in held[d] && ip in held[d][net])
    && (forall net, ip, e :: Gives(t, net, ip, e) ==> e.dev in devs)
    && (forall net :: net in t ==> t[net] != map[])
  }

  ghost predicate GivesTo(t: A.Table, net: string, ip: string, d: string) {
    exists e :: Gives(t, net, ip, e) && e.dev == d
  }

  lemma AgreeIndexed(devs: Devs, b: A.Book, devList: map<string, Option<string>>)
    requires A.Agree(b) && Owned(devs, b.table, devList)
    ensures Indexed(devs, b.table, b.held)
  {
    hide Gives, A.Holds;
    forall net, ip, e ensures Gives(b.table, net, ip, e) <==> A.Owner(b.table, net, ip) == Some(e) {
      GivesIs(b.table, net, ip, e);
    }
    forall net, ip, e | Gives(b.table, net, ip, e) ensures e.dev in devs { assert A.Owns(b.table, e.dev, net, ip); }
    forall d, net, ip ensures GivesTo(b.table, net, ip, d) <==> A.Owns(b.table, d, net, ip) { }
    IndexHolds(b);
  }

  lemma IndexHolds(b: A.Book)
    requires A.Agree(b)
    ensures forall d, net, ip ::
              A.Owns(b.table, d, net, ip) <==> d in b.held && net in b.held[d] && ip in b.held[d][net]
  {
    forall d, net, ip
      ensures A.Owns(b.table, d, net, ip) <==> d in b.held && net in b.held[d] && ip in b.held[d][net]
    {
      assert A.Holds(b.held, d, net, ip) <==> A.Owns(b.table, d, net, ip);
    }
  }
}
