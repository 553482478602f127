/** What is left of the tables when devices go: everything that belongs to the others, untouched. */
module Shrinking {
  import opened Basics
  import opened LinkKey
  import opened Topology
  import opened TopologyWipe
  import A = AddressTable

  /** Some devices are gone. The others have the same records; a link is left, as it was, if both its devices are;
      the link lists name the links that are left; and an address is left with its owner. */
  ghost predicate Shrunk(n0: Net, b0: A.Book, n: Net, b: A.Book) {
    && DevsSameButLists(map d | d in n0.devs && d in n.devs :: n0.devs[d], n.devs)
    && n.links == (map k | k in n0.links && Between(n.devs, n0.links[k]) :: n0.links[k])
    && (forall g, k :: Has(n.devs, g, k) <==> Has(n0.devs, g, k) && k in n.links)
    && (forall net, ip :: A.Owner(b.table, net, ip) == Among(n.devs, A.Owner(b0.table, net, ip)))
  }

  predicate Between(devs: Devs, l: Link) { l.leg0.dev in devs && l.leg1.dev in devs }

  function Among(devs: Devs, o: Option<A.Entry>): Option<A.Entry> {
    if o.Some? && o.value.dev in devs then o else None
  }

  ghost predicate OwnersStored(devs: Devs, t: A.Table) {
    forall net, ip :: A.Owner(t, net, ip).Some? ==> A.Owner(t, net, ip).value.dev in devs
  }

  lemma ShrunkSelf(n: Net, b: A.Book)
    requires RefsExact(n.devs, n.links, n.refs) && ListsSound(n.devs, n.links) && OwnersStored(n.devs, b.table)
    ensures Shrunk(n, b, n, b)
  {
    hide Has, RefsOf, A.Owner;
    assert (map d | d in n.devs && d in n.devs :: n.devs[d]) == n.devs;
  }

  lemma {:induction false} ShrunkTrans(n0: Net, b0: A.Book, n1: Net, b1: A.Book, n2: Net, b2: A.Book)
    requires Shrunk(n0, b0, n1, b1) && Shrunk(n1, b1, n2, b2)
    ensures Shrunk(n0, b0, n2, b2)
  {
    hide Has, A.Owner, SameButLists;
    assert forall d :: d in n2.devs ==> d in n1.devs && d in n0.devs;
    forall d | d in n2.devs ensures SameButLists(n0.devs[d], n2.devs[d]) {
      SameTrans(n0.devs[d], n1.devs[d], n2.devs[d]);
    }
  }

  lemma WipedShrinks(n0: Net, b0: A.Book, n: Net, b: A.Book, id: string)
    requires RefsExact(n0.devs, n0.links, n0.refs) && OwnersStored(n0.devs, b0.table)
    requires Wiped(n0, id, n) && A.AddressesWiped(b0, b, id)
    ensures Shrunk(n0, b0, n, b)
  {
    hide Has, RefsOf, SameButLists;
    assert (map d | d in n0.devs && d in n.devs :: n0.devs[d]) == n0.devs - {id};
    assert n.devs.Keys == n0.devs.Keys - {id};
    hide A.Agree, DevsSameButLists;
    assert forall k :: k in n0.links ==> (Touches(n0.links[k], id) <==> !Between(n.devs, n0.links[k]));
  }
}
