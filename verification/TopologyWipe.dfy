/** Removing a device: the pure edits of wipe_dev, and what is left afterwards. */
module TopologyWipe {
  import opened Basics
  import opened LinkKey
  import opened Topology

  /** The end of a link that the wiped device does not own, judged by the creator alone. */
  function Neighbour(l: Link, id: string): Leg {
    if l.creator == id then l.leg1 else l.leg0
  }

  function TakeAt(devs: Devs, g: Leg, k: LinkId): Devs {
    if g.dev in devs then devs[g.dev := Take(devs[g.dev], g.ifc, k)] else devs
  }

  function RefDel(refs: Refs, d: string, k: LinkId): Refs {
    if d in refs then refs[d := refs[d] - {k}] else refs
  }

  /** What wipe_dev does for one link of the reference index. */
  function WipeOne(n: Net, id: string, k: LinkId): Net {
    if k !in n.links then n
    else
      var nei := Neighbour(n.links[k], id);
      if nei.dev == id then n.(links := n.links - {k})
      else Net(TakeAt(n.devs, nei, k), n.links - {k}, RefDel(n.refs, nei.dev, k))
  }

  /** Device id is gone, and so are the links in done, from every view but id's own index. */
  ghost predicate Wiping(n0: Net, id: string, done: set<LinkId>, n: Net) {
    && DevsSameButLists(n0.devs - {id}, n.devs)
    && (forall g, k :: Has(n.devs, g, k) <==> g.dev != id && Has(n0.devs, g, k) && k !in done)
    && n.links == n0.links - done
    && (forall d, k :: k in RefsOf(n.refs, d) <==> k in RefsOf(n0.refs, d) && (d == id || k !in done))
    && (ListsOnce(n0.devs) ==> ListsOnce(n.devs))
  }

  /** Device id is gone from every view, together with exactly the links that touched it. */
  ghost predicate Wiped(n0: Net, id: string, n: Net) {
    && DevsSameButLists(n0.devs - {id}, n.devs)
    && n.links == (map k | k in n0.links && !Touches(n0.links[k], id) :: n0.links[k])
    && (forall g, k :: Has(n.devs, g, k) <==> Has(n0.devs, g, k) && k in n.links)
    && (forall d, k :: k in RefsOf(n.refs, d) <==> k in RefsOf(n0.refs, d) && k in n.links)
    && (ListsOnce(n0.devs) ==> ListsOnce(n.devs))
  }

  lemma TakeAtFacts(devs: Devs, g: Leg, k: LinkId)
    ensures DevsSameButLists(devs, TakeAt(devs, g, k))
    ensures forall h, x :: Has(TakeAt(devs, g, k), h, x) <==> Has(devs, h, x) && !(h == g && x == k)
    ensures ListsOnce(devs) ==> ListsOnce(TakeAt(devs, g, k))
  {
    if g.dev in devs {
      TakeFacts(devs[g.dev], g.ifc, k);
      hide Take, List, DeviceOnce;
      forall h, x ensures Has(TakeAt(devs, g, k), h, x) <==> Has(devs, h, x) && !(h == g && x == k) {
        assert Leg(h.dev, h.ifc) == h;
      }
    }
  }

  lemma RefDelFacts(refs: Refs, d: string, k: LinkId)
    ensures forall e, x :: x in RefsOf(RefDel(refs, d, k), e) <==> x in RefsOf(refs, e) && !(e == d && x == k)
  {
  }

  lemma {:induction false} WipeOneStep(n0: Net, id: string, done: set<LinkId>, n: Net, k: LinkId)
    requires Inv(n0) && Wiping(n0, id, done, n) && k in RefsOf(n0.refs, id) && k !in done
    ensures Wiping(n0, id, done + {k}, WipeOne(n, id, k))
  {
    hide Has, RefsOf, DevsSameButLists, TakeAt, RefDel, Key, Clean, ListsSound, RefsExact, NamesClean, Listed;
    hide StatusRight;
    OnlyNeighbour(n0, id, k);
    var l := n0.links[k];
    var nei := Neighbour(l, id);
    assert n.links[k] == l && LinkNamed(k, l);
    var m := WipeOne(n, id, k);
    assert m.links == n0.links - (done + {k});
    if nei.dev != id {
      TakeAtFacts(n.devs, nei, k);
      DevsSameTrans(n0.devs - {id}, n.devs, m.devs);
      RefDelFacts(n.refs, nei.dev, k);
    }
  }

  /** Apart from the wiped device itself, only its neighbour on a link knows the link. */
  lemma OnlyNeighbour(n0: Net, id: string, k: LinkId)
    requires Inv(n0) && k in RefsOf(n0.refs, id)
    ensures k in n0.links
    ensures var nei := Neighbour(n0.links[k], id);
            && (forall g :: Has(n0.devs, g, k) && g.dev != id ==> g == nei)
            && (forall d :: k in RefsOf(n0.refs, d) && d != id ==> d == nei.dev)
  {
    hide Has, RefsOf, SameButLists, Key, Clean;
    assert LinkNamed(k, n0.links[k]);
  }

  /** When the whole index of the device has been worked off, the rest is a sound net. */
  lemma {:induction false} WipeEnds(n0: Net, id: string, n: Net)
    requires Inv(n0) && Wiping(n0, id, RefsOf(n0.refs, id), n)
    ensures var w := n.(refs := n.refs - {id}); Wiped(n0, id, w) && Inv(w)
  {
    hide List, Key, Has, SameButLists;
    var w := n.(refs := n.refs - {id});
    forall d, k ensures k in RefsOf(w.refs, d) <==> k in RefsOf(n0.refs, d) && k in w.links {
      assert d == id ==> RefsOf(w.refs, d) == {};
      assert d != id ==> RefsOf(w.refs, d) == RefsOf(n.refs, d);
    }
    WipedLinks(n0, id, n);
    WipedInv(n0, id, w);
  }

  lemma WipedLinks(n0: Net, id: string, n: Net)
    requires RefsExact(n0.devs, n0.links, n0.refs) && Wiping(n0, id, RefsOf(n0.refs, id), n)
    requires ListsSound(n0.devs, n0.links)
    ensures n.links == (map k | k in n0.links && !Touches(n0.links[k], id) :: n0.links[k])
    ensures forall g, k :: Has(n.devs, g, k) <==> Has(n0.devs, g, k) && k in n.links
  {
    hide Has, RefsOf, DevsSameButLists;
  }

  lemma {:induction false} WipedInv(n0: Net, id: string, n: Net)
    requires Inv(n0) && Wiped(n0, id, n)
    ensures Inv(n)
  {
    hide Has, RefsOf, List, Key, Clean, UpAt, ListsSound, RefsExact, NamesClean;
    WipedNames(n0, id, n);
    WipedViews(n0, id, n);
    forall k | k in n.links
      ensures Listed(n.devs, k, n.links[k]) && StatusRight(n.devs, n.links[k])
    {
      var l := n.links[k];
      assert Listed(n0.devs, k, l) && StatusRight(n0.devs, l);
      LinkDevs(n, k);
      SameUpAt(n0.devs, n.devs, l.leg0);
      SameUpAt(n0.devs, n.devs, l.leg1);
    }
  }

  lemma LinkDevs(n: Net, k: LinkId)
    requires RefsExact(n.devs, n.links, n.refs) && k in n.links
    ensures n.links[k].leg0.dev in n.devs && n.links[k].leg1.dev in n.devs
  {
  }

  lemma WipedViews(n0: Net, id: string, n: Net)
    requires ListsSound(n0.devs, n0.links) && RefsExact(n0.devs, n0.links, n0.refs) && Wiped(n0, id, n)
    ensures ListsSound(n.devs, n.links) && RefsExact(n.devs, n.links, n.refs)
  {
    hide Has, RefsOf, SameButLists;
  }

  lemma WipedNames(n0: Net, id: string, n: Net)
    requires NamesClean(n0.devs) && DevsSameButLists(n0.devs - {id}, n.devs)
    ensures NamesClean(n.devs)
  {
    hide Clean;
  }
}
