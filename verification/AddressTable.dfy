/** The layer 3 table: which device owns an address of a network, and the index, per device,
    of the addresses it owns. */
module AddressTable {
  import opened Basics

  datatype Entry = Entry(dev: string, ifc: string, time: int)

  type Table = map<string, map<string, Entry>>
  type Held = map<string, map<string, set<string>>>

  datatype Book = Book(table: Table, held: Held)

  function Owner(t: Table, net: string, ip: string): Option<Entry> {
    if net in t && ip in t[net] then Some(t[net][ip]) else None
  }

  predicate Owns(t: Table, d: string, net: string, ip: string) {
    Owner(t, net, ip).Some? && Owner(t, net, ip).value.dev == d
  }

  predicate Holds(h: Held, d: string, net: string, ip: string) {
    d in h && net in h[d] && ip in h[d][net]
  }

  /** Table and index agree both ways, and no network is stored without an address. */
  ghost predicate Agree(b: Book) {
    && (forall d, net, ip :: Holds(b.held, d, net, ip) <==> Owns(b.table, d, net, ip))
    && (forall net :: net in b.table ==> b.table[net] != map[])
  }

  // ---------- single edits ----------

  function SetOwner(t: Table, net: string, ip: string, e: Entry): Table {
    t[net := (if net in t then t[net] else map[])[ip := e]]
  }

  /** Deletes an address, and its network if that was its last address. */
  function DropOwner(t: Table, net: string, ip: string): Table {
    if net !in t then t
    else if t[net] - {ip} == map[] then t - {net}
    else t[net := t[net] - {ip}]
  }

  function Hold(h: Held, d: string, net: string, ip: string): Held {
    var nets := if d in h then h[d] else map[];
    h[d := nets[net := (if net in nets then nets[net] else {}) + {ip}]]
  }

  /** Takes an address out of a device's index, and empty parts of the index with it. */
  function Release(h: Held, d: string, net: string, ip: string): Held {
    if d !in h || net !in h[d] then h
    else
      var ips := h[d][net] - {ip};
      var nets := if ips == {} then h[d] - {net} else h[d][net := ips];
      if nets == map[] then h - {d} else h[d := nets]
  }

  lemma SetOwnerFacts(t: Table, net: string, ip: string, e: Entry)
    ensures forall n, i ::
              Owner(SetOwner(t, net, ip, e), n, i) == if n == net && i == ip then Some(e) else Owner(t, n, i)
    ensures forall n :: n in SetOwner(t, net, ip, e) && n !in t ==> n == net
    ensures SetOwner(t, net, ip, e)[net] != map[]
  {
    assert ip in SetOwner(t, net, ip, e)[net];
  }

  lemma DropOwnerFacts(t: Table, net: string, ip: string)
    ensures forall n, i :: Owner(DropOwner(t, net, ip), n, i) == if n == net && i == ip then None else Owner(t, n, i)
    ensures forall n :: n in DropOwner(t, net, ip) ==> n in t && (t[n] != map[] ==> DropOwner(t, net, ip)[n] != map[])
  {
    if net in t && t[net] - {ip} == map[] {
      forall i | i in t[net] ensures i == ip {
        assert i in t[net] - {ip} || i == ip;
      }
    }
  }

  lemma HoldFacts(h: Held, d: string, net: string, ip: string)
    ensures forall e, n, i ::
              Holds(Hold(h, d, net, ip), e, n, i) <==> Holds(h, e, n, i) || (e == d && n == net && i == ip)
  {
  }

  lemma ReleaseFacts(h: Held, d: string, net: string, ip: string)
    ensures forall e, n, i ::
              Holds(Release(h, d, net, ip), e, n, i) <==> Holds(h, e, n, i) && !(e == d && n == net && i == ip)
  {
    if d in h && net in h[d] {
      var ips := h[d][net] - {ip};
      if ips == {} {
        forall i | i in h[d][net] ensures i == ip {
          assert i in ips || i == ip;
        }
        if h[d] - {net} == map[] {
          forall n | n in h[d] ensures n == net {
            assert n in h[d] - {net} || n == net;
          }
        }
      } else {
        assert net in h[d][net := ips];
      }
    }
  }

  // ---------- one reported address ----------

  /** Whether an address that is taken by e has to be left alone. ok says whether e's device is stored and "ok". */
  predicate Conflict(e: Entry, id: string, ifc: string, now: int, startup: bool, ok: bool) {
    && (e.dev != id || e.ifc != ifc)
    && (startup || (ok && (e.dev != id || e.time == now)))
  }

  predicate Taken(t: Table, oks: set<string>, id: string, ifc: string, net: string, ip: string, now: int,
                  startup: bool)
  {
    match Owner(t, net, ip)
    case None => false
    case Some(e) => Conflict(e, id, ifc, now, startup, e.dev in oks)
  }

  /** The book after device id reported address ip of network net on interface ifc.
      oks are the stored devices that are "ok". */
  function Report(b: Book, oks: set<string>, id: string, ifc: string, net: string, ip: string, now: int,
                  startup: bool): Book
  {
    if Taken(b.table, oks, id, ifc, net, ip, now, startup) then b
    else
      var held := match Owner(b.table, net, ip)
                  case Some(e) => if e.dev != id || e.ifc != ifc then Release(b.held, e.dev, net, ip) else b.held
                  case None => b.held;
      Book(SetOwner(b.table, net, ip, Entry(id, ifc, now)), Hold(held, id, net, ip))
  }

  lemma ReportAgrees(b: Book, oks: set<string>, id: string, ifc: string, net: string, ip: string, now: int,
                     startup: bool)
    requires Agree(b)
    ensures Agree(Report(b, oks, id, ifc, net, ip, now, startup))
  {
    hide SetOwner, Hold, Release, Owner, Holds;
    var held := match Owner(b.table, net, ip)
                case Some(e) => if e.dev != id || e.ifc != ifc then Release(b.held, e.dev, net, ip) else b.held
                case None => b.held;
    SetOwnerFacts(b.table, net, ip, Entry(id, ifc, now));
    SetOwnerKeeps(b.table, net, ip, Entry(id, ifc, now));
    HoldFacts(held, id, net, ip);
    if Owner(b.table, net, ip).Some? { ReleaseFacts(b.held, Owner(b.table, net, ip).value.dev, net, ip); }
  }

  lemma SetOwnerKeeps(t: Table, net: string, ip: string, e: Entry)
    ensures forall n :: n in t && n != net ==> n in SetOwner(t, net, ip, e) && SetOwner(t, net, ip, e)[n] == t[n]
    ensures net in SetOwner(t, net, ip, e)
  {
  }

  /** Removing one address of a device from both views. */
  function Remove(b: Book, d: string, net: string, ip: string): Book {
    Book(DropOwner(b.table, net, ip), Release(b.held, d, net, ip))
  }

  lemma RemoveAgrees(b: Book, d: string, net: string, ip: string)
    requires Agree(b) && Owns(b.table, d, net, ip)
    ensures Agree(Remove(b, d, net, ip))
  {
    hide DropOwner, Release, Holds, Owner;
    DropOwnerFacts(b.table, net, ip);
    ReleaseFacts(b.held, d, net, ip);
  }

  // ---------- all reported addresses of a device ----------

  /** An entry that a report of the address does not replace. */
  predicate Blocks(e: Entry, oks: set<string>, id: string, now: int, startup: bool) {
    startup || (e.dev in oks && (e.dev != id || e.time == now))
  }

  /** Address ip of network net was reported on some interface among the claims. */
  ghost predicate Claimed(claims: Claims, net: string, ip: string) {
    exists i :: (i, net, ip) in claims
  }

  /** The claims, one per interface, network and address. */
  type Claims = iset<(string, string, string)>

  /** The book after the claims: claimed addresses are decided, all others are as before. */
  ghost predicate Reported(b0: Book, b: Book, oks: set<string>, id: string, now: int, startup: bool, claims: Claims) {
    && Agree(b)
    && (forall net, ip :: !Claimed(claims, net, ip) ==> Owner(b.table, net, ip) == Owner(b0.table, net, ip))
    && forall net, ip :: Claimed(claims, net, ip) ==> Decided(b0, b, oks, id, now, startup, claims, net, ip)
  }

  /** Who owns a claimed address afterwards. A blocking owner keeps it: another device exactly as it was, the device
      itself with the time of now if it reported the same interface again. If nothing blocks, the device owns the
      address since now, on an interface that reported it. */
  ghost predicate Decided(b0: Book, b: Book, oks: set<string>, id: string, now: int, startup: bool, claims: Claims,
                          net: string, ip: string)
  {
    var o := Owner(b0.table, net, ip);
    if o.Some? && Blocks(o.value, oks, id, now, startup) then
      Owner(b.table, net, ip) == Some(Kept(o.value, id, now, claims, net, ip))
    else Since(b.table, id, now, claims, net, ip)
  }

  ghost function Kept(e: Entry, id: string, now: int, claims: Claims, net: string, ip: string): Entry {
    if e.dev == id && (e.ifc, net, ip) in claims then e.(time := now) else e
  }

  ghost predicate Since(t: Table, id: string, now: int, claims: Claims, net: string, ip: string) {
    exists i :: (i, net, ip) in claims && Owner(t, net, ip) == Some(Entry(id, i, now))
  }

  lemma ReportStep(b0: Book, b: Book, oks: set<string>, id: string, now: int, startup: bool, claims: Claims,
                   ifc: string, net: string, ip: string)
    requires Reported(b0, b, oks, id, now, startup, claims)
    ensures var b' := Report(b, oks, id, ifc, net, ip, now, startup);
            Reported(b0, b', oks, id, now, startup, claims + iset{(ifc, net, ip)})
  {
    hide SetOwner, Hold, Release, Owner, Holds, Agree, Decided;
    var b' := Report(b, oks, id, ifc, net, ip, now, startup);
    var claims' := claims + iset{(ifc, net, ip)};
    ReportAgrees(b, oks, id, ifc, net, ip, now, startup);
    SetOwnerFacts(b.table, net, ip, Entry(id, ifc, now));
    assert (ifc, net, ip) in claims';
    forall n, a ensures Claimed(claims', n, a) <==> Claimed(claims, n, a) || (n == net && a == ip) {
      ClaimedMore(claims, ifc, net, ip, n, a);
    }
    forall n, a | Claimed(claims', n, a) ensures Decided(b0, b', oks, id, now, startup, claims', n, a) {
      if (n, a) != (net, ip) {
        DecidedElsewhere(b0, b, b', oks, id, now, startup, claims, ifc, net, ip, n, a);
      } else {
        DecidedHere(b0, b, oks, id, now, startup, claims, ifc, net, ip);
      }
    }
  }

  lemma ClaimedMore(claims: Claims, ifc: string, net: string, ip: string, n: string, a: string)
    ensures Claimed(claims + iset{(ifc, net, ip)}, n, a) <==> Claimed(claims, n, a) || (n == net && a == ip)
  {
    var claims' := claims + iset{(ifc, net, ip)};
    if Claimed(claims, n, a) {
      var i :| (i, n, a) in claims;
      assert (i, n, a) in claims';
    }
    assert (ifc, net, ip) in claims';
  }

  lemma DecidedElsewhere(b0: Book, b: Book, b': Book, oks: set<string>, id: string, now: int, startup: bool,
                         claims: Claims, ifc: string, net: string, ip: string, n: string, a: string)
    requires (n, a) != (net, ip) && Owner(b'.table, n, a) == Owner(b.table, n, a)
    requires Decided(b0, b, oks, id, now, startup, claims, n, a)
    ensures Decided(b0, b', oks, id, now, startup, claims + iset{(ifc, net, ip)}, n, a)
  {
    hide Owner;
    if Since(b.table, id, now, claims, n, a) {
      var i :| (i, n, a) in claims && Owner(b.table, n, a) == Some(Entry(id, i, now));
      assert (i, n, a) in claims + iset{(ifc, net, ip)};
    }
  }

  lemma DecidedHere(b0: Book, b: Book, oks: set<string>, id: string, now: int, startup: bool, claims: Claims,
                    ifc: string, net: string, ip: string)
    requires Reported(b0, b, oks, id, now, startup, claims)
    ensures var b' := Report(b, oks, id, ifc, net, ip, now, startup);
            Decided(b0, b', oks, id, now, startup, claims + iset{(ifc, net, ip)}, net, ip)
  {
    hide SetOwner, Hold, Release, Owner, Holds, Agree;
    var claims' := claims + iset{(ifc, net, ip)};
    SetOwnerFacts(b.table, net, ip, Entry(id, ifc, now));
    assert (ifc, net, ip) in claims';
    var o := Owner(b0.table, net, ip);
    if Claimed(claims, net, ip) && !(o.Some? && Blocks(o.value, oks, id, now, startup)) {
      var i :| (i, net, ip) in claims && Owner(b.table, net, ip) == Some(Entry(id, i, now));
      assert (i, net, ip) in claims';
    }
  }

  // ---------- stale and wiped addresses ----------

  predicate Stale(o: Option<Entry>, id: string, now: int) {
    o.Some? && o.value.dev == id && o.value.time != now
  }

  /** The addresses that device id owned before this moment and did not report again are gone. */
  ghost predicate Swept(b0: Book, b: Book, id: string, now: int) {
    && Agree(b)
    && forall net, ip :: Owner(b.table, net, ip) ==
         if Stale(Owner(b0.table, net, ip), id, now) then None else Owner(b0.table, net, ip)
  }

  /** The addresses of device id are gone, and nothing else. */
  ghost predicate AddressesWiped(b0: Book, b: Book, id: string) {
    && Agree(b)
    && forall net, ip ::
         Owner(b.table, net, ip) == if Owns(b0.table, id, net, ip) then None else Owner(b0.table, net, ip)
  }

  /** Work in progress: the pairs in done were looked at, and cleared if they met the condition. */
  ghost predicate Cleared(b0: Book, b: Book, done: iset<(string, string)>, gone: iset<(string, string)>) {
    && Agree(b)
    && forall net, ip :: Owner(b.table, net, ip) ==
         if (net, ip) in done && (net, ip) in gone then None else Owner(b0.table, net, ip)
  }

  lemma ClearOne(b0: Book, b: Book, d: string, done: iset<(string, string)>, gone: iset<(string, string)>,
                 net: string, ip: string)
    requires Cleared(b0, b, done, gone)
    requires (net, ip) in gone ==> Owns(b0.table, d, net, ip)
    ensures (net, ip) in gone && (net, ip) !in done ==> Cleared(b0, Remove(b, d, net, ip), done + iset{(net, ip)}, gone)
    ensures (net, ip) !in gone ==> Cleared(b0, b, done + iset{(net, ip)}, gone)
  {
    hide DropOwner, Release, Holds, Agree, Owner;
    if (net, ip) in gone && (net, ip) !in done {
      RemoveAgrees(b, d, net, ip);
      DropOwnerFacts(b.table, net, ip);
    }
  }
}
