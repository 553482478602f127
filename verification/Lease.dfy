/** The lock kept in redis as a key with a time to live: what each command does, and what any number of
    clients can rely on. Times are milliseconds of one clock. */
module Lease {
  import opened Basics

  type Token = string

  datatype Cell = Cell(token: Token, expires: int)

  /** A client's mutex, and the end of the lease it was last told about. */
  datatype Client = Client(locked: bool, token: Token, until: int)

  datatype Answer = Fine | Busy | Timeout | AlreadyLocked | NotLocked | Expired | NotUs | RedisError

  /** A command may get lost on its way, or its reply on the way back. */
  datatype Fault = NoFault | RequestLost | ReplyLost

  /** The key, the client and the answer after a command. */
  datatype Outcome = Outcome(key: Option<Cell>, client: Client, answer: Answer)

  function Live(key: Option<Cell>, now: int): Option<Cell> {
    if key.Some? && now < key.value.expires then key else None
  }

  function TryLock(key: Option<Cell>, now: int, c: Client, token: Token, d: int, fault: Fault): Outcome {
    if c.locked then Outcome(key, c, AlreadyLocked)
    else if fault.RequestLost? || d <= 0 then Outcome(key, c, RedisError)
    else if Live(key, now).Some? then Outcome(key, c, if fault.ReplyLost? then RedisError else Busy)
    else
      var taken := Some(Cell(token, now + d));
      if fault.ReplyLost? then Outcome(taken, c, RedisError)
      else Outcome(taken, Client(true, token, now + d), Fine)
  }

  /** The time to live is set whoever holds the key; a time that is not positive deletes the key. */
  function Prolong(key: Option<Cell>, now: int, c: Client, d: int, fault: Fault): Outcome {
    if !c.locked then Outcome(key, c, NotLocked)
    else if fault.RequestLost? then Outcome(key, c, RedisError)
    else
      match Live(key, now)
      case None => Outcome(key, c, if fault.ReplyLost? then RedisError else Expired)
      case Some(cell) =>
        var moved := if d <= 0 then None else Some(Cell(cell.token, now + d));
        if fault.ReplyLost? then Outcome(moved, c, RedisError) else Outcome(moved, c.(until := now + d), Fine)
  }

  function Unlock(key: Option<Cell>, now: int, c: Client, fault: Fault): Outcome {
    if !c.locked then Outcome(key, c, NotLocked)
    else
      var left := c.(locked := false);
      if fault.RequestLost? then Outcome(key, left, RedisError)
      else
        match Live(key, now)
        case None => Outcome(key, left, if fault.ReplyLost? then RedisError else Expired)
        case Some(cell) =>
          if cell.token == c.token then Outcome(None, left, if fault.ReplyLost? then RedisError else Fine)
          else Outcome(key, left, if fault.ReplyLost? then RedisError else NotUs)
  }

  // ---------- many clients ----------

  type Id = nat

  datatype Sys = Sys(now: int, key: Option<Cell>, clients: map<Id, Client>, used: set<Token>)

  datatype Event =
    | Pass(time: nat)
    | DoLock(i: Id, token: Token, d: int, fault: Fault)
    | DoProlong(i: Id, d: int, fault: Fault)
    | DoUnlock(i: Id, fault: Fault)

  function With(s: Sys, i: Id, o: Outcome): Sys { s.(key := o.key, clients := s.clients[i := o.client]) }

  function Step(s: Sys, e: Event): Sys {
    match e
    case Pass(time) => s.(now := s.now + time)
    case DoLock(i, token, d, fault) =>
      if i !in s.clients then s
      else With(s, i, TryLock(s.key, s.now, s.clients[i], token, d, fault)).(used := s.used + {token})
    case DoProlong(i, d, fault) =>
      if i !in s.clients then s else With(s, i, Prolong(s.key, s.now, s.clients[i], d, fault))
    case DoUnlock(i, fault) =>
      if i !in s.clients then s else With(s, i, Unlock(s.key, s.now, s.clients[i], fault))
  }

  function Run(s: Sys, es: seq<Event>): Sys
    decreases |es|
  {
    if es == [] then s else Step(Run(s, es[..|es| - 1]), es[|es| - 1])
  }

  /** The client believes it holds the lock, and was promised it until a time not yet reached. */
  predicate InLease(s: Sys, i: Id) {
    i in s.clients && s.clients[i].locked && s.now < s.clients[i].until
  }

  ghost predicate AtMostOne(s: Sys) {
    forall i, j :: InLease(s, i) && InLease(s, j) ==> i == j
  }

  /** A token is used for one attempt to lock only. */
  ghost predicate FreshTokens(s: Sys, e: Event) { e.DoLock? ==> e.token !in s.used }

  /** A client prolongs only while its own lease lasts, and never to an earlier end without being told. */
  ghost predicate ProlongsInTime(s: Sys, e: Event) {
    e.DoProlong? && e.i in s.clients && s.clients[e.i].locked ==>
      && s.now < s.clients[e.i].until
      && (e.fault.ReplyLost? ==> s.clients[e.i].until <= s.now + e.d)
  }

  ghost predicate Fresh(s: Sys, es: seq<Event>) {
    forall k :: 0 <= k < |es| ==> FreshTokens(Run(s, es[..k]), es[k])
  }

  ghost predicate InTime(s: Sys, es: seq<Event>) {
    forall k :: 0 <= k < |es| ==> ProlongsInTime(Run(s, es[..k]), es[k])
  }

  /** Nobody has asked for the lock yet. */
  ghost predicate Unused(s: Sys) {
    s.key == None && forall i :: i in s.clients ==> !s.clients[i].locked
  }

  // ---------- what every command keeps ----------

  /** Tokens tell the holders apart. */
  ghost predicate Distinct(s: Sys) {
    && (s.key.Some? ==> s.key.value.token in s.used)
    && (forall i :: i in s.clients && s.clients[i].locked ==> s.clients[i].token in s.used)
    && forall i, j :: i in s.clients && j in s.clients && s.clients[i].locked && s.clients[j].locked && i != j ==>
         s.clients[i].token != s.clients[j].token
  }

  /** Whoever is in its lease owns the key for at least that long. */
  ghost predicate Backed(s: Sys) {
    forall i :: InLease(s, i) ==>
      s.key.Some? && s.key.value.token == s.clients[i].token && s.clients[i].until <= s.key.value.expires
  }

  lemma StepDistinct(s: Sys, e: Event)
    requires Distinct(s) && FreshTokens(s, e)
    ensures Distinct(Step(s, e))
  {
    if e.DoUnlock? {
      hide TryLock, Prolong;
    } else if e.DoProlong? {
      hide TryLock, Unlock;
    } else {
      hide Unlock, Prolong;
    }
  }

  lemma StepBacked(s: Sys, e: Event)
    requires Distinct(s) && Backed(s) && FreshTokens(s, e) && ProlongsInTime(s, e)
    ensures Backed(Step(s, e))
  {
    var t := Step(s, e);
    forall i | InLease(t, i)
      ensures t.key.Some? && t.key.value.token == t.clients[i].token && t.clients[i].until <= t.key.value.expires
    {
      assert InLease(s, i) || e.DoLock? || e.DoProlong?;
    }
  }

  lemma BackedExcludes(s: Sys)
    requires Distinct(s) && Backed(s)
    ensures AtMostOne(s)
  {
  }

  lemma {:induction false} RunKeeps(s: Sys, es: seq<Event>)
    requires Unused(s) && Fresh(s, es)
    ensures Distinct(Run(s, es))
    ensures InTime(s, es) ==> Backed(Run(s, es))
    decreases |es|
  {
    hide Step;
    if es != [] {
      var k := |es| - 1;
      var before := es[..k];
      assert forall j :: 0 <= j < k ==> before[..j] == es[..j] && before[j] == es[j];
      RunKeeps(s, before);
      StepDistinct(Run(s, before), es[k]);
      if InTime(s, es) { StepBacked(Run(s, before), es[k]); }
    }
  }

  /** Mutual exclusion, in every interleaving of lockings, unlockings, expiries, lost messages and timely
      prolongations. */
  lemma {:induction false} MutualExclusion(s: Sys, es: seq<Event>)
    requires Unused(s) && Fresh(s, es) && InTime(s, es)
    ensures AtMostOne(Run(s, es))
  {
    RunKeeps(s, es);
    BackedExcludes(Run(s, es));
  }

  /** However late an unlock comes, and however keys were prolonged before, it leaves the key of another holder
      alone: the key changes only if it carries the client's own token. */
  lemma {:induction false} LateUnlock(s: Sys, es: seq<Event>, i: Id, j: Id, fault: Fault)
    requires Unused(s) && Fresh(s, es) && i != j
    ensures var t := Run(s, es);
            j in t.clients && t.clients[j].locked && t.key.Some? && t.key.value.token == t.clients[j].token
            ==> Step(t, DoUnlock(i, fault)).key == t.key
  {
    RunKeeps(s, es);
  }

  // ---------- prolonging without looking ----------

  /** A prolongation that reports success keeps every lease backed exactly when the key carried the caller's own
      token: the comparison the command does not make. */
  lemma ProlongExact(s: Sys, i: Id, d: int)
    requires Distinct(s) && Backed(s) && d > 0
    requires i in s.clients && s.clients[i].locked && Live(s.key, s.now).Some?
    ensures Backed(Step(s, DoProlong(i, d, NoFault))) <==> s.key.value.token == s.clients[i].token
    ensures AtMostOne(Step(s, DoProlong(i, d, NoFault))) <==> forall j :: InLease(s, j) ==> j == i
  {
    var t := Step(s, DoProlong(i, d, NoFault));
    assert InLease(t, i);
    forall j ensures j != i ==> (InLease(t, j) <==> InLease(s, j)) { }
    if s.key.value.token == s.clients[i].token {
      forall j | InLease(t, j)
        ensures t.key.value.token == t.clients[j].token && t.clients[j].until <= t.key.value.expires { }
    }
  }

  /** A client whose own lease lasts finds its own token in the key. */
  lemma OwnKey(s: Sys, i: Id)
    requires Backed(s) && InLease(s, i)
    ensures Live(s.key, s.now) == s.key && s.key.Some? && s.key.value.token == s.clients[i].token
  {
  }

  /** So a prolongation in time is safe. */
  lemma TimelyProlong(s: Sys, i: Id, d: int)
    requires Distinct(s) && Backed(s) && d > 0 && InLease(s, i)
    ensures Backed(Step(s, DoProlong(i, d, NoFault))) && AtMostOne(Step(s, DoProlong(i, d, NoFault)))
  {
    hide Step, Backed, Distinct, AtMostOne;
    OwnKey(s, i);
    ProlongExact(s, i, d);
    StepDistinct(s, DoProlong(i, d, NoFault));
    BackedExcludes(Step(s, DoProlong(i, d, NoFault)));
  }

  // ---------- what a client is told, and what it gets ----------

  /** An attempt to lock succeeds exactly if nobody holds the key, and the lease then lasts exactly as long as asked. */
  lemma LockExact(s: Sys, i: Id, token: Token, d: int, t: nat)
    requires i in s.clients && !s.clients[i].locked && d > 0
    ensures var o := TryLock(s.key, s.now, s.clients[i], token, d, NoFault);
            var free := s.key.None? || s.key.value.expires <= s.now;
            && o.answer == (if free then Fine else Busy)
            && Step(s, DoLock(i, token, d, NoFault)).clients[i].locked == free
            && (free ==> (InLease(Step(Step(s, DoLock(i, token, d, NoFault)), Pass(t)), i) <==> t < d))
            && (!free ==> Step(s, DoLock(i, token, d, NoFault)).key == s.key)
  {
    hide Prolong, Unlock;
  }

  /** A holder that is never heard of again blocks the others for its lease and no longer. */
  lemma LeaseRunsOut(s: Sys, i: Id, token: Token, d: int, t: nat, j: Id, other: Token, e: int)
    requires i in s.clients && j in s.clients && i != j && !s.clients[i].locked && !s.clients[j].locked
    requires d > 0 && e > 0 && Live(s.key, s.now) == None
    ensures var later := Step(Step(s, DoLock(i, token, d, NoFault)), Pass(t));
            Step(later, DoLock(j, other, e, NoFault)).clients[j].locked <==> t >= d
  {
    hide Prolong, Unlock;
  }

  /** An unlock within the lease frees the key: whoever asks next gets it. */
  lemma UnlockFrees(s: Sys, i: Id, j: Id, token: Token, d: int)
    requires Backed(s) && InLease(s, i) && j in s.clients && (j == i || !s.clients[j].locked) && d > 0
    ensures var freed := Step(s, DoUnlock(i, NoFault));
            && Unlock(s.key, s.now, s.clients[i], NoFault).answer == Fine
            && freed.key == None && !freed.clients[i].locked
            && InLease(Step(freed, DoLock(j, token, d, NoFault)), j)
  {
    OwnKey(s, i);
    hide Backed, Prolong;
  }

  /** The answers to an unlock: done, if the key is there with the client's token; held by another, if it is there with
      another token, which then stays; and expired otherwise. Without a lock nothing happens. */
  lemma UnlockTold(key: Option<Cell>, now: int, c: Client)
    ensures var o := Unlock(key, now, c, NoFault);
            && (o.answer == NotLocked <==> !c.locked)
            && (o.answer == Fine <==>
                  c.locked && key.Some? && now < key.value.expires && key.value.token == c.token)
            && (o.answer == NotUs <==>
                  c.locked && key.Some? && now < key.value.expires && key.value.token != c.token)
            && (o.answer == Expired <==> c.locked && (key.None? || key.value.expires <= now))
            && o.key == (if o.answer == Fine then None else key) && o.client == c.(locked := false)
  {
  }

  /** The answers to a prolongation: a key that is there gets the new time, whoever holds it. */
  lemma ProlongTold(key: Option<Cell>, now: int, c: Client, d: int)
    requires d > 0
    ensures var o := Prolong(key, now, c, d, NoFault);
            && (o.answer == NotLocked <==> !c.locked)
            && (o.answer == Fine <==> c.locked && key.Some? && now < key.value.expires)
            && (o.answer == Expired <==> c.locked && (key.None? || key.value.expires <= now))
            && (if o.answer == Fine then
                  o.key == Some(Cell(key.value.token, now + d)) && o.client == Client(true, c.token, now + d)
                else o.key == key && o.client == c)
  {
  }

  /** A command that is lost leaves the key alone. One whose reply is lost does its work all the same. Either way the
      client is told of an error, and an attempt to lock or prolong leaves it as it was. */
  lemma LostMessages(key: Option<Cell>, now: int, c: Client, token: Token, d: int)
    requires d > 0
    ensures !c.locked ==>
              && TryLock(key, now, c, token, d, RequestLost) == Outcome(key, c, RedisError)
              && TryLock(key, now, c, token, d, ReplyLost)
                 == Outcome(TryLock(key, now, c, token, d, NoFault).key, c, RedisError)
    ensures c.locked ==>
              && Prolong(key, now, c, d, RequestLost) == Outcome(key, c, RedisError)
              && Prolong(key, now, c, d, ReplyLost) == Outcome(Prolong(key, now, c, d, NoFault).key, c, RedisError)
              && Unlock(key, now, c, RequestLost) == Outcome(key, c.(locked := false), RedisError)
              && Unlock(key, now, c, ReplyLost)
                 == Outcome(Unlock(key, now, c, NoFault).key, c.(locked := false), RedisError)
  {
  }

  // ---------- a prolongation that comes too late ----------

  /** The first client prolongs after its lease has run out and the second has taken the lock: both are then
      told that they hold it. */
  lemma LateProlong(first: Token, second: Token)
    requires first != second
    ensures var idle := Client(false, first, 0);
            var s := Sys(0, None, map[0 := idle, 1 := idle], {});
            var es := [DoLock(0, first, 10, NoFault), Pass(20), DoLock(1, second, 10, NoFault),
                       DoProlong(0, 10, NoFault)];
            && Unused(s) && Fresh(s, es) && InLease(Run(s, es), 0) && InLease(Run(s, es), 1)
  {
    var idle := Client(false, first, 0);
    var s := Sys(0, None, map[0 := idle, 1 := idle], {});
    var e0, e1 := DoLock(0, first, 10, NoFault), Pass(20);
    var e2, e3 := DoLock(1, second, 10, NoFault), DoProlong(0, 10, NoFault);
    RunFour(s, e0, e1, e2, e3);
    hide Run;
    var held := Client(true, first, 10);
    assert Step(Step(s, e0), e1) == Sys(20, Some(Cell(first, 10)), map[0 := held, 1 := idle], {first});
  }

  lemma RunFour(s: Sys, e0: Event, e1: Event, e2: Event, e3: Event)
    ensures var es := [e0, e1, e2, e3];
            && Run(s, es[..0]) == s && Run(s, es[..1]) == Step(s, e0) && Run(s, es[..2]) == Step(Step(s, e0), e1)
            && Run(s, es[..3]) == Step(Step(Step(s, e0), e1), e2)
            && Run(s, es) == Step(Step(Step(Step(s, e0), e1), e2), e3)
  {
    hide Step;
    var es := [e0, e1, e2, e3];
    RunLast(s, es[..0], e0);
    RunLast(s, es[..1], e1);
    RunLast(s, es[..2], e2);
    RunLast(s, es[..3], e3);
    assert es[..0] == [] && es[..1] == es[..0] + [e0] && es[..2] == es[..1] + [e1];
    assert es[..3] == es[..2] + [e2] && es == es[..3] + [e3];
  }

  lemma RunLast(s: Sys, es: seq<Event>, e: Event)
    ensures Run(s, es + [e]) == Step(Run(s, es), e)
    ensures Run(s, []) == s
  {
    hide Step;
    assert (es + [e])[..|es|] == es;
  }
}
