/** The mutex object and the redis server it talks to. */
module LeaseMutex {
  import opened Basics
  import opened Lease

  const WAIT := 500

  /** One turn of the retry loop as the world decides it: the text of the clock, the fate of the command, and,
      if the client goes to sleep, how long it sleeps and what the others make of the key meanwhile. */
  datatype Turn = Turn(token: Token, fault: Fault, slept: nat, key: Option<Cell>)

  type World = nat -> Turn

  /** The clock and the key at turn k. */
  function NowAt(w: World, now: int, k: nat): int {
    if k == 0 then now else NowAt(w, now, k - 1) + w(k - 1).slept
  }

  function KeyAt(w: World, key: Option<Cell>, k: nat): Option<Cell> {
    if k == 0 then key else w(k - 1).key
  }

  /** What turn k brings a client that is not locked. */
  function Tried(w: World, key: Option<Cell>, now: int, c: Client, d: int, k: nat): Outcome {
    TryLock(KeyAt(w, key, k), NowAt(w, now, k), c, w(k).token, d, w(k).fault)
  }

  class Redis {
    var now: int
    var key: Option<Cell>

    constructor (now: int)
      ensures this.now == now && key == None
    {
      this.now, key := now, None;
    }

    /** SET key token PX d NX: None if the reply says nothing or does not come. */
    method SetNx(token: Token, d: int, fault: Fault) returns (reply: Option<bool>)
      modifies this`key
      ensures var idle := Client(false, token, now);
              var o := TryLock(old(key), now, idle, token, d, fault);
              && key == o.key
              && (reply == None <==> o.answer == RedisError)
              && (reply == Some(true) <==> o.answer == Fine)
              && (reply == Some(false) <==> o.answer == Busy)
    {
      if fault == RequestLost || d <= 0 { return None; }
      if key.Some? && now < key.value.expires {
        return if fault == ReplyLost then None else Some(false);
      }
      key := Some(Cell(token, now + d));
      return if fault == ReplyLost then None else Some(true);
    }

    /** PEXPIRE key d: one if there was a key. */
    method Pexpire(d: int, fault: Fault) returns (reply: Option<int>)
      modifies this`key
      ensures var held := Client(true, "", now);
              var o := Lease.Prolong(old(key), now, held, d, fault);
              && key == o.key
              && (reply == None <==> o.answer == RedisError)
              && (reply == Some(1) <==> o.answer == Fine)
              && (reply == Some(0) <==> o.answer == Expired)
    {
      if fault == RequestLost { return None; }
      if key.Some? && now < key.value.expires {
        key := if d <= 0 then None else Some(Cell(key.value.token, now + d));
        return if fault == ReplyLost then None else Some(1);
      }
      return if fault == ReplyLost then None else Some(0);
    }

    /** The script that compares the token and deletes the key. */
    method CompareAndDelete(token: Token, fault: Fault) returns (reply: Option<int>)
      modifies this`key
      ensures var held := Client(true, token, now);
              var o := Lease.Unlock(old(key), now, held, fault);
              && key == o.key
              && (reply == None <==> o.answer == RedisError)
              && (reply == Some(1) <==> o.answer == Fine)
              && (reply == Some(0) <==> o.answer == NotUs)
              && (reply == Some(-1) <==> o.answer == Expired)
    {
      if fault == RequestLost { return None; }
      var r := -1;
      if key.Some? && now < key.value.expires {
        if key.value.token == token {
          key := None;
          r := 1;
        } else {
          r := 0;
        }
      }
      return if fault == ReplyLost then None else Some(r);
    }
  }

  class Mutex {
    var locked: bool
    var lock: Token
    ghost var until: int

    ghost function Client(): Client
      reads this
    {
      Lease.Client.Client(locked, lock, until)
    }

    constructor ()
      ensures !locked
    {
      locked, lock, until := false, "", 0;
    }

    /** Tries until the lock is taken, redis fails, or no turn is left before the deadline. */
    method Lock(red: Redis, d: int, timeout: int, w: World) returns (answer: Answer, k: nat)
      requires forall i :: w(i).slept >= WAIT
      modifies this, red
      ensures old(locked) ==>
                && answer == AlreadyLocked && Client() == old(Client())
                && red.key == old(red.key) && red.now == old(red.now)
      ensures !old(locked) ==>
                var o := Tried(w, old(red.key), old(red.now), old(Client()), d, k);
                && red.now == NowAt(w, old(red.now), k) && red.key == o.key && Client() == o.client
                && answer == if o.answer == Busy then Timeout else o.answer
      ensures !old(locked) ==> forall j :: 0 <= j < k ==>
                Tried(w, old(red.key), old(red.now), old(Client()), d, j).answer == Busy
      ensures !old(locked) ==> k * WAIT <= red.now - old(red.now)
      ensures k > 0 ==> NowAt(w, old(red.now), k - 1) + WAIT <= old(red.now) + timeout
      ensures answer == Timeout ==> red.now + 500 > old(red.now) + timeout
    {
      k := 0;
      if locked { return AlreadyLocked, 0; }
      var deadline := red.now + timeout;
      ghost var key0, now0, c := red.key, red.now, Client();
      while true
        invariant red.now == NowAt(w, now0, k) && red.key == KeyAt(w, key0, k) && Client() == c && !locked
        invariant forall j :: 0 <= j < k ==> Tried(w, key0, now0, c, d, j).answer == Busy
        invariant k * WAIT <= red.now - now0
        invariant k > 0 ==> NowAt(w, now0, k - 1) + WAIT <= deadline
        decreases deadline - red.now
      {
        var turn := w(k);
        var reply := red.SetNx(turn.token, d, turn.fault);
        if reply == None { return RedisError, k; }
        if reply.value {
          locked, lock, until := true, turn.token, red.now + d;
          return Fine, k;
        }
        if red.now + WAIT > deadline { return Timeout, k; }
        red.now, red.key, k := red.now + turn.slept, turn.key, k + 1;
      }
    }

    method Prolong(red: Redis, d: int, fault: Fault) returns (answer: Answer)
      modifies this, red
      ensures Outcome(red.key, Client(), answer) == Lease.Prolong(old(red.key), old(red.now), old(Client()), d, fault)
      ensures red.now == old(red.now)
    {
      if !locked { return NotLocked; }
      var reply := red.Pexpire(d, fault);
      if reply == None { return RedisError; }
      if reply.value != 1 { return Expired; }
      until := red.now + d;
      return Fine;
    }

    method Unlock(red: Redis, fault: Fault) returns (answer: Answer)
      modifies this, red
      ensures Outcome(red.key, Client(), answer) == Lease.Unlock(old(red.key), old(red.now), old(Client()), fault)
      ensures red.now == old(red.now)
    {
      if !locked { return NotLocked; }
      locked := false;
      var reply := red.CompareAndDelete(lock, fault);
      match reply {
        case None => return RedisError;
        case Some(n) => return if n == 1 then Fine else if n == 0 then NotUs else Expired;
      }
    }
  }
}
