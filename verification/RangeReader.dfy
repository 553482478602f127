/** Reading range lists back: what the default splitter and ranger find in a text, and the test
    whether two lists have a number in common. */
module RangeReader {
  import opened Basics
  import opened Decimals
  import opened RangeList
  import opened RangePrinters

  // ---------- the splitter (\d+-\d+)|(\d+) and the ranger - ----------

  /** A match of the splitter, cut by the ranger: one number text or two. */
  datatype Match = One(a: string) | Two(a: string, b: string)

  function DigitsLen(s: string): (n: nat)
    ensures n <= |s|
    ensures s != "" && Digit(s[0]) ==> n > 0
  {
    if s != "" && Digit(s[0]) then 1 + DigitsLen(s[1..]) else 0
  }

  /** The length of the match at the start of a text that starts with a digit. */
  function HitLen(s: string): (n: nat)
    requires s != "" && Digit(s[0])
    ensures 0 < n <= |s|
  {
    var n := DigitsLen(s);
    if n + 1 < |s| && s[n] == '-' && Digit(s[n + 1]) then n + 1 + DigitsLen(s[n + 1..]) else n
  }

  function Hit(s: string): Match
    requires s != "" && Digit(s[0])
  {
    var n := DigitsLen(s);
    if n < HitLen(s) then Two(s[..n], s[n + 1..HitLen(s)]) else One(s[..n])
  }

  /** All matches in a text, from left to right. */
  function Matches(s: string): seq<Match>
    decreases |s|
  {
    if s == "" then []
    else if !Digit(s[0]) then Matches(s[1..])
    else [Hit(s)] + Matches(s[HitLen(s)..])
  }

  datatype Bounds = Bounds(lo: nat, hi: nat)

  /** The bounds a match gives; None if a number is too wide or the bounds are the wrong way round. */
  function BoundsOf(m: Match): Option<Bounds> {
    match m
    case One(a) => (match ParseUint(a) case None => None case Some(x) => Some(Bounds(x, x)))
    case Two(a, b) =>
      match ParseUint(a)
      case None => None
      case Some(x) =>
        match ParseUint(b)
        case None => None
        case Some(y) => if y < x then None else Some(Bounds(x, y))
  }

  predicate Overlap(p: Bounds, q: Bounds) { p.lo <= q.hi && p.hi >= q.lo }

  // ---------- the test ----------

  datatype Answer = Answer(cross: bool, ok: bool)

  /** One range against the second list. */
  function Against(p: Bounds, ms: seq<Match>): Option<Answer> {
    if ms == [] then None
    else
      match BoundsOf(ms[0])
      case None => Some(Answer(false, false))
      case Some(q) => if Overlap(p, q) then Some(Answer(true, true)) else Against(p, ms[1..])
  }

  function Crossing(ms1: seq<Match>, ms2: seq<Match>): Answer {
    if ms1 == [] then Answer(false, true)
    else
      match BoundsOf(ms1[0])
      case None => Answer(false, false)
      case Some(p) =>
        match Against(p, ms2)
        case Some(a) => a
        case None => Crossing(ms1[1..], ms2)
  }

  method NumsCross(list1: string, list2: string) returns (cross: bool, ok: bool)
    ensures Answer(cross, ok) == Crossing(Matches(list1), Matches(list2))
  {
    hide Matches, BoundsOf, Overlap;
    var ms1 := Matches(list1);
    for i := 0 to |ms1|
      invariant Crossing(ms1[i..], Matches(list2)) == Crossing(ms1, Matches(list2))
    {
      assert ms1[i..][1..] == ms1[i + 1..];
      var p := BoundsOf(ms1[i]);
      if p.None? { return false, false; }
      var ms2 := Matches(list2);
      for j := 0 to |ms2|
        invariant Against(p.value, ms2[j..]) == Against(p.value, ms2)
      {
        assert ms2[j..][1..] == ms2[j + 1..];
        var q := BoundsOf(ms2[j]);
        if q.None? { return false, false; }
        if Overlap(p.value, q.value) { return true, true; }
      }
    }
    return false, true;
  }

  /** x is in one of the ranges of a text. */
  ghost predicate InText(x: nat, ms: seq<Match>) {
    exists m :: m in ms && BoundsOf(m).Some? && BoundsOf(m).value.lo <= x <= BoundsOf(m).value.hi
  }

  predicate Readable(ms: seq<Match>) { forall m :: m in ms ==> BoundsOf(m).Some? }

  lemma {:induction false} AgainstExact(p: Bounds, ms: seq<Match>)
    requires Readable(ms) && p.lo <= p.hi
    ensures Against(p, ms) == None || Against(p, ms) == Some(Answer(true, true))
    ensures Against(p, ms).Some? <==> exists x: nat :: p.lo <= x <= p.hi && InText(x, ms)
    decreases |ms|
  {
    if ms != [] {
      assert ms[0] in ms;
      var q := BoundsOf(ms[0]).value;
      AgainstExact(p, ms[1..]);
      assert forall m :: m in ms <==> m == ms[0] || m in ms[1..];
      if Overlap(p, q) {
        var x := if p.lo < q.lo then q.lo else p.lo;
        assert InText(x, ms);
      } else {
        forall x: nat | p.lo <= x <= p.hi ensures InText(x, ms) <==> InText(x, ms[1..]) { }
      }
    }
  }

  /** On readable lists the test is right: it says yes exactly when some number is in both. */
  lemma {:induction false} CrossingExact(ms1: seq<Match>, ms2: seq<Match>)
    requires Readable(ms1) && Readable(ms2)
    ensures Crossing(ms1, ms2).ok
    ensures Crossing(ms1, ms2).cross <==> exists x :: InText(x, ms1) && InText(x, ms2)
    decreases |ms1|
  {
    if ms1 != [] {
      assert ms1[0] in ms1;
      var p := BoundsOf(ms1[0]).value;
      AgainstExact(p, ms2);
      CrossingExact(ms1[1..], ms2);
      assert forall m :: m in ms1 <==> m == ms1[0] || m in ms1[1..];
      if Against(p, ms2).Some? {
        var x: nat :| p.lo <= x <= p.hi && InText(x, ms2);
        assert InText(x, ms1);
      } else {
        forall x | InText(x, ms2) ensures InText(x, ms1) <==> InText(x, ms1[1..]) { }
      }
    }
  }

  /** A list that cannot be read is noticed, unless an overlap is found before, or there is nothing
      in the first list to compare the second with. */
  lemma {:induction false} UnreadableNoticed(ms1: seq<Match>, ms2: seq<Match>)
    requires !Readable(ms1) || (!Readable(ms2) && ms1 != [])
    ensures !Crossing(ms1, ms2).ok || Crossing(ms1, ms2).cross
    decreases |ms1|
  {
    if ms1 != [] && BoundsOf(ms1[0]).Some? {
      AgainstUnreadable(BoundsOf(ms1[0]).value, ms2);
      if Readable(ms2) {
        assert forall m :: m in ms1 <==> m == ms1[0] || m in ms1[1..];
        UnreadableNoticed(ms1[1..], ms2);
      }
    }
  }

  /** Whatever the lists hold: a yes names a number in both, and a failure comes with a no and from a range that cannot
      be read. */
  lemma {:induction false} AnswerTrue(ms1: seq<Match>, ms2: seq<Match>)
    ensures var a := Crossing(ms1, ms2);
            && (a.cross ==> a.ok && exists x :: InText(x, ms1) && InText(x, ms2))
            && (!a.ok ==> !a.cross && !(Readable(ms1) && Readable(ms2)))
    decreases |ms1|
  {
    if ms1 != [] {
      assert ms1[0] in ms1;
      forall x: nat | InText(x, ms1[1..]) ensures InText(x, ms1) {
        var m :| m in ms1[1..] && BoundsOf(m).Some? && BoundsOf(m).value.lo <= x <= BoundsOf(m).value.hi;
        assert m in ms1;
      }
      if BoundsOf(ms1[0]).Some? {
        var p := BoundsOf(ms1[0]).value;
        AgainstTrue(p, ms2);
        AnswerTrue(ms1[1..], ms2);
        BoundsOrder(ms1[0]);
        if Against(p, ms2) == Some(Answer(true, true)) {
          var x: nat :| p.lo <= x <= p.hi && InText(x, ms2);
          assert InText(x, ms1);
        }
      }
    }
  }

  lemma BoundsOrder(m: Match)
    ensures BoundsOf(m).Some? ==> BoundsOf(m).value.lo <= BoundsOf(m).value.hi
  {
  }

  lemma {:induction false} AgainstTrue(p: Bounds, ms: seq<Match>)
    ensures Against(p, ms).Some? ==> Against(p, ms).value in {Answer(true, true), Answer(false, false)}
    ensures Against(p, ms) == Some(Answer(true, true)) && p.lo <= p.hi ==>
              exists x: nat :: p.lo <= x <= p.hi && InText(x, ms)
    ensures Against(p, ms) == Some(Answer(false, false)) ==> !Readable(ms)
    decreases |ms|
  {
    if ms != [] {
      assert ms[0] in ms;
      AgainstTrue(p, ms[1..]);
      forall x: nat | InText(x, ms[1..]) ensures InText(x, ms) {
        var m :| m in ms[1..] && BoundsOf(m).Some? && BoundsOf(m).value.lo <= x <= BoundsOf(m).value.hi;
        assert m in ms;
      }
      if BoundsOf(ms[0]).Some? && Overlap(p, BoundsOf(ms[0]).value) {
        var q := BoundsOf(ms[0]).value;
        BoundsOrder(ms[0]);
        if p.lo <= p.hi {
          var x := if p.lo < q.lo then q.lo else p.lo;
          assert InText(x, ms);
        }
      }
    }
  }

  lemma {:induction false} AgainstUnreadable(p: Bounds, ms: seq<Match>)
    ensures !Readable(ms) ==> Against(p, ms).Some?
    ensures Against(p, ms).Some? ==>
              Against(p, ms).value == Answer(true, true) || Against(p, ms).value == Answer(false, false)
    decreases |ms|
  {
    if ms != [] && BoundsOf(ms[0]).Some? {
      assert forall m :: m in ms <==> m == ms[0] || m in ms[1..];
      AgainstUnreadable(p, ms[1..]);
    }
  }
}
