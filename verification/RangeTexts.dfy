/** What the default splitter finds, told by the text itself: the ranges are the digits in it, taken as long as they go,
    two such numbers with a dash between them being one range. */
module RangeTexts {
  import opened Basics
  import opened Decimals
  import opened RangeReader
  import opened RangeRoundTrip

  /** A range as it stands in a text, with what is before it. */
  datatype Part = Part(gap: string, m: Match)

  function Shown(m: Match): string {
    match m case One(a) => a case Two(a, b) => a + ("-" + b)
  }

  function Joined(parts: seq<Part>, tail: string): string {
    if parts == [] then tail else parts[0].gap + (Shown(parts[0].m) + Joined(parts[1..], tail))
  }

  predicate NoDigits(s: string) { forall i :: 0 <= i < |s| ==> !Digit(s[i]) }

  predicate Number(s: string) { s != "" && Digits(s) }

  /** The range goes on neither with a digit nor, if it is a single number, with a dash and a digit. */
  predicate Longest(m: Match, rest: string) {
    && (rest != "" ==> !Digit(rest[0]))
    && (m.One? && |rest| > 1 && rest[0] == '-' ==> !Digit(rest[1]))
  }

  /** The text cut into ranges and what is between them, where no digit is. */
  ghost predicate Cut(parts: seq<Part>, tail: string) {
    if parts == [] then NoDigits(tail)
    else
      && NoDigits(parts[0].gap) && Number(parts[0].m.a) && (parts[0].m.Two? ==> Number(parts[0].m.b))
      && Longest(parts[0].m, Joined(parts[1..], tail)) && Cut(parts[1..], tail)
  }

  function Found(parts: seq<Part>): (r: seq<Match>)
    ensures |r| == |parts| && forall i :: 0 <= i < |r| ==> r[i] == parts[i].m
  {
    seq(|parts|, i requires 0 <= i < |parts| => parts[i].m)
  }

  lemma HitCut(s: string)
    requires s != "" && Digit(s[0])
    ensures var m, rest := Hit(s), s[HitLen(s)..];
            && s == Shown(m) + rest && Number(m.a) && (m.Two? ==> Number(m.b)) && Longest(m, rest)
  {
    hide DigitsLen, HitLen, Digits;
    var n := DigitsLen(s);
    DigitsLenPrefix(s);
    HitIs(s);
    if n < HitLen(s) {
      var t := s[n + 1..];
      var k := DigitsLen(t);
      DigitsLenPrefix(t);
      Pieces(s, n, k);
    } else {
      assert s == s[..n] + s[n..];
    }
  }

  lemma HitIs(s: string)
    requires s != "" && Digit(s[0])
    ensures var n, len := DigitsLen(s), HitLen(s);
            && (len == n || (n + 1 < |s| && s[n] == '-' && Digit(s[n + 1]) && len == n + 1 + DigitsLen(s[n + 1..])))
            && (len == n && n + 1 < |s| && s[n] == '-' ==> !Digit(s[n + 1]))
  {
    hide DigitsLen;
  }

  lemma Pieces(s: string, n: nat, k: nat)
    requires n + 1 + k <= |s| && s[n] == '-'
    ensures s[n + 1..][..k] == s[n + 1..n + 1 + k] && s[n + 1..][k..] == s[n + 1 + k..]
    ensures s == s[..n] + ("-" + s[n + 1..n + 1 + k]) + s[n + 1 + k..]
    ensures k < |s[n + 1..]| ==> s[n + 1..][k] == s[n + 1 + k..][0]
  {
  }

  /** Every text can be cut so, and the ranges are the matches. */
  lemma {:induction false} MatchesCut(s: string) returns (parts: seq<Part>, tail: string)
    ensures s == Joined(parts, tail) && Cut(parts, tail) && Found(parts) == Matches(s)
    decreases |s|
  {
    hide Hit, HitLen, Longest, Shown, Number, Cut, Joined;
    if s == "" {
      parts, tail := [], "";
      NothingCut();
    } else if !Digit(s[0]) {
      parts, tail := MatchesCut(s[1..]);
      assert s == [s[0]] + s[1..];
      parts, tail := GapMore(s[0], parts, tail);
    } else {
      HitCut(s);
      var m, rest := Hit(s), s[HitLen(s)..];
      parts, tail := MatchesCut(rest);
      PartMore(m, parts, tail);
      parts := [Part("", m)] + parts;
    }
  }

  lemma NothingCut()
    ensures Joined([], "") == "" && Cut([], "")
  {
  }

  lemma GapMore(c: char, parts: seq<Part>, tail: string) returns (parts': seq<Part>, tail': string)
    requires !Digit(c) && Cut(parts, tail)
    ensures Joined(parts', tail') == [c] + Joined(parts, tail) && Cut(parts', tail') && Found(parts') == Found(parts)
  {
    hide Longest, Shown, Number;
    if parts == [] {
      parts', tail' := [], [c] + tail;
    } else {
      var p, more := parts[0], parts[1..];
      Assoc([c], p.gap, Shown(p.m) + Joined(more, tail));
      var q := Part([c] + p.gap, p.m);
      assert ([q] + more)[1..] == more;
      parts', tail' := [q] + more, tail;
    }
  }

  lemma PartMore(m: Match, parts: seq<Part>, tail: string)
    requires Number(m.a) && (m.Two? ==> Number(m.b)) && Longest(m, Joined(parts, tail)) && Cut(parts, tail)
    ensures var all := [Part("", m)] + parts;
            Joined(all, tail) == Shown(m) + Joined(parts, tail) && Cut(all, tail) && Found(all) == [m] + Found(parts)
  {
    hide Longest, Shown, Number, NoDigits;
    assert ([Part("", m)] + parts)[1..] == parts;
    NoGap(Shown(m) + Joined(parts, tail));
  }

  lemma NoGap(s: string)
    ensures "" + s == s && NoDigits("")
  {
  }

  /** The numbers of the range, if they fit 64 bits and are the right way round. */
  ghost predicate Spans(m: Match, lo: nat, hi: nat) {
    lo <= hi < UINT64 && Denotes(m.a, lo) && Denotes(if m.Two? then m.b else m.a, hi)
  }

  /** A range has the bounds that its numbers denote. */
  lemma BoundsExact(m: Match, lo: nat, hi: nat)
    ensures BoundsOf(m) == Some(Bounds(lo, hi)) <==> Spans(m, lo, hi)
  {
    hide ParseUint, Denotes;
    UintRead(m.a, lo);
    UintRead(m.a, hi);
    if m.Two? { UintRead(m.b, hi); }
  }

  /** x is in the text: it lies within some range. */
  ghost predicate Inside(x: nat, ms: seq<Match>) {
    exists m, lo: nat, hi: nat :: m in ms && Spans(m, lo, hi) && lo <= x <= hi
  }

  lemma InsideIs(x: nat, ms: seq<Match>)
    ensures InText(x, ms) <==> Inside(x, ms)
  {
    hide BoundsOf, Spans;
    if InText(x, ms) {
      var m :| m in ms && BoundsOf(m).Some? && BoundsOf(m).value.lo <= x <= BoundsOf(m).value.hi;
      BoundsExact(m, BoundsOf(m).value.lo, BoundsOf(m).value.hi);
    }
    if Inside(x, ms) {
      var m, lo: nat, hi: nat :| m in ms && Spans(m, lo, hi) && lo <= x <= hi;
      BoundsExact(m, lo, hi);
    }
  }

  /** Every range of the texts can be read. */
  ghost predicate Legible(ms: seq<Match>) {
    forall m :: m in ms ==> exists lo: nat, hi: nat :: Spans(m, lo, hi)
  }

  lemma LegibleIs(ms: seq<Match>)
    ensures Readable(ms) <==> Legible(ms)
  {
    hide BoundsOf, Spans;
    forall m ensures BoundsOf(m).Some? <==> exists lo: nat, hi: nat :: Spans(m, lo, hi) {
      if BoundsOf(m).Some? { BoundsExact(m, BoundsOf(m).value.lo, BoundsOf(m).value.hi); }
      if lo: nat, hi: nat :| Spans(m, lo, hi) { BoundsExact(m, lo, hi); }
    }
  }

  /** The test on two texts: they are cut into ranges; if all of them can be read, the answer is whether some number
      lies within a range of each. */
  lemma CrossTold(list1: string, list2: string) returns (p1: seq<Part>, t1: string, p2: seq<Part>, t2: string)
    ensures list1 == Joined(p1, t1) && Cut(p1, t1) && list2 == Joined(p2, t2) && Cut(p2, t2)
    ensures Legible(Found(p1)) && Legible(Found(p2)) ==>
              Crossing(Matches(list1), Matches(list2))
              == Answer(exists x :: Inside(x, Found(p1)) && Inside(x, Found(p2)), true)
  {
    hide Cut, Joined, Matches, InText, Inside, Legible, Readable, Crossing;
    p1, t1 := MatchesCut(list1);
    p2, t2 := MatchesCut(list2);
    LegibleIs(Found(p1));
    LegibleIs(Found(p2));
    forall x: nat, ms ensures InText(x, ms) <==> Inside(x, ms) { InsideIs(x, ms); }
    if Legible(Found(p1)) && Legible(Found(p2)) { CrossingExact(Found(p1), Found(p2)); }
  }
}
