/** Bitmaps written as hexadecimal text: the list of VLANs they stand for, and the list of ports. */
module HexMaps {
  import opened Basics
  import opened Decimals
  import opened RangeList
  import opened RangePrinters
  import opened RangeRoundTrip
  import RangeReader

  // ---------- the bits of a text ----------

  predicate Hex(c: char) { Digit(c) || 'a' <= c <= 'f' || 'A' <= c <= 'F' }

  predicate AllHex(s: string) { forall i :: 0 <= i < |s| ==> Hex(s[i]) }

  function HexValue(c: char): (v: nat)
    requires Hex(c)
    ensures v < 16
  {
    if Digit(c) then c as int - '0' as int
    else if 'a' <= c then c as int - 'a' as int + 10
    else c as int - 'A' as int + 10
  }

  /** Bit i of a nibble, the highest first. */
  predicate NibbleBit(v: nat, i: nat) {
    match i
    case 0 => v / 8 % 2 == 1
    case 1 => v / 4 % 2 == 1
    case 2 => v / 2 % 2 == 1
    case _ => v % 2 == 1
  }

  /** Bit k of a text: bit k % 4 of its nibble k / 4. */
  predicate Bit(s: string, k: nat)
    requires AllHex(s) && k < 4 * |s|
  {
    NibbleBit(HexValue(s[k / 4]), k % 4)
  }

  /** The positions below n that hold a one, in ascending order. */
  function Positions(s: string, n: nat): (r: seq<int>)
    requires AllHex(s) && n <= 4 * |s|
    ensures forall x :: x in r <==> 0 <= x < n && Bit(s, x)
    ensures forall i :: 0 <= i < |r| ==> 0 <= r[i] < n
    ensures forall i, j :: 0 <= i < j < |r| ==> r[i] < r[j]
  {
    if n == 0 then []
    else if Bit(s, n - 1) then Positions(s, n - 1) + [n - 1]
    else Positions(s, n - 1)
  }

  function Ones(s: string): seq<int>
    requires AllHex(s)
  {
    Positions(s, 4 * |s|)
  }

  function At(n: nat): Entry { Entry(n, Dec(n)) }

  /** The runs of ones below n. */
  ghost function Runs(s: string, n: nat): (r: seq<Span>)
    requires AllHex(s) && n <= 4 * |s|
    ensures r != [] ==> r[|r| - 1].hi.n < n
  {
    if n == 0 then []
    else if Bit(s, n - 1) then Extend(Runs(s, n - 1), At(n - 1))
    else Runs(s, n - 1)
  }

  lemma {:induction false} RunsAreSpans(s: string, n: nat)
    requires AllHex(s) && n <= 4 * |s|
    ensures Runs(s, n) == Spans(EntriesOf(Positions(s, n)))
  {
    hide Spans, Extend, Bit, EntriesOf;
    EntriesMore(Positions(s, if n == 0 then 0 else n - 1), n - 1);
    if n == 0 {
      SpansNil();
    } else {
      RunsAreSpans(s, n - 1);
      SpansMore(EntriesOf(Positions(s, n - 1)), At(n - 1));
    }
  }

  // ---------- the VLAN list ----------

  /** The state of the loop before bit cur: a run may be open. */
  ghost predicate Midway(s: string, cur: nat, ret: string, start: int, last: int)
    requires AllHex(s) && cur <= 4 * |s|
  {
    var runs := Runs(s, cur);
    var n := |runs|;
    if start >= 0 then
      && last == cur - 1 && 0 <= start <= last
      && n > 0 && runs[n - 1] == Span(At(start), At(last)) && ret == Text(runs[..n - 1])
    else
      && start == -1 && last == -1
      && (n > 0 ==> runs[n - 1].hi.n < cur - 1) && ret == Text(runs)
  }

  lemma TextEmpty(runs: seq<Span>)
    requires forall s :: s in runs ==> s.lo.text != ""
    ensures Text(runs) == "" <==> runs == []
  {
    if runs != [] {
      TextIs(runs);
      assert runs[|runs| - 1] in runs;
    }
  }

  lemma {:induction false} RunsHaveText(s: string, n: nat)
    requires AllHex(s) && n <= 4 * |s|
    ensures forall r :: r in Runs(s, n) ==> r.lo.text != ""
  {
    if n > 0 {
      RunsHaveText(s, n - 1);
      var before := Runs(s, n - 1);
      if before != [] { assert before[|before| - 1] in before; }
    }
  }

  lemma OneBit(s: string, cur: nat, ret: string, start: int, last: int)
    requires AllHex(s) && cur < 4 * |s| && Midway(s, cur, ret, start, last) && Bit(s, cur)
    ensures start >= 0 ==> Midway(s, cur + 1, ret, start, cur)
    ensures start < 0 ==> Midway(s, cur + 1, ret, cur, cur)
  {
    hide Text, Bit;
    var runs := Runs(s, cur);
    assert Runs(s, cur + 1) == Extend(runs, At(cur));
    if start >= 0 {
      assert Extend(runs, At(cur))[..|runs| - 1] == runs[..|runs| - 1];
    } else {
      assert Extend(runs, At(cur))[..|runs|] == runs;
    }
  }

  /** The text of an open run, appended. */
  function Flushed(ret: string, start: int, last: int): string {
    (if ret != "" then ret + ("," + DecInt(start)) else DecInt(start))
    + if start != last then "-" + DecInt(last) else ""
  }

  lemma FlushedText(s: string, cur: nat, ret: string, start: int, last: int)
    requires AllHex(s) && cur <= 4 * |s| && start >= 0 && Midway(s, cur, ret, start, last)
    ensures Flushed(ret, start, last) == Text(Runs(s, cur))
  {
    var runs := Runs(s, cur);
    var n := |runs|;
    TextIs(runs);
    RunsHaveText(s, cur);
    TextEmpty(runs[..n - 1]);
    hide Text, Runs, Dec;
    assert Prefix(runs) == ret + (if n > 1 then "," else "") + Dec(start);
    assert Prefix(runs) == if ret != "" then ret + ("," + Dec(start)) else Dec(start);
  }

  lemma ZeroBit(s: string, cur: nat, ret: string, start: int, last: int)
    requires AllHex(s) && cur < 4 * |s| && Midway(s, cur, ret, start, last) && !Bit(s, cur)
    ensures start >= 0 ==> Midway(s, cur + 1, Flushed(ret, start, last), -1, -1)
    ensures start < 0 ==> Midway(s, cur + 1, ret, -1, -1)
  {
    hide Text, Bit, Flushed, Dec;
    assert Runs(s, cur + 1) == Runs(s, cur);
    if start >= 0 { FlushedText(s, cur, ret, start, last); }
  }

  lemma FullNibble(s: string, o: nat, ret: string, start: int, last: int)
    requires AllHex(s) && o < |s| && s[o] == 'f' && start >= 0 && Midway(s, 4 * o, ret, start, last)
    ensures Midway(s, 4 * o + 4, ret, start, last + 4)
  {
    NibbleBits(s, o);
    hide Midway, Bit;
    MidwayLast(s, 4 * o, ret, start, last);
    OneBit(s, 4 * o, ret, start, last);
    OneBit(s, 4 * o + 1, ret, start, 4 * o);
    OneBit(s, 4 * o + 2, ret, start, 4 * o + 1);
    OneBit(s, 4 * o + 3, ret, start, 4 * o + 2);
  }

  lemma MidwayLast(s: string, cur: nat, ret: string, start: int, last: int)
    requires AllHex(s) && cur <= 4 * |s| && Midway(s, cur, ret, start, last)
    ensures start >= 0 ==> last == cur - 1
    ensures start < 0 ==> start == -1 && last == -1
  {
  }

  lemma EmptyNibble(s: string, o: nat, ret: string)
    requires AllHex(s) && o < |s| && s[o] == '0' && Midway(s, 4 * o, ret, -1, -1)
    ensures Midway(s, 4 * o + 4, ret, -1, -1)
  {
    NibbleBits(s, o);
    hide Midway, Bit;
    ZeroBit(s, 4 * o, ret, -1, -1);
    ZeroBit(s, 4 * o + 1, ret, -1, -1);
    ZeroBit(s, 4 * o + 2, ret, -1, -1);
    ZeroBit(s, 4 * o + 3, ret, -1, -1);
  }

  lemma NibbleBits(s: string, o: nat)
    requires AllHex(s) && o < |s|
    ensures forall i :: 0 <= i < 4 ==> Bit(s, 4 * o + i) == NibbleBit(HexValue(s[o]), i)
    ensures s[o] == 'f' ==> Bit(s, 4 * o) && Bit(s, 4 * o + 1) && Bit(s, 4 * o + 2) && Bit(s, 4 * o + 3)
    ensures s[o] == '0' ==> !Bit(s, 4 * o) && !Bit(s, 4 * o + 1) && !Bit(s, 4 * o + 2) && !Bit(s, 4 * o + 3)
  {
    NibbleFour(s, o);
    hide Bit;
  }

  /** Shifting the nibble left brings its next bit to the top. */
  function Shifted(v: nat, i: nat): nat {
    match i case 0 => v case 1 => 2 * v case 2 => 4 * v case _ => 8 * v
  }

  lemma TopBit(v: nat, i: nat)
    requires i < 4
    ensures Shifted(v, i) / 8 % 2 == 1 <==> NibbleBit(v, i)
    ensures i < 3 ==> Shifted(v, i + 1) == 2 * Shifted(v, i)
  {
  }

  function VlanText(s: string): string {
    if AllHex(s) then NumberText(Ones(s)) else ""
  }

  lemma VlanTextIs(s: string)
    requires AllHex(s)
    ensures VlanText(s) == Text(Runs(s, 4 * |s|))
  {
    hide Text, Spans, Runs, Listing;
    RunsAreSpans(s, 4 * |s|);
    ListingAscending(EntriesOf(Ones(s)));
  }

  /** The ranges of ones, with a short cut for a full nibble inside a run and one for an empty nibble outside. */
  method VlansList(s: string) returns (ret: string)
    ensures ret == VlanText(s)
  {
    hide VlanText, Midway, Bit, Text, Runs, HexValue, NibbleBit, Shifted, Flushed, Hex;
    ret := "";
    var curVlan, lastVlan, seqStart := 0, -1, -1;
    Begun(s);
    for o := 0 to |s|
      invariant curVlan == 4 * o
      invariant forall i :: 0 <= i < o ==> Hex(s[i])
      invariant AllHex(s) ==> Midway(s, 4 * o, ret, seqStart, lastVlan)
    {
      if s[o] == 'f' && seqStart >= 0 {
        HexF();
        if AllHex(s) { FullNibble(s, o, ret, seqStart, lastVlan); }
        lastVlan := lastVlan + 4;
        curVlan := curVlan + 4;
        continue;
      }
      if s[o] == '0' && seqStart < 0 {
        HexF();
        if AllHex(s) {
          MidwayLast(s, 4 * o, ret, seqStart, lastVlan);
          EmptyNibble(s, o, ret);
        }
        curVlan := curVlan + 4;
        continue;
      }
      if !Hex(s[o]) {
        NotHex(s, o);
        return "";
      }
      ret, curVlan, lastVlan, seqStart := ReadNibble(s, o, ret, curVlan, lastVlan, seqStart);
    }
    assert AllHex(s);
    VlanTextIs(s);
    if seqStart >= 0 {
      MidwayLast(s, 4 * |s|, ret, seqStart, lastVlan);
      FlushedText(s, 4 * |s|, ret, seqStart, lastVlan);
      ret := Flush(ret, seqStart, lastVlan);
    } else {
      Ended(s, ret, seqStart, lastVlan);
    }
  }

  lemma Begun(s: string)
    ensures AllHex(s) ==> Midway(s, 0, "", -1, -1)
  {
    SpansNil();
  }

  lemma Ended(s: string, ret: string, start: int, last: int)
    requires AllHex(s) && start < 0 && Midway(s, 4 * |s|, ret, start, last)
    ensures ret == Text(Runs(s, 4 * |s|))
  {
  }

  lemma HexF()
    ensures Hex('f') && Hex('0')
  {
  }

  lemma NotHex(s: string, o: nat)
    requires o < |s| && !Hex(s[o])
    ensures VlanText(s) == ""
  {
  }

  method Flush(ret: string, start: int, last: int) returns (r: string)
    ensures r == Flushed(ret, start, last)
  {
    if ret != "" {
      r := ret + ("," + DecInt(start));
    } else {
      r := DecInt(start);
    }
    if start != last { r := r + ("-" + DecInt(last)); }
  }

  /** The inner loop, over the four bits of one nibble. */
  method ReadNibble(s: string, o: nat, ret0: string, cur0: nat, last0: int, start0: int)
    returns (ret: string, cur: nat, last: int, start: int)
    requires o < |s| && Hex(s[o]) && cur0 == 4 * o
    requires AllHex(s) ==> Midway(s, 4 * o, ret0, start0, last0)
    ensures cur == 4 * o + 4
    ensures AllHex(s) ==> Midway(s, 4 * o + 4, ret, start, last)
  {
    hide VlanText, Midway, Bit, Text, Runs, HexValue, NibbleBit, Shifted, Flushed, Hex, Dec;
    ret, cur, last, start := ret0, cur0, last0, start0;
    var nibble := HexValue(s[o]);
    ShiftedNone(nibble);
    for i := 0 to 4
      invariant cur == 4 * o + i && (i < 4 ==> nibble == Shifted(HexValue(s[o]), i))
      invariant AllHex(s) ==> Midway(s, 4 * o + i, ret, start, last)
    {
      TopBit(HexValue(s[o]), i);
      if AllHex(s) { MidwayLast(s, cur, ret, start, last); NibbleBits(s, o); }
      if nibble / 8 % 2 != 0 {
        if AllHex(s) { OneBit(s, cur, ret, start, last); }
        if start >= 0 && cur - last == 1 {
          last := cur;
        } else if start < 0 {
          start := cur;
          last := cur;
        }
      } else {
        if AllHex(s) { ZeroBit(s, cur, ret, start, last); }
        if start >= 0 {
          ret := Flush(ret, start, last);
          start := -1;
          last := -1;
        }
      }
      cur := cur + 1;
      nibble := 2 * nibble;
    }
  }

  lemma ShiftedNone(v: nat)
    ensures Shifted(v, 0) == v
  {
  }

  /** The printed list denotes exactly the positions of the ones. */
  lemma VlanTextMeans(s: string)
    requires AllHex(s) && 4 * |s| <= UINT64
    ensures forall x: nat :: RangeReader.InText(x, RangeReader.Matches(VlanText(s))) <==> x < 4 * |s| && Bit(s, x)
  {
    hide Bit, RangeReader.Matches, RangeReader.InText;
    PrintedMeans(Ones(s));
  }

  // ---------- the port list ----------

  /** Numbers are positions of bits, from the highest bit of the first octet; the port at position n is n + 1. */
  function PortTexts(ns: seq<int>): (r: seq<string>)
    ensures |r| == |ns| && forall i :: 0 <= i < |ns| ==> r[i] == DecInt(ns[i] + 1)
  {
    seq(|ns|, i requires 0 <= i < |ns| => DecInt(ns[i] + 1))
  }

  function PortNames(s: string): seq<string> {
    if AllHex(s) then NamesBelow(s, 4 * |s|) else []
  }

  lemma PortTextsMore(ns: seq<int>, n: int)
    ensures PortTexts(ns + [n]) == PortTexts(ns) + [DecInt(n + 1)]
    ensures PortTexts([]) == []
  {
    hide DecInt;
  }

  function Optional(b: bool, n: int): seq<string> { if b then [DecInt(n)] else [] }

  function NamesBelow(s: string, n: nat): seq<string>
    requires AllHex(s) && n <= 4 * |s|
  {
    PortTexts(Positions(s, n))
  }

  lemma PortStep(s: string, n: nat)
    requires AllHex(s) && n < 4 * |s|
    ensures NamesBelow(s, n + 1) == NamesBelow(s, n) + Optional(Bit(s, n), n + 1)
  {
    hide DecInt, Bit, PortTexts;
    PortTextsMore(Positions(s, n), n);
    assert NamesBelow(s, n) + [] == NamesBelow(s, n);
  }

  lemma NibbleFour(s: string, o: nat)
    requires AllHex(s) && o < |s|
    ensures Bit(s, 4 * o) == NibbleBit(HexValue(s[o]), 0)
    ensures Bit(s, 4 * o + 1) == NibbleBit(HexValue(s[o]), 1)
    ensures Bit(s, 4 * o + 2) == NibbleBit(HexValue(s[o]), 2)
    ensures Bit(s, 4 * o + 3) == NibbleBit(HexValue(s[o]), 3)
  {
    assert (4 * o + 1) / 4 == o && (4 * o + 2) / 4 == o && (4 * o + 3) / 4 == o;
  }

  /** The names that one nibble adds. */
  lemma NibbleNames(s: string, o: nat)
    requires AllHex(s) && o < |s|
    ensures var v := HexValue(s[o]);
            NamesBelow(s, 4 * o + 4)
            == NamesBelow(s, 4 * o)
               + Optional(NibbleBit(v, 0), 4 * o + 1) + Optional(NibbleBit(v, 1), 4 * o + 2)
               + Optional(NibbleBit(v, 2), 4 * o + 3) + Optional(NibbleBit(v, 3), 4 * o + 4)
  {
    hide *;
    NibbleFour(s, o);
    PortStep(s, 4 * o);
    PortStep(s, 4 * o + 1);
    PortStep(s, 4 * o + 2);
    PortStep(s, 4 * o + 3);
  }

  method PortList(s: string) returns (ret: seq<string>)
    ensures ret == PortNames(s)
  {
    hide Bit, Hex, HexValue, PortTexts, DecInt, NibbleBit, NamesBelow;
    ret := [];
    var curPort := 1;
    NoNames(s);
    for o := 0 to |s|
      invariant curPort == 4 * o + 1
      invariant forall i :: 0 <= i < o ==> Hex(s[i])
      invariant AllHex(s) ==> ret == NamesBelow(s, 4 * o)
    {
      if !Hex(s[o]) { return []; }
      if AllHex(s) { NibbleNames(s, o); }
      var nibble := HexValue(s[o]);
      ret := ReadPorts(ret, nibble, curPort);
      curPort := curPort + 4;
    }
  }

  lemma NoNames(s: string)
    ensures AllHex(s) ==> NamesBelow(s, 0) == []
  {
  }

  method ReadPorts(before: seq<string>, nibble: nat, curPort: nat) returns (ret: seq<string>)
    ensures ret == before
                   + Optional(NibbleBit(nibble, 0), curPort) + Optional(NibbleBit(nibble, 1), curPort + 1)
                   + Optional(NibbleBit(nibble, 2), curPort + 2) + Optional(NibbleBit(nibble, 3), curPort + 3)
  {
    Masks(nibble);
    hide DecInt, NibbleBit;
    ret := before;
    if nibble / 8 % 2 != 0 { ret := ret + [DecInt(curPort + 0)]; }
    if nibble / 4 % 2 != 0 { ret := ret + [DecInt(curPort + 1)]; }
    if nibble / 2 % 2 != 0 { ret := ret + [DecInt(curPort + 2)]; }
    if nibble / 1 % 2 != 0 { ret := ret + [DecInt(curPort + 3)]; }
  }

  lemma Masks(v: nat)
    ensures v / 8 % 2 != 0 <==> NibbleBit(v, 0)
    ensures v / 4 % 2 != 0 <==> NibbleBit(v, 1)
    ensures v / 2 % 2 != 0 <==> NibbleBit(v, 2)
    ensures v / 1 % 2 != 0 <==> NibbleBit(v, 3)
  {
  }

  lemma DecInjective(a: nat, b: nat)
    requires Dec(a) == Dec(b)
    ensures a == b
  {
    ValueDec(a);
    ValueDec(b);
  }

  lemma PortTextsHas(ns: seq<int>, p: nat)
    requires p > 0 && forall i :: 0 <= i < |ns| ==> 0 <= ns[i]
    ensures Dec(p) in PortTexts(ns) <==> p - 1 in ns
  {
    hide Dec;
    var t := PortTexts(ns);
    if p - 1 in ns {
      var i :| 0 <= i < |ns| && ns[i] == p - 1;
      assert t[i] == Dec(p);
    }
    if Dec(p) in t {
      var i :| 0 <= i < |t| && t[i] == Dec(p);
      DecInjective(p, ns[i] + 1);
      assert ns[i] in ns;
    }
  }

  /** A port is listed when its bit is set. */
  lemma {:induction false} PortListed(s: string, p: nat)
    requires p > 0
    ensures Dec(p) in PortNames(s) <==> AllHex(s) && p <= 4 * |s| && Bit(s, p - 1)
  {
    hide Bit, Dec, PortTexts, Positions;
    if AllHex(s) { PortTextsHas(Ones(s), p); }
  }
}
