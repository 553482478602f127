/** The two printers of range lists, one for numbers and one for number texts, and what they print. */
module RangePrinters {
  import opened Basics
  import opened Decimals
  import opened RangeList

  /** How many entries at the front are negative. */
  function Negatives(es: seq<Entry>): (k: nat)
    ensures k <= |es|
    ensures k < |es| ==> es[k].n >= 0
    ensures forall i :: 0 <= i < k ==> es[i].n < 0
  {
    if es != [] && es[0].n < 0 then 1 + Negatives(es[1..]) else 0
  }

  /** What both printers print: negative numbers at the front are forgotten (all but the last, if there
      is no other number), and from there on the list must ascend. */
  function Listing(es: seq<Entry>): string {
    var k := Negatives(es);
    if es == [] then ""
    else if k == |es| then es[k - 1].text
    else if Ascending(es[k..]) then Text(Spans(es[k..]))
    else ""
  }

  /** The state of a printer after the entries es. */
  ghost predicate Printing(es: seq<Entry>, ret: string, c: int, cs: string, rng: bool) {
    var k := Negatives(es);
    if es == [] then c == -1 && cs == "" && !rng && ret == ""
    else
      && c == es[|es| - 1].n && cs == es[|es| - 1].text
      && if k == |es| then !rng && ret == cs
         else Ascending(es[k..]) && Halfway(Spans(es[k..]), ret, rng)
  }

  /** Everything is written but the upper end of the last run, if it has one of its own. */
  ghost predicate Halfway(spans: seq<Span>, ret: string, rng: bool) {
    && spans != []
    && rng == (spans[|spans| - 1].lo.n != spans[|spans| - 1].hi.n)
    && ret == Prefix(spans) + if rng then "-" else ""
  }

  // ---------- one step ----------

  lemma NegativesUnique(es: seq<Entry>, k: nat)
    requires k <= |es| && (k < |es| ==> es[k].n >= 0) && forall i :: 0 <= i < k ==> es[i].n < 0
    ensures Negatives(es) == k
  {
  }

  lemma NegativesMore(es: seq<Entry>, e: Entry)
    ensures Negatives(es) < |es| ==> Negatives(es + [e]) == Negatives(es)
    ensures Negatives(es) == |es| ==> Negatives(es + [e]) == |es| + if e.n < 0 then 1 else 0
  {
    var k := Negatives(es);
    NegativesUnique(es + [e], if k < |es| then k else if e.n < 0 then k + 1 else k);
  }

  lemma FirstEntry(es: seq<Entry>, ret: string, c: int, cs: string, rng: bool, e: Entry)
    requires Printing(es, ret, c, cs, rng) && c < 0
    ensures Printing(es + [e], e.text, e.n, e.text, false)
  {
    NegativesMore(es, e);
    var all := es + [e];
    if Negatives(all) < |all| {
      assert all[|es|..] == [e];
      SpansOne(e);
    }
  }

  lemma SpansOne(e: Entry)
    ensures Spans([e]) == [Span(e, e)] && Prefix([Span(e, e)]) == e.text
    ensures e.n >= 0 ==> Ascending([e])
  {
    assert [e][..0] == [] && [Span(e, e)][..0] == [];
    assert "" + "" + e.text == e.text;
  }

  lemma SpansMore(es: seq<Entry>, e: Entry)
    ensures Spans(es + [e]) == Extend(Spans(es), e)
  {
    hide Extend;
    assert (es + [e])[..|es|] == es;
  }

  lemma AscendingMore(es: seq<Entry>, e: Entry)
    requires Ascending(es) && es != [] && es[|es| - 1].n < e.n
    ensures Ascending(es + [e])
  {
  }

  lemma ExtendText(spans: seq<Span>, e: Entry)
    requires spans != [] && Separate(spans) && spans[|spans| - 1].hi.n < e.n
    ensures var r := Extend(spans, e);
            if e.n == spans[|spans| - 1].hi.n + 1
            then Prefix(r) == Prefix(spans) && r[|r| - 1].lo.n != r[|r| - 1].hi.n
            else Prefix(r) == Text(spans) + "," + e.text && r[|r| - 1].lo.n == r[|r| - 1].hi.n
  {
    var n := |spans|;
    var r := Extend(spans, e);
    if e.n == spans[n - 1].hi.n + 1 {
      assert r[..n - 1] == spans[..n - 1];
    } else {
      assert r[..n] == spans;
    }
  }

  lemma HalfwayStep(spans: seq<Span>, ret: string, rng: bool, e: Entry)
    requires Halfway(spans, ret, rng) && Separate(spans) && spans[|spans| - 1].hi.n < e.n
    ensures var hi := spans[|spans| - 1].hi;
            if e.n == hi.n + 1 then Halfway(Extend(spans, e), if rng then ret else ret + "-", true)
            else Halfway(Extend(spans, e), (if rng then ret + hi.text else ret) + ("," + e.text), false)
  {
    ExtendText(spans, e);
    HalfwayText(spans, ret, rng);
    hide Prefix, Text, Extend, Separate;
    var r := Extend(spans, e);
    assert Prefix(r) + "" == Prefix(r) && Prefix(spans) + "" == Prefix(spans);
    assert Text(spans) + "," + e.text == Text(spans) + ("," + e.text);
  }

  lemma TextIs(spans: seq<Span>)
    requires spans != []
    ensures var last := spans[|spans| - 1];
            Text(spans) == if last.lo.n != last.hi.n then Prefix(spans) + ("-" + last.hi.text) else Prefix(spans)
  {
    hide Prefix;
    assert Prefix(spans) + "" == Prefix(spans);
  }

  lemma HalfwayText(spans: seq<Span>, ret: string, rng: bool)
    requires Halfway(spans, ret, rng)
    ensures Text(spans) == if rng then ret + spans[|spans| - 1].hi.text else ret
  {
    TextIs(spans);
    hide Prefix, Text;
    Assoc(Prefix(spans), "-", spans[|spans| - 1].hi.text);
    assert Prefix(spans) + "" == Prefix(spans);
  }

  lemma TailMore(es: seq<Entry>, k: nat, e: Entry)
    requires k < |es|
    ensures (es + [e])[k..] == es[k..] + [e]
    ensures es[k..][|es| - k - 1] == es[|es| - 1]
  {
  }

  lemma TailSpans(es: seq<Entry>, k: nat, e: Entry)
    requires k < |es| && es[|es| - 1].n < e.n && Ascending(es[k..])
    ensures Ascending((es + [e])[k..]) && Spans((es + [e])[k..]) == Extend(Spans(es[k..]), e)
  {
    hide Ascending, Spans, Extend;
    TailMore(es, k, e);
    SpansMore(es[k..], e);
    AscendingMore(es[k..], e);
  }

  lemma PrintingIs(all: seq<Entry>, ret: string, rng: bool)
    requires Negatives(all) < |all|
    requires Ascending(all[Negatives(all)..]) && Halfway(Spans(all[Negatives(all)..]), ret, rng)
    ensures Printing(all, ret, all[|all| - 1].n, all[|all| - 1].text, rng)
  {
    hide Spans, Ascending, Halfway, Negatives;
  }

  lemma PrintingSays(es: seq<Entry>, ret: string, c: int, cs: string, rng: bool)
    requires Printing(es, ret, c, cs, rng) && 0 <= c
    ensures es != [] && c == es[|es| - 1].n && cs == es[|es| - 1].text
    ensures var k := Negatives(es);
            k < |es| && Ascending(es[k..]) && Halfway(Spans(es[k..]), ret, rng) && Separate(Spans(es[k..]))
    ensures var spans := Spans(es[Negatives(es)..]);
            spans != [] && spans[|spans| - 1].hi == es[|es| - 1]
  {
    SpansExact(es[Negatives(es)..]);
  }

  lemma NextEntry(es: seq<Entry>, ret: string, c: int, cs: string, rng: bool, e: Entry)
    requires Printing(es, ret, c, cs, rng) && 0 <= c < e.n
    ensures e.n == c + 1 ==> Printing(es + [e], if rng then ret else ret + "-", e.n, e.text, true)
    ensures e.n > c + 1 ==>
              Printing(es + [e], (if rng then ret + cs else ret) + ("," + e.text), e.n, e.text, false)
  {
    hide Spans, Ascending, Halfway, Separate, Negatives, Extend, Printing;
    PrintingSays(es, ret, c, cs, rng);
    NegativesMore(es, e);
    var k := Negatives(es);
    HalfwayStep(Spans(es[k..]), ret, rng, e);
    TailSpans(es, k, e);
    if e.n == c + 1 {
      PrintingIs(es + [e], if rng then ret else ret + "-", true);
    } else {
      PrintingIs(es + [e], (if rng then ret + cs else ret) + ("," + e.text), false);
    }
  }

  /** A number that is not above the one before it spoils the whole list. */
  lemma NotAscending(es: seq<Entry>, i: nat)
    requires 0 < i < |es| && es[i].n <= es[i - 1].n && 0 <= es[i - 1].n
    ensures Listing(es) == ""
  {
    var k := Negatives(es);
    if k < |es| {
      assert es[k..][i - 1 - k] == es[i - 1] && es[k..][i - k] == es[i];
    }
  }

  lemma Finished(es: seq<Entry>, ret: string, c: int, cs: string, rng: bool)
    requires Printing(es, ret, c, cs, rng)
    ensures Listing(es) == if rng then ret + cs else ret
  {
    var k := Negatives(es);
    if k < |es| {
      SpansExact(es[k..]);
      HalfwayText(Spans(es[k..]), ret, rng);
    }
  }

  // ---------- the printers ----------

  function EntriesOf(ns: seq<int>): (es: seq<Entry>)
    ensures |es| == |ns| && forall i :: 0 <= i < |ns| ==> es[i] == Entry(ns[i], DecInt(ns[i]))
  {
    seq(|ns|, i requires 0 <= i < |ns| => Entry(ns[i], DecInt(ns[i])))
  }

  lemma EntriesMore(ns: seq<int>, n: int)
    ensures EntriesOf(ns + [n]) == EntriesOf(ns) + [Entry(n, DecInt(n))]
    ensures EntriesOf([]) == []
  {
    hide DecInt;
  }

  /** An ascending list is printed as its runs. */
  lemma ListingAscending(es: seq<Entry>)
    requires Ascending(es)
    ensures Listing(es) == Text(Spans(es))
  {
    NegativesUnique(es, 0);
    assert es[0..] == es;
    SpansNil();
  }

  lemma SpansNil()
    ensures Spans([]) == [] && Text([]) == ""
  {
  }

  method IntArrayToList(aa: seq<int>) returns (ret: string)
    ensures ret == Listing(EntriesOf(aa))
  {
    hide Listing, Printing;
    ghost var es := EntriesOf(aa);
    ret := "";
    var c, cs, rng := -1, "", false;
    Started();
    for i := 0 to |aa|
      invariant Printing(es[..i], ret, c, cs, rng)
      invariant c == if i == 0 then -1 else aa[i - 1]
    {
      var a := aa[i];
      ghost var e := es[i];
      assert es[..i + 1] == es[..i] + [e];
      if c < 0 {
        FirstEntry(es[..i], ret, c, cs, rng, e);
        RngOnlyLater(es[..i], ret, c, cs, rng);
        ret := DecInt(a);
      } else {
        if a <= c {
          NotAscending(es, i);
          return "";
        }
        NextEntry(es[..i], ret, c, cs, rng, e);
        if a == c + 1 {
          if !rng {
            ret := ret + "-";
            rng := true;
          }
        } else {
          if rng {
            ret := ret + cs;
            rng := false;
          }
          ret := ret + ("," + DecInt(a));
        }
      }
      c := a;
      cs := DecInt(a);
    }
    assert es[..|aa|] == es;
    Finished(es, ret, c, cs, rng);
    if rng { ret := ret + cs; }
  }

  lemma Started()
    ensures Printing([], "", -1, "", false)
  {
  }

  lemma RngOnlyLater(es: seq<Entry>, ret: string, c: int, cs: string, rng: bool)
    requires Printing(es, ret, c, cs, rng) && c < 0
    ensures !rng
  {
  }

  /** The texts as numbers; None if one of them is not a number. */
  function ParseAll(aa: seq<string>): (r: Option<seq<Entry>>)
    ensures r.Some? <==> forall i :: 0 <= i < |aa| ==> ParseInt(aa[i]).Some?
    ensures r.Some? ==> |r.value| == |aa|
    ensures r.Some? ==> forall i :: 0 <= i < |aa| ==> r.value[i] == Entry(ParseInt(aa[i]).value, aa[i])
  {
    if forall i :: 0 <= i < |aa| ==> ParseInt(aa[i]).Some? then
      Some(seq(|aa|, i requires 0 <= i < |aa| && ParseInt(aa[i]).Some? => Entry(ParseInt(aa[i]).value, aa[i])))
    else None
  }

  function ArrayListing(aa: seq<string>): string {
    match ParseAll(aa) case None => "" case Some(es) => Listing(es)
  }

  method ArrayToList(aa: seq<string>) returns (ret: string)
    ensures ret == ArrayListing(aa)
  {
    hide Listing, Printing, ParseInt;
    ghost var parsed := ParseAll(aa);
    ghost var es: seq<Entry> := [];
    ret := "";
    var c, cs, rng := -1, "", false;
    Started();
    for i := 0 to |aa|
      invariant |es| == i && Printing(es, ret, c, cs, rng)
      invariant forall j :: 0 <= j < i ==> ParseInt(aa[j]).Some? && es[j] == Entry(ParseInt(aa[j]).value, aa[j])
      invariant c == if i == 0 then -1 else es[i - 1].n
    {
      var p := ParseInt(aa[i]);
      if p.None? { return ""; }
      var a := p.value;
      ghost var e := Entry(a, aa[i]);
      if c < 0 {
        FirstEntry(es, ret, c, cs, rng, e);
        RngOnlyLater(es, ret, c, cs, rng);
        ret := aa[i];
      } else {
        if a <= c {
          if parsed.Some? { NotAscending(parsed.value, i); }
          return "";
        }
        NextEntry(es, ret, c, cs, rng, e);
        if a == c + 1 {
          if !rng {
            ret := ret + "-";
            rng := true;
          }
        } else {
          if rng {
            ret := ret + cs;
            rng := false;
          }
          ret := ret + ("," + aa[i]);
        }
      }
      es := es + [e];
      c := a;
      cs := aa[i];
    }
    assert es == parsed.value;
    Finished(es, ret, c, cs, rng);
    if rng { ret := ret + cs; }
  }

  function TextsOf(ns: seq<int>): (aa: seq<string>)
    ensures |aa| == |ns| && forall i :: 0 <= i < |ns| ==> aa[i] == DecInt(ns[i])
  {
    seq(|ns|, i requires 0 <= i < |ns| => DecInt(ns[i]))
  }

  /** On 64-bit numbers, written out in decimal, the two printers print the same. */
  lemma {:induction false} PrintersAgree(ns: seq<int>)
    requires forall i :: 0 <= i < |ns| ==> -INT64 <= ns[i] < INT64
    ensures ArrayListing(TextsOf(ns)) == Listing(EntriesOf(ns))
  {
    hide Listing, ParseInt, DecInt;
    forall i | 0 <= i < |ns| ensures ParseInt(TextsOf(ns)[i]) == Some(ns[i]) { IntWritten(ns[i]); }
    assert ParseAll(TextsOf(ns)).value == EntriesOf(ns);
  }
}
