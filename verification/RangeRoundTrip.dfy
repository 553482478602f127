/** What the printers write, the reader reads: a printed list means exactly its numbers. */
module RangeRoundTrip {
  import opened Basics
  import opened Decimals
  import opened RangeList
  import opened RangePrinters
  import opened RangeReader

  // ---------- a comma separates ----------

  lemma {:induction false} DigitsLenIs(d: string, t: string)
    requires Digits(d) && (t == "" || !Digit(t[0]))
    ensures DigitsLen(d + t) == |d|
  {
    if d == "" {
      assert d + t == t;
    } else {
      assert (d + t)[1..] == d[1..] + t;
      DigitsLenIs(d[1..], t);
    }
  }

  lemma {:induction false} DigitsLenPrefix(s: string)
    ensures Digits(s[..DigitsLen(s)])
    ensures DigitsLen(s) == |s| || !Digit(s[DigitsLen(s)])
  {
    if s != "" && Digit(s[0]) { DigitsLenPrefix(s[1..]); }
  }

  lemma DigitsLenComma(a: string, t: string)
    requires t != "" && !Digit(t[0])
    ensures DigitsLen(a + t) == DigitsLen(a)
  {
    DigitsLenPrefix(a);
    var n := DigitsLen(a);
    assert a + t == a[..n] + (a[n..] + t);
    DigitsLenIs(a[..n], a[n..] + t);
  }

  lemma Slices(a: string, t: string, i: nat, j: nat)
    requires i <= j <= |a|
    ensures (a + t)[i..j] == a[i..j] && (a + t)[j..] == a[j..] + t
  {
  }

  /** A comma after a text changes nothing about its first match. */
  lemma HitComma(a: string, t: string)
    requires a != "" && Digit(a[0]) && t != "" && !Digit(t[0]) && t[0] != '-'
    ensures HitLen(a + t) == HitLen(a) && Hit(a + t) == Hit(a)
    ensures (a + t)[HitLen(a)..] == a[HitLen(a)..] + t
  {
    var n := DigitsLen(a);
    DigitsLenComma(a, t);
    hide DigitsLen;
    Slices(a, t, 0, n);
    if n + 1 <= |a| {
      Slices(a, t, n + 1, n + 1);
      DigitsLenComma(a[n + 1..], t);
    }
    Slices(a, t, if n + 1 <= HitLen(a) then n + 1 else HitLen(a), HitLen(a));
  }

  lemma {:induction false} MatchesComma(a: string, b: string)
    ensures Matches(a + "," + b) == Matches(a) + Matches(b)
    decreases |a|
  {
    var t := "," + b;
    assert a + "," + b == a + t;
    if a == "" {
      assert a + t == t && t[1..] == b;
    } else if !Digit(a[0]) {
      Slices(a, t, 0, 1);
      assert a[1..] + "," + b == a[1..] + t;
      MatchesComma(a[1..], b);
    } else {
      FirstComma(a, b);
    }
  }

  lemma {:induction false} FirstComma(a: string, b: string)
    requires a != "" && Digit(a[0])
    ensures Matches(a + ("," + b)) == Matches(a) + Matches(b)
    decreases |a|, 0
  {
    hide Hit, HitLen;
    var t := "," + b;
    HitComma(a, t);
    var n := HitLen(a);
    MatchesComma(a[n..], b);
    Assoc(a[n..], ",", b);
    assert Matches(a + t) == [Hit(a)] + Matches(a[n..] + t);
  }

  // ---------- one range ----------

  predicate Canonical(e: Entry) { 0 <= e.n < UINT64 && e.text == Dec(e.n) }

  predicate AllCanonical(spans: seq<Span>) {
    forall s :: s in spans ==> Canonical(s.lo) && Canonical(s.hi) && s.lo.n <= s.hi.n
  }

  function SpanText(s: Span): string {
    if s.lo.n != s.hi.n then s.lo.text + ("-" + s.hi.text) else s.lo.text
  }

  function MatchOf(s: Span): Match {
    if s.lo.n != s.hi.n then Two(s.lo.text, s.hi.text) else One(s.lo.text)
  }

  lemma MatchesSpan(s: Span)
    requires Canonical(s.lo) && Canonical(s.hi)
    ensures Matches(SpanText(s)) == [MatchOf(s)]
  {
    var t := SpanText(s);
    HitSpan(s);
    hide Hit, HitLen, SpanText, MatchOf;
    assert t[|t|..] == "";
  }

  lemma HitSpan(s: Span)
    requires Canonical(s.lo) && Canonical(s.hi)
    ensures var t := SpanText(s);
            t != "" && Digit(t[0]) && HitLen(t) == |t| && Hit(t) == MatchOf(s)
  {
    hide DigitsLen, Dec;
    var a, b := s.lo.text, s.hi.text;
    var t := SpanText(s);
    assert t[0] == a[0];
    if s.lo.n != s.hi.n {
      DigitsLenIs(a, "-" + b);
      DigitsLenIs(b, "");
      assert b + "" == b;
      assert t[..|a|] == a && t[|a| + 1..] == b && t[|a|] == '-' && t[|a| + 1] == b[0];
      assert t[|a| + 1..|t|] == b;
    } else {
      DigitsLenIs(a, "");
      assert a + "" == a && t[..|a|] == a;
    }
  }

  lemma BoundsOfSpan(s: Span)
    requires Canonical(s.lo) && Canonical(s.hi) && s.lo.n <= s.hi.n
    ensures BoundsOf(MatchOf(s)) == Some(Bounds(s.lo.n, s.hi.n))
  {
    UintWritten(s.lo.n);
    UintWritten(s.hi.n);
    hide ParseUint;
  }

  // ---------- a whole list ----------

  function MatchesOf(spans: seq<Span>): (r: seq<Match>)
    ensures |r| == |spans| && forall i :: 0 <= i < |r| ==> r[i] == MatchOf(spans[i])
  {
    seq(|spans|, i requires 0 <= i < |spans| => MatchOf(spans[i]))
  }

  lemma TextSplits(spans: seq<Span>)
    requires spans != []
    ensures var last := spans[|spans| - 1];
            Text(spans) == if |spans| == 1 then SpanText(last) else Text(spans[..|spans| - 1]) + "," + SpanText(last)
  {
    var last := spans[|spans| - 1];
    var before := Text(spans[..|spans| - 1]);
    TextIs(spans);
    assert Prefix(spans) == before + (if |spans| > 1 then "," else "") + last.lo.text;
    hide Prefix, Text;
    if |spans| == 1 {
      assert spans[..0] == [];
      SpansNil();
      assert "" + "" + last.lo.text == last.lo.text;
    } else if last.lo.n != last.hi.n {
      Assoc(before + ",", last.lo.text, "-" + last.hi.text);
    }
  }

  lemma MatchesOfMore(spans: seq<Span>)
    requires spans != []
    ensures MatchesOf(spans) == MatchesOf(spans[..|spans| - 1]) + [MatchOf(spans[|spans| - 1])]
    ensures |spans| == 1 ==> MatchesOf(spans[..|spans| - 1]) == []
  {
  }

  lemma LastCanonical(spans: seq<Span>)
    requires AllCanonical(spans) && spans != []
    ensures var last := spans[|spans| - 1];
            Canonical(last.lo) && Canonical(last.hi) && last.lo.n <= last.hi.n && AllCanonical(spans[..|spans| - 1])
  {
    assert spans[|spans| - 1] in spans;
  }

  lemma {:induction false} MatchesText(spans: seq<Span>)
    requires AllCanonical(spans)
    ensures Matches(Text(spans)) == MatchesOf(spans)
  {
    if spans != [] {
      var n := |spans| - 1;
      TextSplits(spans);
      LastCanonical(spans);
      MatchesSpan(spans[n]);
      MatchesOfMore(spans);
      hide Text, Matches, SpanText, MatchesOf, MatchOf, AllCanonical, Canonical;
      if n > 0 {
        MatchesText(spans[..n]);
        MatchesComma(Text(spans[..n]), SpanText(spans[n]));
      }
    }
  }

  lemma BoundsAt(spans: seq<Span>, i: nat)
    requires AllCanonical(spans) && i < |spans|
    ensures BoundsOf(MatchesOf(spans)[i]) == Some(Bounds(spans[i].lo.n, spans[i].hi.n))
  {
    hide BoundsOf, MatchOf, Canonical;
    assert spans[i] in spans;
    BoundsOfSpan(spans[i]);
  }

  lemma InTextSpans(spans: seq<Span>, x: nat)
    requires AllCanonical(spans)
    ensures InText(x, MatchesOf(spans)) <==> InSpans(x, spans)
  {
    hide BoundsOf, MatchOf, Canonical;
    var ms := MatchesOf(spans);
    if InText(x, ms) {
      var m :| m in ms && BoundsOf(m).Some? && BoundsOf(m).value.lo <= x <= BoundsOf(m).value.hi;
      var i :| 0 <= i < |ms| && ms[i] == m;
      BoundsAt(spans, i);
      assert spans[i] in spans && Within(x, spans[i]);
    }
    if InSpans(x, spans) {
      var s :| s in spans && Within(x, s);
      var i :| 0 <= i < |spans| && spans[i] == s;
      BoundsAt(spans, i);
      assert ms[i] in ms;
    }
  }

  /** Everything in a printed text can be read, and x is in the text when it is in one of the runs. */
  lemma TextMeans(spans: seq<Span>)
    requires AllCanonical(spans)
    ensures Readable(Matches(Text(spans)))
    ensures forall x: nat :: InText(x, Matches(Text(spans))) <==> InSpans(x, spans)
  {
    hide Text, Matches, BoundsOf, MatchOf, InText, InSpans, AllCanonical;
    MatchesText(spans);
    forall x: nat ensures InText(x, MatchesOf(spans)) <==> InSpans(x, spans) { InTextSpans(spans, x); }
    forall m | m in MatchesOf(spans) ensures BoundsOf(m).Some? {
      var i :| 0 <= i < |spans| && MatchesOf(spans)[i] == m;
      BoundsAt(spans, i);
    }
  }

  // ---------- lists of numbers ----------

  ghost predicate Listable(ns: seq<int>) {
    && (forall i :: 0 <= i < |ns| ==> 0 <= ns[i] < UINT64)
    && forall i, j :: 0 <= i < j < |ns| ==> ns[i] < ns[j]
  }

  function NumberText(ns: seq<int>): string { Listing(EntriesOf(ns)) }

  lemma {:induction false} SpansCanonical(es: seq<Entry>)
    requires Ascending(es) && forall i :: 0 <= i < |es| ==> Canonical(es[i])
    ensures AllCanonical(Spans(es))
    decreases |es|
  {
    hide *;
    AscendingPrefix(es);
    if es != [] {
      SpansCanonical(es[..|es| - 1]);
      CanonicalStep(es);
    }
    NoSpans(es);
  }

  lemma AscendingPrefix(es: seq<Entry>)
    requires Ascending(es)
    ensures es != [] ==> Ascending(es[..|es| - 1])
  {
  }

  lemma NoSpans(es: seq<Entry>)
    ensures es == [] ==> AllCanonical(Spans(es))
  {
  }

  lemma {:induction false} CanonicalStep(es: seq<Entry>)
    requires es != [] && Ascending(es) && Canonical(es[|es| - 1]) && AllCanonical(Spans(es[..|es| - 1]))
    ensures AllCanonical(Spans(es))
  {
    hide Canonical;
    SpansExact(es);
    var spans := Spans(es[..|es| - 1]);
    SpansOf(es);
    hide Spans;
    forall s | s in Spans(es) ensures Canonical(s.lo) && Canonical(s.hi) && s.lo.n <= s.hi.n {
      if spans != [] { assert spans[|spans| - 1] in spans; }
    }
  }

  lemma SpansOf(es: seq<Entry>)
    requires es != []
    ensures Spans(es) == Extend(Spans(es[..|es| - 1]), es[|es| - 1])
  {
  }

  /** The text of an ascending list is that of its runs. */
  lemma NumberTextIs(ns: seq<int>)
    requires Listable(ns)
    ensures Ascending(EntriesOf(ns)) && NumberText(ns) == Text(Spans(EntriesOf(ns)))
    ensures AllCanonical(Spans(EntriesOf(ns)))
  {
    var es := EntriesOf(ns);
    EntriesCanonical(ns);
    hide *;
    ListingAscending(es);
    SpansCanonical(es);
    NumberTextIsListing(ns);
  }

  lemma EntriesCanonical(ns: seq<int>)
    requires Listable(ns)
    ensures var es := EntriesOf(ns); Ascending(es) && forall i :: 0 <= i < |es| ==> Canonical(es[i])
  {
  }

  lemma NumberTextIsListing(ns: seq<int>)
    ensures NumberText(ns) == Listing(EntriesOf(ns))
  {
  }

  /** The printed text of an ascending list denotes exactly the numbers of the list. */
  lemma PrintedMeans(ns: seq<int>)
    requires Listable(ns)
    ensures Readable(Matches(NumberText(ns)))
    ensures forall x: nat :: InText(x, Matches(NumberText(ns))) <==> x in ns
  {
    var es := EntriesOf(ns);
    NumberTextIs(ns);
    SpansExact(es);
    hide Spans, Text, Matches, Listing, AllCanonical, InSpans, InText;
    TextMeans(Spans(es));
    forall x: nat ensures InText(x, Matches(NumberText(ns))) <==> x in ns {
      if x in ns {
        var i :| 0 <= i < |ns| && ns[i] == x;
        assert es[i].n == x;
      }
    }
  }

  /** The overlap test on two printed lists never fails, and answers whether they share a number. */
  lemma PrintedCross(a: seq<int>, b: seq<int>)
    requires Listable(a) && Listable(b)
    ensures Crossing(Matches(NumberText(a)), Matches(NumberText(b))) == Answer(exists x :: x in a && x in b, true)
  {
    hide Matches, NumberText, Listing, Crossing, InText;
    PrintedMeans(a);
    PrintedMeans(b);
    var p, q := Matches(NumberText(a)), Matches(NumberText(b));
    CrossingExact(p, q);
    if x :| x in a && x in b {
      assert InText(x, p) && InText(x, q);
    }
  }

  /** Different lists have different texts. */
  lemma PrintedInjective(a: seq<int>, b: seq<int>)
    requires Listable(a) && Listable(b) && NumberText(a) == NumberText(b)
    ensures forall x :: x in a <==> x in b
  {
    hide Matches, NumberText, Listing, InText;
    PrintedMeans(a);
    PrintedMeans(b);
    forall x ensures x in a <==> x in b {
      if x in a || x in b {
        assert InText(x, Matches(NumberText(a))) <==> x in a;
      }
    }
  }
}
