/** The runs of consecutive numbers in an ascending list. */
module RangeList {
  import opened Basics
  import opened Decimals

  /** A number and the text it was given as. */
  datatype Entry = Entry(n: int, text: string)

  /** A run of consecutive numbers. */
  datatype Span = Span(lo: Entry, hi: Entry)

  /** The runs of a list, when its numbers come in ascending order. */
  function Spans(es: seq<Entry>): seq<Span> {
    if es == [] then [] else Extend(Spans(es[..|es| - 1]), es[|es| - 1])
  }

  function Extend(spans: seq<Span>, e: Entry): (r: seq<Span>)
    ensures r != [] && r[|r| - 1].hi == e
  {
    var n := |spans|;
    if n > 0 && e.n == spans[n - 1].hi.n + 1 then spans[..n - 1] + [Span(spans[n - 1].lo, e)]
    else spans + [Span(e, e)]
  }

  /** The text of all runs but for the upper end of the last. */
  function Prefix(spans: seq<Span>): string
    requires spans != []
    decreases |spans|, 0
  {
    var n := |spans|;
    Text(spans[..n - 1]) + (if n > 1 then "," else "") + spans[n - 1].lo.text
  }

  function Text(spans: seq<Span>): string
    decreases |spans|, 1
  {
    if spans == [] then ""
    else
      var last := spans[|spans| - 1];
      Prefix(spans) + if last.lo.n != last.hi.n then "-" + last.hi.text else ""
  }

  // ---------- the runs are what they should be ----------

  predicate Ascending(es: seq<Entry>) {
    && (forall i :: 0 <= i < |es| ==> 0 <= es[i].n)
    && forall i, j :: 0 <= i < j < |es| ==> es[i].n < es[j].n
  }

  predicate Within(x: int, s: Span) { s.lo.n <= x <= s.hi.n }

  predicate InSpans(x: int, spans: seq<Span>) { exists s :: s in spans && Within(x, s) }

  /** Every run is proper, and between a run and the next at least one number is missing. */
  predicate Separate(spans: seq<Span>) {
    && (forall i :: 0 <= i < |spans| ==> spans[i].lo.n <= spans[i].hi.n)
    && forall i, j :: 0 <= i < j < |spans| ==> spans[i].hi.n + 1 < spans[j].lo.n
  }

  lemma ExtendSeparate(spans: seq<Span>, e: Entry)
    requires Separate(spans) && (spans != [] ==> spans[|spans| - 1].hi.n < e.n)
    ensures Separate(Extend(spans, e))
    ensures forall x :: InSpans(x, Extend(spans, e)) <==> InSpans(x, spans) || x == e.n
  {
    var n := |spans|;
    var r := Extend(spans, e);
    forall x ensures InSpans(x, r) <==> InSpans(x, spans) || x == e.n {
      if n > 0 && e.n == spans[n - 1].hi.n + 1 {
        assert spans == spans[..n - 1] + [spans[n - 1]];
        assert Within(x, r[n - 1]) <==> Within(x, spans[n - 1]) || x == e.n;
        assert forall s :: s in r <==> s in spans[..n - 1] || s == r[n - 1];
        assert forall s :: s in spans <==> s in spans[..n - 1] || s == spans[n - 1];
        InSpansSplit(x, spans[..n - 1], r[n - 1]);
        InSpansSplit(x, spans[..n - 1], spans[n - 1]);
      } else {
        InSpansSplit(x, spans, Span(e, e));
      }
    }
  }

  lemma InSpansSplit(x: int, spans: seq<Span>, s: Span)
    ensures InSpans(x, spans + [s]) <==> InSpans(x, spans) || Within(x, s)
  {
    if InSpans(x, spans) {
      var t :| t in spans && Within(x, t);
      assert t in spans + [s];
    }
    if Within(x, s) { assert s in spans + [s]; }
  }

  /** x is one of the numbers. */
  ghost predicate Among(es: seq<Entry>, x: int) {
    exists i :: 0 <= i < |es| && es[i].n == x
  }

  lemma AmongMore(es: seq<Entry>, x: int)
    requires es != []
    ensures Among(es, x) <==> Among(es[..|es| - 1], x) || es[|es| - 1].n == x
  {
    var k := |es| - 1;
    if Among(es[..k], x) {
      var i :| 0 <= i < k && es[..k][i].n == x;
      assert es[i].n == x;
    }
    if Among(es, x) && es[k].n != x {
      var i :| 0 <= i < |es| && es[i].n == x;
      assert es[..k][i].n == x;
    }
  }

  /** The runs of an ascending list cover exactly its numbers, as few and as long as can be. */
  lemma {:induction false} SpansExact(es: seq<Entry>)
    requires Ascending(es)
    ensures Separate(Spans(es))
    ensures forall x :: InSpans(x, Spans(es)) <==> Among(es, x)
    ensures es != [] ==> Spans(es) != [] && Spans(es)[|Spans(es)| - 1].hi == es[|es| - 1]
    decreases |es|
  {
    if es != [] {
      var k := |es| - 1;
      SpansExact(es[..k]);
      hide Separate, InSpans, Extend;
      ExtendSeparate(Spans(es[..k]), es[k]);
      hide Ascending;
      forall x ensures InSpans(x, Spans(es)) <==> Among(es, x) { AmongMore(es, x); }
    }
  }
}
