/** How rules may be written, and what they mean: which texts spell a list of tokens, whatever the white space and the
    form of the values, and when an expression is true of an alert. The scanner accepts exactly these texts, and the
    verdict on a rule is the truth of what it spells. */
module RuleSpelling {
  import opened Basics
  import opened RuleGrammar
  import opened RuleScan
  import opened RuleFacts
  import opened RuleMeaning
  import opened RuleText

  // ---------- the text of a token ----------

  predicate AllBlank(s: string) { forall i :: 0 <= i < |s| ==> s[i] == ' ' || s[i] == '\t' }

  predicate Name(key: string) {
    && key != ""
    && forall i :: 0 <= i < |key| ==>
         '0' <= key[i] <= '9' || 'a' <= key[i] <= 'z' || 'A' <= key[i] <= 'Z' || key[i] == '_'
  }

  function Sign(op: Op): string {
    match op case Eq => "==" case Re => "=~" case Ne => "!=" case NotRe => "!~"
  }

  /** A value without quotes: no white space in it, and not begun with a quote. */
  predicate Bare(v: string) {
    && v != "" && v[0] != '"' && v[0] != '\r' && v[0] != '\U{000C}'
    && forall i :: 0 <= i < |v| ==> v[i] != ' ' && v[i] != '\n' && v[i] != '\t'
  }

  /** A pattern as it stands between the slashes: a backslash before a backslash or a slash is dropped, and no slash
      or newline stands alone. */
  predicate Unescaped(body: string, p: string) {
    if body == "" then p == ""
    else if body[0] == '\\' && |body| > 1 && (body[1] == '\\' || body[1] == '/') then
      p != "" && p[0] == body[1] && Unescaped(body[2..], p[1..])
    else
      body != "\\" && body[0] != '/' && body[0] != '\n' && p != "" && p[0] == body[0] && Unescaped(body[1..], p[1..])
  }

  /** The text of the value or pattern of a comparison. */
  ghost predicate ValueText(c: Cmp, text: string) {
    if c.op == Eq || c.op == Ne then
      (text == "\"" + c.operand + "\"" && Quotable(c.operand)) || (text == c.operand && Bare(c.operand))
    else exists body :: text == "/" + body + "/" && Unescaped(body, c.operand)
  }

  ghost predicate CmpText(c: Cmp, text: string) {
    exists left, right, value :: CmpParts(c, text, left, right, value)
  }

  ghost predicate CmpParts(c: Cmp, text: string, left: string, right: string, value: string) {
    && Name(c.key) && AllBlank(left) && AllBlank(right) && ValueText(c, value)
    && text == c.key + (left + (Sign(c.op) + (right + value)))
  }

  ghost predicate Spells(t: Item, text: string) {
    match t
    case Leaf(c) => CmpText(c, text)
    case Open => text == "("
    case Close => text == ")"
    case And => text == "&&"
    case Or => text == "||"
  }

  // ---------- the text of a list ----------

  /** A token with its text and the white space before it. */
  datatype Word = Word(gap: string, tok: Item, text: string)

  function Whole(words: seq<Word>): string {
    if words == [] then "" else words[0].gap + (words[0].text + Whole(words[1..]))
  }

  function Toks(words: seq<Word>): (r: seq<Item>)
    ensures |r| == |words| && forall i :: 0 <= i < |r| ==> r[i] == words[i].tok
  {
    seq(|words|, i requires 0 <= i < |words| => words[i].tok)
  }

  /** A comparison is followed by white space, if by anything. */
  ghost predicate Spelled(words: seq<Word>) {
    && (forall i :: 0 <= i < |words| ==> AllWs(words[i].gap) && Spells(words[i].tok, words[i].text))
    && forall i :: 0 <= i < |words| - 1 && words[i].tok.Leaf? ==> words[i + 1].gap != ""
  }

  // ---------- parts ----------

  lemma {:induction false} WsSplit(s: string) returns (gap: string)
    ensures AllWs(gap) && s == gap + SkipWs(s)
  {
    if s != "" && Ws(s[0]) {
      var g := WsSplit(s[1..]);
      gap := [s[0]] + g;
      assert s == [s[0]] + s[1..];
      Assoc([s[0]], g, SkipWs(s[1..]));
    } else {
      gap := "";
      assert "" + s == s;
    }
  }

  lemma {:induction false} BlankSplit(s: string) returns (gap: string)
    ensures AllBlank(gap) && s == gap + SkipBlanks(s)
  {
    if s != "" && Blank(s[0]) {
      var g := BlankSplit(s[1..]);
      gap := [s[0]] + g;
      assert s == [s[0]] + s[1..];
      Assoc([s[0]], g, SkipBlanks(s[1..]));
    } else {
      gap := "";
      assert "" + s == s;
    }
  }

  lemma {:induction false} BlankBack(gap: string, s: string)
    requires AllBlank(gap) && (s == "" || !Blank(s[0]))
    ensures SkipBlanks(gap + s) == s
  {
    if gap == "" {
      assert gap + s == s;
    } else {
      assert (gap + s)[1..] == gap[1..] + s;
      BlankBack(gap[1..], s);
    }
  }

  lemma {:induction false} KeySplit(s: string)
    ensures forall i :: 0 <= i < KeyLen(s) ==> KeyChar(s[i])
  {
    if s != "" && KeyChar(s[0]) {
      KeySplit(s[1..]);
      forall i | 0 <= i < KeyLen(s) ensures KeyChar(s[i]) {
        if i > 0 { assert s[i] == s[1..][i - 1]; }
      }
    }
  }

  lemma SignIs(op: Op, s: string)
    ensures OpAt(s) == Some(op) <==> Sign(op) <= s
    ensures Sign(op) <= s ==> |s| >= 2 && s == Sign(op) + s[2..]
  {
    var o := Sign(op);
    if o <= s { assert s == s[..2] + s[2..] && s[..2] == o; }
    assert forall p: string :: |p| == 2 && p <= s ==> p[0] == s[0] && p[1] == s[1];
    if |s| >= 2 {
      assert forall p: string :: |p| == 2 && p[0] == s[0] && p[1] == s[1] ==> p == s[..2] && p <= s;
    }
  }

  /** The scan for a key and its operator, part by part. */
  lemma LexIs(s: string)
    ensures var n := KeyLen(s);
            var t := SkipBlanks(s[n..]);
            LexKey(s) ==
            if n == 0 || OpAt(t).None? then None
            else
              var u := SkipBlanks(t[2..]);
              if u == "" || Space(u[0]) then None else Some(KeyOp(s[..n], OpAt(t).value, u))
  {
    hide KeyLen, SkipBlanks, Space;
  }

  /** A key with its operator, taken apart. */
  lemma LexSplit(s: string) returns (left: string, right: string)
    requires LexKey(s).Some?
    ensures var k := LexKey(s).value;
            && Name(k.key) && AllBlank(left) && AllBlank(right) && s == k.key + (left + (Sign(k.op) + (right + k.rest)))
            && k.rest != "" && !Space(k.rest[0])
  {
    hide OpAt, Sign, SkipBlanks, LexKey, KeyLen, Space, AllBlank;
    LexIs(s);
    var n := KeyLen(s);
    KeySplit(s);
    left := BlankSplit(s[n..]);
    var t := SkipBlanks(s[n..]);
    SignIs(OpAt(t).value, t);
    right := BlankSplit(t[2..]);
    assert s == s[..n] + s[n..];
  }

  lemma LexJoin(key: string, left: string, op: Op, right: string, rest: string)
    requires Name(key) && AllBlank(left) && AllBlank(right) && rest != "" && !Space(rest[0])
    ensures LexKey(key + (left + (Sign(op) + (right + rest)))) == Some(KeyOp(key, op, rest))
  {
    var u := right + rest;
    var t := Sign(op) + u;
    var v := left + t;
    SignIs(op, t);
    SignFirst(op, u);
    NameChars(key);
    hide OpAt, Sign, SkipBlanks, KeyLen, LexKey, Name;
    BlankBack(left, t);
    BlankBack(right, rest);
    assert v[0] == if left == "" then t[0] else left[0];
    KeyBack(key, v);
    assert (key + v)[|key|..] == v && (key + v)[..|key|] == key;
    LexIs(key + v);
  }

  lemma NameChars(key: string)
    requires Name(key)
    ensures key != "" && forall i :: 0 <= i < |key| ==> KeyChar(key[i])
  {
  }

  lemma SignFirst(op: Op, u: string)
    ensures var t := Sign(op) + u; t[2..] == u && !Blank(t[0]) && !KeyChar(t[0])
  {
  }

  lemma {:induction false} PatternSplit(s: string) returns (body: string)
    requires PatternOf(s).Some?
    ensures var p := PatternOf(s).value; s == body + ("/" + p.rest) && Unescaped(body, p.text)
    ensures body != "\\"
  {
    if s[0] == '\\' && |s| > 1 && (s[1] == '\\' || s[1] == '/') {
      var b := PatternSplit(s[2..]);
      body := s[..2] + b;
      assert s == s[..2] + s[2..] && body[2..] == b;
      Assoc(s[..2], b, "/" + PatternOf(s).value.rest);
    } else if s[0] == '/' {
      body := "";
    } else {
      var b := PatternSplit(s[1..]);
      body := [s[0]] + b;
      assert s == [s[0]] + s[1..] && body[1..] == b;
      Assoc([s[0]], b, "/" + PatternOf(s).value.rest);
    }
  }

  lemma {:induction false} PatternJoin(body: string, p: string, rest: string)
    requires Unescaped(body, p)
    ensures PatternOf(body + ("/" + rest)) == Some(Piece(p, rest))
  {
    var s := body + ("/" + rest);
    if body == "" {
      assert s == "/" + rest && s[1..] == rest;
    } else if body[0] == '\\' && |body| > 1 && (body[1] == '\\' || body[1] == '/') {
      assert s[2..] == body[2..] + ("/" + rest);
      PatternJoin(body[2..], p[1..], rest);
      assert p == [p[0]] + p[1..];
    } else {
      assert s[1..] == body[1..] + ("/" + rest);
      assert |body| > 1 ==> s[1] == body[1];
      PatternJoin(body[1..], p[1..], rest);
      assert p == [p[0]] + p[1..];
    }
  }

  // ---------- values ----------

  lemma {:induction false} BareSplit(s: string)
    requires s != "" && !Space(s[0]) && s[0] != '"'
    ensures var n := BareLen(s); Bare(s[..n]) && EndsWord(s[n..])
  {
    BareChars(s);
    assert BareLen(s) > 0;
  }

  lemma {:induction false} BareChars(s: string)
    ensures forall i :: 0 <= i < BareLen(s) ==> !Ws(s[i])
    ensures EndsWord(s[BareLen(s)..])
  {
    if s != "" && !Ws(s[0]) {
      BareChars(s[1..]);
      assert s[BareLen(s)..] == s[1..][BareLen(s[1..])..];
      forall i | 0 <= i < BareLen(s) ensures !Ws(s[i]) {
        if i > 0 { assert s[i] == s[1..][i - 1]; }
      }
    }
  }

  lemma {:induction false} BareJoin(v: string, rest: string)
    requires (forall i :: 0 <= i < |v| ==> !Ws(v[i])) && EndsWord(rest)
    ensures BareLen(v + rest) == |v|
  {
    if v == "" {
      assert v + rest == rest;
    } else {
      assert (v + rest)[1..] == v[1..] + rest;
      BareJoin(v[1..], rest);
    }
  }

  /** The text of a value, taken apart from what follows. */
  lemma ValueSplit(key: string, op: Op, s: string) returns (value: string)
    requires s != "" && !Space(s[0]) && Operand(op, s).Some?
    ensures var p := Operand(op, s).value;
            s == value + p.rest && ValueText(Cmp(key, op, p.text), value) && EndsWord(p.rest)
  {
    hide Quotable, Unescaped, Bare, QuotedLen, PatternOf, BareLen, EndsWord, ValueText;
    if op == Eq || op == Ne {
      if s[0] != '"' { value := BareValue(key, op, s); } else { value := QuotedValue(key, op, s); }
    } else {
      value := PatternValue(key, op, s);
    }
  }

  lemma BareValue(key: string, op: Op, s: string) returns (value: string)
    requires s != "" && !Space(s[0]) && (op == Eq || op == Ne) && s[0] != '"'
    ensures var p := Operand(op, s).value;
            Operand(op, s).Some? && s == value + p.rest && ValueText(Cmp(key, op, p.text), value) && EndsWord(p.rest)
  {
    hide Quotable, Unescaped, Bare, QuotedLen, PatternOf, BareLen, EndsWord;
    BareSplit(s);
    value := s[..BareLen(s)];
    assert s == value + s[BareLen(s)..];
  }

  lemma QuotedValue(key: string, op: Op, s: string) returns (value: string)
    requires s != "" && (op == Eq || op == Ne) && s[0] == '"' && Operand(op, s).Some?
    ensures var p := Operand(op, s).value;
            s == value + p.rest && ValueText(Cmp(key, op, p.text), value) && EndsWord(p.rest)
  {
    hide Quotable, Unescaped, Bare, QuotedLen, PatternOf, BareLen, EndsWord;
    var p := Operand(op, s).value;
    var n := QuotedLen(s[1..]).value;
    QuoteIs(s[1..], n);
    assert p.text == s[1..][..n] && p.rest == s[1..][n + 1..];
    value := "\"" + p.text + "\"";
    assert s == value + p.rest;
  }

  lemma PatternValue(key: string, op: Op, s: string) returns (value: string)
    requires s != "" && !(op == Eq || op == Ne) && Operand(op, s).Some?
    ensures var p := Operand(op, s).value;
            s == value + p.rest && ValueText(Cmp(key, op, p.text), value) && EndsWord(p.rest)
  {
    hide Quotable, Unescaped, Bare, QuotedLen, PatternOf, BareLen, EndsWord;
    var p := Operand(op, s).value;
    var body := PatternSplit(s[1..]);
    value := "/" + body + "/";
    assert s == "/" + s[1..];
    Assoc("/" + body, "/", p.rest);
    Assoc("/", body, "/" + p.rest);
    assert Unescaped(body, p.text);
  }

  lemma QuoteIs(s: string, n: nat)
    requires QuotedLen(s) == Some(n)
    ensures Quotable(s[..n]) && s == s[..n] + "\"" + s[n + 1..]
  {
    hide Quotable;
    assert s == s[..n] + "\"" + s[n + 1..];
    QuotedExact(s[..n], s[n + 1..]);
  }

  lemma ValueJoin(c: Cmp, value: string, rest: string)
    requires ValueText(c, value) && EndsWord(rest)
    ensures value != "" && !Space(value[0]) && Operand(c.op, value + rest) == Some(Piece(c.operand, rest))
  {
    hide Quotable, Unescaped, Operand, EndsWord, Bare;
    if c.op == Eq || c.op == Ne {
      if value == c.operand && Bare(c.operand) {
        BareAlone(c.op, value, rest);
      } else {
        QuotedAlone(c.op, c.operand, rest);
      }
    } else {
      var body :| value == "/" + body + "/" && Unescaped(body, c.operand);
      PatternAlone(c.op, body, c.operand, rest);
    }
  }

  lemma BareAlone(op: Op, value: string, rest: string)
    requires (op == Eq || op == Ne) && Bare(value) && EndsWord(rest)
    ensures value != "" && !Space(value[0]) && Operand(op, value + rest) == Some(Piece(value, rest))
  {
    hide BareLen, EndsWord;
    BareJoin(value, rest);
    assert (value + rest)[..|value|] == value && (value + rest)[|value|..] == rest;
  }

  lemma PatternAlone(op: Op, body: string, p: string, rest: string)
    requires !(op == Eq || op == Ne) && Unescaped(body, p) && EndsWord(rest)
    ensures Operand(op, "/" + body + "/" + rest) == Some(Piece(p, rest))
  {
    hide Unescaped, PatternOf, EndsWord;
    assert ("/" + body + "/" + rest)[1..] == body + ("/" + rest);
    PatternJoin(body, p, rest);
  }

  // ---------- whole comparisons ----------

  lemma CmpSplit(s: string) returns (text: string)
    requires LexKey(s).Some? && Operand(LexKey(s).value.op, LexKey(s).value.rest).Some?
    ensures var k := LexKey(s).value;
            var p := Operand(k.op, k.rest).value;
            CmpText(Cmp(k.key, k.op, p.text), text) && s == text + p.rest && EndsWord(p.rest)
  {
    hide LexKey, Operand, Name, AllBlank, ValueText, Sign, EndsWord;
    var k := LexKey(s).value;
    var p := Operand(k.op, k.rest).value;
    var left, right := LexSplit(s);
    var value := ValueSplit(k.key, k.op, k.rest);
    text := k.key + (left + (Sign(k.op) + (right + value)));
    Parts(k.key, left, Sign(k.op), right, value, p.rest);
    assert CmpParts(Cmp(k.key, k.op, p.text), text, left, right, value);
  }

  lemma Parts(a: string, b: string, c: string, d: string, e: string, f: string)
    ensures a + (b + (c + (d + (e + f)))) == a + (b + (c + (d + e))) + f
  {
    Assoc(a, b + (c + (d + e)), f);
    Assoc(b, c + (d + e), f);
    Assoc(c, d + e, f);
    Assoc(d, e, f);
  }

  lemma CmpJoin(c: Cmp, text: string, rest: string)
    requires CmpText(c, text) && EndsWord(rest)
    ensures text != "" && KeyChar(text[0])
    ensures var k := LexKey(text + rest);
            k.Some? && k.value.key == c.key && k.value.op == c.op
            && Operand(k.value.op, k.value.rest) == Some(Piece(c.operand, rest))
  {
    hide LexKey, Operand, AllBlank, ValueText, Sign, EndsWord, Space;
    var left, right, value :| CmpParts(c, text, left, right, value);
    ValueJoin(c, value, rest);
    LexJoin(c.key, left, c.op, right, value + rest);
    Parts(c.key, left, Sign(c.op), right, value, rest);
  }

  // ---------- every text that is scanned is spelled ----------

  lemma SpelledCons(w: Word, words: seq<Word>)
    requires AllWs(w.gap) && Spells(w.tok, w.text) && Spelled(words)
    requires w.tok.Leaf? && words != [] ==> words[0].gap != ""
    ensures Spelled([w] + words) && Toks([w] + words) == [w.tok] + Toks(words)
    ensures Whole([w] + words) == w.gap + (w.text + Whole(words))
  {
    hide Spells, Whole, Spelled, Toks;
    SpelledMore(w, words, [w] + words);
    ToksCons(w, words);
    WholeCons([w] + words);
    assert ([w] + words)[1..] == words;
  }

  lemma ToksCons(w: Word, words: seq<Word>)
    ensures Toks([w] + words) == [w.tok] + Toks(words)
  {
  }

  lemma SpelledMore(w: Word, words: seq<Word>, all: seq<Word>)
    requires AllWs(w.gap) && Spells(w.tok, w.text) && Spelled(words) && all == [w] + words
    requires w.tok.Leaf? && words != [] ==> words[0].gap != ""
    ensures Spelled(all)
  {
    hide Spells;
    forall i | 0 <= i < |all| - 1 && all[i].tok.Leaf? ensures all[i + 1].gap != "" {
      if i > 0 { assert words[i - 1].tok.Leaf?; }
    }
  }

  lemma WholeCons(words: seq<Word>)
    ensures words != [] ==> Whole(words) == words[0].gap + (words[0].text + Whole(words[1..]))
    ensures Whole([]) == "" && Toks([]) == [] && Spelled([])
  {
  }

  lemma NoWs(t: Item, text: string)
    requires Spells(t, text)
    ensures text != "" && !Ws(text[0])
  {
    if t.Leaf? {
      var left, right, value :| CmpParts(t.v, text, left, right, value);
      assert text[0] == t.v.key[0];
    }
  }

  /** Text that starts a new word at once has a word without a gap in front. */
  lemma GapNeeded(s: string, words: seq<Word>, end: string)
    requires EndsWord(s) && s == Whole(words) + end && Spelled(words) && words != []
    ensures words[0].gap != ""
  {
    WholeCons(words);
    NoWs(words[0].tok, words[0].text);
    hide Spells, Whole;
  }

  /** One more word in front of what was read. */
  lemma Front(s: string, gap: string, w: Item, text: string, rest: string, words: seq<Word>, end: string)
    requires s == gap + (text + rest) && AllWs(gap) && Spells(w, text) && (w.Leaf? ==> EndsWord(rest))
    requires rest == Whole(words) + end && Spelled(words)
    ensures var all := [Word(gap, w, text)] + words;
            Spelled(all) && s == Whole(all) + end && Toks(all) == [w] + Toks(words)
  {
    hide Spells, Whole, EndsWord;
    if words != [] && w.Leaf? { GapNeeded(rest, words, end); }
    SpelledCons(Word(gap, w, text), words);
    Assoc(text, Whole(words), end);
    Assoc(gap, text + Whole(words), end);
  }

  lemma CompleteCons(t: Item, items: seq<Item>)
    ensures forall after :: Complete([t] + items, after) <==> Complete(items, t.Leaf? || t.Close?)
    ensures Complete([], true)
  {
  }

  lemma {:induction false} TermSpelled(s: string, par: nat, pending: bool) returns (words: seq<Word>, end: string)
    requires Term(s, par, pending).Ok?
    ensures s == Whole(words) + end && AllWs(end) && Spelled(words) && Toks(words) == Term(s, par, pending).value
    ensures words == [] ==> end == "" || (par == 0 && !pending)
    ensures Complete(Toks(words), false) || end == "" || words == []
    decreases |s|, 1
  {
    hide LexKey, Operand, After, Spells, Whole, Spelled, EndsWord, AllWs, Toks, SkipWs, Complete, CmpText;
    WholeCons([]);
    var gap := WsSplit(s);
    var t := SkipWs(s);
    if t == "" {
      words, end := [], s;
      assert gap + "" == gap && "" + s == s;
      Nothing(s);
    } else if LexKey(t).Some? {
      var k := LexKey(t).value;
      var p := Operand(k.op, k.rest).value;
      var text := CmpSplit(t);
      var w := Leaf(Cmp(k.key, k.op, p.text));
      SpellsCmp(w, text);
      words, end := AfterSpelled(p.rest, par);
      Front(s, gap, w, text, p.rest, words, end);
      CompleteCons(w, Toks(words));
      words := [Word(gap, w, text)] + words;
    } else {
      SpellsSigns();
      assert t == "(" + t[1..];
      words, end := TermSpelled(t[1..], par + 1, false);
      Front(s, gap, Open, "(", t[1..], words, end);
      CompleteCons(Open, Toks(words));
      words := [Word(gap, Open, "(")] + words;
    }
  }

  lemma Nothing(s: string)
    ensures s == "" ==> AllWs(s)
  {
  }

  lemma SpellsCmp(t: Item, text: string)
    requires t.Leaf? && CmpText(t.v, text)
    ensures Spells(t, text)
  {
  }

  lemma SpellsSigns()
    ensures Spells(Open, "(") && Spells(Close, ")") && Spells(And, "&&") && Spells(Or, "||")
  {
  }

  lemma {:induction false} AfterSpelled(s: string, par: nat) returns (words: seq<Word>, end: string)
    requires After(s, par).Ok?
    ensures s == Whole(words) + end && AllWs(end) && Spelled(words) && Toks(words) == After(s, par).value
    ensures Complete(Toks(words), true) || end == ""
    decreases |s|, 0
  {
    hide Term, Spells, Whole, Spelled, AllWs, Toks, SkipWs, Complete;
    WholeCons([]);
    SpellsSigns();
    var gap := WsSplit(s);
    var t := SkipWs(s);
    if t == "" {
      words, end := [], s;
      CompleteCons(Open, []);
      assert gap + "" == gap && "" + s == s;
    } else if t[0] == ')' {
      assert t == ")" + t[1..];
      words, end := AfterSpelled(t[1..], par - 1);
      Front(s, gap, Close, ")", t[1..], words, end);
      CompleteCons(Close, Toks(words));
      words := [Word(gap, Close, ")")] + words;
    } else {
      var op := if "||" <= t then Or else And;
      var text := if "||" <= t then "||" else "&&";
      assert t == text + t[2..];
      words, end := TermSpelled(t[2..], par, true);
      Front(s, gap, op, text, t[2..], words, end);
      CompleteCons(op, Toks(words));
      words := [Word(gap, op, text)] + words;
    }
  }

  // ---------- every text that is spelled is scanned ----------

  /** What may come at the end: white space after an operand or in a text without tokens. */
  ghost predicate Ends(items: seq<Item>, end: string, after: bool, open: bool) {
    AllWs(end) && (end == "" || Complete(items, after) || (items == [] && !open))
  }

  lemma {:induction false} SpelledTerm(words: seq<Word>, end: string, par: nat, pending: bool)
    requires Spelled(words) && Shape(Toks(words), par, false)
    requires Ends(Toks(words), end, false, par != 0 || pending)
    ensures Term(Whole(words) + end, par, pending) == Ok(Toks(words))
    decreases |words|
  {
    hide LexKey, Operand, Spells, CmpText, Shape, Complete, EndsWord, After, Term, Cat;
    WholeCons(words);
    if words == [] {
      assert "" + end == end;
      NoTerm(end, par, pending);
    } else {
      var w := words[0];
      var s := w.text + (Whole(words[1..]) + end);
      Apart(words, end);
      ShapeHead(Toks(words), par, false);
      NoWs(w.tok, w.text);
      TermGap(w.gap, s, par, pending);
      assert Spelled(words[1..]) && Toks(words)[1..] == Toks(words[1..]) && Toks(words) == [w.tok] + Toks(words[1..]);
      EndsMore(words, end);
      hide Whole, Spelled, Ends;
      if w.tok.Leaf? {
        SpelledAfter(words[1..], end, par);
        LeafWord(w, Whole(words[1..]) + end, par, pending);
      } else {
        SpelledTerm(words[1..], end, par + 1, false);
        OpenWord(w);
        OpenBack(Whole(words[1..]) + end, par, pending);
      }
      CatOk(w.tok, Toks(words[1..]));
    }
  }

  lemma NoTerm(end: string, par: nat, pending: bool)
    requires Ends([], end, false, par != 0 || pending)
    ensures Term(end, par, pending) == Ok([])
  {
    SkipGap(end, "");
    assert end + "" == end;
  }

  lemma NoAfter(end: string, par: nat)
    requires Ends([], end, true, true) && Shape([], par, true)
    ensures After(end, par) == Ok([])
  {
    SkipGap(end, "");
    assert end + "" == end;
  }

  lemma CatOk(t: Item, items: seq<Item>)
    ensures Cat([t], Ok(items)) == Ok([t] + items)
  {
  }

  lemma OpenWord(w: Word)
    requires Spells(w.tok, w.text)
    ensures w.tok.Open? ==> w.text == "("
    ensures w.tok.Close? ==> w.text == ")"
    ensures w.tok.And? ==> w.text == "&&"
    ensures w.tok.Or? ==> w.text == "||"
  {
  }

  lemma Apart(words: seq<Word>, end: string)
    requires words != []
    ensures Whole(words) + end == words[0].gap + (words[0].text + (Whole(words[1..]) + end))
  {
    var w, rest := words[0], Whole(words[1..]);
    WholeCons(words);
    hide Whole;
    Assoc(w.gap, w.text + rest, end);
    Assoc(w.text, rest, end);
  }

  /** What holds for the words holds for all but the first. */
  lemma EndsMore(words: seq<Word>, end: string)
    requires words != [] && Spelled(words)
    ensures forall after, open :: Ends(Toks(words), end, after, open) ==>
              && (words[0].tok.Leaf? || words[0].tok.Close? ==> Ends(Toks(words[1..]), end, true, true))
              && (!words[0].tok.Leaf? && !words[0].tok.Close? ==> Ends(Toks(words[1..]), end, false, true))
    ensures words[0].tok.Leaf? ==> EndsWord(Whole(words[1..]) + end) || !AllWs(end)
  {
    hide Spells;
    var items, rest := Toks(words), Toks(words[1..]);
    assert rest == items[1..];
    if words[0].tok.Leaf? {
      if |words| > 1 {
        Apart(words[1..], end);
        assert words[1].gap != "" && AllWs(words[1].gap);
      } else {
        assert Whole(words[1..]) + end == end;
      }
    }
  }

  lemma LeafWord(w: Word, rest: string, par: nat, pending: bool)
    requires w.tok.Leaf? && Spells(w.tok, w.text) && EndsWord(rest)
    ensures Term(w.text + rest, par, pending) == Cat([w.tok], After(rest, par))
  {
    hide LexKey, Operand, CmpText, After, EndsWord;
    CmpJoin(w.tok.v, w.text, rest);
    var s := w.text + rest;
    assert s[0] == w.text[0] && !Ws(s[0]);
    assert SkipWs(s) == s;
  }

  lemma {:induction false} SpelledAfter(words: seq<Word>, end: string, par: nat)
    requires Spelled(words) && Shape(Toks(words), par, true) && Ends(Toks(words), end, true, true)
    ensures After(Whole(words) + end, par) == Ok(Toks(words))
    decreases |words|
  {
    hide Spells, Shape, Complete, Term, After, Cat;
    WholeCons(words);
    if words == [] {
      assert "" + end == end;
      NoAfter(end, par);
    } else {
      var w := words[0];
      var rest := Whole(words[1..]) + end;
      Apart(words, end);
      ShapeHead(Toks(words), par, true);
      AfterGap(w.gap, w.text + rest, par);
      assert Spelled(words[1..]) && Toks(words)[1..] == Toks(words[1..]) && Toks(words) == [w.tok] + Toks(words[1..]);
      EndsMore(words, end);
      OpenWord(w);
      SignBack(rest, par);
      hide Whole, Spelled, Ends;
      if w.tok.Close? {
        SpelledAfter(words[1..], end, par - 1);
      } else {
        SpelledTerm(words[1..], end, par, true);
      }
      CatOk(w.tok, Toks(words[1..]));
    }
  }

  /** The words spell the text s as the tokens items. */
  ghost predicate Spelling(s: string, words: seq<Word>, end: string, items: seq<Item>) {
    && s == Whole(words) + end && Spelled(words) && Toks(words) == items
    && AllWs(end) && (end == "" || items == [] || Complete(items, false))
  }

  /** The scanner accepts exactly the texts that spell a list of tokens with operands and operators in turn and with
      matched parentheses; the list may break off, if nothing follows. */
  lemma ScanExact(s: string, items: seq<Item>)
    ensures Scan(s) == Ok(items) <==> Shape(items, 0, false) && exists words, end :: Spelling(s, words, end, items)
  {
    hide Term, Shape, Spelled, Whole, Complete;
    if Scan(s) == Ok(items) {
      TermShape(s, 0, false);
      var words, end := TermSpelled(s, 0, false);
      assert Spelling(s, words, end, items);
    }
    if Shape(items, 0, false) && exists words, end :: Spelling(s, words, end, items) {
      var words, end :| Spelling(s, words, end, items);
      SpelledTerm(words, end, 0, false);
    }
  }

  // ---------- what an expression says of an alert ----------

  /** A comparison is true of the value the alert has for its key, the empty text if it has none. */
  ghost predicate Stands(e: Engine, alert: map<string, string>, c: Cmp) {
    var value := if c.key in alert then alert[c.key] else "";
    || (c.op == Eq && value == c.operand)
    || (c.op == Ne && value != c.operand)
    || (c.op == Re && e.matches("(?i:" + c.operand + ")", value))
    || (c.op == NotRe && !e.matches("(?i:" + c.operand + ")", value))
  }

  ghost predicate TrueD(e: Engine, alert: map<string, string>, d: Disj<Cmp>) {
    TrueC(e, alert, d.c) || (d.OrElse? && TrueD(e, alert, d.d))
  }

  ghost predicate TrueC(e: Engine, alert: map<string, string>, c: Conj<Cmp>) {
    TrueA(e, alert, c.a) && (c.AndAlso? ==> TrueC(e, alert, c.c))
  }

  ghost predicate TrueA(e: Engine, alert: map<string, string>, a: Atom<Cmp>) {
    match a case Lit(c) => Stands(e, alert, c) case Par(d) => TrueD(e, alert, d)
  }

  lemma {:induction false} EvalTrue(e: Engine, alert: map<string, string>, d: Disj<Cmp>)
    ensures EvalD(ValueD(e, alert, d)) <==> TrueD(e, alert, d)
    decreases d
  {
    EvalTrueC(e, alert, d.c);
    if d.OrElse? { EvalTrue(e, alert, d.d); }
  }

  lemma {:induction false} EvalTrueC(e: Engine, alert: map<string, string>, c: Conj<Cmp>)
    ensures EvalC(ValueC(e, alert, c)) <==> TrueC(e, alert, c)
    decreases c
  {
    EvalTrueA(e, alert, c.a);
    if c.AndAlso? { EvalTrueC(e, alert, c.c); }
  }

  lemma {:induction false} EvalTrueA(e: Engine, alert: map<string, string>, a: Atom<Cmp>)
    ensures EvalA(ValueA(e, alert, a)) <==> TrueA(e, alert, a)
    decreases a
  {
    match a
    case Lit(c) =>
    case Par(d) => EvalTrue(e, alert, d);
  }

  // ---------- the verdict ----------

  lemma {:induction false} ShapeD(d: Disj<Cmp>, rest: seq<Item>, depth: nat)
    requires Shape(rest, depth, true)
    ensures Shape(PrintD(d) + rest, depth, false)
    decreases d
  {
    hide Shape;
    if d.One? {
      ShapeC(d.c, rest, depth);
    } else {
      ShapeD(d.d, rest, depth);
      ShapeFront(Or, PrintD(d.d) + rest, depth, true);
      ShapeC(d.c, [Or] + (PrintD(d.d) + rest), depth);
      assert PrintD(d) + rest == PrintC(d.c) + ([Or] + (PrintD(d.d) + rest));
    }
  }

  lemma {:induction false} ShapeC(c: Conj<Cmp>, rest: seq<Item>, depth: nat)
    requires Shape(rest, depth, true)
    ensures Shape(PrintC(c) + rest, depth, false)
    decreases c
  {
    hide Shape;
    if c.Single? {
      ShapeA(c.a, rest, depth);
    } else {
      ShapeC(c.c, rest, depth);
      ShapeFront(And, PrintC(c.c) + rest, depth, true);
      ShapeA(c.a, [And] + (PrintC(c.c) + rest), depth);
      assert PrintC(c) + rest == PrintA(c.a) + ([And] + (PrintC(c.c) + rest));
    }
  }

  lemma {:induction false} ShapeA(a: Atom<Cmp>, rest: seq<Item>, depth: nat)
    requires Shape(rest, depth, true)
    ensures Shape(PrintA(a) + rest, depth, false)
    decreases a
  {
    hide Shape;
    match a
    case Lit(c) =>
      ShapeFront(Leaf(c), rest, depth, false);
      assert PrintA(a) + rest == [Leaf(c)] + rest;
    case Par(d) =>
      ShapeFront(Close, rest, depth + 1, true);
      ShapeD(d, [Close] + rest, depth + 1);
      ShapeFront(Open, PrintD(d) + ([Close] + rest), depth, false);
      assert PrintA(a) + rest == [Open] + (PrintD(d) + ([Close] + rest));
  }

  lemma ShapeFront(t: Item, rest: seq<Item>, depth: nat, after: bool)
    ensures t.Leaf? && !after && Shape(rest, depth, true) ==> Shape([t] + rest, depth, after)
    ensures t.Open? && !after && Shape(rest, depth + 1, false) ==> Shape([t] + rest, depth, after)
    ensures t.Close? && after && depth > 0 && Shape(rest, depth - 1, true) ==> Shape([t] + rest, depth, after)
    ensures (t.And? || t.Or?) && after && Shape(rest, depth, false) ==> Shape([t] + rest, depth, after)
  {
    assert ([t] + rest)[1..] == rest;
  }

  /** All patterns of the expression compile, each in its group. */
  ghost predicate Compiles(e: Engine, d: Disj<Cmp>) {
    forall c :: Leaf(c) in PrintD(d) && (c.op == Re || c.op == NotRe) ==> e.compiles("(?i:" + c.operand + ")")
  }

  /** The text spells the expression d, all of its patterns compile, and v says whether it is true of the alert. */
  ghost predicate Judged(s: string, e: Engine, alert: map<string, string>, d: Disj<Cmp>, v: bool) {
    && (exists words, end :: Spelling(s, words, end, PrintD(d)))
    && Compiles(e, d) && (v <==> TrueD(e, alert, d))
  }

  /** A rule has a verdict exactly if its text spells an expression whose patterns compile, and the verdict is whether
      the expression is true of the alert. */
  lemma MatchExact(s: string, e: Engine, alert: map<string, string>, v: bool)
    ensures Match(s, e, alert) == Ok(v) <==> exists d :: Judged(s, e, alert, d, v)
  {
    hide Spelling, PrintD, Scan, TrueD, Reduce, Truths;
    if Match(s, e, alert) == Ok(v) {
      var d := MatchSpelled(s, e, alert, v);
      assert Judged(s, e, alert, d, v);
    }
    if d :| Judged(s, e, alert, d, v) { SpelledMatch(s, e, alert, d); }
  }

  /** The verdict, whatever it is. */
  lemma MatchSpells(s: string, e: Engine, alert: map<string, string>)
    ensures forall v :: Match(s, e, alert) == Ok(v) <==> exists d :: Judged(s, e, alert, d, v)
  {
    hide Judged, Match;
    forall v ensures Match(s, e, alert) == Ok(v) <==> exists d :: Judged(s, e, alert, d, v) {
      MatchExact(s, e, alert, v);
    }
  }

  /** The text spells a list of tokens that may be the beginning of a rule, the patterns among them compile as they
      are, and keys holds the keys of their comparisons. */
  ghost predicate Collects(s: string, e: Engine, keys: seq<string>, items: seq<Item>) {
    && Shape(items, 0, false) && (exists words, end :: Spelling(s, words, end, items))
    && (forall c :: Leaf(c) in items && (c.op == Re || c.op == NotRe) ==> e.compiles(c.operand))
    && keys == Keys(items)
  }

  /** The fields of a rule are read exactly if its text spells such a list. */
  lemma FieldsExact(s: string, e: Engine)
    ensures forall keys :: Fields(s, e) == Ok(keys) <==> exists items :: Collects(s, e, keys, items)
  {
    hide Spelling, Shape, Scan, Keys;
    forall keys, items | Collects(s, e, keys, items) ensures Fields(s, e) == Ok(keys) {
      ScanExact(s, items);
      PlainIs(e, items);
    }
    forall keys | Fields(s, e) == Ok(keys) ensures exists items :: Collects(s, e, keys, items) {
      var items := Scan(s).value;
      ScanExact(s, items);
      PlainIs(e, items);
      assert Collects(s, e, keys, items);
    }
  }

  lemma PlainIs(e: Engine, items: seq<Item>)
    ensures CompilePlain(e, items) <==>
            forall c :: Leaf(c) in items && (c.op == Re || c.op == NotRe) ==> e.compiles(c.operand)
  {
  }

  lemma CompileIs(e: Engine, d: Disj<Cmp>)
    ensures Compile(e, PrintD(d)) <==> Compiles(e, d)
  {
    hide PrintD;
  }

  lemma MatchSpelled(s: string, e: Engine, alert: map<string, string>, v: bool) returns (d: Disj<Cmp>)
    requires Match(s, e, alert) == Ok(v)
    ensures Judged(s, e, alert, d, v)
  {
    hide PrintD, TrueD, Reduce, Truths, Scan, Shape, Compile, Compiles, Spelling;
    var items := Scan(s).value;
    assert Compile(e, items);
    MatchDenotes(s, e, alert);
    d :| PrintD(d) == items;
    ScanExact(s, items);
    CompileIs(e, d);
    VerdictIsValue(s, e, alert, d);
    EvalTrue(e, alert, d);
  }

  lemma MatchDenotes(s: string, e: Engine, alert: map<string, string>)
    requires Match(s, e, alert).Ok?
    ensures exists d :: PrintD(d) == Scan(s).value
  {
    hide PrintD, Reduce, Truths, Scan;
    var v := Match(s, e, alert).value;
    DenotesComplete(Scan(s).value, e, alert, v);
    AcceptedExpression(s);
  }

  lemma SpelledMatch(s: string, e: Engine, alert: map<string, string>, d: Disj<Cmp>)
    requires (exists words, end :: Spelling(s, words, end, PrintD(d))) && Compiles(e, d)
    ensures Match(s, e, alert) == Ok(TrueD(e, alert, d))
  {
    hide PrintD, TrueD, Scan, Shape, Compile, Compiles, Spelling, Match;
    ShapeWhole(d);
    ScanExact(s, PrintD(d));
    CompileIs(e, d);
    VerdictIsValue(s, e, alert, d);
    EvalTrue(e, alert, d);
  }

  lemma ShapeWhole(d: Disj<Cmp>)
    ensures Shape(PrintD(d), 0, false)
  {
    hide PrintD;
    ShapeD(d, [], 0);
    assert PrintD(d) + [] == PrintD(d);
  }

  /** One comparison on a line of its own, written with its parts as they are. */
  lemma OneComparison(c: Cmp, text: string, e: Engine, alert: map<string, string>)
    requires CmpText(c, text)
    ensures Match(text + "\n", e, alert) ==
            if (c.op == Re || c.op == NotRe) && !e.compiles("(?i:" + c.operand + ")") then Err
            else Ok(Stands(e, alert, c))
  {
    hide CmpText, Stands, Scan, Reduce, Truths;
    var d := One(Single(Lit(c)));
    var words := [Word("", Leaf(c), text)];
    OneLeaf(c);
    SpellsCmp(Leaf(c), text);
    SpelledCons(words[0], []);
    WholeCons([]);
    assert words + [] == words && [Leaf(c)] + [] == [Leaf(c)];
    assert "" + (text + "") == text;
    assert Spelling(text + "\n", words, "\n", PrintD(d));
    hide Spelling, PrintD, Match, Compiles, TrueD;
    OneMeans(c, e, alert);
    if Compiles(e, d) {
      SpelledMatch(text + "\n", e, alert, d);
    } else {
      Uncompiled(text + "\n", e, alert, words, d);
    }
  }

  lemma OneMeans(c: Cmp, e: Engine, alert: map<string, string>)
    ensures var d := One(Single(Lit(c)));
            && (Compiles(e, d) <==> (c.op == Re || c.op == NotRe ==> e.compiles("(?i:" + c.operand + ")")))
            && (TrueD(e, alert, d) <==> Stands(e, alert, c))
  {
    hide Stands;
    OneLeaf(c);
    assert Leaf(c) in [Leaf(c)];
    assert TrueA(e, alert, Lit(c)) == Stands(e, alert, c);
    assert TrueC(e, alert, Single(Lit(c))) == Stands(e, alert, c);
  }

  lemma Uncompiled(s: string, e: Engine, alert: map<string, string>, words: seq<Word>, d: Disj<Cmp>)
    requires Spelling(s, words, "\n", PrintD(d)) && !Compiles(e, d)
    ensures Match(s, e, alert) == Err
  {
    hide Spelling, PrintD, Compile, Compiles, Scan, Shape;
    ShapeWhole(d);
    ScanExact(s, PrintD(d));
    CompileIs(e, d);
  }

  // ---------- values in quotes ----------

  /** How many backslashes stand directly before position i. */
  function RunBefore(v: string, i: nat): nat
    requires i <= |v|
  {
    if i > 0 && v[i - 1] == '\\' then 1 + RunBefore(v, i - 1) else 0
  }

  /** The quote at the end of a value closes it, and none within it does: quotes count only after an even number of
      backslashes. */
  ghost predicate ClosedOnce(v: string) {
    && '\n' !in v && RunBefore(v, |v|) % 2 == 0
    && forall i :: 0 <= i < |v| && v[i] == '"' ==> RunBefore(v, i) % 2 == 1
  }

  lemma {:induction false} RunShift(v: string, n: nat, i: nat)
    requires n <= i <= |v|
    ensures RunBefore(v, i) == RunBefore(v[n..], i - n)
            || (RunBefore(v[n..], i - n) == i - n && RunBefore(v, i) == i - n + RunBefore(v, n))
    ensures RunBefore(v[n..], i - n) < i - n ==> RunBefore(v, i) == RunBefore(v[n..], i - n)
    ensures RunBefore(v[n..], i - n) == i - n ==> RunBefore(v, i) == i - n + RunBefore(v, n)
    decreases i
  {
    if i > n { RunShift(v, n, i - 1); }
  }

  lemma {:induction false} QuotableExact(v: string)
    ensures Quotable(v) <==> ClosedOnce(v)
    decreases |v|
  {
    if v != "" {
      var n := if v[0] == '\\' && |v| > 1 && (v[1] == '\\' || v[1] == '"') then 2 else 1;
      QuotableExact(v[n..]);
      ClosedShift(v, n);
    }
  }

  lemma ClosedShift(v: string, n: nat)
    requires v != ""
    requires n == if v[0] == '\\' && |v| > 1 && (v[1] == '\\' || v[1] == '"') then 2 else 1
    ensures ClosedOnce(v) <==> ClosedOnce(v[n..]) && (n == 1 ==> v != "\\" && v[0] != '"' && v[0] != '\n')
  {
    var w := v[n..];
    RunFirst(v);
    forall i | n <= i <= |v|
      ensures RunBefore(v, i) % 2 == RunBefore(w, i - n) % 2 || (i == n == 1 && v[0] == '\\')
    {
      RunShift(v, n, i);
      if RunBefore(w, i - n) == i - n > 0 { RunStarts(w, i - n); }
    }
    if ClosedOnce(v) {
      forall i | 0 <= i < |w| && w[i] == '"' ensures RunBefore(w, i) % 2 == 1 { assert v[i + n] == w[i]; }
    }
    if ClosedOnce(w) && (n == 1 ==> v != "\\" && v[0] != '"' && v[0] != '\n') {
      assert v == v[..n] + w;
      forall i | 0 <= i < |v| && v[i] == '"' ensures RunBefore(v, i) % 2 == 1 {
        if i >= n { assert w[i - n] == v[i]; }
      }
    }
  }

  lemma RunFirst(v: string)
    requires v != ""
    ensures RunBefore(v, 0) == 0 && RunBefore(v, 1) == if v[0] == '\\' then 1 else 0
    ensures |v| > 1 && v[0] == '\\' ==> RunBefore(v, 2) == if v[1] == '\\' then 2 else 0
  {
    assert RunBefore(v, 0) == 0;
    assert RunBefore(v, 1) == if v[0] == '\\' then 1 else 0;
  }

  lemma {:induction false} RunStarts(v: string, i: nat)
    requires 0 < i <= |v| && RunBefore(v, i) == i
    ensures v[0] == '\\'
    decreases i
  {
    if i > 1 { RunStarts(v, i - 1); }
  }
}
