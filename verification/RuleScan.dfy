/** The scanner of alert rules: text to tokens, the two readings of the tokens
    (evaluation against an alert, and the list of fields), and what they have in common. */
module RuleScan {
  import opened Basics
  import opened RuleGrammar

  datatype Op = Eq | Ne | Re | NotRe

  /** A comparison: for == and != the raw text to compare with, for =~ and !~ the pattern. */
  datatype Cmp = Cmp(key: string, op: Op, operand: string)

  type Item = Tok<Cmp>

  // ---------- characters ----------

  predicate Ws(c: char) { c == ' ' || c == '\n' || c == '\t' }

  predicate Blank(c: char) { c == ' ' || c == '\t' }

  /** The regular expression class \s. */
  predicate Space(c: char) { c == ' ' || c == '\n' || c == '\t' || c == '\r' || c == '\U{000C}' }

  predicate KeyChar(c: char) {
    '0' <= c <= '9' || 'a' <= c <= 'z' || 'A' <= c <= 'Z' || c == '_'
  }

  /** r is no longer than s and ends alike. */
  predicate Tail(r: string, s: string) {
    |r| <= |s| && (r != "" ==> r[|r| - 1] == s[|s| - 1])
  }

  function SkipWs(s: string): (r: string)
    ensures Tail(r, s) && (r != "" ==> !Ws(r[0]))
  {
    if s != "" && Ws(s[0]) then SkipWs(s[1..]) else s
  }

  function SkipBlanks(s: string): (r: string)
    ensures Tail(r, s)
  {
    if s != "" && Blank(s[0]) then SkipBlanks(s[1..]) else s
  }

  function KeyLen(s: string): (n: nat)
    ensures n <= |s|
  {
    if s != "" && KeyChar(s[0]) then 1 + KeyLen(s[1..]) else 0
  }

  // ---------- lexing one comparison ----------

  datatype KeyOp = KeyOp(key: string, op: Op, rest: string)

  function OpAt(s: string): Option<Op> {
    if "==" <= s then Some(Eq)
    else if "=~" <= s then Some(Re)
    else if "!=" <= s then Some(Ne)
    else if "!~" <= s then Some(NotRe)
    else None
  }

  /** Key, operator, and the text from the first character of the operand on. */
  function LexKey(s: string): (r: Option<KeyOp>)
    ensures r.Some? ==> r.value.rest != "" && |r.value.rest| < |s| && Tail(r.value.rest, s)
  {
    var n := KeyLen(s);
    var t := SkipBlanks(s[n..]);
    if n == 0 || OpAt(t).None? then None
    else
      var u := SkipBlanks(t[2..]);
      if u == "" || Space(u[0]) then None
      else
        Some(KeyOp(s[..n], OpAt(t).value, u))
  }

  /** Length of a value without quotes. */
  function BareLen(s: string): (n: nat)
    ensures n <= |s|
  {
    if s == "" || Ws(s[0]) then 0 else 1 + BareLen(s[1..])
  }

  /** Length of the raw text before the closing quote; a backslash protects a quote or a backslash. */
  function QuotedLen(s: string): (r: Option<nat>)
    ensures r.Some? ==> r.value < |s|
    ensures r.Some? ==> s[r.value] == '"'
  {
    if s == "" then None
    else if s[0] == '\\' && |s| > 1 && (s[1] == '\\' || s[1] == '"') then
      match QuotedLen(s[2..]) case None => None case Some(n) => Some(n + 2)
    else if s[0] == '"' then Some(0)
    else if s[0] == '\n' then None
    else
      match QuotedLen(s[1..]) case None => None case Some(n) => Some(n + 1)
  }

  datatype Piece = Piece(text: string, rest: string)

  /** The pattern before the closing slash, with \\ and \/ replaced, and the text after the slash. */
  function PatternOf(s: string): (r: Option<Piece>)
    ensures r.Some? ==> |r.value.rest| < |s| && Tail(r.value.rest, s)
  {
    if s == "" then None
    else if s[0] == '\\' && |s| > 1 && (s[1] == '\\' || s[1] == '/') then
      match PatternOf(s[2..]) case None => None case Some(p) => Some(Piece([s[1]] + p.text, p.rest))
    else if s[0] == '/' then Some(Piece("", s[1..]))
    else if s[0] == '\n' then None
    else
      match PatternOf(s[1..]) case None => None case Some(p) => Some(Piece([s[0]] + p.text, p.rest))
  }

  predicate EndsWord(s: string) { s == "" || Ws(s[0]) }

  /** The operand of a comparison and the text after it. */
  function Operand(op: Op, s: string): (r: Option<Piece>)
    requires s != ""
    ensures r.Some? ==> Tail(r.value.rest, s)
  {
    if op.Eq? || op.Ne? then
      if s[0] != '"' then Some(Piece(s[..BareLen(s)], s[BareLen(s)..]))
      else
        match QuotedLen(s[1..])
        case None => None
        case Some(n) =>
          if EndsWord(s[n + 2..]) then Some(Piece(s[1..n + 1], s[n + 2..])) else None
    else if s[0] != '/' then None
    else
      match PatternOf(s[1..])
      case None => None
      case Some(p) => if EndsWord(p.rest) then Some(p) else None
  }

  // ---------- the token stream ----------

  function Cat(items: seq<Item>, r: Result<seq<Item>>): Result<seq<Item>> {
    match r case Err => Err case Ok(more) => Ok(items + more)
  }

  lemma CatCat(a: seq<Item>, b: seq<Item>, r: Result<seq<Item>>)
    ensures Cat(a, Cat(b, r)) == Cat(a + b, r)
    ensures Cat([], r) == r
    ensures r == Ok([]) ==> Cat(a, r) == Ok(a)
    ensures r == Err ==> Cat(a, r) == Err
  {
    if r.Ok? {
      assert a + (b + r.value) == a + b + r.value && [] + r.value == r.value && a + [] == a;
    }
  }

  /** Where a comparison or an opening parenthesis is expected; par parentheses are open,
      and pending says that an operator was just read. */
  function Term(s: string, par: nat, pending: bool): Result<seq<Item>>
    decreases |s|, 1
  {
    if s == "" then Ok([])
    else
      var t := SkipWs(s);
      if t == "" then (if par != 0 || pending then Err else Ok([]))
      else
        match LexKey(t)
        case Some(k) =>
          (match Operand(k.op, k.rest)
           case None => Err
           case Some(p) => Cat([Leaf(Cmp(k.key, k.op, p.text))], After(p.rest, par)))
        case None =>
          if t[0] == '(' then Cat([Open], Term(t[1..], par + 1, false)) else Err
  }

  /** After a comparison or a closing parenthesis. */
  function After(s: string, par: nat): Result<seq<Item>>
    decreases |s|, 0
  {
    var t := SkipWs(s);
    if t == "" then (if par != 0 then Err else Ok([]))
    else if t[0] == ')' then
      if par == 0 then Err else Cat([Close], After(t[1..], par - 1))
    else if "||" <= t then Cat([Or], Term(t[2..], par, true))
    else if "&&" <= t then Cat([And], Term(t[2..], par, true))
    else Err
  }

  function Scan(s: string): Result<seq<Item>> { Term(s, 0, false) }

  // ---------- the two readings ----------

  /** The regular expression engine: what compiles, and what a compiled pattern matches. */
  datatype Engine = Engine(compiles: string -> bool, matches: (string, string) -> bool)

  function NoCase(p: string): string { "(?i:" + p + ")" }

  function Field(alert: map<string, string>, key: string): string {
    if key in alert then alert[key] else ""
  }

  function Truth(e: Engine, alert: map<string, string>, c: Cmp): bool {
    match c.op
    case Eq => c.operand == Field(alert, c.key)
    case Ne => c.operand != Field(alert, c.key)
    case Re => e.matches(NoCase(c.operand), Field(alert, c.key))
    case NotRe => !e.matches(NoCase(c.operand), Field(alert, c.key))
  }

  predicate IsPattern(c: Cmp) { c.op.Re? || c.op.NotRe? }

  function TruthOf(e: Engine, alert: map<string, string>, t: Item): Tok<bool> {
    match t
    case Leaf(c) => Leaf(Truth(e, alert, c))
    case Open => Open
    case Close => Close
    case And => And
    case Or => Or
  }

  function Truths(e: Engine, alert: map<string, string>, items: seq<Item>): (r: Stack)
    ensures |r| == |items| && forall i :: 0 <= i < |r| ==> r[i] == TruthOf(e, alert, items[i])
  {
    if items == [] then [] else Truths(e, alert, items[..|items| - 1]) + [TruthOf(e, alert, items[|items| - 1])]
  }

  /** All patterns compile, as MatchAlertRule compiles them. */
  predicate Compile(e: Engine, items: seq<Item>) {
    forall t :: t in items && t.Leaf? && IsPattern(t.v) ==> e.compiles(NoCase(t.v.operand))
  }

  /** All patterns compile, as ParseAlertRule compiles them. */
  predicate CompilePlain(e: Engine, items: seq<Item>) {
    forall t :: t in items && t.Leaf? && IsPattern(t.v) ==> e.compiles(t.v.operand)
  }

  /** The verdict of a rule on an alert. */
  function Match(s: string, e: Engine, alert: map<string, string>): Result<bool> {
    match Scan(s)
    case Err => Err
    case Ok(items) =>
      if !Compile(e, items) then Err
      else match Reduce(Truths(e, alert, items)) case None => Err case Some(v) => Ok(v)
  }

  /** The keys of the comparisons, each once, in the order of first use. */
  function Keys(items: seq<Item>): (r: seq<string>)
    ensures forall k :: k in r <==> exists t :: t in items && t.Leaf? && t.v.key == k
    ensures forall i, j :: 0 <= i < j < |r| ==> r[i] != r[j]
  {
    if items == [] then []
    else
      var before := Keys(items[..|items| - 1]);
      var t := items[|items| - 1];
      assert items == items[..|items| - 1] + [t];
      if t.Leaf? && t.v.key !in before then before + [t.v.key] else before
  }

  /** The fields a rule uses. */
  function Fields(s: string, e: Engine): Result<seq<string>> {
    match Scan(s)
    case Err => Err
    case Ok(items) => if CompilePlain(e, items) then Ok(Keys(items)) else Err
  }
}
