/**
  The SQL dump reader of the import script: `parseInsertStatement` recognises one
  line of the form `INSERT INTO public.<table> VALUES (...);` and splits the text
  between the parentheses into values at the commas that are outside quotes and
  outside nested parentheses; `parseValue` classifies each piece as null, a
  boolean, a number, or text.
 */
module SqlImport {
  import opened Common
  import Text
  import Seqs

  /** A parsed column value. Numbers keep their decimal text: `parseFloat` is not modelled. */
  datatype SqlValue = Null | Bool(b: bool) | Number(digits: string) | Text(text: string)

  // ---------------------------------------------------------------------------
  // parseValue

  const Quote: char := '\''
  const Backslash: char := '\\'

  /** `replace(/''/g, "'")`: each doubled quote, matched left to right, becomes one. */
  function CollapseQuotes(s: string): (r: string)
    ensures |r| <= |s|
    decreases |s|
  {
    if |s| >= 2 && s[0] == Quote && s[1] == Quote then [Quote] + CollapseQuotes(s[2..])
    else if |s| == 0 then ""
    else [s[0]] + CollapseQuotes(s[1..])
  }

  /** Doubles every quote: how a text is written inside an SQL string literal. */
  function EscapeQuotes(t: string): (s: string)
    ensures |s| >= |t|
    decreases |t|
  {
    if |t| == 0 then ""
    else (if t[0] == Quote then [Quote, Quote] else [t[0]]) + EscapeQuotes(t[1..])
  }

  /** Collapsing undoes escaping. */
  lemma {:induction false} CollapseEscape(t: string)
    ensures CollapseQuotes(EscapeQuotes(t)) == t
    decreases |t|
  {
    if |t| > 0 {
      CollapseEscape(t[1..]);
      var rest := EscapeQuotes(t[1..]);
      if t[0] == Quote {
        assert EscapeQuotes(t) == [Quote, Quote] + rest;
        assert (EscapeQuotes(t))[2..] == rest;
      } else {
        assert EscapeQuotes(t) == [t[0]] + rest;
        assert (EscapeQuotes(t))[1..] == rest;
      }
      assert t == [t[0]] + t[1..];
    }
  }

  /** `/^-?\d+(\.\d+)?$/`: an optional minus, digits, and optionally a point followed by digits. */
  predicate IsDecimal(v: string)
  {
    var u := if |v| > 0 && v[0] == '-' then v[1..] else v;
    var d := Text.DigitPrefix(u);
    |d| > 0 &&
      (|d| == |u| ||
       (u[|d|] == '.' && |u| > |d| + 1 && Text.AllDigits(u[|d| + 1..])))
  }

  /** A decimal starts with a minus or a digit, so it is neither quoted nor a keyword. */
  lemma DecimalUnquoted(v: string)
    ensures IsDecimal(v) ==> v[0] != Quote && v != "NULL" && v != "true" && v != "false"
  {
    if IsDecimal(v) && v[0] != '-' {
      var d := Text.DigitPrefix(v);
      assert v[0] == d[0];
    }
  }

  /** `parseValue`: the keywords first, then a quoted literal, then a number, else the trimmed text. */
  function ParseValue(value: string): (r: SqlValue)
    ensures var v := Text.Trim(value);
      && (r == Null <==> v == "NULL")
      && (r.Bool? <==> v == "true" || v == "false")
      && (r.Number? ==> r.digits == v && IsDecimal(v))
      && (!(|v| > 0 && v[0] == Quote && v[|v| - 1] == Quote) && v != "NULL" && v != "true" && v != "false" && !IsDecimal(v)
          ==> r == Text(v))
      && (r.Bool? ==> r.b == (v == "true"))
      && (IsDecimal(v) ==> r == Number(v))
      && (|v| > 0 && v[0] == Quote && v[|v| - 1] == Quote ==>
          r == Text(CollapseQuotes(if |v| >= 2 then v[1..|v| - 1] else "")))
  {
    var v := Text.Trim(value);
    DecimalUnquoted(v);
    if v == "NULL" then Null
    else if v == "true" then Bool(true)
    else if v == "false" then Bool(false)
    else if |v| > 0 && v[0] == Quote && v[|v| - 1] == Quote then
      Text(CollapseQuotes(if |v| >= 2 then v[1..|v| - 1] else ""))
    else if IsDecimal(v) then Number(v)
    else Text(v)
  }

  /** A string literal `'…'` with its quotes doubled. */
  function QuotedLiteral(t: string): string
  {
    [Quote] + EscapeQuotes(t) + [Quote]
  }

  /** A quoted literal is read back as the text it quotes, whatever that text looks like. */
  lemma ParseQuotedLiteral(t: string)
    ensures ParseValue(QuotedLiteral(t)) == Text(t)
  {
    var q := QuotedLiteral(t);
    Text.TrimUnchanged(q);
    assert q[1..|q| - 1] == EscapeQuotes(t);
    CollapseEscape(t);
    assert q[0] == Quote;
  }

  // ---------------------------------------------------------------------------
  // The statement pattern `/INSERT INTO public\.\w+ VALUES \((.*)\);/`

  const InsertPrefix: string := "INSERT INTO public."
  const ValuesInfix: string := " VALUES ("
  const StatementEnd: string := ");"

  /** `\w`. */
  predicate IsWordChar(c: char)
  {
    'a' <= c <= 'z' || 'A' <= c <= 'Z' || '0' <= c <= '9' || c == '_'
  }

  /** `\w+`. */
  predicate IsWord(w: string)
  {
    |w| > 0 && forall i :: 0 <= i < |w| ==> IsWordChar(w[i])
  }

  /** The characters `.` does not match. */
  predicate IsLineTerminator(c: char)
  {
    c == '\n' || c == '\r' || c == '\U{2028}' || c == '\U{2029}'
  }

  /** `.*` can match `s`. */
  predicate SingleLine(s: string)
  {
    forall i :: 0 <= i < |s| ==> !IsLineTerminator(s[i])
  }

  /** The statement text for a table and the text between the parentheses. */
  function Statement(table: string, values: string): string
  {
    InsertPrefix + table + ValuesInfix + values + StatementEnd
  }

  /** The statement for `table` and `values` occurs in `line` at index `s`. */
  predicate StatementAt(line: string, s: int, table: string, values: string)
  {
    0 <= s && s + |Statement(table, values)| <= |line| && line[s..s + |Statement(table, values)|] == Statement(table, values)
  }

  /** The end of the run of word characters starting at `k`. */
  function WordEnd(line: string, k: nat): (e: nat)
    requires k <= |line|
    ensures k <= e <= |line|
    ensures forall i :: k <= i < e ==> IsWordChar(line[i])
    ensures e < |line| ==> !IsWordChar(line[e])
    decreases |line| - k
  {
    if k < |line| && IsWordChar(line[k]) then WordEnd(line, k + 1) else k
  }

  /** The first line terminator at or after `k`, or the end of the line. */
  function LineEnd(line: string, k: nat): (e: nat)
    requires k <= |line|
    ensures k <= e <= |line|
    ensures forall i :: k <= i < e ==> !IsLineTerminator(line[i])
    ensures e < |line| ==> IsLineTerminator(line[e])
    decreases |line| - k
  {
    if k < |line| && !IsLineTerminator(line[k]) then LineEnd(line, k + 1) else k
  }

  /** A `);` starts at index `j`. */
  predicate CloseAt(line: string, j: int)
  {
    0 <= j && j + 2 <= |line| && line[j..j + 2] == StatementEnd
  }

  /** The last `);` starting between `p` and `q`: the greedy `.*` backs off to it. */
  function LastClose(line: string, p: nat, q: int): (r: Option<nat>)
    requires q + 2 <= |line|
    ensures r.Some? ==> p <= r.value <= q && CloseAt(line, r.value)
    ensures r.Some? ==> forall j :: r.value < j <= q ==> !CloseAt(line, j)
    ensures r.None? ==> forall j :: p <= j <= q ==> !CloseAt(line, j)
    decreases q - p + 1
  {
    if q < p then None
    else if CloseAt(line, q) then Some(q)
    else LastClose(line, p, q - 1)
  }

  /** What the pattern captures: the table name and the text between the parentheses. */
  datatype InsertMatch = InsertMatch(table: string, values: string)

  /** The match of the pattern that starts at index `s`, if any. */
  function MatchAt(line: string, s: nat): (m: Option<InsertMatch>)
    requires s <= |line|
    ensures m.Some? ==> IsWord(m.value.table) && SingleLine(m.value.values)
    ensures m.Some? ==> StatementAt(line, s, m.value.table, m.value.values)
  {
    var k := s + |InsertPrefix|;
    if k <= |line| && line[s..k] == InsertPrefix then
      var e := WordEnd(line, k);
      var p := e + |ValuesInfix|;
      if e > k && p <= |line| && line[e..p] == ValuesInfix then
        var t := LineEnd(line, p);
        match LastClose(line, p, t - 2)
        case None => None
        case Some(q) =>
          Assemble(line, s, k, e, p, q);
          Some(InsertMatch(line[k..e], line[p..q]))
      else None
    else None
  }

  /** The pieces around the table name and the values make up the statement. */
  lemma Assemble(line: string, s: nat, k: nat, e: nat, p: nat, q: nat)
    requires s <= k <= e <= p <= q && q + 2 <= |line|
    requires line[s..k] == InsertPrefix && line[e..p] == ValuesInfix && line[q..q + 2] == StatementEnd
    ensures StatementAt(line, s, line[k..e], line[p..q])
  {
    Seqs.Join5(line, s, k, e, p, q, q + 2);
  }

  /** The statement at `s` read back piece by piece. */
  lemma Pieces(line: string, s: nat, w: string, c: string)
    requires StatementAt(line, s, w, c)
    ensures var k := s + |InsertPrefix|; var e := k + |w|; var p := e + |ValuesInfix|;
      && line[s..k] == InsertPrefix && line[k..e] == w && line[e..p] == ValuesInfix
      && line[p..p + |c|] == c && CloseAt(line, p + |c|)
  {
    var k := s + |InsertPrefix|;
    var e := k + |w|;
    var p := e + |ValuesInfix|;
    var x1 := InsertPrefix + w;
    var x2 := x1 + ValuesInfix;
    var x3 := x2 + c;
    assert Statement(w, c) == x3 + StatementEnd;
    Seqs.SliceSplit(line, s, x3, StatementEnd);
    Seqs.SliceSplit(line, s, x2, c);
    Seqs.SliceSplit(line, s, x1, ValuesInfix);
    Seqs.SliceSplit(line, s, InsertPrefix, w);
  }

  /**
    Every occurrence of the statement shape at `s` is seen by MatchAt: the table
    name is the same and the captured text is at least as long (`.*` is greedy).
   */
  lemma MatchAtComplete(line: string, s: nat, w: string, c: string)
    requires IsWord(w) && SingleLine(c)
    requires StatementAt(line, s, w, c)
    ensures MatchAt(line, s).Some?
    ensures MatchAt(line, s).value.table == w && |MatchAt(line, s).value.values| >= |c|
  {
    var k := s + |InsertPrefix|;
    var e := k + |w|;
    var p := e + |ValuesInfix|;
    Pieces(line, s, w, c);
    assert line[e] == ValuesInfix[0] by {
      assert line[e] == line[e..p][0];
    }
    WordEndAt(line, k, w);
    LineEndPast(line, p, c + StatementEnd);
  }

  /** A word followed by a non-word character ends where the word ends. */
  lemma WordEndAt(line: string, k: nat, w: string)
    requires k + |w| < |line| && line[k..k + |w|] == w && IsWord(w) && !IsWordChar(line[k + |w|])
    ensures WordEnd(line, k) == k + |w|
  {
    forall i | k <= i < k + |w|
      ensures IsWordChar(line[i])
    {
      assert line[i] == line[k..k + |w|][i - k];
    }
  }

  /** A line terminator, if any, comes after a stretch holding none. */
  lemma LineEndPast(line: string, p: nat, c: string)
    requires p + |c| <= |line| && line[p..p + |c|] == c && SingleLine(c)
    ensures LineEnd(line, p) >= p + |c|
  {
    forall i | p <= i < p + |c|
      ensures !IsLineTerminator(line[i])
    {
      assert line[i] == line[p..p + |c|][i - p];
    }
  }

  /** `m` starts at index `k`, at or after `s`, and no match starts between `s` and `k`. */
  ghost predicate FirstMatchFrom(line: string, s: nat, k: nat, m: InsertMatch)
  {
    && s <= k <= |line|
    && MatchAt(line, k) == Some(m)
    && forall j :: s <= j < k ==> MatchAt(line, j).None?
  }

  /** The leftmost match at or after index `s`. */
  function FindInsert(line: string, s: nat): (m: Option<InsertMatch>)
    requires s <= |line|
    ensures m.None? ==> forall k :: s <= k <= |line| ==> MatchAt(line, k).None?
    ensures m.Some? ==> exists k :: FirstMatchFrom(line, s, k, m.value)
    decreases |line| - s
  {
    if MatchAt(line, s).Some? then
      assert FirstMatchFrom(line, s, s, MatchAt(line, s).value);
      MatchAt(line, s)
    else if s == |line| then None
    else
      var m := FindInsert(line, s + 1);
      LeftmostStep(line, s, s + 1, m);
      m
  }

  /** With no match at `s`, the first match from `s + 1` is the first from `s`. */
  lemma {:induction false} LeftmostStep(line: string, s: nat, next: nat, m: Option<InsertMatch>)
    requires next == s + 1 <= |line| && MatchAt(line, s).None?
    requires m.Some? ==> exists k :: FirstMatchFrom(line, next, k, m.value)
    ensures m.Some? ==> exists k :: FirstMatchFrom(line, s, k, m.value)
  {
    if m.Some? {
      var k: nat :| FirstMatchFrom(line, next, k, m.value);
      forall j | s <= j < k
        ensures MatchAt(line, j).None?
      {
        if j != s {
          assert next <= j < k;
        }
      }
      assert FirstMatchFrom(line, s, k, m.value);
    }
  }

  // ---------------------------------------------------------------------------
  // Splitting the values

  /**
    What happens to a quote that opens or closes a string literal. As written,
    the splitter toggles the quote mode and drops the quote, so `parseValue`
    never sees a quoted piece; the corrected splitter keeps it in the piece.
   */
  datatype QuoteHandling = DropQuotes | KeepQuotes

  /**
    The loop state: the pieces ended so far, the piece being read, the quote mode
    and the parenthesis depth. The loop hands each ended piece to `parseValue`
    at once; `parseValue` is pure, so the model applies it when the loop is done.
   */
  datatype Scanner = Scanner(pieces: seq<string>, current: string, inQuote: bool, depth: int)

  const Start: Scanner := Scanner([], "", false, 0)

  /** A quote not preceded by a backslash opens or closes a literal. */
  predicate TogglesQuote(s: string, i: int)
    requires 0 <= i < |s|
  {
    s[i] == Quote && (i == 0 || s[i - 1] != Backslash)
  }

  /** One iteration of the `for` loop, on the character at index `i`. */
  function Step(h: QuoteHandling, st: Scanner, s: string, i: int): Scanner
    requires 0 <= i < |s|
  {
    var c := s[i];
    if TogglesQuote(s, i) then
      st.(inQuote := !st.inQuote, current := if h == KeepQuotes then st.current + [c] else st.current)
    else if !st.inQuote then
      var depth := if c == '(' then st.depth + 1 else if c == ')' then st.depth - 1 else st.depth;
      if c == ',' && depth == 0 then Scanner(st.pieces + [st.current], "", false, depth)
      else Scanner(st.pieces, st.current + [c], false, depth)
    else st.(current := st.current + [c])
  }

  /** The loop state after reading all of `s`. */
  function Scan(h: QuoteHandling, s: string): Scanner
    decreases |s|
  {
    if |s| == 0 then Start else Step(h, Scan(h, s[..|s| - 1]), s, |s| - 1)
  }

  /** `parseValue(piece.trim())` for every piece. */
  function Values(pieces: seq<string>): (vs: seq<SqlValue>)
    ensures |vs| == |pieces|
    ensures forall i :: 0 <= i < |pieces| ==> vs[i] == ParseValue(Text.Trim(pieces[i]))
  {
    seq(|pieces|, i requires 0 <= i < |pieces| => ParseValue(Text.Trim(pieces[i])))
  }

  /** The pieces of `s`, the last one only when `if (current.trim())` holds: a blank last piece is not a value. */
  function ValuePieces(h: QuoteHandling, s: string): (ps: seq<string>)
    ensures |ps| == |Scan(h, s).pieces| + (if Text.Trim(Scan(h, s).current) != "" then 1 else 0)
    ensures ps[..|Scan(h, s).pieces|] == Scan(h, s).pieces
  {
    var st := Scan(h, s);
    if Text.Trim(st.current) != "" then st.pieces + [st.current] else st.pieces
  }

  /** The values between the parentheses. */
  function SplitValues(h: QuoteHandling, s: string): seq<SqlValue>
  {
    Values(ValuePieces(h, s))
  }

  // ---------------------------------------------------------------------------
  // The splitter as written

  /** Every quote in `piece` comes right after a backslash. */
  predicate QuotesEscaped(piece: string)
  {
    forall k :: 0 <= k < |piece| && piece[k] == Quote ==> k > 0 && piece[k - 1] == Backslash
  }

  /**
    As written, a quote that toggles the mode is never copied: every quote left in
    the piece being read is one a backslash escapes.
   */
  lemma {:induction false} DroppedQuotesEscaped(s: string)
    ensures QuotesEscaped(Scan(DropQuotes, s).current)
    ensures |s| > 0 && s[|s| - 1] == Backslash ==>
      |Scan(DropQuotes, s).current| > 0 && Scan(DropQuotes, s).current[|Scan(DropQuotes, s).current| - 1] == Backslash
    decreases |s|
  {
    if |s| > 0 {
      var init := s[..|s| - 1];
      DroppedQuotesEscaped(init);
      var st := Scan(DropQuotes, init);
      var c := s[|s| - 1];
      if !TogglesQuote(s, |s| - 1) && c == Quote {
        assert init[|init| - 1] == Backslash;
      }
    }
  }

  /** The pieces as written never start with a quote, so `parseValue` never strips one. */
  lemma DroppedPieceUnquoted(s: string)
    ensures var piece := Text.Trim(Scan(DropQuotes, s).current); |piece| > 0 ==> piece[0] != Quote
  {
    DroppedQuotesEscaped(s);
    EscapedTrimUnquoted(Scan(DropQuotes, s).current);
  }

  /** A text whose quotes are all escaped does not start with a quote once trimmed. */
  lemma EscapedTrimUnquoted(cur: string)
    requires QuotesEscaped(cur)
    ensures var piece := Text.Trim(cur); |piece| > 0 ==> piece[0] != Quote
  {
    var piece := Text.Trim(cur);
    if |piece| > 0 {
      var a :| Text.InfixAmidSpace(piece, cur, a);
      assert cur[a] == piece[0];
      assert a > 0 ==> Text.IsSpace(cur[a - 1]);
    }
  }

  // ---------------------------------------------------------------------------
  // Scanning laws

  /** Characters that neither toggle quotes, nor change the depth, nor split are copied. */
  predicate Plain(b: string)
  {
    forall k :: 0 <= k < |b| ==> b[k] != Quote && b[k] != ',' && b[k] != '(' && b[k] != ')'
  }

  lemma {:induction false} ScanPlain(h: QuoteHandling, a: string, b: string)
    requires Plain(b)
    ensures Scan(h, a + b) == Scan(h, a).(current := Scan(h, a).current + b)
    decreases |b|
  {
    if |b| == 0 {
      assert a + b == a;
    } else {
      var b0 := b[..|b| - 1];
      assert (a + b)[..|a + b| - 1] == a + b0;
      ScanPlain(h, a, b0);
      assert Plain(b0);
    }
  }

  /** Outside quotes and parentheses, a comma ends the piece. */
  lemma ScanComma(h: QuoteHandling, a: string)
    requires !Scan(h, a).inQuote && Scan(h, a).depth == 0
    ensures Scan(h, a + [',']) == Scanner(Scan(h, a).pieces + [Scan(h, a).current], "", false, 0)
  {
    assert (a + [','])[..|a|] == a;
  }

  function EscapeChar(c: char): string
  {
    if c == Quote then [Quote, Quote] else [c]
  }

  lemma {:induction false} EscapeSnoc(t: string)
    requires |t| > 0
    ensures EscapeQuotes(t) == EscapeQuotes(t[..|t| - 1]) + EscapeChar(t[|t| - 1])
    decreases |t|
  {
    if |t| > 1 {
      EscapeSnoc(t[1..]);
      assert t[1..][..|t[1..]| - 1] == t[..|t| - 1][1..];
      assert EscapeQuotes(t[..|t| - 1]) == (if t[0] == Quote then [Quote, Quote] else [t[0]]) + EscapeQuotes(t[..|t| - 1][1..]);
    } else {
      assert t[..0] == "";
      assert t[1..] == "";
    }
  }

  predicate NoBackslash(t: string)
  {
    forall k :: 0 <= k < |t| ==> t[k] != Backslash
  }

  /** The scanner between two pieces: nothing read yet and nothing pending. */
  predicate Clean(st: Scanner)
  {
    st.current == "" && !st.inQuote && st.depth == 0
  }

  /** Reading one more character is one more loop iteration. */
  lemma ScanSnoc(h: QuoteHandling, a: string, c: char)
    ensures Scan(h, a + [c]) == Step(h, Scan(h, a), a + [c], |a|)
  {
    assert (a + [c])[..|a|] == a;
  }

  /** A quote that is not escaped flips the mode and, when quotes are kept, is copied. */
  lemma ScanToggle(h: QuoteHandling, pre: string)
    requires |pre| == 0 || pre[|pre| - 1] != Backslash
    ensures var st := Scan(h, pre);
      Scan(h, pre + [Quote]) == st.(inQuote := !st.inQuote, current := if h == KeepQuotes then st.current + [Quote] else st.current)
  {
    ScanSnoc(h, pre, Quote);
    assert (pre + [Quote])[|pre|] == Quote;
    if |pre| > 0 {
      assert (pre + [Quote])[|pre| - 1] == pre[|pre| - 1];
    }
    assert TogglesQuote(pre + [Quote], |pre|);
  }

  /** Inside a literal a character other than a quote is copied. */
  lemma ScanInside(h: QuoteHandling, pre: string, c: char)
    requires Scan(h, pre).inQuote && c != Quote
    ensures Scan(h, pre + [c]) == Scan(h, pre).(current := Scan(h, pre).current + [c])
  {
    ScanSnoc(h, pre, c);
  }

  /** An opening quote followed by escaped text never ends in a backslash. */
  lemma OpenLiteralLast(a: string, t: string)
    requires NoBackslash(t)
    ensures var pre := a + [Quote] + EscapeQuotes(t); pre[|pre| - 1] != Backslash
  {
    var pre := a + [Quote] + EscapeQuotes(t);
    if |t| > 0 {
      EscapeSnoc(t);
      var e := EscapeChar(t[|t| - 1]);
      assert pre == a + [Quote] + EscapeQuotes(t[..|t| - 1]) + e;
      assert pre[|pre| - 1] == e[|e| - 1];
    }
  }

  /** After the opening quote and the escaped text the splitter is inside the literal, with all of it kept. */
  lemma {:induction false} ScanOpenLiteral(a: string, t: string)
    requires Clean(Scan(KeepQuotes, a))
    requires |a| == 0 || a[|a| - 1] != Backslash
    requires NoBackslash(t)
    ensures Scan(KeepQuotes, a + [Quote] + EscapeQuotes(t))
      == Scanner(Scan(KeepQuotes, a).pieces, [Quote] + EscapeQuotes(t), true, 0)
    decreases |t|
  {
    if |t| == 0 {
      assert a + [Quote] + EscapeQuotes(t) == a + [Quote];
      ScanToggle(KeepQuotes, a);
    } else {
      var t0, c := t[..|t| - 1], t[|t| - 1];
      assert NoBackslash(t0);
      ScanOpenLiteral(a, t0);
      EscapeSnoc(t);
      OpenLiteralLast(a, t0);
      OpenLiteralStep(a, t0, EscapeChar(c));
      var pre := a + [Quote] + EscapeQuotes(t0);
      LiteralChar(pre, Scan(KeepQuotes, a).pieces, [Quote] + EscapeQuotes(t0), c);
    }
  }

  /** Inside a literal, a character other than a backslash is read back from its escaped form. */
  lemma LiteralChar(pre: string, v: seq<string>, body: string, c: char)
    requires Scan(KeepQuotes, pre) == Scanner(v, body, true, 0)
    requires |pre| > 0 && pre[|pre| - 1] != Backslash
    requires c != Backslash
    ensures Scan(KeepQuotes, pre + EscapeChar(c)) == Scanner(v, body + EscapeChar(c), true, 0)
  {
    if c == Quote {
      LiteralQuote(pre, v, body);
    } else {
      ScanInside(KeepQuotes, pre, c);
    }
  }

  /** Inside a literal, a doubled quote closes and reopens it, keeping both quotes. */
  lemma LiteralQuote(pre: string, v: seq<string>, body: string)
    requires Scan(KeepQuotes, pre) == Scanner(v, body, true, 0)
    requires |pre| > 0 && pre[|pre| - 1] != Backslash
    ensures Scan(KeepQuotes, pre + [Quote, Quote]) == Scanner(v, body + [Quote, Quote], true, 0)
  {
    var mid := pre + [Quote];
    ScanToggle(KeepQuotes, pre);
    assert Scan(KeepQuotes, mid) == Scanner(v, body + [Quote], false, 0);
    assert mid[|mid| - 1] == Quote;
    ScanToggle(KeepQuotes, mid);
    Seqs.SnocTwo(pre, Quote, Quote);
    Seqs.SnocTwo(body, Quote, Quote);
  }

  /** The sequence facts one step of `ScanOpenLiteral` needs. */
  lemma OpenLiteralStep(a: string, t0: string, e: string)
    ensures a + [Quote] + (EscapeQuotes(t0) + e) == (a + [Quote] + EscapeQuotes(t0)) + e
    ensures [Quote] + (EscapeQuotes(t0) + e) == ([Quote] + EscapeQuotes(t0)) + e
  {
  }

  /** A whole quoted literal read from a clean state is kept as one piece. */
  lemma ScanLiteral(a: string, t: string)
    requires Clean(Scan(KeepQuotes, a))
    requires |a| == 0 || a[|a| - 1] != Backslash
    requires NoBackslash(t)
    ensures Scan(KeepQuotes, a + QuotedLiteral(t)) == Scanner(Scan(KeepQuotes, a).pieces, QuotedLiteral(t), false, 0)
  {
    ScanOpenLiteral(a, t);
    OpenLiteralLast(a, t);
    LiteralClose(a, t);
    ScanToggle(KeepQuotes, a + [Quote] + EscapeQuotes(t));
  }

  lemma LiteralClose(a: string, t: string)
    ensures a + QuotedLiteral(t) == (a + [Quote] + EscapeQuotes(t)) + [Quote]
    ensures QuotedLiteral(t) == ([Quote] + EscapeQuotes(t)) + [Quote]
  {
  }

  // ---------------------------------------------------------------------------
  // Reading back a written list of values

  /** A value as a dump writes it: a quoted string, or a bare token such as a number or a keyword. */
  datatype Literal = Quoted(text: string) | Bare(token: string)

  function Render(l: Literal): string
  {
    match l
    case Quoted(t) => QuotedLiteral(t)
    case Bare(token) => token
  }

  /** The value a literal stands for. */
  function Meaning(l: Literal): SqlValue
  {
    match l
    case Quoted(t) => Text(t)
    case Bare(token) => ParseValue(token)
  }

  /** Quoted texts without backslashes; bare tokens that are not blank and hold no quote, comma or parenthesis. */
  predicate WellFormed(l: Literal)
  {
    match l
    case Quoted(t) => NoBackslash(t)
    case Bare(token) => Plain(token) && Text.Trim(token) != ""
  }

  predicate AllWellFormed(ls: seq<Literal>)
  {
    forall i :: 0 <= i < |ls| ==> WellFormed(ls[i])
  }

  /** The literals separated by commas. */
  function JoinLiterals(ls: seq<Literal>): string
    requires |ls| > 0
    decreases |ls|
  {
    if |ls| == 1 then Render(ls[0])
    else JoinLiterals(ls[..|ls| - 1]) + [','] + Render(ls[|ls| - 1])
  }

  function Meanings(ls: seq<Literal>): (vs: seq<SqlValue>)
    ensures |vs| == |ls|
    ensures forall i :: 0 <= i < |ls| ==> vs[i] == Meaning(ls[i])
  {
    seq(|ls|, i requires 0 <= i < |ls| => Meaning(ls[i]))
  }

  function Renders(ls: seq<Literal>): (ps: seq<string>)
    ensures |ps| == |ls|
    ensures forall i :: 0 <= i < |ls| ==> ps[i] == Render(ls[i])
  {
    seq(|ls|, i requires 0 <= i < |ls| => Render(ls[i]))
  }

  /** The piece a well-formed literal leaves is not blank and parses to its meaning. */
  lemma RenderPiece(l: Literal)
    requires WellFormed(l)
    ensures Text.Trim(Render(l)) != "" && ParseValue(Text.Trim(Render(l))) == Meaning(l)
  {
    match l
    case Quoted(t) =>
      Text.TrimUnchanged(QuotedLiteral(t));
      ParseQuotedLiteral(t);
    case Bare(token) =>
      Text.TrimIdempotent(token);
  }

  lemma RenderedValues(ls: seq<Literal>)
    requires AllWellFormed(ls)
    ensures Values(Renders(ls)) == Meanings(ls)
  {
    forall i | 0 <= i < |ls|
      ensures Values(Renders(ls))[i] == Meanings(ls)[i]
    {
      RenderPiece(ls[i]);
    }
  }

  /** A well-formed literal read from a clean state is one pending piece. */
  lemma ScanRender(a: string, l: Literal)
    requires Clean(Scan(KeepQuotes, a))
    requires |a| == 0 || a[|a| - 1] != Backslash
    requires WellFormed(l)
    ensures Scan(KeepQuotes, a + Render(l)) == Scanner(Scan(KeepQuotes, a).pieces, Render(l), false, 0)
  {
    if l.Quoted? {
      ScanLiteral(a, l.text);
    } else {
      ScanBare(a, l.token);
    }
  }

  /** A bare token read from a clean state is one pending piece. */
  lemma ScanBare(a: string, token: string)
    requires Clean(Scan(KeepQuotes, a))
    requires Plain(token)
    ensures Scan(KeepQuotes, a + token) == Scanner(Scan(KeepQuotes, a).pieces, token, false, 0)
  {
    ScanPlain(KeepQuotes, a, token);
    Seqs.EmptyPrefix(token);
  }

  lemma {:induction false} ScanJoined(ls: seq<Literal>)
    requires |ls| > 0 && AllWellFormed(ls)
    ensures Scan(KeepQuotes, JoinLiterals(ls)) == Scanner(Renders(ls[..|ls| - 1]), Render(ls[|ls| - 1]), false, 0)
    decreases |ls|
  {
    var n := |ls| - 1;
    if n == 0 {
      ScanFirst(ls[0]);
      assert |Renders(ls[..0])| == 0;
    } else {
      var init := ls[..n];
      JoinedSnoc(ls);
      ScanJoined(init);
      var j, v, cur := JoinLiterals(init), Renders(init[..n - 1]), Render(init[n - 1]);
      ScanNextPiece(j, v, cur, ls[n]);
      assert JoinLiterals(ls) == (j + [',']) + Render(ls[n]);
      assert v + [cur] == Renders(init);
    }
  }

  /** A well-formed literal read from the start is the one pending piece. */
  lemma ScanFirst(l: Literal)
    requires WellFormed(l)
    ensures Scan(KeepQuotes, Render(l)) == Scanner([], Render(l), false, 0)
  {
    ScanRender("", l);
    Seqs.EmptyPrefix(Render(l));
  }

  /** After a pending piece, a comma and a well-formed literal end that piece and leave the literal pending. */
  lemma ScanNextPiece(j: string, v: seq<string>, cur: string, l: Literal)
    requires Scan(KeepQuotes, j) == Scanner(v, cur, false, 0)
    requires WellFormed(l)
    ensures Scan(KeepQuotes, (j + [',']) + Render(l)) == Scanner(v + [cur], Render(l), false, 0)
  {
    ScanComma(KeepQuotes, j);
    assert (j + [','])[|j|] == ',';
    ScanRender(j + [','], l);
  }

  /** The sequence facts one step of `ScanJoined` needs. */
  lemma JoinedSnoc(ls: seq<Literal>)
    requires |ls| > 1 && AllWellFormed(ls)
    ensures AllWellFormed(ls[..|ls| - 1])
    ensures JoinLiterals(ls) == (JoinLiterals(ls[..|ls| - 1]) + [',']) + Render(ls[|ls| - 1])
    ensures var init := ls[..|ls| - 1]; Renders(init[..|init| - 1]) + [Render(init[|init| - 1])] == Renders(init)
    ensures var j := JoinLiterals(ls[..|ls| - 1]) + [',']; j[|j| - 1] != Backslash
  {
    var n := |ls| - 1;
    var init := ls[..n];
    assert forall i :: 0 <= i < n ==> init[i] == ls[i];
    RendersSnoc(init);
  }

  lemma RendersSnoc(ls: seq<Literal>)
    requires |ls| > 0
    ensures Renders(ls[..|ls| - 1]) + [Render(ls[|ls| - 1])] == Renders(ls)
  {
  }

  /**
    The corrected splitter reads back any comma-separated list of well-formed
    literals as their values: commas inside quotes do not split, doubled quotes
    collapse, and quoted texts stay texts.
   */
  lemma SplitJoined(ls: seq<Literal>)
    requires |ls| > 0 && AllWellFormed(ls)
    ensures SplitValues(KeepQuotes, JoinLiterals(ls)) == Meanings(ls)
  {
    var n := |ls| - 1;
    ScanJoined(ls);
    RenderPiece(ls[n]);
    RendersSnoc(ls);
    RenderedValues(ls);
  }

  /** A trailing comma leaves a blank last piece, which is not a value. */
  lemma TrailingCommaIgnored(ls: seq<Literal>)
    requires |ls| > 0 && AllWellFormed(ls)
    ensures SplitValues(KeepQuotes, JoinLiterals(ls) + [',']) == Meanings(ls)
  {
    var n := |ls| - 1;
    ScanJoined(ls);
    ScanComma(KeepQuotes, JoinLiterals(ls));
    RendersSnoc(ls);
    assert Text.Trim("") == "";
    RenderedValues(ls);
  }

  // ---------------------------------------------------------------------------
  // parseInsertStatement

  /**
    The values of the first statement on the line, or `None` when the line holds
    none. As written, the splitter drops the quotes around each literal before
    the value is parsed.
   */
  function ParseInsertStatement(line: string): (r: Option<seq<SqlValue>>)
    ensures r.Some? ==> exists k, m :: FirstMatchFrom(line, 0, k, m) && r.value == SplitValues(DropQuotes, m.values)
  {
    match FindInsert(line, 0)
    case None => None
    case Some(m) => Some(SplitValues(DropQuotes, m.values))
  }

  /** The same with a splitter that keeps the quotes, so that a quoted literal is read as text. */
  function ParseInsertStatementIntended(line: string): (r: Option<seq<SqlValue>>)
    ensures r.Some? ==> exists k, m :: FirstMatchFrom(line, 0, k, m) && r.value == SplitValues(KeepQuotes, m.values)
    ensures r.None? <==> ParseInsertStatement(line).None?
  {
    match FindInsert(line, 0)
    case None => None
    case Some(m) => Some(SplitValues(KeepQuotes, m.values))
  }

  /** A line yields `None` exactly when no `INSERT INTO public.<word> VALUES (…);` occurs in it. */
  lemma NoStatementNoValues(line: string)
    ensures ParseInsertStatement(line).None? <==>
      forall s, w, c :: IsWord(w) && SingleLine(c) ==> !StatementAt(line, s, w, c)
  {
    if ParseInsertStatement(line).None? {
      forall s, w, c | IsWord(w) && SingleLine(c)
        ensures !StatementAt(line, s, w, c)
      {
        if StatementAt(line, s, w, c) {
          MatchAtComplete(line, s, w, c);
        }
      }
    } else {
      var found := FindInsert(line, 0);
      assert found.Some?;
      var k: nat :| FirstMatchFrom(line, 0, k, found.value);
      var m := MatchAt(line, k).value;
      assert IsWord(m.table) && SingleLine(m.values) && StatementAt(line, k, m.table, m.values);
    }
  }

  /** A line that is exactly one statement is matched with its table and its whole value text. */
  lemma WholeLine(w: string, c: string)
    requires IsWord(w) && SingleLine(c)
    ensures FindInsert(Statement(w, c), 0) == Some(InsertMatch(w, c))
  {
    var line := Statement(w, c);
    assert line[0..|line|] == line;
    MatchAtComplete(line, 0, w, c);
    var m := MatchAt(line, 0).value;
    assert StatementAt(line, 0, m.table, m.values);
    assert |m.values| == |c|;
    Pieces(line, 0, w, c);
    Pieces(line, 0, m.table, m.values);
  }

  /** Writing literals into a statement and parsing the line gives back their values. */
  lemma StatementRoundTrip(table: string, ls: seq<Literal>)
    requires IsWord(table)
    requires |ls| > 0 && AllWellFormed(ls) && SingleLine(JoinLiterals(ls))
    ensures ParseInsertStatementIntended(Statement(table, JoinLiterals(ls))) == Some(Meanings(ls))
  {
    WholeLine(table, JoinLiterals(ls));
    SplitJoined(ls);
  }

  // ---------------------------------------------------------------------------
  // What the as-written splitter does to quoted texts

  lemma {:induction false} EscapeNoQuotes(t: string)
    requires Plain(t)
    ensures EscapeQuotes(t) == t
    decreases |t|
  {
    if |t| > 0 {
      assert Plain(t[1..]) by {
        assert forall k :: 0 <= k < |t[1..]| ==> t[1..][k] == t[k + 1];
      }
      EscapeNoQuotes(t[1..]);
      assert t == [t[0]] + t[1..];
    }
  }

  /**
    As written, quoting a plain text has no effect: after a clean state `'t'` is
    split exactly as `t` is, so `parseValue` sees `t` bare.
   */
  lemma DroppedQuotesPlain(a: string, t: string)
    requires Clean(Scan(DropQuotes, a))
    requires |a| == 0 || a[|a| - 1] != Backslash
    requires Plain(t) && NoBackslash(t)
    ensures Scan(DropQuotes, a + QuotedLiteral(t)) == Scanner(Scan(DropQuotes, a).pieces, t, false, 0)
  {
    EscapeNoQuotes(t);
    var pre := a + [Quote] + t;
    DroppedOpen(a, t);
    LiteralClose(a, t);
    assert pre[|pre| - 1] != Backslash by {
      if |t| > 0 {
        assert pre[|pre| - 1] == t[|t| - 1];
      }
    }
    ScanToggle(DropQuotes, pre);
  }

  /** As written, the opening quote is dropped and the plain text after it copied. */
  lemma DroppedOpen(a: string, t: string)
    requires Clean(Scan(DropQuotes, a))
    requires |a| == 0 || a[|a| - 1] != Backslash
    requires Plain(t)
    ensures Scan(DropQuotes, a + [Quote] + t) == Scanner(Scan(DropQuotes, a).pieces, t, true, 0)
  {
    ScanToggle(DropQuotes, a);
    ScanPlain(DropQuotes, a + [Quote], t);
  }

  /** Two quoted texts separated by a comma. */
  function QuotedPair(t1: string, t2: string): string
  {
    QuotedLiteral(t1) + [','] + QuotedLiteral(t2)
  }

  /** A plain text the splitter as written leaves as one piece. */
  predicate PlainText(t: string)
  {
    Plain(t) && NoBackslash(t) && Text.Trim(t) != ""
  }

  /**
    As written, the quotes around plain texts are ignored: each text is parsed as
    if it had been written bare, so a quoted keyword or a quoted number is not
    read as text.
   */
  lemma AsWrittenIgnoresQuotes(table: string, t1: string, t2: string)
    requires IsWord(table) && PlainText(t1) && PlainText(t2) && SingleLine(QuotedPair(t1, t2))
    ensures ParseInsertStatement(Statement(table, QuotedPair(t1, t2)))
      == Some([ParseValue(Text.Trim(t1)), ParseValue(Text.Trim(t2))])
  {
    ParseWholeLine(table, QuotedPair(t1, t2));
    DroppedPair(t1, t2);
  }

  /** The as-written splitter on a pair of quoted plain texts. */
  lemma DroppedPair(t1: string, t2: string)
    requires PlainText(t1) && PlainText(t2)
    ensures SplitValues(DropQuotes, QuotedPair(t1, t2)) == [ParseValue(Text.Trim(t1)), ParseValue(Text.Trim(t2))]
  {
    var c := QuotedPair(t1, t2);
    DroppedPairScan(t1, t2);
    var ps := ValuePieces(DropQuotes, c);
    Seqs.Pair(ps, t1, t2);
    ValuesPair(t1, t2);
  }

  /** As written, two quoted plain texts leave the first as a piece and the second pending. */
  lemma DroppedPairScan(t1: string, t2: string)
    requires PlainText(t1) && PlainText(t2)
    ensures Scan(DropQuotes, QuotedPair(t1, t2)) == Scanner([t1], t2, false, 0)
  {
    var first := QuotedLiteral(t1);
    DroppedQuotesPlain([], t1);
    Seqs.EmptyPrefix(first);
    ScanComma(DropQuotes, first);
    Seqs.EmptyPrefix([t1]);
    assert (first + [','])[|first|] == ',';
    DroppedQuotesPlain(first + [','], t2);
  }

  lemma ValuesPair(a: string, b: string)
    ensures Values([a, b]) == [ParseValue(Text.Trim(a)), ParseValue(Text.Trim(b))]
  {
    Seqs.Pair(Values([a, b]), ParseValue(Text.Trim(a)), ParseValue(Text.Trim(b)));
  }

  /** A line that is exactly one statement is parsed as the split of its whole value text, by either splitter. */
  lemma ParseWholeLine(w: string, c: string)
    requires IsWord(w) && SingleLine(c)
    ensures ParseInsertStatementIntended(Statement(w, c)) == Some(SplitValues(KeepQuotes, c))
    ensures ParseInsertStatement(Statement(w, c)) == Some(SplitValues(DropQuotes, c))
  {
    WholeLine(w, c);
  }

  /** The corrected splitter reads the same two quoted texts as texts. */
  lemma KeptQuotes(table: string, t1: string, t2: string)
    requires IsWord(table) && NoBackslash(t1) && NoBackslash(t2) && SingleLine(QuotedPair(t1, t2))
    ensures ParseInsertStatementIntended(Statement(table, QuotedPair(t1, t2))) == Some([Text(t1), Text(t2)])
  {
    var ls := [Quoted(t1), Quoted(t2)];
    PairLiterals(t1, t2);
    ParseWholeLine(table, QuotedPair(t1, t2));
    SplitJoined(ls);
    Seqs.Pair(Meanings(ls), Text(t1), Text(t2));
  }

  lemma PairLiterals(t1: string, t2: string)
    requires NoBackslash(t1) && NoBackslash(t2)
    ensures AllWellFormed([Quoted(t1), Quoted(t2)])
    ensures JoinLiterals([Quoted(t1), Quoted(t2)]) == QuotedPair(t1, t2)
  {
    var ls := [Quoted(t1), Quoted(t2)];
    assert ls[..1] == [Quoted(t1)];
    assert JoinLiterals(ls[..1]) == QuotedLiteral(t1);
  }

  /** A bare run of digits is read as a number, whatever its leading zeros. */
  lemma DecimalPiece(v: string)
    requires |v| > 0 && Text.AllDigits(v)
    ensures ParseValue(Text.Trim(v)) == Number(v)
  {
    DecimalShape(v);
  }

  lemma DecimalShape(v: string)
    requires |v| > 0 && Text.AllDigits(v)
    ensures Text.Trim(v) == v && IsDecimal(v)
    ensures v[0] != Quote && v != "NULL" && v != "true" && v != "false"
  {
    Text.TrimUnchanged(v);
    DigitsDecimal(v);
    DecimalUnquoted(v);
  }

  lemma DigitsDecimal(v: string)
    requires |v| > 0 && Text.AllDigits(v)
    ensures IsDecimal(v)
  {
    Text.DigitPrefixOfDigits(v, "");
    assert v + "" == v;
    assert Text.IsDigit(v[0]);
  }

  /** Quoting plain texts that hold no line terminator keeps the pair on one line. */
  lemma QuotedPairSingleLine(t1: string, t2: string)
    requires Plain(t1) && Plain(t2) && SingleLine(t1) && SingleLine(t2)
    ensures SingleLine(QuotedPair(t1, t2))
  {
    EscapeNoQuotes(t1);
    EscapeNoQuotes(t2);
    SingleLineConcat([Quote], t1);
    SingleLineConcat([Quote] + t1, [Quote]);
    SingleLineConcat([Quote], t2);
    SingleLineConcat([Quote] + t2, [Quote]);
    SingleLineConcat(QuotedLiteral(t1), [',']);
    SingleLineConcat(QuotedLiteral(t1) + [','], QuotedLiteral(t2));
  }

  lemma SingleLineConcat(a: string, b: string)
    requires SingleLine(a) && SingleLine(b)
    ensures SingleLine(a + b)
  {
    forall i | 0 <= i < |a + b|
      ensures !IsLineTerminator((a + b)[i])
    {
      if i >= |a| {
        assert (a + b)[i] == b[i - |a|];
      }
    }
  }

  /** The keyword `NULL` is a plain text, read bare as null. */
  lemma NullText(s: string)
    requires s == "NULL"
    ensures PlainText(s) && SingleLine(s)
    ensures ParseValue(Text.Trim(s)) == Null
  {
    Text.TrimUnchanged(s);
  }

  /** A run of digits is a plain text on one line. */
  lemma DigitsText(digits: string)
    requires |digits| > 0 && Text.AllDigits(digits)
    ensures PlainText(digits) && SingleLine(digits)
  {
    Text.TrimUnchanged(digits);
  }

  /**
    As written, `INSERT INTO public.<table> VALUES ('NULL','0712');` imports the
    quoted text `'NULL'` as null and a quoted run of digits such as `'0712'` as a
    number.
   */
  lemma AsWrittenQuotedTexts(table: string, digits: string)
    requires IsWord(table) && |digits| > 0 && Text.AllDigits(digits)
    ensures ParseInsertStatement(Statement(table, QuotedPair("NULL", digits))) == Some([Null, Number(digits)])
  {
    var keyword := "NULL";
    NullText(keyword);
    DigitsText(digits);
    DecimalPiece(digits);
    QuotedPairSingleLine(keyword, digits);
    AsWrittenIgnoresQuotes(table, keyword, digits);
  }

  /** The corrected splitter imports both as texts. */
  lemma QuotedTextsKept(table: string, digits: string)
    requires IsWord(table) && |digits| > 0 && Text.AllDigits(digits)
    ensures ParseInsertStatementIntended(Statement(table, QuotedPair("NULL", digits))) == Some([Text("NULL"), Text(digits)])
  {
    var keyword := "NULL";
    NullText(keyword);
    DigitsText(digits);
    QuotedPairSingleLine(keyword, digits);
    KeptQuotes(table, keyword, digits);
  }
}
