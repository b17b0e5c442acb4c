/**
 The token scanner of the default-filter check (internal/catalog/sqlpredicate.go) on ASCII text.
 All positions are indices into the whole text.
 */
module PredicateTokens {
  import opened Lists
  import opened Text

  datatype Kind = Identifier | Literal | Number | Operator

  datatype Token = Token(text: string, kind: Kind)

  // ---------------------------------------------------------------- character classes

  predicate IsSqlSpace(c: char) {
    c == ' ' || c == '\t' || c == '\n' || c == '\r' || c == 12 as char
  }

  predicate IsLetter(c: char) {
    'a' <= c <= 'z' || 'A' <= c <= 'Z'
  }

  predicate IsDigit(c: char) {
    '0' <= c <= '9'
  }

  predicate IsIdentStart(c: char) {
    c == '_' || c == '$' || IsLetter(c)
  }

  predicate IsIdentPart(c: char) {
    IsIdentStart(c) || c == '#' || IsDigit(c)
  }

  const TWO_CHARACTER_OPERATORS: set<string> := {"<=", ">=", "<>", "!=", "||", "&&", "::", ":=", "->", "=>"}

  // ---------------------------------------------------------------- where things end

  function LineEnd(s: string, i: nat): (j: nat)
    requires i <= |s|
    ensures i <= j <= |s|
    decreases |s| - i
  {
    if i < |s| && s[i] != '\n' && s[i] != '\r' then LineEnd(s, i + 1) else i
  }

  /** Past the closing mark; an unterminated comment ends one character before the text does. */
  function BlockEnd(s: string, i: nat): (j: nat)
    requires i <= |s|
    ensures i <= j <= |s|
    decreases |s| - i
  {
    if i + 1 >= |s| then i
    else if s[i] == '*' && s[i + 1] == '/' then i + 2
    else BlockEnd(s, i + 1)
  }

  /** Past the closing quote, honouring backslashes and doubled quotes. */
  function LiteralEnd(s: string, i: nat): (j: nat)
    requires i <= |s|
    ensures i <= j <= |s|
    decreases |s| - i
  {
    if i == |s| then i
    else if s[i] == '\\' && i + 1 < |s| then LiteralEnd(s, i + 2)
    else if s[i] == '\'' then
      if i + 1 < |s| && s[i + 1] == '\'' then LiteralEnd(s, i + 2) else i + 1
    else LiteralEnd(s, i + 1)
  }

  /** Just after a $tag$ opener at start, or start itself when there is none. */
  function DollarEnd(s: string, start: nat): (j: nat)
    requires start < |s|
    ensures start <= j <= |s|
  {
    if s[start] != '$' then start else DollarEndFrom(s, start, start + 1)
  }

  function DollarEndFrom(s: string, start: nat, i: nat): (j: nat)
    requires start < i <= |s|
    ensures j == start || i < j <= |s|
    decreases |s| - i
  {
    if i == |s| then start
    else if s[i] == '$' then i + 1
    else if s[i] == '_' || IsLetter(s[i]) || (i > start + 1 && IsDigit(s[i])) then DollarEndFrom(s, start, i + 1)
    else start
  }

  /** Text t stands at position i. */
  predicate At(s: string, i: nat, t: string) {
    i + |t| <= |s| && Same(s, i, t, 0)
  }

  /** From its k-th character on, t agrees with what stands at position i. */
  predicate Same(s: string, i: nat, t: string, k: nat)
    requires i + |t| <= |s| && k <= |t|
    decreases |t| - k
  {
    k == |t| || (s[i + k] == t[k] && Same(s, i, t, k + 1))
  }

  datatype Found = NotFound | Found(at: nat)

  /** strings.Index from a position on. */
  function Find(s: string, i: nat, t: string): (f: Found)
    requires i <= |s|
    ensures f.Found? ==> i <= f.at && At(s, f.at, t)
    decreases |s| - i
  {
    if At(s, i, t) then Found(i) else if i == |s| then NotFound else Find(s, i + 1, t)
  }

  function QuotedEnd(s: string, i: nat, q: char): (j: nat)
    requires i <= |s|
    ensures i <= j <= |s|
    decreases |s| - i
  {
    if i == |s| then i
    else if s[i] == q then
      if i + 1 < |s| && s[i + 1] == q then QuotedEnd(s, i + 2, q) else i + 1
    else QuotedEnd(s, i + 1, q)
  }

  function QuotedText(s: string, i: nat, q: char): string
    requires i <= |s|
    decreases |s| - i
  {
    if i == |s| then ""
    else if s[i] == q then
      if i + 1 < |s| && s[i + 1] == q then [q] + QuotedText(s, i + 2, q) else ""
    else [s[i]] + QuotedText(s, i + 1, q)
  }

  function WordEnd(s: string, i: nat): (j: nat)
    requires i <= |s|
    ensures i <= j <= |s|
    decreases |s| - i
  {
    if i < |s| && IsIdentPart(s[i]) then WordEnd(s, i + 1) else i
  }

  function NumberEnd(s: string, i: nat): (j: nat)
    requires i <= |s|
    ensures i <= j <= |s|
    decreases |s| - i
  {
    if i < |s| && (IsDigit(s[i]) || s[i] == '.') then NumberEnd(s, i + 1) else i
  }

  function OperatorEnd(s: string, i: nat): (j: nat)
    requires i < |s|
    ensures i < j <= |s|
  {
    if i + 1 < |s| && s[i..i + 2] in TWO_CHARACTER_OPERATORS then i + 2 else i + 1
  }

  // ---------------------------------------------------------------- the scanner

  /** One turn of the scanning loop: where it goes on, and the token it found, if any. */
  datatype Turn = Turn(next: nat, tokens: seq<Token>)

  function Step(s: string, i: nat): (t: Turn)
    requires i < |s|
    ensures i < t.next <= |s|
  {
    var c := s[i];
    if IsSqlSpace(c) then Turn(i + 1, [])
    else if c == '-' && i + 1 < |s| && s[i + 1] == '-' then Turn(LineEnd(s, i + 2), [])
    else if c == '#' then Turn(LineEnd(s, i + 1), [])
    else if c == '/' && i + 1 < |s| && s[i + 1] == '*' then Turn(BlockEnd(s, i + 2), [])
    else if c == '\'' then var j := LiteralEnd(s, i + 1); Turn(j, [Token(s[i..j], Literal)])
    else if c == '$' && DollarEnd(s, i) > i then
      var end := DollarEnd(s, i);
      var close := Find(s, end, s[i..end]);
      if close.NotFound? then Turn(|s|, [Token(s[i..], Literal)])
      else var j := close.at + (end - i); Turn(j, [Token(s[i..j], Literal)])
    else if c == '"' || c == '`' then Turn(QuotedEnd(s, i + 1, c), [Token(Upper(QuotedText(s, i + 1, c)), Identifier)])
    else if IsIdentStart(c) then var j := WordEnd(s, i + 1); Turn(j, [Token(Upper(s[i..j]), Identifier)])
    else if IsDigit(c) then var j := NumberEnd(s, i + 1); Turn(j, [Token(s[i..j], Number)])
    else var j := OperatorEnd(s, i); Turn(j, [Token(Upper(s[i..j]), Operator)])
  }

  function Scan(s: string, i: nat): seq<Token>
    requires i <= |s|
    decreases |s| - i
  {
    if i == |s| then [] else Step(s, i).tokens + Scan(s, Step(s, i).next)
  }

  method SkipLine(s: string, start: nat) returns (i: nat)
    requires start <= |s|
    ensures i == LineEnd(s, start)
  {
    i := start;
    while i < |s| && s[i] != '\n' && s[i] != '\r'
      invariant start <= i <= |s| && LineEnd(s, i) == LineEnd(s, start)
    {
      i := i + 1;
    }
  }

  method SkipBlock(s: string, start: nat) returns (i: nat)
    requires start <= |s|
    ensures i == BlockEnd(s, start)
  {
    i := start;
    while i + 1 < |s| && !(s[i] == '*' && s[i + 1] == '/')
      invariant start <= i <= |s| && BlockEnd(s, i) == BlockEnd(s, start)
    {
      i := i + 1;
    }
    if i + 1 < |s| {
      i := i + 2;
    }
  }

  method SkipLiteral(s: string, start: nat) returns (i: nat)
    requires start <= |s|
    ensures i == LiteralEnd(s, start)
  {
    i := start;
    while i < |s|
      invariant start <= i <= |s| && LiteralEnd(s, i) == LiteralEnd(s, start)
    {
      if s[i] == '\\' && i + 1 < |s| {
        i := i + 2;
        continue;
      }
      if s[i] == '\'' {
        if i + 1 < |s| && s[i + 1] == '\'' {
          i := i + 2;
          continue;
        }
        i := i + 1;
        return;
      }
      i := i + 1;
    }
  }

  method PostgresDollarQuoteEnd(s: string, start: nat) returns (end: nat)
    requires start < |s|
    ensures end == DollarEnd(s, start)
  {
    if s[start] != '$' {
      return start;
    }
    var i := start + 1;
    while i < |s|
      invariant start < i <= |s| && DollarEndFrom(s, start, i) == DollarEnd(s, start)
    {
      if s[i] == '$' {
        return i + 1;
      }
      if !(s[i] == '_' || IsLetter(s[i]) || (i > start + 1 && IsDigit(s[i]))) {
        return start;
      }
      i := i + 1;
    }
    return start;
  }

  lemma {:induction false} QuotedAdvance(s: string, i: nat, q: char, b: string)
    requires i < |s|
    ensures s[i] != q ==> b + [s[i]] + QuotedText(s, i + 1, q) == b + QuotedText(s, i, q)
    ensures s[i] == q && i + 1 < |s| && s[i + 1] == q ==> b + [q] + QuotedText(s, i + 2, q) == b + QuotedText(s, i, q)
  {
  }

  method ReadQuoted(s: string, start: nat, quote: char) returns (i: nat, b: string)
    requires start <= |s|
    ensures i == QuotedEnd(s, start, quote) && b == QuotedText(s, start, quote)
  {
    i, b := start, "";
    while i < |s|
      invariant start <= i <= |s| && QuotedEnd(s, i, quote) == QuotedEnd(s, start, quote)
      invariant b + QuotedText(s, i, quote) == QuotedText(s, start, quote)
    {
      QuotedAdvance(s, i, quote, b);
      if s[i] == quote {
        if i + 1 < |s| && s[i + 1] == quote {
          b := b + [quote];
          i := i + 2;
          continue;
        }
        i := i + 1;
        return;
      }
      b := b + [s[i]];
      i := i + 1;
    }
  }

  method SkipWord(s: string, start: nat) returns (i: nat)
    requires start <= |s|
    ensures i == WordEnd(s, start)
  {
    i := start;
    while i < |s| && IsIdentPart(s[i])
      invariant start <= i <= |s| && WordEnd(s, i) == WordEnd(s, start)
    {
      i := i + 1;
    }
  }

  method SkipNumber(s: string, start: nat) returns (i: nat)
    requires start <= |s|
    ensures i == NumberEnd(s, start)
  {
    i := start;
    while i < |s| && (IsDigit(s[i]) || s[i] == '.')
      invariant start <= i <= |s| && NumberEnd(s, i) == NumberEnd(s, start)
    {
      i := i + 1;
    }
  }

  /** One iteration of the scanning loop. */
  method ScanStep(s: string, i: nat) returns (next: nat, found: seq<Token>)
    requires i < |s|
    ensures next == Step(s, i).next && found == Step(s, i).tokens
  {
    var c := s[i];
    found := [];
    if IsSqlSpace(c) {
      next := i + 1;
    } else if c == '-' && i + 1 < |s| && s[i + 1] == '-' {
      next := SkipLine(s, i + 2);
    } else if c == '#' {
      next := SkipLine(s, i + 1);
    } else if c == '/' && i + 1 < |s| && s[i + 1] == '*' {
      next := SkipBlock(s, i + 2);
    } else if c == '\'' {
      next := SkipLiteral(s, i + 1);
      found := [Token(s[i..next], Literal)];
    } else {
      var end := PostgresDollarQuoteEnd(s, i);
      if c == '$' && end > i {
        var close := Find(s, end, s[i..end]);
        if close.NotFound? {
          next := |s|;
          found := [Token(s[i..], Literal)];
        } else {
          next := close.at + (end - i);
          found := [Token(s[i..next], Literal)];
        }
      } else if c == '"' || c == '`' {
        var b;
        next, b := ReadQuoted(s, i + 1, c);
        found := [Token(Upper(b), Identifier)];
      } else if IsIdentStart(c) {
        next := SkipWord(s, i + 1);
        found := [Token(Upper(s[i..next]), Identifier)];
      } else if IsDigit(c) {
        next := SkipNumber(s, i + 1);
        found := [Token(s[i..next], Number)];
      } else {
        next := OperatorEnd(s, i);
        found := [Token(Upper(s[i..next]), Operator)];
      }
    }
  }

  lemma {:induction false} ScanAdvance(s: string, i: nat, out: seq<Token>)
    requires i < |s|
    ensures (out + Step(s, i).tokens) + Scan(s, Step(s, i).next) == out + Scan(s, i)
  {
    Regroup(out, Step(s, i).tokens, Scan(s, Step(s, i).next));
  }

  method ScanPredicateTokens(s: string) returns (out: seq<Token>)
    ensures out == Scan(s, 0)
  {
    out := [];
    var i := 0;
    while i < |s|
      invariant 0 <= i <= |s| && out + Scan(s, i) == Scan(s, 0)
    {
      ScanAdvance(s, i, out);
      var next, found := ScanStep(s, i);
      out := out + found;
      i := next;
    }
  }

  // ---------------------------------------------------------------- printing lexemes

  datatype Lexeme =
    | Word(w: string)
    | Num(n: string)
    | Text(t: string)
    | Dollar(tag: string, body: string)
    | Quoted(q: char, name: string)
    | Sign(op: string)

  /** The scan of a literal from i stops at the last character of t, by a closing quote. */
  predicate Closes(t: string, i: nat)
    requires i <= |t|
    decreases |t| - i
  {
    if i == |t| then false
    else if t[i] == '\\' then i + 2 <= |t| && Closes(t, i + 2)
    else if t[i] == '\'' then
      if i + 1 < |t| && t[i + 1] == '\'' then Closes(t, i + 2) else i + 1 == |t|
    else Closes(t, i + 1)
  }

  function Doubled(q: char, s: string): string {
    if s == "" then "" else (if s[0] == q then [q, q] else [s[0]]) + Doubled(q, s[1..])
  }

  function Delimiter(tag: string): string { "$" + (tag + "$") }

  predicate IsTag(tag: string) {
    forall k :: 0 <= k < |tag| ==> tag[k] == '_' || IsLetter(tag[k]) || (k > 0 && IsDigit(tag[k]))
  }

  predicate WellFormed(l: Lexeme) {
    match l
    case Word(w) =>
      w != "" && IsIdentStart(w[0]) && (forall k :: 0 <= k < |w| ==> IsIdentPart(w[k])) && DollarEnd(w, 0) == 0
    case Num(n) => n != "" && IsDigit(n[0]) && forall k :: 0 <= k < |n| ==> IsDigit(n[k]) || n[k] == '.'
    case Text(t) => t != "" && t[0] == '\'' && Closes(t, 1)
    case Dollar(tag, body) =>
      IsTag(tag) && forall k :: 0 <= k < |body| ==> !At(body + Delimiter(tag), k, Delimiter(tag))
    case Quoted(q, name) => q == '"' || q == '`'
    case Sign(op) =>
      op in TWO_CHARACTER_OPERATORS ||
      (|op| == 1 && !IsSqlSpace(op[0]) && op[0] !in {'#', '\'', '"', '`'} && !IsIdentStart(op[0]) && !IsDigit(op[0]))
  }

  function Print(l: Lexeme): string {
    match l
    case Word(w) => w
    case Num(n) => n
    case Text(t) => t
    case Dollar(tag, body) => Delimiter(tag) + (body + Delimiter(tag))
    case Quoted(q, name) => [q] + (Doubled(q, name) + [q])
    case Sign(op) => op
  }

  function TokenOf(l: Lexeme): Token {
    match l
    case Word(w) => Token(Upper(w), Identifier)
    case Num(n) => Token(n, Number)
    case Text(t) => Token(t, Literal)
    case Dollar(_, _) => Token(Print(l), Literal)
    case Quoted(_, name) => Token(Upper(name), Identifier)
    case Sign(op) => Token(Upper(op), Operator)
  }

  /** Between lexemes: blanks and terminated comments. */
  datatype Gap = Blank(c: char) | LineComment(hash: bool, text: string) | BlockComment(text: string)

  predicate GapOk(g: Gap) {
    match g
    case Blank(c) => IsSqlSpace(c)
    case LineComment(_, text) => '\n' !in text && '\r' !in text
    case BlockComment(text) => forall k :: 0 <= k < |text| - 1 ==> !(text[k] == '*' && text[k + 1] == '/')
  }

  predicate GapsOk(gs: seq<Gap>) {
    forall k :: 0 <= k < |gs| ==> GapOk(gs[k])
  }

  function PrintGap(g: Gap): string {
    match g
    case Blank(c) => [c]
    case LineComment(hash, text) => (if hash then "#" else "--") + (text + "\n")
    case BlockComment(text) => "/*" + (text + "*/")
  }

  function PrintGaps(gs: seq<Gap>): string {
    FlatMap(PrintGap, gs)
  }

  /** A lexeme and the separator after it, which begins with a blank. */
  datatype Item = Item(lexeme: Lexeme, gaps: seq<Gap>)

  predicate ItemOk(it: Item) {
    WellFormed(it.lexeme) && it.gaps != [] && it.gaps[0].Blank? && GapsOk(it.gaps)
  }

  predicate ItemsOk(items: seq<Item>) {
    forall k :: 0 <= k < |items| ==> ItemOk(items[k])
  }

  function PrintItem(it: Item): string {
    Print(it.lexeme) + PrintGaps(it.gaps)
  }

  function PrintItems(items: seq<Item>): string {
    FlatMap(PrintItem, items)
  }

  function TokensOfItem(it: Item): seq<Token> {
    [TokenOf(it.lexeme)]
  }

  function Tokens(items: seq<Item>): seq<Token> {
    FlatMap(TokensOfItem, items)
  }

  // ---------------------------------------------------------------- the scanner reads what was printed

  lemma {:induction false} SameChars(s: string, i: nat, t: string, k: nat)
    requires i + |t| <= |s| && k <= |t|
    ensures Same(s, i, t, k) <==> forall x :: k <= x < |t| ==> s[i + x] == t[x]
    decreases |t| - k
  {
    if k < |t| { SameChars(s, i, t, k + 1); }
  }

  lemma {:induction false} AtChar(s: string, i: nat, t: string, k: nat)
    requires At(s, i, t) && k < |t|
    ensures i + k < |s| && s[i + k] == t[k]
  {
    SameChars(s, i, t, 0);
  }

  lemma {:induction false} SliceAt(s: string, i: nat, t: string)
    requires i + |t| <= |s| && forall k :: 0 <= k < |t| ==> s[i + k] == t[k]
    ensures At(s, i, t)
  {
    SameChars(s, i, t, 0);
  }

  lemma {:induction false} AtSlice(s: string, i: nat, t: string)
    requires At(s, i, t)
    ensures s[i..i + |t|] == t
  {
    SameChars(s, i, t, 0);
  }

  lemma {:induction false} AtConcat(s: string, i: nat, a: string, b: string)
    ensures At(s, i, a + b) <==> At(s, i, a) && At(s, i + |a|, b)
  {
    var t, j := a + b, i + |a|;
    if i + |t| <= |s| {
      SameChars(s, i, t, 0);
      SameChars(s, i, a, 0);
      SameChars(s, j, b, 0);
      if At(s, i, t) {
        forall x | 0 <= x < |a| ensures s[i + x] == a[x] { assert t[x] == a[x]; }
        forall x | 0 <= x < |b| ensures s[j + x] == b[x] {
          assert t[|a| + x] == b[x] && s[i + (|a| + x)] == t[|a| + x];
        }
      }
      if At(s, i, a) && At(s, j, b) {
        forall x | 0 <= x < |t| ensures s[i + x] == t[x] {
          if x >= |a| { assert s[j + (x - |a|)] == b[x - |a|]; }
        }
      }
    }
  }

  /** A place inside a place. */
  lemma {:induction false} AtInside(s: string, i: nat, t: string, k: nat, d: string)
    requires At(s, i, t) && At(s, i + k, d) && k + |d| <= |t|
    ensures At(t, k, d)
  {
    forall x | 0 <= x < |d| ensures t[k + x] == d[x] {
      AtChar(s, i, t, k + x);
      AtChar(s, i + k, d, x);
    }
    SliceAt(t, k, d);
  }

  lemma {:induction false} WordEndAt(s: string, i: nat, e: nat)
    requires i <= e < |s| && (forall k :: i <= k < e ==> IsIdentPart(s[k])) && !IsIdentPart(s[e])
    ensures WordEnd(s, i) == e
    decreases e - i
  {
    if i < e { WordEndAt(s, i + 1, e); }
  }

  lemma {:induction false} NumberEndAt(s: string, i: nat, e: nat)
    requires i <= e < |s| && (forall k :: i <= k < e ==> IsDigit(s[k]) || s[k] == '.') && !IsDigit(s[e]) && s[e] != '.'
    ensures NumberEnd(s, i) == e
    decreases e - i
  {
    if i < e { NumberEndAt(s, i + 1, e); }
  }

  lemma {:induction false} LiteralEndAt(s: string, i: nat, t: string, k: nat)
    requires k <= |t| && At(s, i, t) && Closes(t, k) && (i + |t| < |s| ==> s[i + |t|] != '\'')
    ensures LiteralEnd(s, i + k) == i + |t|
    decreases |t| - k
  {
    AtChar(s, i, t, k);
    if k + 1 < |t| { AtChar(s, i, t, k + 1); }
    if t[k] == '\\' {
      LiteralEndAt(s, i, t, k + 2);
    } else if t[k] == '\'' {
      if k + 1 < |t| && t[k + 1] == '\'' { LiteralEndAt(s, i, t, k + 2); }
    } else {
      LiteralEndAt(s, i, t, k + 1);
    }
  }

  lemma {:induction false} DollarEndWord(s: string, i: nat, w: string, k: nat)
    requires 0 < k <= |w| && At(s, i, w) && i + |w| < |s| && IsSqlSpace(s[i + |w|])
    requires DollarEndFrom(w, 0, k) == 0
    ensures DollarEndFrom(s, i, i + k) == i
    decreases |w| - k
  {
    if k < |w| {
      AtChar(s, i, w, k);
      if w[k] == '_' || IsLetter(w[k]) || (k > 1 && IsDigit(w[k])) { DollarEndWord(s, i, w, k + 1); }
    }
  }

  lemma {:induction false} DollarEndTag(s: string, i: nat, tag: string, k: nat)
    requires k <= |tag| && At(s, i, Delimiter(tag)) && IsTag(tag)
    ensures DollarEndFrom(s, i, i + 1 + k) == i + |tag| + 2
    decreases |tag| - k
  {
    AtChar(s, i, Delimiter(tag), 1 + k);
    if k < |tag| {
      assert Delimiter(tag)[1 + k] == tag[k] != '$';
      DollarEndTag(s, i, tag, k + 1);
    }
  }

  lemma {:induction false} FindFirst(s: string, i: nat, e: nat, t: string)
    requires i <= e <= |s| && At(s, e, t) && forall k :: i <= k < e ==> !At(s, k, t)
    ensures Find(s, i, t) == Found(e)
    decreases e - i
  {
    if i < e { FindFirst(s, i + 1, e, t); }
  }

  lemma {:induction false} QuotedAt(s: string, i: nat, q: char, name: string)
    requires At(s, i, Doubled(q, name) + [q]) && var e := i + |Doubled(q, name)| + 1; (e < |s| ==> s[e] != q)
    ensures QuotedEnd(s, i, q) == i + |Doubled(q, name)| + 1
    ensures QuotedText(s, i, q) == name
    decreases |name|
  {
    var t := Doubled(q, name) + [q];
    AtChar(s, i, t, 0);
    if name != "" {
      var rest := Doubled(q, name[1..]) + [q];
      assert name == [name[0]] + name[1..];
      if name[0] == q {
        assert t == [q, q] + rest;
        AtConcat(s, i, [q, q], rest);
        AtChar(s, i, t, 1);
        QuotedAt(s, i + 2, q, name[1..]);
      } else {
        assert t == [name[0]] + rest;
        AtConcat(s, i, [name[0]], rest);
        QuotedAt(s, i + 1, q, name[1..]);
      }
    }
  }

  /** Where a printed lexeme stands, followed by a blank, one turn of the scanner reads exactly its token. */
  predicate Stands(s: string, i: nat, t: string) {
    t != "" && At(s, i, t) && i + |t| < |s| && IsSqlSpace(s[i + |t|])
  }

  lemma {:induction false} WordStep(s: string, i: nat, w: string)
    requires WellFormed(Word(w)) && Stands(s, i, w)
    ensures Step(s, i) == Turn(i + |w|, [Token(Upper(w), Identifier)])
  {
    AtChar(s, i, w, 0);
    if w[0] == '$' { DollarEndWord(s, i, w, 1); }
    assert DollarEnd(s, i) == i;
    forall k | i + 1 <= k < i + |w| ensures IsIdentPart(s[k]) { AtChar(s, i, w, k - i); }
    WordEndAt(s, i + 1, i + |w|);
    AtSlice(s, i, w);
  }

  lemma {:induction false} NumberStep(s: string, i: nat, n: string)
    requires WellFormed(Num(n)) && Stands(s, i, n)
    ensures Step(s, i) == Turn(i + |n|, [Token(n, Number)])
  {
    AtChar(s, i, n, 0);
    forall k | i + 1 <= k < i + |n| ensures IsDigit(s[k]) || s[k] == '.' { AtChar(s, i, n, k - i); }
    NumberEndAt(s, i + 1, i + |n|);
    AtSlice(s, i, n);
  }

  lemma {:induction false} TextStep(s: string, i: nat, t: string)
    requires WellFormed(Text(t)) && Stands(s, i, t)
    ensures Step(s, i) == Turn(i + |t|, [Token(t, Literal)])
  {
    AtChar(s, i, t, 0);
    LiteralEndAt(s, i, t, 1);
    AtSlice(s, i, t);
  }

  /** The closing delimiter is the first one after the opener. */
  lemma {:induction false} DollarCloses(s: string, end: nat, body: string, d: string)
    requires At(s, end, body + d) && forall k :: 0 <= k < |body| ==> !At(body + d, k, d)
    ensures end <= |s| && Find(s, end, d) == Found(end + |body|)
  {
    AtConcat(s, end, body, d);
    forall k | end <= k < end + |body| ensures !At(s, k, d) {
      if At(s, k, d) {
        AtInside(s, end, body + d, k - end, d);
      }
    }
    assert At(s, end + |body|, d);
    FindFirst(s, end, end + |body|, d);
  }

  lemma {:induction false} DollarOpens(s: string, i: nat, tag: string)
    requires IsTag(tag) && At(s, i, Delimiter(tag))
    ensures i < |s| && s[i] == '$' && DollarEnd(s, i) == i + |Delimiter(tag)|
    ensures s[i..i + |Delimiter(tag)|] == Delimiter(tag)
  {
    AtChar(s, i, Delimiter(tag), 0);
    DollarEndTag(s, i, tag, 0);
    AtSlice(s, i, Delimiter(tag));
  }

  lemma {:induction false} DollarTurn(s: string, i: nat, end: nat, close: nat)
    requires i < |s| && s[i] == '$' && i < end == DollarEnd(s, i) && Find(s, end, s[i..end]) == Found(close)
    ensures close + (end - i) <= |s| && Step(s, i) == Turn(close + (end - i), [Token(s[i..close + (end - i)], Literal)])
  {
  }

  lemma {:induction false} DollarPlaced(s: string, i: nat, tag: string, body: string)
    requires WellFormed(Dollar(tag, body)) && Stands(s, i, Print(Dollar(tag, body)))
    ensures var d := Delimiter(tag);
            var end := i + |d|;
            && end + |body| + |d| == i + |Print(Dollar(tag, body))|
            && s[i] == '$' && i < end == DollarEnd(s, i) && s[i..end] == d && Find(s, end, d) == Found(end + |body|)
  {
    var d := Delimiter(tag);
    AtConcat(s, i, d, body + d);
    DollarOpens(s, i, tag);
    DollarCloses(s, i + |d|, body, d);
  }

  lemma {:induction false} DollarStep(s: string, i: nat, tag: string, body: string)
    requires WellFormed(Dollar(tag, body)) && Stands(s, i, Print(Dollar(tag, body)))
    ensures Step(s, i) == Turn(i + |Print(Dollar(tag, body))|, [TokenOf(Dollar(tag, body))])
  {
    var n := |Delimiter(tag)|;
    DollarPlaced(s, i, tag, body);
    AtSlice(s, i, Print(Dollar(tag, body)));
    DollarTurn(s, i, i + n, i + n + |body|);
  }

  lemma {:induction false} QuotedStep(s: string, i: nat, q: char, name: string)
    requires WellFormed(Quoted(q, name)) && At(s, i, Print(Quoted(q, name)))
    requires var e := i + |Print(Quoted(q, name))|; e < |s| ==> s[e] != q
    ensures Step(s, i) == Turn(i + |Print(Quoted(q, name))|, [TokenOf(Quoted(q, name))])
  {
    AtConcat(s, i, [q], Doubled(q, name) + [q]);
    AtChar(s, i, [q], 0);
    QuotedAt(s, i + 1, q, name);
  }

  lemma {:induction false} SignStep(s: string, i: nat, op: string)
    requires WellFormed(Sign(op)) && Stands(s, i, op)
    ensures Step(s, i) == Turn(i + |op|, [Token(Upper(op), Operator)])
  {
    AtChar(s, i, op, 0);
    AtSlice(s, i, op);
    if |op| == 2 {
      AtChar(s, i, op, 1);
    } else {
      assert s[i..i + 2][1] == s[i + 1];
    }
  }

  lemma {:induction false} LexemeStep(s: string, i: nat, l: Lexeme)
    requires WellFormed(l) && Stands(s, i, Print(l))
    ensures Step(s, i) == Turn(i + |Print(l)|, [TokenOf(l)])
  {
    match l
    case Word(w) => WordStep(s, i, w);
    case Num(n) => NumberStep(s, i, n);
    case Text(t) => TextStep(s, i, t);
    case Dollar(tag, body) => DollarStep(s, i, tag, body);
    case Quoted(q, name) => QuotedStep(s, i, q, name);
    case Sign(op) => SignStep(s, i, op);
  }

  lemma {:induction false} LineEndAt(s: string, i: nat, e: nat)
    requires i <= e < |s| && (forall k :: i <= k < e ==> s[k] != '\n' && s[k] != '\r') && s[e] == '\n'
    ensures LineEnd(s, i) == e
    decreases e - i
  {
    if i < e { LineEndAt(s, i + 1, e); }
  }

  lemma {:induction false} BlockEndAt(s: string, i: nat, e: nat)
    requires i <= e && e + 1 < |s| && s[e] == '*' && s[e + 1] == '/'
    requires forall k :: i <= k < e ==> !(s[k] == '*' && s[k + 1] == '/')
    ensures BlockEnd(s, i) == e + 2
    decreases e - i
  {
    if i < e { BlockEndAt(s, i + 1, e); }
  }

  /** F(i) is what the scanner finds from position i on. */
  ghost predicate Reads(F: nat -> seq<Token>, s: string) {
    && F(|s|) == []
    && forall i: nat {:trigger Step(s, i)} :: i < |s| ==> F(i) == Step(s, i).tokens + F(Step(s, i).next)
  }

  function Scanning(s: string): nat -> seq<Token> {
    (i: nat) => if i <= |s| then Scan(s, i) else []
  }

  lemma {:induction false} ScanningReads(s: string)
    ensures Reads(Scanning(s), s)
  {
    forall i: nat | i < |s| ensures Scanning(s)(i) == Step(s, i).tokens + Scanning(s)(Step(s, i).next) {
    }
  }

  /** A turn that finds nothing, and one that finds a token. */
  lemma {:induction false} EmptyTurn(F: nat -> seq<Token>, s: string, i: nat, j: nat)
    requires Reads(F, s) && i < |s| && Step(s, i) == Turn(j, [])
    ensures F(i) == F(j)
  {
  }

  lemma {:induction false} TokenTurn(F: nat -> seq<Token>, s: string, i: nat, j: nat, t: Token)
    requires Reads(F, s) && i < |s| && Step(s, i) == Turn(j, [t])
    ensures F(i) == [t] + F(j)
  {
  }

  predicate OpensLine(s: string, i: nat, hash: bool) {
    if hash then i < |s| && s[i] == '#' else i + 1 < |s| && s[i] == '-' && s[i + 1] == '-'
  }

  lemma {:induction false} LineCommentEnds(s: string, i: nat, hash: bool, text: string)
    requires GapOk(LineComment(hash, text)) && At(s, i, PrintGap(LineComment(hash, text)))
    ensures var mark := if hash then 1 else 2;
            var e := i + mark + |text|;
            OpensLine(s, i, hash) && i + mark <= |s| && LineEnd(s, i + mark) == e && e < |s| && s[e] == '\n'
  {
    var mark := if hash then "#" else "--";
    AtConcat(s, i, mark, text + "\n");
    AtConcat(s, i + |mark|, text, "\n");
    AtChar(s, i, mark, 0);
    if !hash { AtChar(s, i, mark, 1); }
    var e := i + |mark| + |text|;
    AtChar(s, e, "\n", 0);
    forall k | i + |mark| <= k < e ensures s[k] != '\n' && s[k] != '\r' {
      AtChar(s, i + |mark|, text, k - i - |mark|);
    }
    LineEndAt(s, i + |mark|, e);
  }

  lemma {:induction false} LineCommentStep(s: string, i: nat, hash: bool)
    requires OpensLine(s, i, hash)
    ensures Step(s, i) == Turn(LineEnd(s, i + if hash then 1 else 2), [])
  {
  }

  lemma {:induction false} BlockCommentEnds(s: string, i: nat, text: string)
    requires GapOk(BlockComment(text)) && At(s, i, PrintGap(BlockComment(text)))
    ensures i + 1 < |s| && s[i] == '/' && s[i + 1] == '*' && BlockEnd(s, i + 2) == i + |text| + 4
  {
    AtConcat(s, i, "/*", text + "*/");
    AtConcat(s, i + 2, text, "*/");
    AtChar(s, i, "/*", 0);
    AtChar(s, i, "/*", 1);
    var e := i + 2 + |text|;
    AtChar(s, e, "*/", 0);
    AtChar(s, e, "*/", 1);
    NoEarlyEnd(s, i + 2, text);
    BlockEndAt(s, i + 2, e);
  }

  /** A text without the closing mark holds none in place either, not even with the star of the mark after it. */
  lemma {:induction false} NoEarlyEnd(s: string, i: nat, text: string)
    requires GapOk(BlockComment(text)) && At(s, i, text) && i + |text| < |s| && s[i + |text|] == '*'
    ensures forall k | i <= k < i + |text| :: !(s[k] == '*' && s[k + 1] == '/')
  {
    forall k | i <= k < i + |text| ensures !(s[k] == '*' && s[k + 1] == '/') {
      AtChar(s, i, text, k - i);
      if k + 1 < i + |text| {
        AtChar(s, i, text, k + 1 - i);
      }
    }
  }

  lemma {:induction false} BlockCommentStep(s: string, i: nat)
    requires i + 1 < |s| && s[i] == '/' && s[i + 1] == '*'
    ensures Step(s, i) == Turn(BlockEnd(s, i + 2), [])
  {
  }

  lemma {:induction false} BlankStep(s: string, i: nat)
    requires i < |s| && IsSqlSpace(s[i])
    ensures Step(s, i) == Turn(i + 1, [])
  {
  }

  lemma {:induction false} GapSkipped(F: nat -> seq<Token>, s: string, i: nat, g: Gap)
    requires Reads(F, s) && GapOk(g) && At(s, i, PrintGap(g))
    ensures F(i) == F(i + |PrintGap(g)|)
  {
    match g
    case Blank(c) =>
      AtChar(s, i, [c], 0);
      BlankStep(s, i);
      EmptyTurn(F, s, i, i + 1);
    case LineComment(hash, text) =>
      LineCommentEnds(s, i, hash, text);
      LineCommentStep(s, i, hash);
      var e := i + |PrintGap(g)| - 1;
      EmptyTurn(F, s, i, e);
      BlankStep(s, e);
      EmptyTurn(F, s, e, e + 1);
    case BlockComment(text) =>
      BlockCommentEnds(s, i, text);
      BlockCommentStep(s, i);
      EmptyTurn(F, s, i, i + |PrintGap(g)|);
  }

  /** Wherever x is printed, the scanner finds its tokens and goes on after it. */
  ghost predicate ReadsAs<T>(F: nat -> seq<Token>, s: string, show: T -> string, tokens: T -> seq<Token>, x: T) {
    forall i: nat {:trigger At(s, i, show(x))} :: At(s, i, show(x)) ==> F(i) == tokens(x) + F(i + |show(x)|)
  }

  lemma {:induction false} AllSplit<T>(s: string, i: nat, show: T -> string, xs: seq<T>)
    requires xs != [] && At(s, i, FlatMap(show, xs))
    ensures At(s, i, show(xs[0])) && At(s, i + |show(xs[0])|, FlatMap(show, xs[1..]))
    ensures |FlatMap(show, xs)| == |show(xs[0])| + |FlatMap(show, xs[1..])|
  {
    AtConcat(s, i, show(xs[0]), FlatMap(show, xs[1..]));
  }

  lemma {:induction false} AllRead<T>(F: nat -> seq<Token>, s: string, i: nat, show: T -> string,
                                      tokens: T -> seq<Token>, xs: seq<T>)
    requires forall k :: 0 <= k < |xs| ==> ReadsAs(F, s, show, tokens, xs[k])
    requires At(s, i, FlatMap(show, xs))
    ensures F(i) == FlatMap(tokens, xs) + F(i + |FlatMap(show, xs)|)
    decreases |xs|
  {
    if xs != [] {
      var j, rest := i + |show(xs[0])|, xs[1..];
      AllSplit(s, i, show, xs);
      assert ReadsAs(F, s, show, tokens, xs[0]);
      AllRead(F, s, j, show, tokens, rest);
      Regroup(tokens(xs[0]), FlatMap(tokens, rest), F(j + |FlatMap(show, rest)|));
    }
  }

  function NoTokens(g: Gap): seq<Token> {
    []
  }

  lemma {:induction false} GapsHaveNoTokens(gs: seq<Gap>)
    ensures FlatMap(NoTokens, gs) == []
    decreases |gs|
  {
    if gs != [] { GapsHaveNoTokens(gs[1..]); }
  }

  lemma {:induction false} GapReadsAs(F: nat -> seq<Token>, s: string, g: Gap)
    requires Reads(F, s) && GapOk(g)
    ensures ReadsAs(F, s, PrintGap, NoTokens, g)
  {
    forall i: nat | At(s, i, PrintGap(g)) ensures F(i) == NoTokens(g) + F(i + |PrintGap(g)|) {
      GapSkipped(F, s, i, g);
    }
  }

  lemma {:induction false} GapsSkipped(F: nat -> seq<Token>, s: string, i: nat, gs: seq<Gap>)
    requires Reads(F, s) && GapsOk(gs) && At(s, i, PrintGaps(gs))
    ensures F(i) == F(i + |PrintGaps(gs)|)
  {
    forall k | 0 <= k < |gs| ensures ReadsAs(F, s, PrintGap, NoTokens, gs[k]) {
      GapReadsAs(F, s, gs[k]);
    }
    AllRead(F, s, i, PrintGap, NoTokens, gs);
    GapsHaveNoTokens(gs);
  }

  lemma {:induction false} PrintNonEmpty(l: Lexeme)
    requires WellFormed(l)
    ensures Print(l) != ""
  {
  }

  /** A printed item: its lexeme with a blank right after it, and the rest of the separator. */
  lemma {:induction false} ItemStands(s: string, i: nat, it: Item)
    requires ItemOk(it) && At(s, i, PrintItem(it))
    ensures Stands(s, i, Print(it.lexeme)) && At(s, i + |Print(it.lexeme)|, PrintGaps(it.gaps))
  {
    var j := i + |Print(it.lexeme)|;
    AtConcat(s, i, Print(it.lexeme), PrintGaps(it.gaps));
    PrintNonEmpty(it.lexeme);
    assert GapOk(it.gaps[0]);
    AllSplit(s, j, PrintGap, it.gaps);
    AtChar(s, j, [it.gaps[0].c], 0);
  }

  lemma {:induction false} ItemRead(F: nat -> seq<Token>, s: string, i: nat, it: Item)
    requires Reads(F, s) && ItemOk(it) && At(s, i, PrintItem(it))
    ensures F(i) == [TokenOf(it.lexeme)] + F(i + |PrintItem(it)|)
  {
    var j := i + |Print(it.lexeme)|;
    ItemStands(s, i, it);
    LexemeStep(s, i, it.lexeme);
    TokenTurn(F, s, i, j, TokenOf(it.lexeme));
    GapsSkipped(F, s, j, it.gaps);
  }

  lemma {:induction false} ItemReadsAs(F: nat -> seq<Token>, s: string, it: Item)
    requires Reads(F, s) && ItemOk(it)
    ensures ReadsAs(F, s, PrintItem, TokensOfItem, it)
  {
    forall i: nat | At(s, i, PrintItem(it)) ensures F(i) == TokensOfItem(it) + F(i + |PrintItem(it)|) {
      ItemRead(F, s, i, it);
    }
  }

  lemma {:induction false} ItemsRead(F: nat -> seq<Token>, s: string, i: nat, items: seq<Item>)
    requires Reads(F, s) && ItemsOk(items) && At(s, i, PrintItems(items)) && i + |PrintItems(items)| == |s|
    ensures F(i) == Tokens(items)
  {
    forall k | 0 <= k < |items| ensures ReadsAs(F, s, PrintItem, TokensOfItem, items[k]) {
      ItemReadsAs(F, s, items[k]);
    }
    AllRead(F, s, i, PrintItem, TokensOfItem, items);
  }

  lemma {:induction false} AtStart(a: string, b: string)
    ensures At(a + b, 0, a) && At(a + b, |a|, b)
  {
    SliceAt(a + b, 0, a);
    SliceAt(a + b, |a|, b);
  }

  lemma {:induction false} PrintedRead(F: nat -> seq<Token>, s: string, lead: seq<Gap>, items: seq<Item>)
    requires Reads(F, s) && s == PrintGaps(lead) + PrintItems(items) && GapsOk(lead) && ItemsOk(items)
    ensures F(0) == Tokens(items)
  {
    AtStart(PrintGaps(lead), PrintItems(items));
    GapsSkipped(F, s, 0, lead);
    ItemsRead(F, s, |PrintGaps(lead)|, items);
  }

  /** Scanning undoes printing: comments and blanks vanish, and every lexeme comes back as its token. */
  lemma {:induction false} ScannerUndoesPrinter(lead: seq<Gap>, items: seq<Item>)
    requires GapsOk(lead) && ItemsOk(items)
    ensures Scan(PrintGaps(lead) + PrintItems(items), 0) == Tokens(items)
  {
    var s := PrintGaps(lead) + PrintItems(items);
    ScanningReads(s);
    PrintedRead(Scanning(s), s, lead, items);
    assert Scanning(s)(0) == Scan(s, 0);
  }
}
