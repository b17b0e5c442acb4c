/**
 Blanking comments and literals before keyword checks: maskSQL (internal/catalog/validate.go) and stripSQL
 (internal/dbconn/sqlguard.go). maskSQL also leaves double-quoted text alone, whatever it contains.
 */
module SqlMask {
  import opened Lists

  datatype Mode = Code | LineComment | BlockComment | Single | Double

  const NUL: char := 0 as char

  /** What one turn of the loop writes, and the mode it leaves behind. */
  datatype Turn = Turn(out: string, mode: Mode)

  function Next(s: string): char {
    if |s| > 1 then s[1] else NUL
  }

  /** One turn at character ch with look-ahead next; `doubles` tells whether double quotes open quoted text. */
  function Step(doubles: bool, m: Mode, ch: char, next: char): (t: Turn)
    ensures |t.out| == 1 || (|t.out| == 2 && next != NUL && t.out == "  ")
    ensures |t.out| == 1 ==> t.out == [ch] || t.out == " "
  {
    match m
    case LineComment => if ch == '\n' then Turn([ch], Code) else Turn(" ", m)
    case BlockComment => if ch == '*' && next == '/' then Turn("  ", Code) else Turn(" ", m)
    case Single =>
      if ch != '\'' then Turn(" ", m) else if next == '\'' then Turn("  ", m) else Turn(" ", Code)
    case Double => Turn([ch], if ch == '"' then Code else Double)
    case Code =>
      if ch == '-' && next == '-' then Turn("  ", LineComment)
      else if ch == '/' && next == '*' then Turn("  ", BlockComment)
      else if ch == '\'' then Turn(" ", Single)
      else Turn([ch], if doubles && ch == '"' then Double else Code)
  }

  /** The masked text, started in a mode. */
  function Masked(doubles: bool, m: Mode, s: string): (r: string)
    ensures |r| == |s|
    decreases |s|
  {
    if s == "" then "" else
    var t := Step(doubles, m, s[0], Next(s));
    t.out + Masked(doubles, t.mode, s[|t.out|..])
  }

  // ---------------------------------------------------------------- the loops

  /** The loop invariant: what is written is right so far, and the rest will be. */
  ghost predicate Masking(doubles: bool, sql: string, i: int, m: Mode, b: string) {
    0 <= i <= |sql| && b + Masked(doubles, m, sql[i..]) == Masked(doubles, Code, sql)
  }

  lemma {:induction false} MaskingStep(doubles: bool, sql: string, i: int, m: Mode, b: string)
    requires Masking(doubles, sql, i, m, b) && i < |sql|
    ensures var t := Step(doubles, m, sql[i], if i + 1 < |sql| then sql[i + 1] else NUL);
            Masking(doubles, sql, i + |t.out|, t.mode, b + t.out)
  {
    var rest := sql[i..];
    var t := Step(doubles, m, rest[0], Next(rest));
    assert rest[|t.out|..] == sql[i + |t.out|..];
    Regroup(b, t.out, Masked(doubles, t.mode, rest[|t.out|..]));
  }

  lemma {:induction false} MaskingStarts(doubles: bool, sql: string)
    ensures Masking(doubles, sql, 0, Code, "")
  {
    assert sql[0..] == sql;
    assert "" + Masked(doubles, Code, sql) == Masked(doubles, Code, sql);
  }

  lemma {:induction false} MaskingEnds(doubles: bool, sql: string, m: Mode, b: string)
    requires Masking(doubles, sql, |sql|, m, b)
    ensures b == Masked(doubles, Code, sql)
  {
    assert sql[|sql|..] == "" && b + "" == b;
  }

  function ModeOf(line: bool, block: bool, single: bool, double: bool): Mode {
    if line then LineComment else if block then BlockComment
    else if single then Single else if double then Double else Code
  }

  /** maskSQL: one pass with four mode flags. */
  method MaskSQL(sql: string) returns (b: string)
    ensures b == Masked(true, Code, sql)
  {
    b := "";
    var inSingle, inDouble, inLineComment, inBlockComment := false, false, false, false;
    var i := 0;
    MaskingStarts(true, sql);
    while i < |sql|
      invariant inLineComment ==> !inBlockComment && !inSingle && !inDouble
      invariant inBlockComment ==> !inSingle && !inDouble
      invariant inSingle ==> !inDouble
      invariant Masking(true, sql, i, ModeOf(inLineComment, inBlockComment, inSingle, inDouble), b)
    {
      var ch := sql[i];
      var next := if i + 1 < |sql| then sql[i + 1] else NUL;
      ghost var mode := ModeOf(inLineComment, inBlockComment, inSingle, inDouble);
      ghost var turn := Step(true, mode, ch, next);
      var piece := [ch];
      if inLineComment {
        if ch == '\n' {
          inLineComment := false;
        } else {
          piece := " ";
        }
      } else if inBlockComment {
        if ch == '*' && next == '/' {
          inBlockComment := false;
          piece := "  ";
        } else {
          piece := " ";
        }
      } else if inSingle {
        if ch == '\'' {
          if next == '\'' {
            piece := "  ";
          } else {
            inSingle := false;
            piece := " ";
          }
        } else {
          piece := " ";
        }
      } else if inDouble {
        if ch == '"' {
          inDouble := false;
        }
      } else if ch == '-' && next == '-' {
        inLineComment := true;
        piece := "  ";
      } else if ch == '/' && next == '*' {
        inBlockComment := true;
        piece := "  ";
      } else if ch == '\'' {
        inSingle := true;
        piece := " ";
      } else if ch == '"' {
        inDouble := true;
      }
      assert piece == turn.out && ModeOf(inLineComment, inBlockComment, inSingle, inDouble) == turn.mode;
      MaskingStep(true, sql, i, mode, b);
      b := b + piece;
      i := i + |piece|;
    }
    MaskingEnds(true, sql, ModeOf(inLineComment, inBlockComment, inSingle, inDouble), b);
  }

  /** stripSQL: the same pass without a mode for double quotes. */
  method StripSQL(sql: string) returns (b: string)
    ensures b == Masked(false, Code, sql)
  {
    b := "";
    var inSingle, inLine, inBlock := false, false, false;
    var i := 0;
    MaskingStarts(false, sql);
    while i < |sql|
      invariant inLine ==> !inBlock && !inSingle
      invariant inBlock ==> !inSingle
      invariant Masking(false, sql, i, ModeOf(inLine, inBlock, inSingle, false), b)
    {
      var ch := sql[i];
      var next := if i + 1 < |sql| then sql[i + 1] else NUL;
      ghost var mode := ModeOf(inLine, inBlock, inSingle, false);
      ghost var turn := Step(false, mode, ch, next);
      var piece := [ch];
      if inLine {
        if ch == '\n' {
          inLine := false;
        } else {
          piece := " ";
        }
      } else if inBlock {
        if ch == '*' && next == '/' {
          inBlock := false;
          piece := "  ";
        } else {
          piece := " ";
        }
      } else if inSingle {
        if ch == '\'' {
          if next == '\'' {
            piece := "  ";
          } else {
            inSingle := false;
            piece := " ";
          }
        } else {
          piece := " ";
        }
      } else if ch == '-' && next == '-' {
        inLine := true;
        piece := "  ";
      } else if ch == '/' && next == '*' {
        inBlock := true;
        piece := "  ";
      } else if ch == '\'' {
        inSingle := true;
        piece := " ";
      }
      assert piece == turn.out && ModeOf(inLine, inBlock, inSingle, false) == turn.mode;
      MaskingStep(false, sql, i, mode, b);
      b := b + piece;
      i := i + |piece|;
    }
    MaskingEnds(false, sql, ModeOf(inLine, inBlock, inSingle, false), b);
  }

  // ---------------------------------------------------------------- properties

  /** Length is kept and every output character is the input character or a blank. */
  lemma {:induction false} MaskedPointwise(doubles: bool, m: Mode, s: string, i: nat)
    requires i < |s|
    ensures Masked(doubles, m, s)[i] == s[i] || Masked(doubles, m, s)[i] == ' '
    decreases |s|
  {
    var t := Step(doubles, m, s[0], Next(s));
    if i >= |t.out| {
      MaskedPointwise(doubles, t.mode, s[|t.out|..], i - |t.out|);
    }
  }

  function Head(s: string): char {
    if s == "" then NUL else s[0]
  }

  /** One turn, on a text given by its first character and the rest. */
  lemma {:induction false} Unfold(doubles: bool, m: Mode, c: char, r: string)
    ensures var t := Step(doubles, m, c, Head(r));
            Masked(doubles, m, [c] + r) == t.out + Masked(doubles, t.mode, if |t.out| == 1 then r else r[1..])
  {
    var s := [c] + r;
    assert s[0] == c && Next(s) == Head(r) && s[1..] == r;
    assert r != "" ==> s[2..] == r[1..];
  }

  /** A turn that takes two characters. */
  lemma {:induction false} UnfoldTwo(doubles: bool, m: Mode, c: char, n: char, r: string)
    requires |Step(doubles, m, c, n).out| == 2
    ensures Masked(doubles, m, [c] + ([n] + r)) == "  " + Masked(doubles, Step(doubles, m, c, n).mode, r)
  {
    Unfold(doubles, m, c, [n] + r);
    assert ([n] + r)[1..] == r;
  }

  lemma {:induction false} StepsAgree(m: Mode, c: char, next: char)
    requires c != '"' && m != Double
    ensures Step(true, m, c, next) == Step(false, m, c, next) && Step(true, m, c, next).mode != Double
  {
  }

  /** Both masks are the same on text without double quotes. */
  lemma {:induction false} MasksAgree(m: Mode, s: string)
    requires '"' !in s && m != Double
    ensures Masked(true, m, s) == Masked(false, m, s)
    decreases |s|
  {
    if s != "" {
      var c, r := s[0], s[1..];
      assert s == [c] + r;
      Unfold(true, m, c, r);
      Unfold(false, m, c, r);
      var t := Step(true, m, c, Head(r));
      StepsAgree(m, c, Head(r));
      MasksAgree(t.mode, if |t.out| == 1 then r else r[1..]);
    }
  }

  /** Reading masked text again: double-quoted text is still that, everything else is code. */
  function Again(m: Mode): Mode { if m == Double then Double else Code }

  /** Blanks in front of code are kept. */
  lemma {:induction false} BlankInFront(doubles: bool, r: string)
    ensures Masked(doubles, Code, " " + r) == " " + Masked(doubles, Code, r)
  {
    Unfold(doubles, Code, ' ', r);
  }

  lemma {:induction false} TwoBlanksInFront(doubles: bool, r: string)
    ensures Masked(doubles, Code, "  " + r) == "  " + Masked(doubles, Code, r)
  {
    Regroup(" ", " ", r);
    Regroup(" ", " ", Masked(doubles, Code, r));
    assert " " + " " == "  ";
    BlankInFront(doubles, " " + r);
    BlankInFront(doubles, r);
  }

  /** A character that was copied is copied again: what follows it is unchanged or blank. */
  lemma {:induction false} CopiedAgain(doubles: bool, m: Mode, c: char, next: char, next': char, tail: string)
    requires Step(doubles, m, c, next).out == [c] && (next' == next || next' == ' ') && Head(tail) == next'
    ensures var t := Step(doubles, m, c, next);
            Masked(doubles, Again(m), [c] + tail) == [c] + Masked(doubles, Again(t.mode), tail)
  {
    var t := Step(doubles, m, c, next);
    if c == ' ' && m != Double {
      BlankInFront(doubles, tail);
    } else {
      assert Step(doubles, Again(m), c, next') == Turn([c], Again(t.mode));
      Unfold(doubles, Again(m), c, tail);
    }
  }

  lemma {:induction false} BlankingTurns(doubles: bool, m: Mode, c: char, next: char)
    ensures var t := Step(doubles, m, c, next);
            t.out != [c] ==> Again(m) == Code && Again(t.mode) == Code && (t.out == " " || t.out == "  ")
  {
  }

  /** What one turn wrote is read back unchanged in front of text that is. */
  lemma {:induction false} TurnAgain(doubles: bool, m: Mode, c: char, next: char, t: Turn, tail: string)
    requires t == Step(doubles, m, c, next)
    requires Masked(doubles, Again(t.mode), tail) == tail
    requires |t.out| == 1 ==> Head(tail) == next || Head(tail) == ' '
    ensures Masked(doubles, Again(m), t.out + tail) == t.out + tail
  {
    BlankingTurns(doubles, m, c, next);
    if t.out == [c] {
      CopiedAgain(doubles, m, c, next, Head(tail), tail);
    } else if t.out == " " {
      BlankInFront(doubles, tail);
    } else {
      TwoBlanksInFront(doubles, tail);
    }
  }

  /** One turn of a mask: what it writes, what it leaves, and how the result goes on. */
  lemma {:induction false} MaskedTurn(doubles: bool, m: Mode, s: string) returns (next: char, rest: string)
    requires s != ""
    ensures |rest| < |s|
    ensures var t := Step(doubles, m, s[0], next);
            && Masked(doubles, m, s) == t.out + Masked(doubles, t.mode, rest)
            && (|t.out| == 1 ==> Head(Masked(doubles, t.mode, rest)) in {next, ' '})
  {
    var r := s[1..];
    assert s == [s[0]] + r;
    Unfold(doubles, m, s[0], r);
    next := Head(r);
    var t := Step(doubles, m, s[0], next);
    rest := if |t.out| == 1 then r else r[1..];
    if rest != "" { MaskedPointwise(doubles, t.mode, rest, 0); }
  }

  /** Masking masked text changes nothing. */
  lemma {:induction false} MaskIdempotent(doubles: bool, m: Mode, s: string)
    ensures Masked(doubles, Again(m), Masked(doubles, m, s)) == Masked(doubles, m, s)
    decreases |s|
  {
    if s != "" {
      var next, rest := MaskedTurn(doubles, m, s);
      var t := Step(doubles, m, s[0], next);
      MaskIdempotent(doubles, t.mode, rest);
      TurnAgain(doubles, m, s[0], next, t, Masked(doubles, t.mode, rest));
    }
  }

  // ---------------------------------------------------------------- lexical structure

  /** Pieces of SQL text: a code character, a terminated comment or literal, or double-quoted text. */
  datatype Piece =
    | Plain(c: char)
    | Line(body: string)
    | Block(body: string)
    | Literal(body: string)
    | Quoted(body: string)

  /** What may be left open at the end of a text. */
  datatype Tail =
    | Finished
    | OpenLine(rest: string)
    | OpenBlock(rest: string)
    | OpenLiteral(rest: string)
    | OpenQuoted(rest: string)

  function DoubleQuotes(s: string): string {
    if s == "" then "" else (if s[0] == '\'' then "''" else [s[0]]) + DoubleQuotes(s[1..])
  }

  function Print(p: Piece): string {
    match p
    case Plain(c) => [c]
    case Line(body) => "--" + (body + "\n")
    case Block(body) => "/*" + (body + "*/")
    case Literal(body) => "'" + (DoubleQuotes(body) + "'")
    case Quoted(body) => "\"" + (body + "\"")
  }

  function PrintTail(e: Tail): string {
    match e
    case Finished => ""
    case OpenLine(rest) => "--" + rest
    case OpenBlock(rest) => "/*" + rest
    case OpenLiteral(rest) => "'" + DoubleQuotes(rest)
    case OpenQuoted(rest) => "\"" + rest
  }

  function PrintAll(ps: seq<Piece>, e: Tail): string {
    FlatMap(Print, ps) + PrintTail(e)
  }

  function Blanks(n: nat): string { seq(n, _ => ' ') }

  /** What should be left of a piece. */
  function Kept(p: Piece): string {
    match p
    case Plain(c) => [c]
    case Line(body) => Blanks(2 + |body|) + "\n"
    case Block(body) => Blanks(|body| + 4)
    case Literal(body) => Blanks(|DoubleQuotes(body)| + 2)
    case Quoted(body) => Print(p)
  }

  function KeptTail(e: Tail): string {
    match e
    case OpenLine(_) => Blanks(|PrintTail(e)|)
    case OpenBlock(_) => Blanks(|PrintTail(e)|)
    case OpenLiteral(_) => Blanks(|PrintTail(e)|)
    case _ => PrintTail(e)
  }

  function KeptAll(ps: seq<Piece>, e: Tail): string {
    FlatMap(Kept, ps) + KeptTail(e)
  }

  predicate NoBlockEnd(body: string) {
    forall i :: 0 <= i < |body| - 1 ==> !(body[i] == '*' && body[i + 1] == '/')
  }

  /** A piece that is read back as itself when `after` follows it. Where double quotes mean nothing they are code. */
  predicate ReadsAlone(doubles: bool, p: Piece, after: char) {
    match p
    case Plain(c) => c != '\'' && (doubles ==> c != '"') && !(c == '-' && after == '-') && !(c == '/' && after == '*')
    case Line(body) => '\n' !in body
    case Block(body) => NoBlockEnd(body)
    case Literal(body) => after != '\''
    case Quoted(body) => doubles && '"' !in body
  }

  predicate StaysOpen(doubles: bool, e: Tail) {
    match e
    case Finished => true
    case OpenLine(rest) => '\n' !in rest
    case OpenBlock(rest) => NoBlockEnd(rest)
    case OpenLiteral(_) => true
    case OpenQuoted(rest) => doubles && '"' !in rest
  }

  predicate Lexed(doubles: bool, ps: seq<Piece>, e: Tail) {
    if ps == [] then StaysOpen(doubles, e)
    else ReadsAlone(doubles, ps[0], Head(PrintAll(ps[1..], e))) && Lexed(doubles, ps[1..], e)
  }

  lemma {:induction false} BlankMore(n: nat)
    ensures " " + Blanks(n) == Blanks(n + 1)
  {
  }

  lemma {:induction false} Opened(open: string, body: string, close: string, rest: string)
    ensures open + (body + (close + rest)) == (open + (body + close)) + rest
  {
    Regroup(open, body + close, rest);
    Regroup(body, close, rest);
  }

  lemma {:induction false} LineMasked(doubles: bool, body: string, rest: string)
    requires '\n' !in body
    ensures Masked(doubles, LineComment, body + ("\n" + rest)) == Blanks(|body|) + ("\n" + Masked(doubles, Code, rest))
  {
    if body == "" {
      assert body + ("\n" + rest) == ['\n'] + rest;
      Unfold(doubles, LineComment, '\n', rest);
    } else {
      var more := body[1..] + ("\n" + rest);
      StepInside(doubles, LineComment, body, "\n" + rest, more);
      LineMasked(doubles, body[1..], rest);
      BlankBefore(|body| - 1, "\n" + Masked(doubles, Code, rest));
    }
  }

  lemma {:induction false} BlockMasked(doubles: bool, body: string, rest: string)
    requires NoBlockEnd(body)
    ensures Masked(doubles, BlockComment, body + ("*/" + rest)) == Blanks(|body| + 2) + Masked(doubles, Code, rest)
  {
    if body == "" {
      assert body + ("*/" + rest) == ['*'] + (['/'] + rest);
      UnfoldTwo(doubles, BlockComment, '*', '/', rest);
      assert Blanks(2) == "  ";
    } else {
      var more := body[1..] + ("*/" + rest);
      assert Head(more) == if |body| > 1 then body[1] else '*';
      StepInside(doubles, BlockComment, body, "*/" + rest, more);
      BlockMasked(doubles, body[1..], rest);
      BlankBefore(|body| + 1, Masked(doubles, Code, rest));
    }
  }

  /** One blanked character of a comment or literal. */
  lemma {:induction false} StepInside(doubles: bool, m: Mode, body: string, closing: string, more: string)
    requires body != "" && more == body[1..] + closing && Step(doubles, m, body[0], Head(more)) == Turn(" ", m)
    ensures Masked(doubles, m, body + closing) == " " + Masked(doubles, m, more)
  {
    assert body + closing == [body[0]] + more;
    Unfold(doubles, m, body[0], more);
  }

  lemma {:induction false} BlankBefore(n: nat, r: string)
    ensures " " + (Blanks(n) + r) == Blanks(n + 1) + r
    ensures "  " + (Blanks(n) + r) == Blanks(n + 2) + r
  {
  }

  /** One character of a literal: a quote comes doubled and blanks to two. */
  lemma {:induction false} LiteralStep(doubles: bool, body: string, closing: string)
    requires body != ""
    ensures var more := DoubleQuotes(body[1..]) + closing;
            Masked(doubles, Single, DoubleQuotes(body) + closing) ==
            (if body[0] == '\'' then "  " else " ") + Masked(doubles, Single, more)
  {
    var more := DoubleQuotes(body[1..]) + closing;
    if body[0] == '\'' {
      assert DoubleQuotes(body) + closing == ['\''] + (['\''] + more);
      UnfoldTwo(doubles, Single, '\'', '\'', more);
    } else {
      assert DoubleQuotes(body) + closing == [body[0]] + more;
      Unfold(doubles, Single, body[0], more);
    }
  }

  lemma {:induction false} LiteralMasked(doubles: bool, body: string, rest: string)
    requires Head(rest) != '\''
    ensures Masked(doubles, Single, DoubleQuotes(body) + ("'" + rest)) ==
            Blanks(|DoubleQuotes(body)| + 1) + Masked(doubles, Code, rest)
  {
    if body == "" {
      assert DoubleQuotes(body) + ("'" + rest) == ['\''] + rest;
      Unfold(doubles, Single, '\'', rest);
      assert Blanks(1) == " ";
    } else {
      var more := DoubleQuotes(body[1..]) + ("'" + rest);
      LiteralMasked(doubles, body[1..], rest);
      BlankBefore(|DoubleQuotes(body[1..])| + 1, Masked(doubles, Code, rest));
      LiteralStep(doubles, body, "'" + rest);
    }
  }

  lemma {:induction false} QuotedMasked(body: string, rest: string)
    requires '"' !in body
    ensures Masked(true, Double, body + "\"" + rest) == body + "\"" + Masked(true, Code, rest)
  {
    if body == "" {
      assert body + "\"" + rest == ['"'] + rest;
      Unfold(true, Double, '"', rest);
    } else {
      var more := body[1..] + "\"" + rest;
      assert body + "\"" + rest == [body[0]] + more;
      Unfold(true, Double, body[0], more);
      QuotedMasked(body[1..], rest);
      assert [body[0]] + body[1..] == body;
    }
  }

  lemma {:induction false} LinePieceMasked(doubles: bool, body: string, rest: string)
    requires '\n' !in body
    ensures Masked(doubles, Code, Print(Line(body)) + rest) == Kept(Line(body)) + Masked(doubles, Code, rest)
  {
    var more, code := body + ("\n" + rest), Masked(doubles, Code, rest);
    Opened("--", body, "\n", rest);
    assert "--" + more == ['-'] + (['-'] + more);
    UnfoldTwo(doubles, Code, '-', '-', more);
    LineMasked(doubles, body, rest);
    BlankBefore(|body|, "\n" + code);
    Regroup(Blanks(|body| + 2), "\n", code);
  }

  lemma {:induction false} BlockPieceMasked(doubles: bool, body: string, rest: string)
    requires NoBlockEnd(body)
    ensures Masked(doubles, Code, Print(Block(body)) + rest) == Kept(Block(body)) + Masked(doubles, Code, rest)
  {
    var more := body + ("*/" + rest);
    assert Print(Block(body)) + rest == ['/'] + (['*'] + more);
    UnfoldTwo(doubles, Code, '/', '*', more);
    BlockMasked(doubles, body, rest);
    BlankBefore(|body| + 2, Masked(doubles, Code, rest));
  }

  lemma {:induction false} LiteralPieceMasked(doubles: bool, body: string, rest: string)
    requires Head(rest) != '\''
    ensures Masked(doubles, Code, Print(Literal(body)) + rest) == Kept(Literal(body)) + Masked(doubles, Code, rest)
  {
    var more := DoubleQuotes(body) + ("'" + rest);
    assert Print(Literal(body)) + rest == ['\''] + more;
    Unfold(doubles, Code, '\'', more);
    LiteralMasked(doubles, body, rest);
    BlankBefore(|DoubleQuotes(body)| + 1, Masked(doubles, Code, rest));
  }

  lemma {:induction false} QuotedPieceMasked(body: string, rest: string)
    requires '"' !in body
    ensures Masked(true, Code, Print(Quoted(body)) + rest) == Kept(Quoted(body)) + Masked(true, Code, rest)
  {
    Between('"', body, rest);
    Between('"', body, Masked(true, Code, rest));
    Unfold(true, Code, '"', body + "\"" + rest);
    QuotedMasked(body, rest);
  }

  lemma {:induction false} Between(q: char, body: string, r: string)
    ensures ([q] + (body + [q])) + r == [q] + (body + [q] + r)
  {
  }

  /** Comments and literals vanish, line breaks that end comments, double-quoted text and code stay. */

  lemma {:induction false} PieceMasked(doubles: bool, p: Piece, rest: string)
    requires ReadsAlone(doubles, p, Head(rest))
    ensures Masked(doubles, Code, Print(p) + rest) == Kept(p) + Masked(doubles, Code, rest)
  {
    match p
    case Plain(c) => Unfold(doubles, Code, c, rest);
    case Line(body) => LinePieceMasked(doubles, body, rest);
    case Block(body) => BlockPieceMasked(doubles, body, rest);
    case Literal(body) => LiteralPieceMasked(doubles, body, rest);
    case Quoted(body) => QuotedPieceMasked(body, rest);
  }

  // ---------------------------------------------------------------- what is left open

  lemma {:induction false} OpenLineMasked(doubles: bool, body: string)
    requires '\n' !in body
    ensures Masked(doubles, LineComment, body) == Blanks(|body|)
  {
    if body != "" {
      OpenLineMasked(doubles, body[1..]);
      BlankMore(|body| - 1);
    }
  }

  lemma {:induction false} OpenBlockMasked(doubles: bool, body: string)
    requires NoBlockEnd(body)
    ensures Masked(doubles, BlockComment, body) == Blanks(|body|)
  {
    if body != "" {
      OpenBlockMasked(doubles, body[1..]);
      BlankMore(|body| - 1);
    }
  }

  lemma {:induction false} OpenLiteralMasked(doubles: bool, body: string)
    ensures Masked(doubles, Single, DoubleQuotes(body)) == Blanks(|DoubleQuotes(body)|)
  {
    if body != "" {
      OpenLiteralMasked(doubles, body[1..]);
      LiteralStep(doubles, body, "");
      assert DoubleQuotes(body) + "" == DoubleQuotes(body) && DoubleQuotes(body[1..]) + "" == DoubleQuotes(body[1..]);
      BlankBefore(|DoubleQuotes(body[1..])|, "");
    }
  }

  lemma {:induction false} OpenQuotedMasked(body: string)
    requires '"' !in body
    ensures Masked(true, Double, body) == body
  {
    if body != "" { OpenQuotedMasked(body[1..]); }
  }

  /** The two characters that open a comment blank with what follows. */
  lemma {:induction false} OpenComment(doubles: bool, m: Mode, c: char, n: char, rest: string)
    requires Step(doubles, Code, c, n) == Turn("  ", m) && Masked(doubles, m, rest) == Blanks(|rest|)
    ensures Masked(doubles, Code, [c, n] + rest) == Blanks(|rest| + 2)
  {
    assert [c, n] + rest == [c] + ([n] + rest);
    UnfoldTwo(doubles, Code, c, n, rest);
    assert "  " + Blanks(|rest|) == Blanks(|rest| + 2);
  }

  lemma {:induction false} OpenLiteralPiece(doubles: bool, rest: string)
    ensures Masked(doubles, Code, "'" + DoubleQuotes(rest)) == Blanks(|DoubleQuotes(rest)| + 1)
  {
    assert "'" + DoubleQuotes(rest) == ['\''] + DoubleQuotes(rest);
    Unfold(doubles, Code, '\'', DoubleQuotes(rest));
    OpenLiteralMasked(doubles, rest);
    BlankMore(|DoubleQuotes(rest)|);
  }

  lemma {:induction false} OpenQuotedPiece(rest: string)
    requires '"' !in rest
    ensures Masked(true, Code, "\"" + rest) == "\"" + rest
  {
    assert "\"" + rest == ['"'] + rest;
    Unfold(true, Code, '"', rest);
    OpenQuotedMasked(rest);
  }

  lemma {:induction false} TailMasked(doubles: bool, e: Tail)
    requires StaysOpen(doubles, e)
    ensures Masked(doubles, Code, PrintTail(e)) == KeptTail(e)
  {
    hide Masked;
    match e
    case Finished => MaskedEmpty(doubles);
    case OpenLine(rest) =>
      OpenLineMasked(doubles, rest);
      OpenComment(doubles, LineComment, '-', '-', rest);
    case OpenBlock(rest) =>
      OpenBlockMasked(doubles, rest);
      OpenComment(doubles, BlockComment, '/', '*', rest);
    case OpenLiteral(rest) => OpenLiteralPiece(doubles, rest);
    case OpenQuoted(rest) => OpenQuotedPiece(rest);
  }

  lemma {:induction false} MaskedEmpty(doubles: bool)
    ensures Masked(doubles, Code, "") == ""
  {
  }

  /** Comments and literals vanish, also one left open at the end; line breaks that end comments, double-quoted text
      and code stay. */
  lemma {:induction false} PiecesMasked(doubles: bool, ps: seq<Piece>, e: Tail)
    requires Lexed(doubles, ps, e)
    ensures Masked(doubles, Code, PrintAll(ps, e)) == KeptAll(ps, e)
  {
    if ps == [] {
      TailMasked(doubles, e);
      assert PrintAll(ps, e) == PrintTail(e) && KeptAll(ps, e) == KeptTail(e);
    } else {
      PieceMasked(doubles, ps[0], PrintAll(ps[1..], e));
      PiecesMasked(doubles, ps[1..], e);
      Regroup(Print(ps[0]), FlatMap(Print, ps[1..]), PrintTail(e));
      Regroup(Kept(ps[0]), FlatMap(Kept, ps[1..]), KeptTail(e));
    }
  }

  // ---------------------------------------------------------------- every text is such pieces

  lemma {:induction false} FirstChar(t: string, c: char) returns (k: nat)
    ensures k <= |t| && c !in t[..k] && (k < |t| ==> t[k] == c)
  {
    if t == "" || t[0] == c {
      k := 0;
    } else {
      k := FirstChar(t[1..], c);
      assert t[..k + 1] == [t[0]] + t[1..][..k];
      k := k + 1;
    }
  }

  lemma {:induction false} FirstBlockEnd(t: string) returns (k: nat)
    ensures k <= |t| && NoBlockEnd(t[..k]) && (k < |t| ==> k + 1 < |t| && t[k] == '*' && t[k + 1] == '/')
  {
    if t == "" || (|t| > 1 && t[0] == '*' && t[1] == '/') {
      k := 0;
    } else {
      var rest := FirstBlockEnd(t[1..]);
      k := rest + 1;
      forall i | 0 <= i < k - 1 ensures !(t[i] == '*' && t[i + 1] == '/') {
        if i > 0 {
          assert t[1..][..rest][i - 1] == t[i];
          assert i < rest && t[1..][..rest][i] == t[i + 1];
        }
      }
    }
  }

  /** What follows an opening quote: a literal's text, and either the rest after its closing quote or the end. */
  lemma {:induction false} ReadLiteral(t: string) returns (body: string, closed: bool, rest: string)
    ensures closed ==> t == DoubleQuotes(body) + ("'" + rest) && Head(rest) != '\''
    ensures !closed ==> t == DoubleQuotes(body)
  {
    if t == "" {
      body, closed, rest := "", false, "";
    } else if t[0] != '\'' {
      body, closed, rest := ReadLiteral(t[1..]);
      assert t == [t[0]] + t[1..];
      body := [t[0]] + body;
      assert body[1..] == body[1..];
    } else if Head(t[1..]) == '\'' {
      body, closed, rest := ReadLiteral(t[2..]);
      assert t == "''" + t[2..];
      body := "'" + body;
    } else {
      body, closed, rest := "", true, t[1..];
      assert t == "'" + rest && DoubleQuotes("") + ("'" + rest) == "'" + rest;
    }
  }

  lemma {:induction false} Prepend(doubles: bool, p: Piece, ps: seq<Piece>, e: Tail)
    requires Lexed(doubles, ps, e) && ReadsAlone(doubles, p, Head(PrintAll(ps, e)))
    ensures Lexed(doubles, [p] + ps, e) && PrintAll([p] + ps, e) == Print(p) + PrintAll(ps, e)
  {
    assert ([p] + ps)[1..] == ps;
    Regroup(Print(p), FlatMap(Print, ps), PrintTail(e));
  }

  /** The first piece of a text, and what is left after it; or the text is all tail. */
  lemma {:induction false} FirstPiece(doubles: bool, s: string) returns (p: Piece, rest: string, done: bool, e: Tail)
    requires s != ""
    ensures done ==> StaysOpen(doubles, e) && PrintTail(e) == s
    ensures !done ==> s == Print(p) + rest && ReadsAlone(doubles, p, Head(rest)) && |rest| < |s|
  {
    p, rest, done, e := Plain(s[0]), s[1..], false, Finished;
    if s[0] == '-' && Head(rest) == '-' {
      p, rest, done, e := FirstLine(s);
    } else if s[0] == '/' && Head(rest) == '*' {
      p, rest, done, e := FirstBlock(s);
    } else if s[0] == '\'' {
      var body, closed, after := ReadLiteral(s[1..]);
      assert s == "'" + s[1..];
      if closed {
        p, rest := Literal(body), after;
        Opened("'", DoubleQuotes(body), "'", after);
      } else {
        done, e := true, OpenLiteral(body);
      }
    } else if doubles && s[0] == '"' {
      p, rest, done, e := FirstQuoted(s);
    }
  }

  lemma {:induction false} FirstLine(s: string) returns (p: Piece, rest: string, done: bool, e: Tail)
    requires |s| >= 2 && s[0] == s[1] == '-'
    ensures done ==> StaysOpen(true, e) && e.OpenLine? && PrintTail(e) == s
    ensures !done ==> p.Line? && s == Print(p) + rest && ReadsAlone(true, p, Head(rest)) && |rest| < |s|
  {
    hide DoubleQuotes, FlatMap;
    var t := s[2..];
    var k := FirstChar(t, '\n');
    assert s == "--" + t;
    p, rest, done, e := Line(t[..k]), t[k..], k == |t|, OpenLine(t);
    if done {
      assert t[..k] == t;
    } else {
      rest := t[k + 1..];
      assert t == t[..k] + ("\n" + rest);
      Opened("--", t[..k], "\n", rest);
    }
  }

  lemma {:induction false} FirstBlock(s: string) returns (p: Piece, rest: string, done: bool, e: Tail)
    requires |s| >= 2 && s[0] == '/' && s[1] == '*'
    ensures done ==> StaysOpen(true, e) && e.OpenBlock? && PrintTail(e) == s
    ensures !done ==> p.Block? && s == Print(p) + rest && ReadsAlone(true, p, Head(rest)) && |rest| < |s|
  {
    hide DoubleQuotes, FlatMap;
    var t := s[2..];
    var k := FirstBlockEnd(t);
    assert s == "/*" + t;
    p, rest, done, e := Block(t[..k]), t[k..], k == |t|, OpenBlock(t);
    if done {
      assert t[..k] == t;
    } else {
      rest := t[k + 2..];
      assert t == t[..k] + ("*/" + rest);
      Opened("/*", t[..k], "*/", rest);
    }
  }

  lemma {:induction false} FirstQuoted(s: string) returns (p: Piece, rest: string, done: bool, e: Tail)
    requires s != "" && s[0] == '"'
    ensures done ==> StaysOpen(true, e) && PrintTail(e) == s
    ensures !done ==> s == Print(p) + rest && ReadsAlone(true, p, Head(rest)) && |rest| < |s|
  {
    hide DoubleQuotes, FlatMap;
    var t := s[1..];
    var k := FirstChar(t, '"');
    assert s == "\"" + t;
    p, rest, done, e := Quoted(t[..k]), t[k..], k == |t|, OpenQuoted(t);
    if done {
      assert t[..k] == t;
    } else {
      rest := t[k + 1..];
      assert t == t[..k] + ("\"" + rest);
      Opened("\"", t[..k], "\"", rest);
    }
  }

  /** Every text is made of pieces, the last perhaps left open. */
  lemma {:induction false} EveryTextLexes(doubles: bool, s: string) returns (ps: seq<Piece>, e: Tail)
    ensures Lexed(doubles, ps, e) && PrintAll(ps, e) == s
    decreases |s|
  {
    ps, e := [], Finished;
    if s != "" {
      var p, rest, done, open := FirstPiece(doubles, s);
      if done {
        e := open;
        assert "" + PrintTail(e) == s;
      } else {
        ps, e := EveryTextLexes(doubles, rest);
        Prepend(doubles, p, ps, e);
        ps := [p] + ps;
      }
    }
  }
}
