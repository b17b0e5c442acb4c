/**
 Quoting identifiers and literals for generated statements (internal/mcp/dbatools.go), and how the token
 scanner reads the result. The quoting rules are sections 5.2 and 5.3 of ISO/IEC 9075:1992.
 */
module SqlQuoting {
  import opened Text
  import opened PredicateTokens

  datatype QuoteResult = Quote(text: string) | Empty | IllegalCharacter

  const NUL: char := 0 as char

  function QuoteIdent(dialect: string, name: string): QuoteResult {
    var trimmed := TrimSpace(name);
    if trimmed == "" then Empty
    else if NUL in trimmed || '\n' in trimmed || '\r' in trimmed then IllegalCharacter
    else if dialect == "mysql" || dialect == "mariadb" then Quote("`" + (Doubled('`', trimmed) + "`"))
    else Quote("\"" + (Doubled('"', trimmed) + "\""))
  }

  function QuoteLiteral(s: string): string {
    "'" + (Doubled('\'', s) + "'")
  }

  lemma {:induction false} WholeAt(s: string)
    ensures At(s, 0, s)
  {
    SliceAt(s, 0, s);
  }

  /** Whatever the name holds, its quoted form is one identifier token carrying that name. */
  lemma {:induction false} QuotedIdentifierIsOneToken(dialect: string, name: string)
    requires QuoteIdent(dialect, name).Quote?
    ensures Scan(QuoteIdent(dialect, name).text, 0) == [Token(Upper(TrimSpace(name)), Identifier)]
  {
    var out := QuoteIdent(dialect, name).text;
    var q := if dialect == "mysql" || dialect == "mariadb" then '`' else '"';
    assert out == Print(Quoted(q, TrimSpace(name)));
    WholeAt(out);
    QuotedStep(out, 0, q, TrimSpace(name));
  }

  predicate AllQuotes(s: string) {
    forall k :: 0 <= k < |s| ==> s[k] == '\''
  }

  /** No backslash eats the first of a doubled quote with more than quotes behind it; backslashes pair up
      from the left with the character after them. */
  predicate SafeLiteral(s: string)
    decreases |s|
  {
    if s == "" then true
    else if s[0] != '\\' then SafeLiteral(s[1..])
    else if |s| == 1 then true
    else if s[1] == '\'' then AllQuotes(s[2..])
    else SafeLiteral(s[2..])
  }

  /** The rest of a quoted literal, at position i of a text that ends with it. */
  predicate BodyAt(o: string, i: nat, s: string) {
    At(o, i, Doubled('\'', s) + "'") && i + |Doubled('\'', s)| + 1 == |o|
  }

  lemma {:induction false} BodyNext(o: string, i: nat, s: string)
    requires s != "" && BodyAt(o, i, s)
    ensures o[i] == s[0]
    ensures if s[0] == '\'' then i + 1 < |o| && o[i + 1] == '\'' && BodyAt(o, i + 2, s[1..])
            else BodyAt(o, i + 1, s[1..])
  {
    var rest := Doubled('\'', s[1..]) + "'";
    var first := if s[0] == '\'' then "''" else [s[0]];
    assert Doubled('\'', s) + "'" == first + rest;
    AtConcat(o, i, first, rest);
    AtChar(o, i, first, 0);
    if s[0] == '\'' { AtChar(o, i, first, 1); }
  }

  /** After a backslash took one quote of a pair, the other one ends the literal unless quotes follow. */
  lemma {:induction false} LoneQuote(o: string, i: nat, s: string)
    requires i < |o| && o[i] == '\'' && BodyAt(o, i + 1, s)
    ensures LiteralEnd(o, i) == |o| <==> AllQuotes(s)
    decreases |s|
  {
    if s == "" {
      AtChar(o, i + 1, Doubled('\'', s) + "'", 0);
    } else {
      BodyNext(o, i + 1, s);
      if s[0] == '\'' {
        LoneQuote(o, i + 2, s[1..]);
        assert AllQuotes(s) <==> AllQuotes(s[1..]) by {
          assert forall k :: 0 < k < |s| ==> s[k] == s[1..][k - 1];
          assert forall k :: 0 <= k < |s[1..]| ==> s[1..][k] == s[k + 1];
        }
      }
    }
  }

  lemma {:induction false} BodyEnds(o: string, i: nat, s: string)
    requires i <= |o| && BodyAt(o, i, s)
    ensures LiteralEnd(o, i) == |o| <==> SafeLiteral(s)
    decreases |s|
  {
    if s == "" {
      AtChar(o, i, Doubled('\'', s) + "'", 0);
    } else {
      BodyNext(o, i, s);
      if s[0] == '\'' {
        BodyEnds(o, i + 2, s[1..]);
      } else if s[0] != '\\' {
        BodyEnds(o, i + 1, s[1..]);
      } else if |s| > 1 {
        BodyNext(o, i + 1, s[1..]);
        assert s[1..][1..] == s[2..];
        if s[1] == '\'' {
          LoneQuote(o, i + 2, s[2..]);
        } else {
          BodyEnds(o, i + 2, s[2..]);
        }
      }
    }
  }

  /** A quoted literal is one string token, all of it, exactly when its text is safe. */
  lemma {:induction false} QuotedLiteralIsOneToken(s: string)
    ensures Scan(QuoteLiteral(s), 0) == [Token(QuoteLiteral(s), Literal)] <==> SafeLiteral(s)
  {
    var o := QuoteLiteral(s);
    WholeAt(o);
    AtConcat(o, 0, "'", Doubled('\'', s) + "'");
    BodyEnds(o, 1, s);
    var j := LiteralEnd(o, 1);
    assert o[0] == '\'';
    assert Step(o, 0) == Turn(j, [Token(o[0..j], Literal)]);
    assert Scan(o, 0) == [Token(o[0..j], Literal)] + Scan(o, j);
    if j == |o| {
      assert o[0..j] == o;
    } else {
      assert Scan(o, 0)[0].text == o[0..j];
    }
  }

  /** Text without backslashes is always safe; a backslash before an inner quote is not. */
  lemma {:induction false} NoBackslashSafe(s: string)
    requires '\\' !in s
    ensures SafeLiteral(s)
  {
    if s != "" { NoBackslashSafe(s[1..]); }
  }

  lemma {:induction false} BackslashQuoteUnsafe()
    ensures !SafeLiteral("\\'x") && Scan(QuoteLiteral("\\'x"), 0) != [Token(QuoteLiteral("\\'x"), Literal)]
  {
    assert "\\'x"[2..] == "x";
    assert "x"[0] != '\'';
    QuotedLiteralIsOneToken("\\'x");
  }
}
