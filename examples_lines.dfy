/**
 * Example lines and their verdicts, proved in the model: a negation, an
 * unbalanced line, infix and prefix conjunctions and equivalences, a bare
 * digit, a letter and a leftover token. Each multi-token line is written as
 * the tokens it is laid out from (Layout), and its verdict follows from
 * LayoutVerdict: the lexer reads the tokens back, and the line is valid
 * exactly when the recogniser accepts them. The prefix grammar of `FORMULA`
 * puts the connective first, so an infix line such as `(0 \wedge 1a)` is
 * rejected and its prefix form `(\wedge 0 1a)` accepted.
 *
 * For each line, `...LaidOut` unfolds the layout token by token (each
 * token's text followed by its blank), `...Spelled` joins the pieces into
 * the line, and `...Separated` checks that no identifier runs into the
 * token after it. The two nine-token lines join their pieces in two halves
 * (`...Head`, `...Tail`, `...Pieces`), which keeps each proof small.
 */
module Lines {
  import opened Wrappers
  import opened Tokens
  import opened Lexer
  import opened Grammar
  import opened Recognizer
  import opened Validator

  /** A bare digit is one identifier and a whole formula. */
  lemma BareDigit()
    ensures LexFrom("0", 0, []) == Some([Token(ID, "0")]) && IsValid("0")
  {
    assert Layout([Token(ID, "0")], [false]) == "0";
    LayoutVerdict("0", [Token(ID, "0")], [false]);
  }

  /** `true` is read as one TRUE token, not as an identifier or a part of one. */
  lemma TrueIsOneToken()
    ensures LexFrom("true", 0, []) == Some([Tok(TRUE)]) && IsValid("true")
  {
    assert Layout([Tok(TRUE)], [false]) == "true";
    LayoutVerdict("true", [Tok(TRUE)], [false]);
  }

  /** `0 1` and `0 0` are rejected: a formula followed by a leftover token. */
  lemma LeftoverRejected()
    ensures !IsValid("0 1") && !IsValid("0 0")
  {
    assert WellFormed(Token(ID, "0")) && WellFormed(Token(ID, "1"));
    assert Layout([Token(ID, "0"), Token(ID, "1")], [true, false]) == "0 1";
    assert Layout([Token(ID, "0"), Token(ID, "0")], [true, false]) == "0 0";
    LayoutVerdict("0 1", [Token(ID, "0"), Token(ID, "1")], [true, false]);
    LayoutVerdict("0 0", [Token(ID, "0"), Token(ID, "0")], [true, false]);
  }

  /** A letter cannot start a token, so `p` is a lexical error. */
  lemma LetterRejected()
    ensures LexFrom("p", 0, []) == None && !IsValid("p")
  {
    ScanAtNoMatch("p", 0);
    LiteralsShape();
    forall m | 0 <= m < |Literals|
      ensures !StartsWith("p", Literals[m].0, 0)
    {
      NotStartsWith("p", Literals[m].0, 0);
    }
    LexFromNoMatch("p", 0, []);
  }

  /**
   * The tokens of `(true \leftrightarrow (false \rightarrow 2xy))` are rejected,
   * those of its prefix form `(\leftrightarrow true (\rightarrow false 2xy))`
   * accepted, and those of `(true \leftrightarrow false \rightarrow 2xy)` rejected.
   */
  lemma EquivalenceParsed()
    ensures !Accepts([Tok(LPAREN), Tok(TRUE), Tok(IFF), Tok(LPAREN), Tok(FALSE), Tok(IMPLIES), Token(ID, "2xy"), Tok(RPAREN), Tok(RPAREN)])
    ensures Accepts([Tok(LPAREN), Tok(IFF), Tok(TRUE), Tok(LPAREN), Tok(IMPLIES), Tok(FALSE), Token(ID, "2xy"), Tok(RPAREN), Tok(RPAREN)])
    ensures !Accepts([Tok(LPAREN), Tok(TRUE), Tok(IFF), Tok(FALSE), Tok(IMPLIES), Token(ID, "2xy"), Tok(RPAREN)])
  {
  }


  /** The line `(\neg 0)`. */
  const NegLine: string := "(\\neg 0)"

  /** `(\neg 0)`, token by token. */
  lemma NegLaidOut()
    ensures Layout([Tok(LPAREN), Tok(NOT), Token(ID, "0"), Tok(RPAREN)], [false, true, false, false])
         == ("(" + "") + (("\\neg" + " ") + (("0" + "") + ((")" + "") + [])))
  {
  }

  /** The layout is the line. */
  lemma NegSpelled()
    ensures Layout([Tok(LPAREN), Tok(NOT), Token(ID, "0"), Tok(RPAREN)], [false, true, false, false]) == NegLine
  {
    NegLaidOut();
    assert ("(" + "") + (("\\neg" + " ") + (("0" + "") + ((")" + "") + []))) == "(\\neg 0)";
  }

  /** No identifier runs into the token after it. */
  lemma NegSeparated()
    ensures Separated([Tok(LPAREN), Tok(NOT), Token(ID, "0"), Tok(RPAREN)], [false, true, false, false])
  {
  }

  /** `(\neg 0)` is valid. */
  lemma NegationValid()
    ensures LexFrom(NegLine, 0, []) == Some([Tok(LPAREN), Tok(NOT), Token(ID, "0"), Tok(RPAREN)])
    ensures IsValid(NegLine)
  {
    assert WellFormed(Token(ID, "0"));
    assert AllWellFormed([Tok(LPAREN), Tok(NOT), Token(ID, "0"), Tok(RPAREN)]);
    NegSeparated();
    assert Accepts([Tok(LPAREN), Tok(NOT), Token(ID, "0"), Tok(RPAREN)]);
    NegSpelled();
    LayoutVerdict(NegLine, [Tok(LPAREN), Tok(NOT), Token(ID, "0"), Tok(RPAREN)], [false, true, false, false]);
  }

  /** The line `(\neg 0`. */
  const UnbalancedLine: string := "(\\neg 0"

  /** `(\neg 0`, token by token. */
  lemma UnbalancedLaidOut()
    ensures Layout([Tok(LPAREN), Tok(NOT), Token(ID, "0")], [false, true, false])
         == ("(" + "") + (("\\neg" + " ") + (("0" + "") + []))
  {
  }

  /** The layout is the line. */
  lemma UnbalancedSpelled()
    ensures Layout([Tok(LPAREN), Tok(NOT), Token(ID, "0")], [false, true, false]) == UnbalancedLine
  {
    UnbalancedLaidOut();
    assert ("(" + "") + (("\\neg" + " ") + (("0" + "") + [])) == "(\\neg 0";
  }

  /** No identifier runs into the token after it. */
  lemma UnbalancedSeparated()
    ensures Separated([Tok(LPAREN), Tok(NOT), Token(ID, "0")], [false, true, false])
  {
  }

  /** `(\neg 0` lexes, but is rejected. */
  lemma UnbalancedRejected()
    ensures LexFrom(UnbalancedLine, 0, []) == Some([Tok(LPAREN), Tok(NOT), Token(ID, "0")])
    ensures !IsValid(UnbalancedLine)
  {
    assert WellFormed(Token(ID, "0"));
    assert AllWellFormed([Tok(LPAREN), Tok(NOT), Token(ID, "0")]);
    UnbalancedSeparated();
    assert !Accepts([Tok(LPAREN), Tok(NOT), Token(ID, "0")]);
    UnbalancedSpelled();
    LayoutVerdict(UnbalancedLine, [Tok(LPAREN), Tok(NOT), Token(ID, "0")], [false, true, false]);
  }

  /** The line `(0 \wedge 1a)`. */
  const InfixLine: string := "(0 \\wedge 1a)"

  /** `(0 \wedge 1a)`, token by token. */
  lemma InfixLaidOut()
    ensures Layout([Tok(LPAREN), Token(ID, "0"), Tok(AND), Token(ID, "1a"), Tok(RPAREN)], [false, true, true, false, false])
         == ("(" + "") + (("0" + " ") + (("\\wedge" + " ") + (("1a" + "") + ((")" + "") + []))))
  {
  }

  /** The layout is the line. */
  lemma InfixSpelled()
    ensures Layout([Tok(LPAREN), Token(ID, "0"), Tok(AND), Token(ID, "1a"), Tok(RPAREN)], [false, true, true, false, false]) == InfixLine
  {
    InfixLaidOut();
    assert ("(" + "") + (("0" + " ") + (("\\wedge" + " ") + (("1a" + "") + ((")" + "") + [])))) == "(0 \\wedge 1a)";
  }

  /** No identifier runs into the token after it. */
  lemma InfixSeparated()
    ensures Separated([Tok(LPAREN), Token(ID, "0"), Tok(AND), Token(ID, "1a"), Tok(RPAREN)], [false, true, true, false, false])
  {
  }

  /** The infix `(0 \wedge 1a)` lexes, but is rejected. */
  lemma InfixConjunctionRejected()
    ensures LexFrom(InfixLine, 0, []) == Some([Tok(LPAREN), Token(ID, "0"), Tok(AND), Token(ID, "1a"), Tok(RPAREN)])
    ensures !IsValid(InfixLine)
  {
    assert WellFormed(Token(ID, "0")) && WellFormed(Token(ID, "1a"));
    assert AllWellFormed([Tok(LPAREN), Token(ID, "0"), Tok(AND), Token(ID, "1a"), Tok(RPAREN)]);
    InfixSeparated();
    assert !Accepts([Tok(LPAREN), Token(ID, "0"), Tok(AND), Token(ID, "1a"), Tok(RPAREN)]);
    InfixSpelled();
    LayoutVerdict(InfixLine, [Tok(LPAREN), Token(ID, "0"), Tok(AND), Token(ID, "1a"), Tok(RPAREN)], [false, true, true, false, false]);
  }

  /** The line `(\wedge 0 1a)`. */
  const PrefixLine: string := "(\\wedge 0 1a)"

  /** `(\wedge 0 1a)`, token by token. */
  lemma PrefixLaidOut()
    ensures Layout([Tok(LPAREN), Tok(AND), Token(ID, "0"), Token(ID, "1a"), Tok(RPAREN)], [false, true, true, false, false])
         == ("(" + "") + (("\\wedge" + " ") + (("0" + " ") + (("1a" + "") + ((")" + "") + []))))
  {
  }

  /** The layout is the line. */
  lemma PrefixSpelled()
    ensures Layout([Tok(LPAREN), Tok(AND), Token(ID, "0"), Token(ID, "1a"), Tok(RPAREN)], [false, true, true, false, false]) == PrefixLine
  {
    PrefixLaidOut();
    assert ("(" + "") + (("\\wedge" + " ") + (("0" + " ") + (("1a" + "") + ((")" + "") + [])))) == "(\\wedge 0 1a)";
  }

  /** No identifier runs into the token after it: the blank keeps the two identifiers apart. */
  lemma PrefixSeparated()
    ensures Separated([Tok(LPAREN), Tok(AND), Token(ID, "0"), Token(ID, "1a"), Tok(RPAREN)], [false, true, true, false, false])
  {
  }

  /** Its prefix form `(\wedge 0 1a)` is valid. */
  lemma PrefixConjunctionValid()
    ensures LexFrom(PrefixLine, 0, []) == Some([Tok(LPAREN), Tok(AND), Token(ID, "0"), Token(ID, "1a"), Tok(RPAREN)])
    ensures IsValid(PrefixLine)
  {
    assert WellFormed(Token(ID, "0")) && WellFormed(Token(ID, "1a"));
    assert AllWellFormed([Tok(LPAREN), Tok(AND), Token(ID, "0"), Token(ID, "1a"), Tok(RPAREN)]);
    PrefixSeparated();
    assert Accepts([Tok(LPAREN), Tok(AND), Token(ID, "0"), Token(ID, "1a"), Tok(RPAREN)]);
    PrefixSpelled();
    LayoutVerdict(PrefixLine, [Tok(LPAREN), Tok(AND), Token(ID, "0"), Token(ID, "1a"), Tok(RPAREN)], [false, true, true, false, false]);
  }

  /** The line `(true \leftrightarrow (false \rightarrow 2xy))`. */
  const InfixIffLine: string := "(true \\leftrightarrow (false \\rightarrow 2xy))"

  /** `(true \leftrightarrow (false \rightarrow 2xy))`, token by token. */
  lemma InfixIffLaidOut()
    ensures Layout([Tok(LPAREN), Tok(TRUE), Tok(IFF), Tok(LPAREN), Tok(FALSE), Tok(IMPLIES), Token(ID, "2xy"), Tok(RPAREN), Tok(RPAREN)], [false, true, true, false, true, true, false, false, false])
         == ("(" + "") + (("true" + " ") + (("\\leftrightarrow" + " ") + (("(" + "") + (("false" + " ") + (("\\rightarrow" + " ") + (("2xy" + "") + ((")" + "") + ((")" + "") + []))))))))
  {
  }

  /** The pieces of its first three tokens. */
  lemma InfixIffHead(rest: string)
    ensures ("(" + "") + (("true" + " ") + (("\\leftrightarrow" + " ") + (rest))) == "(true \\leftrightarrow " + rest
  {
  }

  /** The pieces of its last 6 tokens. */
  lemma InfixIffTail()
    ensures ("(" + "") + (("false" + " ") + (("\\rightarrow" + " ") + (("2xy" + "") + ((")" + "") + ((")" + "") + [])))))
         == "(false \\rightarrow 2xy))"
  {
  }

  /** The pieces of all its tokens. */
  lemma InfixIffPieces()
    ensures ("(" + "") + (("true" + " ") + (("\\leftrightarrow" + " ") + (("(" + "") + (("false" + " ") + (("\\rightarrow" + " ") + (("2xy" + "") + ((")" + "") + ((")" + "") + []))))))))
         == "(true \\leftrightarrow (false \\rightarrow 2xy))"
  {
    InfixIffTail();
    InfixIffHead("(false \\rightarrow 2xy))");
    assert "(true \\leftrightarrow " + "(false \\rightarrow 2xy))" == "(true \\leftrightarrow (false \\rightarrow 2xy))";
  }

  /** The layout is the line. */
  lemma InfixIffSpelled()
    ensures Layout([Tok(LPAREN), Tok(TRUE), Tok(IFF), Tok(LPAREN), Tok(FALSE), Tok(IMPLIES), Token(ID, "2xy"), Tok(RPAREN), Tok(RPAREN)], [false, true, true, false, true, true, false, false, false]) == InfixIffLine
  {
    InfixIffLaidOut();
    InfixIffPieces();
  }

  /** Every token is one the lexer emits. */
  lemma InfixIffWellFormed()
    ensures AllWellFormed([Tok(LPAREN), Tok(TRUE), Tok(IFF), Tok(LPAREN), Tok(FALSE), Tok(IMPLIES), Token(ID, "2xy"), Tok(RPAREN), Tok(RPAREN)])
  {
    assert WellFormed(Token(ID, "2xy"));
  }


  /** No identifier runs into the token after it. */
  lemma InfixIffSeparated()
    ensures Separated([Tok(LPAREN), Tok(TRUE), Tok(IFF), Tok(LPAREN), Tok(FALSE), Tok(IMPLIES), Token(ID, "2xy"), Tok(RPAREN), Tok(RPAREN)], [false, true, true, false, true, true, false, false, false])
  {
  }

  /** The infix `(true \leftrightarrow (false \rightarrow 2xy))` lexes, but is rejected. */
  lemma InfixEquivalenceRejected()
    ensures LexFrom(InfixIffLine, 0, []) == Some([Tok(LPAREN), Tok(TRUE), Tok(IFF), Tok(LPAREN), Tok(FALSE), Tok(IMPLIES), Token(ID, "2xy"), Tok(RPAREN), Tok(RPAREN)])
    ensures !IsValid(InfixIffLine)
  {
    InfixIffWellFormed();
    InfixIffSeparated();
    EquivalenceParsed();
    InfixIffSpelled();
    LayoutVerdict(InfixIffLine, [Tok(LPAREN), Tok(TRUE), Tok(IFF), Tok(LPAREN), Tok(FALSE), Tok(IMPLIES), Token(ID, "2xy"), Tok(RPAREN), Tok(RPAREN)], [false, true, true, false, true, true, false, false, false]);
  }

  /** The line `(\leftrightarrow true (\rightarrow false 2xy))`. */
  const PrefixIffLine: string := "(\\leftrightarrow true (\\rightarrow false 2xy))"

  /** `(\leftrightarrow true (\rightarrow false 2xy))`, token by token. */
  lemma PrefixIffLaidOut()
    ensures Layout([Tok(LPAREN), Tok(IFF), Tok(TRUE), Tok(LPAREN), Tok(IMPLIES), Tok(FALSE), Token(ID, "2xy"), Tok(RPAREN), Tok(RPAREN)], [false, true, true, false, true, true, false, false, false])
         == ("(" + "") + (("\\leftrightarrow" + " ") + (("true" + " ") + (("(" + "") + (("\\rightarrow" + " ") + (("false" + " ") + (("2xy" + "") + ((")" + "") + ((")" + "") + []))))))))
  {
  }

  /** The pieces of its first three tokens. */
  lemma PrefixIffHead(rest: string)
    ensures ("(" + "") + (("\\leftrightarrow" + " ") + (("true" + " ") + (rest))) == "(\\leftrightarrow true " + rest
  {
  }

  /** The pieces of its last 6 tokens. */
  lemma PrefixIffTail()
    ensures ("(" + "") + (("\\rightarrow" + " ") + (("false" + " ") + (("2xy" + "") + ((")" + "") + ((")" + "") + [])))))
         == "(\\rightarrow false 2xy))"
  {
  }

  /** The pieces of all its tokens. */
  lemma PrefixIffPieces()
    ensures ("(" + "") + (("\\leftrightarrow" + " ") + (("true" + " ") + (("(" + "") + (("\\rightarrow" + " ") + (("false" + " ") + (("2xy" + "") + ((")" + "") + ((")" + "") + []))))))))
         == "(\\leftrightarrow true (\\rightarrow false 2xy))"
  {
    PrefixIffTail();
    PrefixIffHead("(\\rightarrow false 2xy))");
    assert "(\\leftrightarrow true " + "(\\rightarrow false 2xy))" == "(\\leftrightarrow true (\\rightarrow false 2xy))";
  }

  /** The layout is the line. */
  lemma PrefixIffSpelled()
    ensures Layout([Tok(LPAREN), Tok(IFF), Tok(TRUE), Tok(LPAREN), Tok(IMPLIES), Tok(FALSE), Token(ID, "2xy"), Tok(RPAREN), Tok(RPAREN)], [false, true, true, false, true, true, false, false, false]) == PrefixIffLine
  {
    PrefixIffLaidOut();
    PrefixIffPieces();
  }

  /** Every token is one the lexer emits. */
  lemma PrefixIffWellFormed()
    ensures AllWellFormed([Tok(LPAREN), Tok(IFF), Tok(TRUE), Tok(LPAREN), Tok(IMPLIES), Tok(FALSE), Token(ID, "2xy"), Tok(RPAREN), Tok(RPAREN)])
  {
    assert WellFormed(Token(ID, "2xy"));
  }


  /** No identifier runs into the token after it. */
  lemma PrefixIffSeparated()
    ensures Separated([Tok(LPAREN), Tok(IFF), Tok(TRUE), Tok(LPAREN), Tok(IMPLIES), Tok(FALSE), Token(ID, "2xy"), Tok(RPAREN), Tok(RPAREN)], [false, true, true, false, true, true, false, false, false])
  {
  }

  /** Its prefix form `(\leftrightarrow true (\rightarrow false 2xy))` is valid. */
  lemma PrefixEquivalenceValid()
    ensures LexFrom(PrefixIffLine, 0, []) == Some([Tok(LPAREN), Tok(IFF), Tok(TRUE), Tok(LPAREN), Tok(IMPLIES), Tok(FALSE), Token(ID, "2xy"), Tok(RPAREN), Tok(RPAREN)])
    ensures IsValid(PrefixIffLine)
  {
    PrefixIffWellFormed();
    PrefixIffSeparated();
    EquivalenceParsed();
    PrefixIffSpelled();
    LayoutVerdict(PrefixIffLine, [Tok(LPAREN), Tok(IFF), Tok(TRUE), Tok(LPAREN), Tok(IMPLIES), Tok(FALSE), Token(ID, "2xy"), Tok(RPAREN), Tok(RPAREN)], [false, true, true, false, true, true, false, false, false]);
  }
}
