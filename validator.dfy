/**
 * The per-line verdict of `main` (RA1Frank/validador.py): lex the line, and
 * if that succeeds, run `parse()` on the tokens. The lemmas here connect the
 * lexer and the recogniser: a line is valid exactly when it lexes to the
 * prefix serialisation of a formula.
 */
module Validator {
  import opened Wrappers
  import opened Tokens
  import opened Lexer
  import opened Grammar
  import opened Recognizer
  import opened Acceptance

  /** The line is reported `valida`: it lexes, and `parse()` accepts its tokens. */
  predicate IsValid(expr: string) {
    LexFrom(expr, 0, []).Some? && Accepts(LexFrom(expr, 0, []).value)
  }

  /** One round of the loop in `main`, without the printing: lex, then build a parser and parse. */
  method Validate(expr: string) returns (valid: bool)
    ensures valid <==> IsValid(expr)
  {
    var tokens := Lex(expr);
    if tokens.None? {
      return false;
    }
    var parser := new Parser(tokens.value);
    valid := parser.Parse();
  }

  /** A line is valid exactly when the lexer reads it as the serialisation of some formula. */
  lemma ValidIffSerialized(expr: string)
    ensures IsValid(expr) <==> exists f :: LexFrom(expr, 0, []) == Some(Serialize(f))
  {
    if LexFrom(expr, 0, []).Some? {
      var ts := LexFrom(expr, 0, []).value;
      LexSound(expr);
      assert AllCanonical(ts);
      AcceptsCanonical(ts);
    }
    if exists f :: LexFrom(expr, 0, []) == Some(Serialize(f)) {
      var f :| LexFrom(expr, 0, []) == Some(Serialize(f));
      AcceptsSerialize(f);
    }
  }

  /** What a valid line is made of: a formula whose tokens, their texts joined, are the line without its spaces. */
  lemma ValidText(expr: string)
    requires IsValid(expr)
    ensures exists f :: LexFrom(expr, 0, []) == Some(Serialize(f)) && Texts(Serialize(f)) == VisibleFrom(expr, 0)
  {
    ValidIffSerialized(expr);
    var f :| LexFrom(expr, 0, []) == Some(Serialize(f));
    LexSound(expr);
  }

  /** Every identifier of the formula is a proposition (`eh_proposicao`). */
  predicate AtomsArePropositions(f: Formula) {
    match f
    case Truth => true
    case Falsity => true
    case Atom(name) => IsProposition(name)
    case Neg(g) => AtomsArePropositions(g)
    case Bin(_, l, r) => AtomsArePropositions(l) && AtomsArePropositions(r)
  }

  /** The serialisation of a formula whose identifiers are propositions holds only tokens the lexer can emit. */
  lemma {:induction false} SerializeWellFormed(f: Formula)
    requires AtomsArePropositions(f)
    ensures AllWellFormed(Serialize(f))
  {
    match f
    case Truth =>
    case Falsity =>
    case Atom(_) =>
    case Neg(g) =>
      SerializeWellFormed(g);
      WellFormedFramed(NOT, Serialize(g));
    case Bin(op, l, r) =>
      SerializeWellFormed(l);
      SerializeWellFormed(r);
      WellFormedJoin(Serialize(l), Serialize(r));
      WellFormedFramed(OpKind(op), Serialize(l) + Serialize(r));
  }

  /** Joining two sequences of emittable tokens gives one. */
  lemma WellFormedJoin(a: seq<Token>, b: seq<Token>)
    requires AllWellFormed(a) && AllWellFormed(b)
    ensures AllWellFormed(a + b)
  {
    forall q | 0 <= q < |a + b|
      ensures WellFormed((a + b)[q])
    {
      if q >= |a| {
        assert (a + b)[q] == b[q - |a|];
      }
    }
  }

  /** Emittable tokens between an opening parenthesis and a connective, and a closing parenthesis. */
  lemma WellFormedFramed(k: Kind, mid: seq<Token>)
    requires k != ID && AllWellFormed(mid)
    ensures AllWellFormed([Tok(LPAREN), Tok(k)] + mid + [Tok(RPAREN)])
  {
    WellFormedJoin([Tok(LPAREN), Tok(k)], mid);
    WellFormedJoin([Tok(LPAREN), Tok(k)] + mid, [Tok(RPAREN)]);
  }

  /**
   * Every formula whose identifiers are propositions, written out in prefix
   * form with any choice of blanks that keeps identifiers apart, is a valid line.
   */
  lemma LayoutValid(f: Formula, gaps: seq<bool>)
    requires AtomsArePropositions(f) && |gaps| == Size(f) && Separated(Serialize(f), gaps)
    ensures IsValid(Layout(Serialize(f), gaps))
    ensures LexFrom(Layout(Serialize(f), gaps), 0, []) == Some(Serialize(f))
  {
    SerializeWellFormed(f);
    LexLayout(Serialize(f), gaps);
    AcceptsSerialize(f);
  }

  /** A line laid out from readable tokens lexes back to them, and its verdict is theirs. */
  lemma LayoutVerdict(s: string, ts: seq<Token>, gaps: seq<bool>)
    requires |gaps| == |ts| && Layout(ts, gaps) == s && Readable(ts, gaps)
    ensures LexFrom(s, 0, []) == Some(ts) && (IsValid(s) <==> Accepts(ts))
  {
    LexLayout(ts, gaps);
  }

  /** In particular, with a blank after every token. */
  lemma SpacedValid(f: Formula)
    requires AtomsArePropositions(f)
    ensures IsValid(Layout(Serialize(f), seq(Size(f), _ => true)))
  {
    LayoutValid(f, seq(Size(f), _ => true));
  }
}
