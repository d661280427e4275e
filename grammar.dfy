/**
 * The grammar the recogniser `Parser.FORMULA` (RA1Frank/validador.py) accepts,
 * as a tree, and the token sequence each tree is written as:
 *
 *   F ::= TRUE | FALSE | ID | ( NOT F ) | ( op F F ),  op one of AND, OR, IMPLIES, IFF
 */
module Grammar {
  import opened Tokens

  /** The binary connectives. */
  datatype BinOp = And | Or | Implies | Iff

  /** The kinds `OPERADORBINARIO` accepts. */
  predicate IsBinary(k: Kind) {
    k == AND || k == OR || k == IMPLIES || k == IFF
  }

  /** The token kind of a connective. */
  function OpKind(op: BinOp): (k: Kind)
    ensures IsBinary(k)
  {
    match op
    case And => AND
    case Or => OR
    case Implies => IMPLIES
    case Iff => IFF
  }

  /** Every binary kind is the kind of exactly one connective. */
  lemma OpKindIsBijection()
    ensures forall op1, op2 :: OpKind(op1) == OpKind(op2) ==> op1 == op2
    ensures forall k :: IsBinary(k) ==> exists op :: OpKind(op) == k
  {
    forall k | IsBinary(k)
      ensures exists op :: OpKind(op) == k
    {
      if k == AND { assert OpKind(And) == k; }
      else if k == OR { assert OpKind(Or) == k; }
      else if k == IMPLIES { assert OpKind(Implies) == k; }
      else { assert OpKind(Iff) == k; }
    }
  }

  /** A formula of the grammar; an atom carries the text of its identifier. */
  datatype Formula =
    | Truth
    | Falsity
    | Atom(name: string)
    | Neg(arg: Formula)
    | Bin(op: BinOp, left: Formula, right: Formula)

  /** The token of a kind other than ID, with its spelling. */
  function Tok(k: Kind): (t: Token)
    requires k != ID
    ensures t.kind == k
  {
    Token(k, Spelling(k))
  }

  /** The number of tokens a formula is written with. */
  function Size(f: Formula): (n: nat)
    ensures n > 0
  {
    match f
    case Truth => 1
    case Falsity => 1
    case Atom(_) => 1
    case Neg(g) => Size(g) + 3
    case Bin(_, l, r) => Size(l) + Size(r) + 3
  }

  /** The tokens that spell a formula in prefix form. */
  function Serialize(f: Formula): (ts: seq<Token>)
    ensures |ts| == Size(f)
  {
    match f
    case Truth => [Tok(TRUE)]
    case Falsity => [Tok(FALSE)]
    case Atom(name) => [Token(ID, name)]
    case Neg(g) => [Tok(LPAREN), Tok(NOT)] + Serialize(g) + [Tok(RPAREN)]
    case Bin(op, l, r) => [Tok(LPAREN), Tok(OpKind(op))] + (Serialize(l) + Serialize(r)) + [Tok(RPAREN)]
  }

  /** Every token of ts carries the spelling of its kind. */
  predicate AllCanonical(ts: seq<Token>) {
    forall q :: 0 <= q < |ts| ==> Canonical(ts[q])
  }

  /** Every token of a serialised formula carries the spelling of its kind. */
  lemma {:induction false} SerializeCanonical(f: Formula)
    ensures AllCanonical(Serialize(f))
  {
    match f
    case Truth =>
    case Falsity =>
    case Atom(_) =>
    case Neg(g) =>
      SerializeCanonical(g);
      CanonicalFramed(NOT, Serialize(g));
    case Bin(op, l, r) =>
      SerializeCanonical(l);
      SerializeCanonical(r);
      CanonicalJoin(Serialize(l), Serialize(r));
      CanonicalFramed(OpKind(op), Serialize(l) + Serialize(r));
  }

  /** Joining two canonical token sequences gives a canonical one. */
  lemma CanonicalJoin(a: seq<Token>, b: seq<Token>)
    requires AllCanonical(a) && AllCanonical(b)
    ensures AllCanonical(a + b)
  {
    forall q | 0 <= q < |a + b|
      ensures Canonical((a + b)[q])
    {
      if q >= |a| {
        assert (a + b)[q] == b[q - |a|];
      }
    }
  }

  /** A canonical sequence between an opening parenthesis and a connective, and a closing parenthesis. */
  lemma CanonicalFramed(k: Kind, mid: seq<Token>)
    requires k != ID && AllCanonical(mid)
    ensures AllCanonical([Tok(LPAREN), Tok(k)] + mid + [Tok(RPAREN)])
  {
    CanonicalJoin([Tok(LPAREN), Tok(k)], mid);
    CanonicalJoin([Tok(LPAREN), Tok(k)] + mid, [Tok(RPAREN)]);
  }
}
