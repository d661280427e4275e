/**
 * The LL(1) recogniser, class `Parser` (RA1Frank/validador.py). `FormulaRun`
 * is the reference definition of `FORMULA`: whether it succeeds and where it
 * leaves the cursor, also on failure, since the cursor is never rewound.
 * `Formula` and `Parse` are proved against it, `Consume` against its one-step
 * counterpart `ConsumeRun`, and `UnaryOperator` and `BinaryOperator` state
 * their outcome and new cursor directly over the cursor before the call. The
 * lemmas relate `FormulaRun` to the grammar trees of module Grammar.
 */
module Recognizer {
  import opened Tokens
  import opened Grammar

  /** The outcome of a recognising call: success, and the cursor afterwards. */
  datatype Run = Run(ok: bool, pos: nat)

  /** `consumir(kind)` at cursor p: advance over one token of that kind, or fail in place. */
  function ConsumeRun(ts: seq<Token>, p: nat, kind: Kind): (r: Run)
    requires p <= |ts|
    ensures r.ok <==> p < |ts| && ts[p].kind == kind
    ensures r.pos == if r.ok then p + 1 else p
  {
    if p < |ts| && ts[p].kind == kind then Run(true, p + 1) else Run(false, p)
  }

  /** The closing parenthesis after a sub-formula run r: read only when r succeeded. */
  function CloseRun(ts: seq<Token>, r: Run): Run
    requires r.pos <= |ts|
  {
    if r.ok then ConsumeRun(ts, r.pos, RPAREN) else r
  }

  /**
   * `FORMULA()` started at cursor p. The cursor never moves back, stays in
   * bounds, and a success reads at least one token.
   */
  function FormulaRun(ts: seq<Token>, p: nat): (r: Run)
    requires p <= |ts|
    ensures p <= r.pos <= |ts|
    ensures r.ok ==> p < r.pos
    decreases |ts| - p, 1
  {
    if p == |ts| then Run(false, p)
    else if ts[p].kind == TRUE || ts[p].kind == FALSE || ts[p].kind == ID then Run(true, p + 1)
    else if ts[p].kind == LPAREN then GroupRun(ts, p + 1)
    else Run(false, p)
  }

  /**
   * The rest of `FORMULA()` once its `LPAREN` is read, with the cursor q at
   * the operator: a NOT and one sub-formula, or a binary operator and two,
   * then the closing parenthesis. Without an operator it fails at q.
   */
  function GroupRun(ts: seq<Token>, q: nat): (r: Run)
    requires q <= |ts|
    ensures q <= r.pos <= |ts|
    ensures r.ok ==> q < r.pos
    decreases |ts| - q, 0
  {
    if q < |ts| && ts[q].kind == NOT then
      CloseRun(ts, FormulaRun(ts, q + 1))
    else if q < |ts| && IsBinary(ts[q].kind) then
      var a := FormulaRun(ts, q + 1);
      if a.ok then CloseRun(ts, FormulaRun(ts, a.pos)) else a
    else Run(false, q)
  }

  /** `parse()`: FORMULA succeeds and every token has been read. */
  predicate Accepts(ts: seq<Token>) {
    FormulaRun(ts, 0) == Run(true, |ts|)
  }

  /** The recogniser's state: the token list and the cursor into it. */
  class Parser {
    const tokens: seq<Token>
    var pos: nat

    /** The cursor is within the token list. */
    predicate Valid()
      reads this
    {
      pos <= |tokens|
    }

    /** `__init__`: the cursor starts at the first token. */
    constructor (tokens: seq<Token>)
      ensures this.tokens == tokens && pos == 0 && Valid()
    {
      this.tokens := tokens;
      pos := 0;
    }

    /** `consumir(kind)`: advance by one exactly when the current token has that kind. */
    method Consume(kind: Kind) returns (b: bool)
      requires Valid()
      modifies this
      ensures Valid()
      ensures b <==> old(pos) < |tokens| && tokens[old(pos)].kind == kind
      ensures pos == if b then old(pos) + 1 else old(pos)
      ensures Run(b, pos) == ConsumeRun(tokens, old(pos), kind)
    {
      if pos < |tokens| && tokens[pos].kind == kind {
        pos := pos + 1;
        return true;
      }
      return false;
    }

    /** `OPERADORUNARIO()`: read a NOT token. */
    method UnaryOperator() returns (b: bool)
      requires Valid()
      modifies this
      ensures Valid()
      ensures b <==> old(pos) < |tokens| && tokens[old(pos)].kind == NOT
      ensures pos == if b then old(pos) + 1 else old(pos)
    {
      b := Consume(NOT);
    }

    /** `OPERADORBINARIO()`: read one AND, OR, IMPLIES or IFF token, trying them in that order. */
    method BinaryOperator() returns (b: bool)
      requires Valid()
      modifies this
      ensures Valid()
      ensures b <==> old(pos) < |tokens| && IsBinary(tokens[old(pos)].kind)
      ensures pos == if b then old(pos) + 1 else old(pos)
    {
      b := Consume(AND);
      if !b {
        b := Consume(OR);
      }
      if !b {
        b := Consume(IMPLIES);
      }
      if !b {
        b := Consume(IFF);
      }
    }

    /** `FORMULA()`: its outcome and the cursor it leaves are those of FormulaRun. */
    method Formula() returns (b: bool)
      requires Valid()
      modifies this
      ensures Valid()
      ensures Run(b, pos) == FormulaRun(tokens, old(pos))
      decreases |tokens| - pos
    {
      if pos >= |tokens| {
        return false;
      }
      var kind := tokens[pos].kind;
      if kind == TRUE || kind == FALSE {
        b := Consume(kind);
        return;
      } else if kind == ID {
        b := Consume(ID);
        return;
      } else if kind == LPAREN {
        var _ := Consume(LPAREN);
        var unary := UnaryOperator();
        if unary {
          var sub := Formula();
          if sub {
            b := Consume(RPAREN);
            return;
          }
        } else {
          var binary := BinaryOperator();
          if binary {
            var left := Formula();
            if left {
              var right := Formula();
              if right {
                b := Consume(RPAREN);
                return;
              }
            }
          }
        }
      }
      return false;
    }

    /** `parse()`: accept exactly the token lists Accepts describes. */
    method Parse() returns (b: bool)
      requires Valid()
      modifies this
      ensures Valid() && pos == FormulaRun(tokens, old(pos)).pos
      ensures b <==> FormulaRun(tokens, old(pos)) == Run(true, |tokens|)
      ensures old(pos) == 0 ==> (b <==> Accepts(tokens))
    {
      var f := Formula();
      b := f && pos == |tokens|;
    }
  }

  // ---------------------------------------------------------------------------
  // What FORMULA recognises

  /** From cursor p on, the kinds of the tokens of ts spell the formula f, token by token. */
  predicate SpellsAt(ts: seq<Token>, p: nat, f: Formula)
    decreases f, 1
  {
    p + Size(f) <= |ts| && SpellsFits(ts, p, f)
  }

  /** SpellsAt once the tokens are known to fit: the shape of f, one level at a time. */
  predicate SpellsFits(ts: seq<Token>, p: nat, f: Formula)
    requires p + Size(f) <= |ts|
    decreases f, 0
  {
    match f
    case Truth => ts[p].kind == TRUE
    case Falsity => ts[p].kind == FALSE
    case Atom(_) => ts[p].kind == ID
    case Neg(g) =>
      ts[p].kind == LPAREN && ts[p + 1].kind == NOT && SpellsAt(ts, p + 2, g) &&
      ts[p + 2 + Size(g)].kind == RPAREN
    case Bin(op, l, r) =>
      ts[p].kind == LPAREN && ts[p + 1].kind == OpKind(op) && SpellsAt(ts, p + 2, l) &&
      SpellsAt(ts, p + 2 + Size(l), r) && ts[p + 2 + Size(l) + Size(r)].kind == RPAREN
  }

  /** From cursor p on, the identifiers of ts where f has its atoms carry the atoms' names. */
  predicate NamesAt(ts: seq<Token>, p: nat, f: Formula)
    decreases f, 1
  {
    p + Size(f) <= |ts| && NamesFit(ts, p, f)
  }

  /** NamesAt once the tokens are known to fit. */
  predicate NamesFit(ts: seq<Token>, p: nat, f: Formula)
    requires p + Size(f) <= |ts|
    decreases f, 0
  {
    match f
    case Truth => true
    case Falsity => true
    case Atom(name) => ts[p].text == name
    case Neg(g) => NamesAt(ts, p + 2, g)
    case Bin(_, l, r) => NamesAt(ts, p + 2, l) && NamesAt(ts, p + 2 + Size(l), r)
  }

  /**
   * Completeness: wherever the kinds of the tokens after the cursor spell a
   * formula, FORMULA reads exactly that formula, whatever comes after it and
   * whatever the tokens' texts are.
   */
  lemma FormulaRunReads(ts: seq<Token>, p: nat, f: Formula)
    requires SpellsAt(ts, p, f)
    ensures FormulaRun(ts, p) == Run(true, p + Size(f))
  {
    ReadsSized(ts, p, f, Size(f));
  }

  /** FormulaRunReads, with the size of f passed as n. */
  lemma {:induction false} ReadsSized(ts: seq<Token>, p: nat, f: Formula, n: nat)
    requires n == Size(f) && SpellsAt(ts, p, f)
    ensures FormulaRun(ts, p) == Run(true, p + n)
    decreases f, 1
  {
    if f.Neg? {
      UnpackNeg(ts, p, f, n - 3);
      NegReads(ts, p, f, n - 3, n);
    } else if f.Bin? {
      var n1 := Size(f.left);
      var n2 := n - 3 - n1;
      UnpackBin(ts, p, f, n1, n2);
      BinReads(ts, p, f, n1, n2, n);
    }
  }

  /** The tokens `( NOT g )` from p on, with the size of g passed as n. */
  lemma UnpackNeg(ts: seq<Token>, p: nat, f: Formula, n: nat)
    requires f.Neg? && n == Size(f.arg) && SpellsAt(ts, p, f)
    ensures p + 3 + n <= |ts| && ts[p].kind == LPAREN && ts[p + 1].kind == NOT
    ensures SpellsAt(ts, p + 2, f.arg) && ts[p + 2 + n].kind == RPAREN
  {
  }

  /** The tokens `( op l r )` from p on, with the sizes of l and r passed as n1 and n2. */
  lemma UnpackBin(ts: seq<Token>, p: nat, f: Formula, n1: nat, n2: nat)
    requires f.Bin? && n1 == Size(f.left) && n2 == Size(f.right) && SpellsAt(ts, p, f)
    ensures p + 3 + n1 + n2 <= |ts| && ts[p].kind == LPAREN && ts[p + 1].kind == OpKind(f.op) && IsBinary(ts[p + 1].kind)
    ensures SpellsAt(ts, p + 2, f.left) && SpellsAt(ts, p + 2 + n1, f.right) && ts[p + 2 + n1 + n2].kind == RPAREN
  {
  }

  /** `( NOT F )` from p on, where F reads n tokens. */
  lemma GroupRunNeg(ts: seq<Token>, p: nat, n: nat, m: nat)
    requires m == n + 3 && p + 3 + n <= |ts| && ts[p].kind == LPAREN && ts[p + 1].kind == NOT
    requires FormulaRun(ts, p + 2) == Run(true, p + 2 + n) && ts[p + 2 + n].kind == RPAREN
    ensures FormulaRun(ts, p) == Run(true, p + m)
  {
  }

  /** `( op F F )` from p on, where the sub-formulas read n1 and n2 tokens. */
  lemma GroupRunBin(ts: seq<Token>, p: nat, n1: nat, n2: nat, m: nat)
    requires m == n1 + n2 + 3 && p + 3 + n1 + n2 <= |ts| && ts[p].kind == LPAREN && IsBinary(ts[p + 1].kind)
    requires FormulaRun(ts, p + 2) == Run(true, p + 2 + n1)
    requires FormulaRun(ts, p + 2 + n1) == Run(true, p + 2 + n1 + n2) && ts[p + 2 + n1 + n2].kind == RPAREN
    ensures FormulaRun(ts, p) == Run(true, p + m)
  {
  }

  /** ReadsSized for `( NOT g )`, from the tokens' shape. */
  lemma {:induction false} NegReads(ts: seq<Token>, p: nat, f: Formula, n: nat, m: nat)
    requires f.Neg? && n == Size(f.arg) && m == n + 3
    requires p + 3 + n <= |ts| && ts[p].kind == LPAREN && ts[p + 1].kind == NOT
    requires SpellsAt(ts, p + 2, f.arg) && ts[p + 2 + n].kind == RPAREN
    ensures FormulaRun(ts, p) == Run(true, p + m)
    decreases f, 0
  {
    ReadsSized(ts, p + 2, f.arg, n);
    GroupRunNeg(ts, p, n, m);
  }

  /** ReadsSized for `( op l r )`, from the tokens' shape. */
  lemma {:induction false} BinReads(ts: seq<Token>, p: nat, f: Formula, n1: nat, n2: nat, m: nat)
    requires f.Bin? && n1 == Size(f.left) && n2 == Size(f.right) && m == n1 + n2 + 3
    requires p + 3 + n1 + n2 <= |ts| && ts[p].kind == LPAREN && IsBinary(ts[p + 1].kind)
    requires SpellsAt(ts, p + 2, f.left) && SpellsAt(ts, p + 2 + n1, f.right) && ts[p + 2 + n1 + n2].kind == RPAREN
    ensures FormulaRun(ts, p) == Run(true, p + m)
    decreases f, 0
  {
    ReadsSized(ts, p + 2, f.left, n1);
    ReadsSized(ts, p + 2 + n1, f.right, n2);
    GroupRunBin(ts, p, n1, n2, m);
  }

  /** The connective a binary kind stands for. */
  function KindOp(k: Kind): (op: BinOp)
    requires IsBinary(k)
    ensures OpKind(op) == k
  {
    match k
    case AND => And
    case OR => Or
    case IMPLIES => Implies
    case IFF => Iff
  }

  /**
   * Soundness: a successful FORMULA has read a formula, kind by kind, whose
   * atoms are named by the identifiers' texts.
   */
  lemma {:induction false} FormulaRunTree(ts: seq<Token>, p: nat) returns (f: Formula)
    requires p <= |ts| && FormulaRun(ts, p).ok
    ensures FormulaRun(ts, p).pos == p + Size(f) && SpellsAt(ts, p, f) && NamesAt(ts, p, f)
    decreases |ts| - p, 1
  {
    var k := ts[p].kind;
    if k == TRUE {
      f := Truth;
    } else if k == FALSE {
      f := Falsity;
    } else if k == ID {
      f := Atom(ts[p].text);
    } else if ts[p + 1].kind == NOT {
      f := NegTree(ts, p);
    } else {
      f := BinTree(ts, p);
    }
  }

  /** A successful FORMULA at `( NOT`: where its sub-formula ends. */
  lemma SplitNeg(ts: seq<Token>, p: nat) returns (e: nat)
    requires p + 1 < |ts| && ts[p].kind == LPAREN && ts[p + 1].kind == NOT && FormulaRun(ts, p).ok
    ensures FormulaRun(ts, p + 2).ok && FormulaRun(ts, p + 2).pos == e
    ensures e < |ts| && ts[e].kind == RPAREN && FormulaRun(ts, p).pos == e + 1
  {
    e := FormulaRun(ts, p + 2).pos;
  }

  /** A successful FORMULA at `( op`: where its two sub-formulas end. */
  lemma SplitBin(ts: seq<Token>, p: nat) returns (a: nat, e: nat)
    requires p + 1 < |ts| && ts[p].kind == LPAREN && ts[p + 1].kind != NOT && FormulaRun(ts, p).ok
    ensures IsBinary(ts[p + 1].kind)
    ensures FormulaRun(ts, p + 2).ok && FormulaRun(ts, p + 2).pos == a
    ensures a <= |ts| && FormulaRun(ts, a).ok && FormulaRun(ts, a).pos == e
    ensures e < |ts| && ts[e].kind == RPAREN && FormulaRun(ts, p).pos == e + 1
  {
    a := FormulaRun(ts, p + 2).pos;
    e := FormulaRun(ts, a).pos;
  }

  /** `( NOT g )` from p on, by kinds. */
  lemma PackSpellsNeg(ts: seq<Token>, p: nat, f: Formula)
    requires f.Neg? && p + Size(f) <= |ts| && ts[p].kind == LPAREN && ts[p + 1].kind == NOT
    requires SpellsAt(ts, p + 2, f.arg) && ts[p + 2 + Size(f.arg)].kind == RPAREN
    ensures SpellsAt(ts, p, f)
  {
  }

  /** `( op l r )` from p on, by kinds. */
  lemma PackSpellsBin(ts: seq<Token>, p: nat, f: Formula)
    requires f.Bin? && p + Size(f) <= |ts| && ts[p].kind == LPAREN && ts[p + 1].kind == OpKind(f.op)
    requires SpellsAt(ts, p + 2, f.left) && SpellsAt(ts, p + 2 + Size(f.left), f.right)
    requires ts[p + 2 + Size(f.left) + Size(f.right)].kind == RPAREN
    ensures SpellsAt(ts, p, f)
  {
  }

  /** The atoms of `( NOT g )` from p on. */
  lemma PackNamesNeg(ts: seq<Token>, p: nat, f: Formula)
    requires f.Neg? && p + Size(f) <= |ts| && NamesAt(ts, p + 2, f.arg)
    ensures NamesAt(ts, p, f)
  {
  }

  /** The atoms of `( op l r )` from p on. */
  lemma PackNamesBin(ts: seq<Token>, p: nat, f: Formula)
    requires f.Bin? && p + Size(f) <= |ts|
    requires NamesAt(ts, p + 2, f.left) && NamesAt(ts, p + 2 + Size(f.left), f.right)
    ensures NamesAt(ts, p, f)
  {
  }

  /** The size of `( op l r )`. */
  lemma SizeBin(f: Formula)
    requires f.Bin?
    ensures Size(f) == Size(f.left) + Size(f.right) + 3
  {
  }

  /** FormulaRunTree at `( NOT`. */
  lemma {:induction false} NegTree(ts: seq<Token>, p: nat) returns (f: Formula)
    requires p + 1 < |ts| && ts[p].kind == LPAREN && ts[p + 1].kind == NOT && FormulaRun(ts, p).ok
    ensures FormulaRun(ts, p).pos == p + Size(f) && SpellsAt(ts, p, f) && NamesAt(ts, p, f)
    decreases |ts| - p, 0
  {
    var e := SplitNeg(ts, p);
    var g := FormulaRunTree(ts, p + 2);
    f := Neg(g);
    PackSpellsNeg(ts, p, f);
    PackNamesNeg(ts, p, f);
  }

  /** FormulaRunTree at `( op`. */
  lemma {:induction false} BinTree(ts: seq<Token>, p: nat) returns (f: Formula)
    requires p + 1 < |ts| && ts[p].kind == LPAREN && ts[p + 1].kind != NOT && FormulaRun(ts, p).ok
    ensures FormulaRun(ts, p).pos == p + Size(f) && SpellsAt(ts, p, f) && NamesAt(ts, p, f)
    decreases |ts| - p, 0
  {
    var a, e := SplitBin(ts, p);
    var l := FormulaRunTree(ts, p + 2);
    var r := FormulaRunTree(ts, a);
    f := Bin(KindOp(ts[p + 1].kind), l, r);
    ConcludeBin(ts, p, f, a, e);
  }

  /** The last step of BinTree: the two sub-formulas and the parentheses around them make up f. */
  lemma ConcludeBin(ts: seq<Token>, p: nat, f: Formula, a: nat, e: nat)
    requires f.Bin? && a == p + 2 + Size(f.left) && e == a + Size(f.right) && e < |ts|
    requires ts[p].kind == LPAREN && ts[p + 1].kind == OpKind(f.op) && ts[e].kind == RPAREN && FormulaRun(ts, p).pos == e + 1
    requires SpellsAt(ts, p + 2, f.left) && NamesAt(ts, p + 2, f.left)
    requires SpellsAt(ts, a, f.right) && NamesAt(ts, a, f.right)
    ensures FormulaRun(ts, p).pos == p + Size(f) && SpellsAt(ts, p, f) && NamesAt(ts, p, f)
  {
    SizeBin(f);
    PackSpellsBin(ts, p, f);
    PackNamesBin(ts, p, f);
  }
}
