/**
 * What `parse()` accepts: exactly the token lists that spell a formula of the
 * grammar with no token left over. Builds on the soundness and completeness
 * lemmas of module Recognizer.
 */
module Acceptance {
  import opened Tokens
  import opened Grammar
  import opened Recognizer

  /** `parse()` succeeds exactly on the token lists whose kinds spell one formula with nothing after it. */
  lemma AcceptsIff(ts: seq<Token>)
    ensures Accepts(ts) <==> exists f :: Size(f) == |ts| && SpellsAt(ts, 0, f)
  {
    if Accepts(ts) {
      var f := FormulaRunTree(ts, 0);
      assert Size(f) == |ts| && SpellsAt(ts, 0, f);
    }
    if exists f :: Size(f) == |ts| && SpellsAt(ts, 0, f) {
      var f :| Size(f) == |ts| && SpellsAt(ts, 0, f);
      FormulaRunReads(ts, 0, f);
    }
  }

  /** Extending the tokens after a formula keeps its spelling. */
  lemma SpellsExtend(ts: seq<Token>, rest: seq<Token>, p: nat, f: Formula)
    requires SpellsAt(ts, p, f)
    ensures SpellsAt(ts + rest, p, f)
  {
    SpellsTransfer(ts, ts + rest, p, f);
  }

  /** From lo up to hi, both lists hold tokens of the same kinds. */
  predicate SameKinds(ts: seq<Token>, us: seq<Token>, lo: nat, hi: nat) {
    hi <= |ts| && hi <= |us| && forall k :: lo <= k < hi ==> us[k].kind == ts[k].kind
  }

  /** Spelling looks at kinds only: tokens of the same kinds spell the same formula. */
  lemma {:induction false} SpellsTransfer(ts: seq<Token>, us: seq<Token>, p: nat, f: Formula)
    requires SpellsAt(ts, p, f) && SameKinds(ts, us, p, p + Size(f))
    ensures SpellsAt(us, p, f)
    decreases f, 1
  {
    if f.Neg? {
      TransferNeg(ts, us, p, f);
    } else if f.Bin? {
      TransferBin(ts, us, p, f);
    } else {
      assert us[p].kind == ts[p].kind;
    }
  }

  /** Same kinds on a range, so on any range within it. */
  lemma SameKindsWithin(ts: seq<Token>, us: seq<Token>, lo: nat, hi: nat, lo2: nat, hi2: nat)
    requires SameKinds(ts, us, lo, hi) && lo <= lo2 <= hi2 <= hi
    ensures SameKinds(ts, us, lo2, hi2)
  {
  }

  /** SpellsTransfer for `( NOT g )`. */
  lemma {:induction false} TransferNeg(ts: seq<Token>, us: seq<Token>, p: nat, f: Formula)
    requires f.Neg? && SpellsAt(ts, p, f) && SameKinds(ts, us, p, p + Size(f))
    ensures SpellsAt(us, p, f)
    decreases f, 0
  {
    TransferNegParts(ts, us, p, f);
    SpellsTransfer(ts, us, p + 2, f.arg);
    PackSpellsNeg(us, p, f);
  }

  /** What TransferNeg needs: the frame of `( NOT g )` in us, and g spelt in ts over kinds us shares. */
  lemma TransferNegParts(ts: seq<Token>, us: seq<Token>, p: nat, f: Formula)
    requires f.Neg? && SpellsAt(ts, p, f) && SameKinds(ts, us, p, p + Size(f))
    ensures p + Size(f) <= |us| && us[p].kind == LPAREN && us[p + 1].kind == NOT
    ensures us[p + 2 + Size(f.arg)].kind == RPAREN
    ensures SpellsAt(ts, p + 2, f.arg) && SameKinds(ts, us, p + 2, p + 2 + Size(f.arg))
  {
    var e := p + 2 + Size(f.arg);
    UnpackNeg(ts, p, f, Size(f.arg));
    assert us[p].kind == ts[p].kind && us[p + 1].kind == ts[p + 1].kind && us[e].kind == ts[e].kind;
    SameKindsWithin(ts, us, p, p + Size(f), p + 2, e);
  }

  /** SpellsTransfer for `( op l r )`. */
  lemma {:induction false} TransferBin(ts: seq<Token>, us: seq<Token>, p: nat, f: Formula)
    requires f.Bin? && SpellsAt(ts, p, f) && SameKinds(ts, us, p, p + Size(f))
    ensures SpellsAt(us, p, f)
    decreases f, 0
  {
    TransferBinParts(ts, us, p, f);
    SpellsTransfer(ts, us, p + 2 + Size(f.left), f.right);
    SpellsTransfer(ts, us, p + 2, f.left);
    PackSpellsBin(us, p, f);
  }

  /** What TransferBin needs: the frame of `( op l r )` in us, and l and r spelt in ts over kinds us shares. */
  lemma TransferBinParts(ts: seq<Token>, us: seq<Token>, p: nat, f: Formula)
    requires f.Bin? && SpellsAt(ts, p, f) && SameKinds(ts, us, p, p + Size(f))
    ensures p + Size(f) <= |us| && us[p].kind == LPAREN && us[p + 1].kind == OpKind(f.op)
    ensures us[p + 2 + Size(f.left) + Size(f.right)].kind == RPAREN
    ensures SpellsAt(ts, p + 2, f.left) && SameKinds(ts, us, p + 2, p + 2 + Size(f.left))
    ensures SpellsAt(ts, p + 2 + Size(f.left), f.right)
    ensures SameKinds(ts, us, p + 2 + Size(f.left), p + 2 + Size(f.left) + Size(f.right))
  {
    var a := p + 2 + Size(f.left);
    var e := a + Size(f.right);
    UnpackBin(ts, p, f, Size(f.left), Size(f.right));
    SizeBin(f);
    assert us[p].kind == ts[p].kind && us[p + 1].kind == ts[p + 1].kind && us[e].kind == ts[e].kind;
    SameKindsWithin(ts, us, p, p + Size(f), p + 2, a);
    SameKindsWithin(ts, us, p, p + Size(f), a, e);
  }

  /** FORMULA stops right after the formula it reads: a success is unchanged by appending tokens. */
  lemma FormulaRunExtend(ts: seq<Token>, rest: seq<Token>, p: nat)
    requires p <= |ts| && FormulaRun(ts, p).ok
    ensures FormulaRun(ts + rest, p) == FormulaRun(ts, p)
  {
    var f := FormulaRunTree(ts, p);
    SpellsExtend(ts, rest, p, f);
    FormulaRunReads(ts + rest, p, f);
  }

  /** No accepted token list is a proper prefix of another. */
  lemma AcceptsPrefixFree(ts: seq<Token>, rest: seq<Token>)
    requires Accepts(ts)
    ensures Accepts(ts + rest) <==> rest == []
  {
    FormulaRunExtend(ts, rest, 0);
    if rest == [] {
      assert ts + rest == ts;
    }
  }

  /** Two identifiers in a row are rejected, though the first alone is accepted. */
  lemma TwoAtomsRejected(a: Token, b: Token)
    requires a.kind == ID && b.kind == ID
    ensures Accepts([a]) && !Accepts([a, b])
  {
    AcceptsPrefixFree([a], [b]);
    assert [a] + [b] == [a, b];
  }

  /** From cursor p on, ts holds the serialisation of f, token for token. */
  predicate CopyAt(ts: seq<Token>, p: nat, f: Formula) {
    p + Size(f) <= |ts| && forall k :: 0 <= k < Size(f) ==> ts[p + k] == Serialize(f)[k]
  }

  /** One level of Serialize for `( NOT g )`. */
  lemma SerializeNeg(f: Formula)
    requires f.Neg?
    ensures Serialize(f) == [Tok(LPAREN), Tok(NOT)] + Serialize(f.arg) + [Tok(RPAREN)]
  {
  }

  /** One level of Serialize for `( op l r )`. */
  lemma SerializeBin(f: Formula)
    requires f.Bin?
    ensures Serialize(f) == [Tok(LPAREN), Tok(OpKind(f.op))] + (Serialize(f.left) + Serialize(f.right)) + [Tok(RPAREN)]
  {
  }

  /** Where the items of two opening items, a middle and a closing item sit. */
  lemma FramedAt<T>(a: T, b: T, mid: seq<T>, c: T)
    ensures var s := [a, b] + mid + [c];
      |s| == |mid| + 3 && s[0] == a && s[1] == b && s[|mid| + 2] == c &&
      forall k :: 0 <= k < |mid| ==> s[k + 2] == mid[k]
  {
  }

  /** Where the items of a concatenation sit. */
  lemma ConcatAt<T>(l: seq<T>, r: seq<T>)
    ensures forall k :: 0 <= k < |l| ==> (l + r)[k] == l[k]
    ensures forall k :: 0 <= k < |r| ==> (l + r)[|l| + k] == r[k]
  {
  }

  /** The parts of a copied `( NOT g )`. */
  lemma CopyNegParts(ts: seq<Token>, p: nat, f: Formula)
    requires f.Neg? && CopyAt(ts, p, f)
    ensures ts[p] == Tok(LPAREN) && ts[p + 1] == Tok(NOT) && CopyAt(ts, p + 2, f.arg)
    ensures ts[p + 2 + Size(f.arg)] == Tok(RPAREN)
  {
    var s, g := Serialize(f), Serialize(f.arg);
    SerializeNeg(f);
    FramedAt(Tok(LPAREN), Tok(NOT), g, Tok(RPAREN));
    assert ts[p + 0] == s[0] && ts[p + 1] == s[1] && ts[p + (|g| + 2)] == s[|g| + 2];
    forall k | 0 <= k < |g|
      ensures ts[p + 2 + k] == g[k]
    {
      assert ts[p + (k + 2)] == s[k + 2];
    }
  }

  /** The parts of a copied `( op l r )`. */
  lemma CopyBinParts(ts: seq<Token>, p: nat, f: Formula)
    requires f.Bin? && CopyAt(ts, p, f)
    ensures ts[p] == Tok(LPAREN) && ts[p + 1] == Tok(OpKind(f.op))
    ensures CopyAt(ts, p + 2, f.left) && CopyAt(ts, p + 2 + Size(f.left), f.right)
    ensures ts[p + 2 + Size(f.left) + Size(f.right)] == Tok(RPAREN)
  {
    var s, l, r := Serialize(f), Serialize(f.left), Serialize(f.right);
    SerializeBin(f);
    FramedAt(Tok(LPAREN), Tok(OpKind(f.op)), l + r, Tok(RPAREN));
    ConcatAt(l, r);
    assert ts[p + 0] == s[0] && ts[p + 1] == s[1] && ts[p + (|l + r| + 2)] == s[|l + r| + 2];
    forall k | 0 <= k < |l|
      ensures ts[p + 2 + k] == l[k]
    {
      assert ts[p + (k + 2)] == s[k + 2];
    }
    forall k | 0 <= k < |r|
      ensures ts[p + 2 + |l| + k] == r[k]
    {
      assert ts[p + (|l| + k + 2)] == s[|l| + k + 2];
    }
  }

  /** A copy of the serialisation of f spells f, by kinds and by names. */
  lemma {:induction false} CopySpells(ts: seq<Token>, p: nat, f: Formula)
    requires CopyAt(ts, p, f)
    ensures SpellsAt(ts, p, f) && NamesAt(ts, p, f)
    decreases f
  {
    if f.Neg? {
      CopyNegParts(ts, p, f);
      CopySpells(ts, p + 2, f.arg);
      PackSpellsNeg(ts, p, f);
      PackNamesNeg(ts, p, f);
    } else if f.Bin? {
      CopyBinParts(ts, p, f);
      CopySpells(ts, p + 2, f.left);
      CopySpells(ts, p + 2 + Size(f.left), f.right);
      PackSpellsBin(ts, p, f);
      PackNamesBin(ts, p, f);
    } else {
      assert ts[p + 0] == Serialize(f)[0];
    }
  }

  /** The atoms of `( NOT g )` and `( op l r )`, one level down. */
  lemma UnpackNames(ts: seq<Token>, p: nat, f: Formula)
    requires (f.Neg? || f.Bin?) && NamesAt(ts, p, f)
    ensures f.Neg? ==> NamesAt(ts, p + 2, f.arg)
    ensures f.Bin? ==> NamesAt(ts, p + 2, f.left) && NamesAt(ts, p + 2 + Size(f.left), f.right)
  {
  }

  /** From p on, the tokens are `( NOT g )` for f = Neg(g), with g spelt and named. */
  predicate NegParts(ts: seq<Token>, p: nat, f: Formula) {
    f.Neg? && p + 3 + Size(f.arg) <= |ts| && ts[p].kind == LPAREN && ts[p + 1].kind == NOT &&
    SpellsAt(ts, p + 2, f.arg) && NamesAt(ts, p + 2, f.arg) && ts[p + 2 + Size(f.arg)].kind == RPAREN
  }

  /** From p on, the tokens are `( op l r )` for f = Bin(op, l, r), with l and r spelt and named. */
  predicate BinParts(ts: seq<Token>, p: nat, f: Formula) {
    f.Bin? && p + 3 + Size(f.left) + Size(f.right) <= |ts| &&
    ts[p].kind == LPAREN && ts[p + 1].kind == OpKind(f.op) &&
    SpellsAt(ts, p + 2, f.left) && NamesAt(ts, p + 2, f.left) &&
    SpellsAt(ts, p + 2 + Size(f.left), f.right) && NamesAt(ts, p + 2 + Size(f.left), f.right) &&
    ts[p + 2 + Size(f.left) + Size(f.right)].kind == RPAREN
  }

  /** A spelt and named `( NOT g )`, one level down. */
  lemma UnpackNegParts(ts: seq<Token>, p: nat, f: Formula)
    requires f.Neg? && SpellsAt(ts, p, f) && NamesAt(ts, p, f)
    ensures NegParts(ts, p, f)
  {
    UnpackNeg(ts, p, f, Size(f.arg));
    UnpackNames(ts, p, f);
  }

  /** A spelt and named `( op l r )`, one level down. */
  lemma UnpackBinParts(ts: seq<Token>, p: nat, f: Formula)
    requires f.Bin? && SpellsAt(ts, p, f) && NamesAt(ts, p, f)
    ensures BinParts(ts, p, f)
  {
    UnpackBin(ts, p, f, Size(f.left), Size(f.right));
    UnpackNames(ts, p, f);
  }

  /**
   * Two lists of canonical tokens that spell the same formula by kinds and by
   * names from p on agree on its tokens.
   */
  lemma {:induction false} SpellsAgree(ts: seq<Token>, us: seq<Token>, p: nat, f: Formula)
    requires SpellsAt(ts, p, f) && NamesAt(ts, p, f) && SpellsAt(us, p, f) && NamesAt(us, p, f)
    requires AllCanonical(ts) && AllCanonical(us)
    ensures forall k :: p <= k < p + Size(f) ==> ts[k] == us[k]
    decreases f, 1
  {
    if f.Neg? {
      UnpackNegParts(ts, p, f);
      UnpackNegParts(us, p, f);
      NegAgree(ts, us, p, f);
    } else if f.Bin? {
      UnpackBinParts(ts, p, f);
      UnpackBinParts(us, p, f);
      BinAgree(ts, us, p, f);
    }
  }

  /** SpellsAgree for `( NOT g )`. */
  lemma {:induction false} NegAgree(ts: seq<Token>, us: seq<Token>, p: nat, f: Formula)
    requires NegParts(ts, p, f) && NegParts(us, p, f)
    requires AllCanonical(ts) && AllCanonical(us)
    ensures forall k :: p <= k < p + Size(f) ==> ts[k] == us[k]
    decreases f, 0
  {
    var b := p + 2 + Size(f.arg);
    SpellsAgree(ts, us, p + 2, f.arg);
    SameToken(ts[p], us[p]);
    SameToken(ts[p + 1], us[p + 1]);
    SameToken(ts[b], us[b]);
    AgreeJoin(ts, us, p, b, b);
  }

  /** SpellsAgree for `( op l r )`. */
  lemma {:induction false} BinAgree(ts: seq<Token>, us: seq<Token>, p: nat, f: Formula)
    requires BinParts(ts, p, f) && BinParts(us, p, f)
    requires AllCanonical(ts) && AllCanonical(us)
    ensures forall k :: p <= k < p + Size(f) ==> ts[k] == us[k]
    decreases f, 0
  {
    var a := p + 2 + Size(f.left);
    var e := a + Size(f.right);
    SpellsAgree(ts, us, p + 2, f.left);
    SpellsAgree(ts, us, a, f.right);
    SameToken(ts[p], us[p]);
    SameToken(ts[p + 1], us[p + 1]);
    SameToken(ts[e], us[e]);
    AgreeJoin(ts, us, p, a, e);
    SizeBin(f);
  }

  /**
   * Agreement on the tokens from p to e, inclusive, from agreement on the
   * first two, on two runs from p + 2 to a and from a to e, and on the last.
   */
  lemma AgreeJoin(ts: seq<Token>, us: seq<Token>, p: nat, a: nat, e: nat)
    requires p + 2 <= a <= e < |ts| && e < |us|
    requires ts[p] == us[p] && ts[p + 1] == us[p + 1] && ts[e] == us[e]
    requires forall k :: p + 2 <= k < a ==> ts[k] == us[k]
    requires forall k :: a <= k < e ==> ts[k] == us[k]
    ensures forall k :: p <= k <= e ==> ts[k] == us[k]
  {
  }

  /** Two canonical tokens of the same kind other than ID are the same token. */
  lemma SameToken(t: Token, u: Token)
    requires Canonical(t) && Canonical(u) && t.kind == u.kind != ID
    ensures t == u
  {
  }

  /** The serialisation of f spells f, by kinds and by names. */
  lemma SerializeSpells(f: Formula)
    ensures SpellsAt(Serialize(f), 0, f) && NamesAt(Serialize(f), 0, f)
  {
    assert forall k :: 0 <= k < Size(f) ==> Serialize(f)[0 + k] == Serialize(f)[k];
    CopySpells(Serialize(f), 0, f);
  }

  /** `parse()` accepts the serialisation of every formula. */
  lemma AcceptsSerialize(f: Formula)
    ensures Accepts(Serialize(f))
  {
    SerializeSpells(f);
    FormulaRunReads(Serialize(f), 0, f);
  }

  /** A serialised formula followed by more tokens is rejected: nothing may be left over. */
  lemma AcceptsNoLeftover(f: Formula, rest: seq<Token>)
    ensures Accepts(Serialize(f) + rest) <==> rest == []
  {
    AcceptsSerialize(f);
    AcceptsPrefixFree(Serialize(f), rest);
  }

  /**
   * On canonical tokens, as the lexer produces them, `parse()` succeeds
   * exactly on the serialisations of formulas.
   */
  lemma AcceptsCanonical(ts: seq<Token>)
    requires AllCanonical(ts)
    ensures Accepts(ts) <==> exists f :: Serialize(f) == ts
  {
    if Accepts(ts) {
      var f := FormulaRunTree(ts, 0);
      SerializeSpells(f);
      SerializeCanonical(f);
      SpellsAgree(ts, Serialize(f), 0, f);
      assert ts == Serialize(f);
    }
    if exists f :: Serialize(f) == ts {
      var f :| Serialize(f) == ts;
      AcceptsSerialize(f);
    }
  }
}
