/**
 * The lexer `analisador_lexico` and the identifier test `eh_proposicao`
 * (RA1Frank/validador.py). `Lex` is the imperative scan; `LexFrom` is the
 * reference definition of its loop, and the lemmas here state what the
 * result means.
 */
module Lexer {
  import opened Wrappers
  import opened Tokens

  /** `c.isspace()` for a single character: the characters Python's `str.isspace` accepts. */
  predicate IsSpace(c: char) {
    '\t' <= c <= '\r' || '\U{1C}' <= c <= ' ' || c == '\U{85}' || c == '\U{A0}' || c == '\U{1680}' ||
    '\U{2000}' <= c <= '\U{200A}' || c == '\U{2028}' || c == '\U{2029}' || c == '\U{202F}' ||
    c == '\U{205F}' || c == '\U{3000}'
  }

  /** The character class `[0-9]`. */
  predicate IsDigit(c: char) {
    '0' <= c <= '9'
  }

  /** The character class `[0-9a-z]`. */
  predicate IsIdentChar(c: char) {
    IsDigit(c) || 'a' <= c <= 'z'
  }

  /** `eh_proposicao`: the whole text matches `[0-9][0-9a-z]*`. */
  predicate IsProposition(s: string) {
    |s| > 0 && IsDigit(s[0]) && forall k :: 1 <= k < |s| ==> IsIdentChar(s[k])
  }

  /** `s.startswith(lit, i)`. */
  predicate StartsWith(s: string, lit: string, i: nat) {
    i + |lit| <= |s| && forall q :: 0 <= q < |lit| ==> s[i + q] == lit[q]
  }

  /** The end of the greedy run of `[0-9a-z]` characters that starts at position k. */
  function IdentEnd(s: string, k: nat): (e: nat)
    requires k <= |s|
    ensures k <= e <= |s|
    decreases |s| - k
  {
    if k == |s| || !IsIdentChar(s[k]) then k else IdentEnd(s, k + 1)
  }

  /** IdentEnd stops exactly at the first character outside `[0-9a-z]`. */
  lemma {:induction false} IdentEndIsRunEnd(s: string, k: nat)
    requires k <= |s|
    ensures forall m :: k <= m < IdentEnd(s, k) ==> IsIdentChar(s[m])
    ensures IdentEnd(s, k) == |s| || !IsIdentChar(s[IdentEnd(s, k)])
    decreases |s| - k
  {
    if k < |s| && IsIdentChar(s[k]) {
      IdentEndIsRunEnd(s, k + 1);
    }
  }

  /**
   * `re.match(r'[0-9][0-9a-z]*', s[i:])`: the length of the greedy match at
   * position i, or None when there is none.
   */
  function MatchProposition(s: string, i: nat): (r: Option<nat>)
    requires i <= |s|
    ensures r.None? <==> i == |s| || !IsDigit(s[i])
    ensures r.Some? ==> 0 < r.value && i + r.value <= |s|
  {
    if i < |s| && IsDigit(s[i]) then Some(IdentEnd(s, i + 1) - i) else None
  }

  /**
   * The match is a proposition, and it is maximal: it ends at the end of the
   * input or before a character outside `[0-9a-z]`.
   */
  lemma MatchIsProposition(s: string, i: nat)
    requires i <= |s| && MatchProposition(s, i).Some?
    ensures var n := MatchProposition(s, i).value;
      IsProposition(s[i..i + n]) && (i + n == |s| || !IsIdentChar(s[i + n]))
  {
    var n := MatchProposition(s, i).value;
    IdentEndIsRunEnd(s, i + 1);
    var text := s[i..i + n];
    assert forall k :: 1 <= k < n ==> text[k] == s[i + k];
  }

  /** The match is the longest: no longer text at position i is a proposition. */
  lemma MatchIsLongest(s: string, i: nat, n: nat)
    requires i <= |s| && MatchProposition(s, i).Some?
    requires MatchProposition(s, i).value < n <= |s| - i
    ensures !IsProposition(s[i..i + n])
  {
    var len := MatchProposition(s, i).value;
    MatchIsProposition(s, i);
    assert s[i..i + n][len] == s[i + len];
  }

  /** `eh_proposicao(t)` holds exactly when the identifier match at the start of t covers all of t. */
  lemma PropositionIsFullMatch(t: string)
    ensures IsProposition(t) <==> MatchProposition(t, 0) == Some(|t|)
  {
    if MatchProposition(t, 0).Some? {
      MatchIsProposition(t, 0);
      var n := MatchProposition(t, 0).value;
      if n < |t| {
        MatchIsLongest(t, 0, |t|);
        assert t[0..|t|] == t;
      }
    }
    if IsProposition(t) {
      IdentEndIsRunEnd(t, 1);
    }
  }

  /** A run of `[0-9a-z]` from k to e that cannot be extended ends where IdentEnd says. */
  lemma {:induction false} IdentEndAt(s: string, k: nat, e: nat)
    requires k <= e <= |s|
    requires forall q :: k <= q < e ==> IsIdentChar(s[q])
    requires e == |s| || !IsIdentChar(s[e])
    ensures IdentEnd(s, k) == e
    decreases e - k
  {
    if k < e {
      IdentEndAt(s, k + 1, e);
    }
  }

  /** A proposition at position i that is not followed by a character of `[0-9a-z]` is exactly the match there. */
  lemma MatchDelimited(s: string, i: nat, w: string)
    requires IsProposition(w) && StartsWith(s, w, i)
    requires i + |w| == |s| || !IsIdentChar(s[i + |w|])
    ensures MatchProposition(s, i) == Some(|w|)
  {
    forall q | i < q < i + |w|
      ensures IsIdentChar(s[q])
    {
      assert s[i + (q - i)] == w[q - i];
    }
    IdentEndAt(s, i + 1, i + |w|);
  }

  /**
   * The index in `Literals` of the first spelling, from index j on, that starts
   * at position i; `|Literals|` when there is none (the `for ... else` case).
   */
  function FirstLiteral(s: string, i: nat, j: nat): (r: nat)
    requires j <= |Literals|
    ensures j <= r <= |Literals|
    decreases |Literals| - j
  {
    if j == |Literals| || StartsWith(s, Literals[j].0, i) then j
    else FirstLiteral(s, i, j + 1)
  }

  /** FirstLiteral finds a spelling that starts at i, and no earlier one does. */
  lemma {:induction false} FirstLiteralIsFirst(s: string, i: nat, j: nat)
    requires j <= |Literals|
    ensures var m := FirstLiteral(s, i, j);
      (m < |Literals| ==> StartsWith(s, Literals[m].0, i)) &&
      forall k :: j <= k < m ==> !StartsWith(s, Literals[k].0, i)
    decreases |Literals| - j
  {
    if j < |Literals| && !StartsWith(s, Literals[j].0, i) {
      FirstLiteralIsFirst(s, i, j + 1);
    }
  }

  /** What the scanner does at one position: skip a space, emit a token, or fail. */
  datatype Scan = Space | Lexeme(token: Token) | NoMatch

  /** One iteration of the lexer's loop at position i. */
  function ScanAt(s: string, i: nat): (r: Scan)
    requires i < |s|
    ensures r.Space? <==> IsSpace(s[i])
    ensures r.Lexeme? ==> 0 < |r.token.text| && i + |r.token.text| <= |s|
  {
    if IsSpace(s[i]) then Space
    else
      var m := FirstLiteral(s, i, 0);
      if m < |Literals| then Lexeme(Token(Literals[m].1, Literals[m].0))
      else match MatchProposition(s, i)
        case Some(n) => Lexeme(Token(ID, s[i..i + n]))
        case None => NoMatch
  }

  /** A scan outcome that fits in s at position i: a lexeme's text is non-empty and in bounds. */
  predicate Fits(s: string, i: nat, sc: Scan) {
    sc.Lexeme? ==> 0 < |sc.token.text| && i + |sc.token.text| <= |s|
  }

  /**
   * Reference definition of the lexer's loop: the result of running it from
   * position i when the tokens acc have already been emitted.
   */
  function LexFrom(s: string, i: nat, acc: seq<Token>): Option<seq<Token>>
    requires i <= |s|
    decreases |s| - i, 1
  {
    if i == |s| then Some(acc) else LexAfter(s, i, acc, ScanAt(s, i))
  }

  /** The rest of the loop once the scan at position i has produced sc. */
  function LexAfter(s: string, i: nat, acc: seq<Token>, sc: Scan): Option<seq<Token>>
    requires i < |s| && Fits(s, i, sc)
    decreases |s| - i, 0
  {
    match sc
    case Space => LexFrom(s, i + 1, acc)
    case Lexeme(t) => LexFrom(s, i + |t.text|, acc + [t])
    case NoMatch => None
  }

  /** A whitespace character is skipped without emitting a token. */
  lemma LexFromSpace(s: string, i: nat, acc: seq<Token>)
    requires i < |s| && IsSpace(s[i])
    ensures LexFrom(s, i, acc) == LexFrom(s, i + 1, acc)
  {
  }

  /** A scanned lexeme is appended and the scan resumes right after its text. */
  lemma LexFromLexeme(s: string, i: nat, acc: seq<Token>, t: Token)
    requires i < |s| && ScanAt(s, i) == Lexeme(t)
    ensures LexFrom(s, i, acc) == LexFrom(s, i + |t.text|, acc + [t])
  {
  }

  /** A position where the scan fails makes the whole lexer fail, whatever was emitted before. */
  lemma LexFromNoMatch(s: string, i: nat, acc: seq<Token>)
    requires i < |s| && ScanAt(s, i) == NoMatch
    ensures LexFrom(s, i, acc) == None
  {
  }

  /** Where the loop resumes after the scan at i, when that scan does not fail. */
  function NextAt(s: string, i: nat): (j: nat)
    requires i < |s| && ScanAt(s, i) != NoMatch
    ensures i < j <= |s|
  {
    if ScanAt(s, i).Space? then i + 1 else i + |ScanAt(s, i).token.text|
  }

  /** Started at position i, the lexer's loop reaches position j. */
  predicate Visits(s: string, i: nat, j: nat)
    requires i <= |s|
    decreases |s| - i
  {
    i == j || (i < j && i < |s| && ScanAt(s, i) != NoMatch && Visits(s, NextAt(s, i), j))
  }

  /**
   * The lexer fails exactly when its loop reaches a position where the scan
   * fails: a non-space that starts no spelling and no identifier.
   */
  lemma {:induction false} LexFailsIff(s: string, i: nat, acc: seq<Token>)
    requires i <= |s|
    ensures LexFrom(s, i, acc) == None <==> exists j :: i <= j < |s| && Visits(s, i, j) && ScanAt(s, j) == NoMatch
    decreases |s| - i
  {
    if i < |s| {
      var sc := ScanAt(s, i);
      if sc == NoMatch {
        LexFromNoMatch(s, i, acc);
        assert Visits(s, i, i);
      } else {
        var n := NextAt(s, i);
        var acc' := if sc.Space? then acc else acc + [sc.token];
        if sc.Space? {
          LexFromSpace(s, i, acc);
        } else {
          LexFromLexeme(s, i, acc, sc.token);
        }
        LexFailsIff(s, n, acc');
        VisitsStep(s, i);
      }
    }
  }

  /** From a position where the scan does not fail, the loop visits that position and what it visits from the next one. */
  lemma VisitsStep(s: string, i: nat)
    requires i < |s| && ScanAt(s, i) != NoMatch
    ensures forall j :: Visits(s, i, j) <==> j == i || Visits(s, NextAt(s, i), j)
  {
  }

  /**
   * The body of the lexer's loop at a character that is not a space: the `for`
   * loop over the sorted spellings, then the identifier match of its `else`.
   */
  method ScanToken(expr: string, i: nat) returns (r: Scan)
    requires i < |expr| && !IsSpace(expr[i])
    ensures r == ScanAt(expr, i)
  {
    var j := 0;
    while j < |Literals| && !StartsWith(expr, Literals[j].0, i)
      invariant j <= |Literals|
      invariant FirstLiteral(expr, i, 0) == FirstLiteral(expr, i, j)
    {
      j := j + 1;
    }
    if j < |Literals| {
      var lit := Literals[j];
      return Lexeme(Token(lit.1, lit.0));
    }
    var m := MatchProposition(expr, i);
    if m.None? {
      return NoMatch;
    }
    return Lexeme(Token(ID, expr[i..i + m.value]));
  }

  /** `analisador_lexico(expr)`. */
  method Lex(expr: string) returns (r: Option<seq<Token>>)
    ensures r == LexFrom(expr, 0, [])
  {
    var tokens: seq<Token> := [];
    var i := 0;
    ghost var goal := LexFrom(expr, 0, []);
    while i < |expr|
      invariant i <= |expr|
      invariant goal == LexFrom(expr, i, tokens)
      decreases |expr| - i
    {
      if IsSpace(expr[i]) {
        LexFromSpace(expr, i, tokens);
        i := i + 1;
        continue;
      }
      var sc := ScanToken(expr, i);
      if sc.NoMatch? {
        LexFromNoMatch(expr, i, tokens);
        return None;
      }
      LexFromLexeme(expr, i, tokens, sc.token);
      tokens := tokens + [sc.token];
      i := i + |sc.token.text|;
    }
    return Some(tokens);
  }

  // ---------------------------------------------------------------------------
  // What the scan at one position does

  /** A token the lexer can emit: the spelling of its kind, or an identifier that is a proposition. */
  predicate WellFormed(t: Token) {
    Canonical(t) && (t.kind == ID ==> IsProposition(t.text))
  }

  /** Every token of ts is one the lexer can emit. */
  predicate AllWellFormed(ts: seq<Token>) {
    forall k :: 0 <= k < |ts| ==> WellFormed(ts[k])
  }

  /** No text contains a space character. */
  predicate Solid(t: string) {
    forall q :: 0 <= q < |t| ==> !IsSpace(t[q])
  }

  /** A printable ASCII character other than the blank is not a space. */
  predicate Printable(c: char) {
    '!' <= c <= '~'
  }

  /** No spelling is empty or starts with a digit, and every spelling is printable, so it holds no space. */
  lemma LiteralsShape()
    ensures forall m :: 0 <= m < |Literals| ==> 0 < |Literals[m].0| && !IsDigit(Literals[m].0[0])
    ensures forall m :: 0 <= m < |Literals| ==> Solid(Literals[m].0)
  {
    assert forall m, q :: 0 <= m < |Literals| && 0 <= q < |Literals[m].0| ==> Printable(Literals[m].0[q]);
  }

  /** A text cannot start at a position holding a character other than its first. */
  lemma NotStartsWith(s: string, w: string, i: nat)
    requires 0 < |w| && i < |s| && s[i] != w[0]
    ensures !StartsWith(s, w, i)
  {
    if i + |w| <= |s| {
      assert s[i..i + |w|][0] == s[i];
    }
  }

  /** Of two texts that both start at position i, the shorter is a prefix of the longer. */
  lemma StartsWithBoth(s: string, i: nat, a: string, b: string)
    requires StartsWith(s, a, i) && StartsWith(s, b, i)
    ensures |a| <= |b| ==> a <= b
    ensures |b| <= |a| ==> b <= a
  {
    if |a| <= |b| {
      assert b[..|a|] == s[i..i + |a|];
    } else {
      assert a[..|b|] == s[i..i + |b|];
    }
  }

  /** At most one spelling starts at any position, because no spelling is a prefix of another. */
  lemma OneLiteralAt(s: string, i: nat, m: nat, n: nat)
    requires m < |Literals| && n < |Literals|
    requires StartsWith(s, Literals[m].0, i) && StartsWith(s, Literals[n].0, i)
    ensures m == n
  {
    StartsWithBoth(s, i, Literals[m].0, Literals[n].0);
    LiteralsPrefixFree();
  }

  /**
   * Whichever spelling starts at a non-space position i is the one the scan
   * emits: the order in which the spellings are tried does not matter.
   */
  lemma ScanAtLiteral(s: string, i: nat, m: nat)
    requires i < |s| && !IsSpace(s[i])
    requires m < |Literals| && StartsWith(s, Literals[m].0, i)
    ensures ScanAt(s, i) == Lexeme(Token(Literals[m].1, Literals[m].0))
  {
    FirstLiteralIsFirst(s, i, 0);
    var f := FirstLiteral(s, i, 0);
    assert f <= m;
    OneLiteralAt(s, i, f, m);
  }

  /**
   * A digit always starts an identifier: the scan emits the longest text of the
   * form `[0-9][0-9a-z]*` at i, which ends at the end of the input or before a
   * character outside `[0-9a-z]`.
   */
  lemma ScanAtIdent(s: string, i: nat)
    requires i < |s| && IsDigit(s[i])
    ensures ScanAt(s, i).Lexeme? && ScanAt(s, i).token.kind == ID
    ensures var t := ScanAt(s, i).token.text;
      IsProposition(t) && StartsWith(s, t, i) && (i + |t| == |s| || !IsIdentChar(s[i + |t|]))
  {
    LiteralsShape();
    forall m | 0 <= m < |Literals|
      ensures !StartsWith(s, Literals[m].0, i)
    {
      NotStartsWith(s, Literals[m].0, i);
    }
    FirstLiteralIsFirst(s, i, 0);
    MatchIsProposition(s, i);
  }

  /**
   * The scan fails exactly at a character that is not a space, not a digit,
   * and not the start of any spelling.
   */
  lemma ScanAtNoMatch(s: string, i: nat)
    requires i < |s|
    ensures ScanAt(s, i) == NoMatch <==>
      !IsSpace(s[i]) && !IsDigit(s[i]) && forall m :: 0 <= m < |Literals| ==> !StartsWith(s, Literals[m].0, i)
  {
    FirstLiteralIsFirst(s, i, 0);
  }

  /** An emitted token is well formed, is the text at position i, and holds no space. */
  lemma ScanAtLexeme(s: string, i: nat)
    requires i < |s| && ScanAt(s, i).Lexeme?
    ensures var t := ScanAt(s, i).token;
      WellFormed(t) && StartsWith(s, t.text, i) && Solid(t.text)
  {
    FirstLiteralIsFirst(s, i, 0);
    if FirstLiteral(s, i, 0) < |Literals| {
      LiteralsCanonical();
      LiteralsShape();
    } else {
      MatchIsProposition(s, i);
    }
  }

  // ---------------------------------------------------------------------------
  // What the whole scan produces

  /** Where the scan does not fail at a non-space, it emits a token t and resumes right after t's text. */
  lemma LexFromToken(s: string, i: nat, acc: seq<Token>) returns (t: Token)
    requires i < |s| && !IsSpace(s[i]) && LexFrom(s, i, acc).Some?
    ensures WellFormed(t) && StartsWith(s, t.text, i) && Solid(t.text) && 0 < |t.text|
    ensures LexFrom(s, i, acc) == LexFrom(s, i + |t.text|, acc + [t])
  {
    t := ScanAt(s, i).token;
    ScanAtLexeme(s, i);
    LexFromLexeme(s, i, acc, t);
  }

  /** The lexer's result from position i extends the tokens already emitted, and every token it adds is well formed. */
  lemma {:induction false} LexFromWellFormed(s: string, i: nat, acc: seq<Token>)
    requires i <= |s| && LexFrom(s, i, acc).Some?
    ensures acc <= LexFrom(s, i, acc).value
    ensures forall k :: |acc| <= k < |LexFrom(s, i, acc).value| ==> WellFormed(LexFrom(s, i, acc).value[k])
    decreases |s| - i
  {
    if i < |s| {
      if IsSpace(s[i]) {
        LexFromSpace(s, i, acc);
        LexFromWellFormed(s, i + 1, acc);
      } else {
        var t := LexFromToken(s, i, acc);
        LexFromWellFormed(s, i + |t.text|, acc + [t]);
      }
    }
  }

  /** The texts of the tokens, concatenated. */
  function Texts(ts: seq<Token>): (r: string)
    ensures ts == [] ==> r == []
  {
    if ts == [] then [] else Texts(ts[..|ts| - 1]) + ts[|ts| - 1].text
  }

  /** The characters of s from position i on that are not spaces, in order. */
  function VisibleFrom(s: string, i: nat): (r: string)
    requires i <= |s|
    ensures |r| <= |s| - i
    decreases |s| - i
  {
    if i == |s| then [] else (if IsSpace(s[i]) then [] else [s[i]]) + VisibleFrom(s, i + 1)
  }

  /** Concatenation is associative. */
  lemma AppendAssoc(a: string, b: string, c: string)
    ensures (a + b) + c == a + (b + c)
  {
  }

  /** Texts of tokens with one more at the end. */
  lemma TextsSnoc(acc: seq<Token>, t: Token)
    ensures Texts(acc + [t]) == Texts(acc) + t.text
  {
    assert (acc + [t])[..|acc|] == acc;
  }

  /** A space-free text w at position i is kept whole. */
  lemma {:induction false} VisibleToken(s: string, i: nat, w: string)
    requires StartsWith(s, w, i) && Solid(w)
    ensures VisibleFrom(s, i) == w + VisibleFrom(s, i + |w|)
    decreases |w|
  {
    if w == [] {
      assert w + VisibleFrom(s, i) == VisibleFrom(s, i);
    } else {
      StartsWithTail(s, w, i);
      VisibleToken(s, i + 1, w[1..]);
      VisibleCons(s, i, w, VisibleFrom(s, i + |w|));
    }
  }

  /** The text after the first character of a match matches one position on. */
  lemma StartsWithTail(s: string, w: string, i: nat)
    requires StartsWith(s, w, i) && Solid(w) && w != []
    ensures StartsWith(s, w[1..], i + 1) && Solid(w[1..]) && s[i] == w[0] && !IsSpace(s[i])
  {
    assert s[i + 0] == w[0];
    forall q | 0 <= q < |w| - 1
      ensures s[i + 1 + q] == w[1..][q]
    {
      assert s[i + (q + 1)] == w[q + 1];
    }
  }

  /** One visible character in front of the rest. */
  lemma VisibleCons(s: string, i: nat, w: string, rest: string)
    requires i < |s| && w != [] && s[i] == w[0] && !IsSpace(s[i])
    requires i + |w| <= |s| && VisibleFrom(s, i + 1) == w[1..] + rest
    ensures VisibleFrom(s, i) == w + rest
  {
    assert [w[0]] + (w[1..] + rest) == w + rest;
  }

  /**
   * The lexer loses no character but the spaces: the tokens' texts, one after
   * the other, spell the input from position i with its spaces removed.
   */
  lemma {:induction false} LexFromTexts(s: string, i: nat, acc: seq<Token>)
    requires i <= |s| && LexFrom(s, i, acc).Some?
    ensures Texts(LexFrom(s, i, acc).value) == Texts(acc) + VisibleFrom(s, i)
    decreases |s| - i, 1
  {
    if i == |s| {
    } else if IsSpace(s[i]) {
      LexFromSpace(s, i, acc);
      LexTextsSpace(s, i, acc);
    } else {
      var t := LexFromToken(s, i, acc);
      LexTextsToken(s, i, acc, t);
    }
  }

  /** LexFromTexts after a space: the space is not part of any text. */
  lemma {:induction false} LexTextsSpace(s: string, i: nat, acc: seq<Token>)
    requires i < |s| && IsSpace(s[i]) && LexFrom(s, i + 1, acc).Some?
    ensures Texts(LexFrom(s, i + 1, acc).value) == Texts(acc) + VisibleFrom(s, i)
    decreases |s| - i, 0
  {
    LexFromTexts(s, i + 1, acc);
    assert VisibleFrom(s, i) == [] + VisibleFrom(s, i + 1);
  }

  /** LexFromTexts after a token t: t's text and then what the rest of the scan reads. */
  lemma {:induction false} LexTextsToken(s: string, i: nat, acc: seq<Token>, t: Token)
    requires i < |s| && 0 < |t.text| && StartsWith(s, t.text, i) && Solid(t.text)
    requires LexFrom(s, i + |t.text|, acc + [t]).Some?
    ensures Texts(LexFrom(s, i + |t.text|, acc + [t]).value) == Texts(acc) + VisibleFrom(s, i)
    decreases |s| - i, 0
  {
    LexFromTexts(s, i + |t.text|, acc + [t]);
    VisibleToken(s, i, t.text);
    TextsStep(Texts(LexFrom(s, i + |t.text|, acc + [t]).value), acc, t, VisibleFrom(s, i + |t.text|), VisibleFrom(s, i));
  }

  /** The bookkeeping of one lexeme: if r spells acc, t and rest, it spells acc and then t's text with rest. */
  lemma TextsStep(r: string, acc: seq<Token>, t: Token, rest: string, v: string)
    requires r == Texts(acc + [t]) + rest && v == t.text + rest
    ensures r == Texts(acc) + v
  {
    TextsSnoc(acc, t);
    AppendAssoc(Texts(acc), t.text, rest);
  }

  /** What `analisador_lexico` promises when it succeeds. */
  lemma LexSound(expr: string)
    requires LexFrom(expr, 0, []).Some?
    ensures var ts := LexFrom(expr, 0, []).value;
      AllWellFormed(ts) && Texts(ts) == VisibleFrom(expr, 0)
  {
    LexFromWellFormed(expr, 0, []);
    LexFromTexts(expr, 0, []);
  }

  // ---------------------------------------------------------------------------
  // Lexing text that was written out from tokens

  /** The separator after a token: a blank or nothing. */
  function Blank(gap: bool): (r: string)
    ensures |r| == if gap then 1 else 0
  {
    if gap then " " else ""
  }

  /** Tokens written out one after the other, with a blank after the k-th exactly when gaps[k]. */
  function Layout(ts: seq<Token>, gaps: seq<bool>): (r: string)
    requires |gaps| == |ts|
    decreases |ts|
  {
    if ts == [] then [] else ts[0].text + Blank(gaps[0]) + Layout(ts[1..], gaps[1..])
  }

  /**
   * Tokens the lexer reads back from a layout: each is well formed, and an
   * identifier written with no blank after it is not followed by a
   * token that starts with `[0-9a-z]` (which would lengthen it). This is the
   * recursive form of Readable (see DelimitedIff), used only by the
   * induction behind LexLayout (LaidWell, LexFromLaid).
   */
  predicate Delimited(ts: seq<Token>, gaps: seq<bool>)
    requires |gaps| == |ts|
    decreases |ts|
  {
    ts == [] ||
    (WellFormed(ts[0]) &&
     (ts[0].kind == ID && !gaps[0] && |ts| > 1 && |ts[1].text| > 0 ==> !IsIdentChar(ts[1].text[0])) &&
     Delimited(ts[1..], gaps[1..]))
  }

  /**
   * The tokens are well formed, and no identifier written without a blank
   * after it is followed by a token that starts with `[0-9a-z]`.
   */
  predicate Readable(ts: seq<Token>, gaps: seq<bool>)
    requires |gaps| == |ts|
  {
    AllWellFormed(ts) && Separated(ts, gaps)
  }

  /** No identifier written without a blank after it is followed by a token that starts with `[0-9a-z]`. */
  predicate Separated(ts: seq<Token>, gaps: seq<bool>)
    requires |gaps| == |ts|
  {
    forall k :: 0 <= k < |ts| - 1 && ts[k].kind == ID && !gaps[k] && |ts[k + 1].text| > 0 ==>
      !IsIdentChar(ts[k + 1].text[0])
  }

  /** Delimited is Readable, stated one token at a time. */
  lemma {:induction false} DelimitedIff(ts: seq<Token>, gaps: seq<bool>)
    requires |gaps| == |ts|
    ensures Delimited(ts, gaps) <==> Readable(ts, gaps)
    decreases |ts|
  {
    if ts != [] {
      DelimitedIff(ts[1..], gaps[1..]);
      assert forall k :: 1 <= k < |ts| ==> ts[k] == ts[1..][k - 1];
      assert forall k :: 1 <= k < |ts| ==> gaps[k] == gaps[1..][k - 1];
    }
  }

  /** A well-formed identifier whose text starts at i, and is not followed by `[0-9a-z]`, is what the scan emits there. */
  lemma ScanAtToken(s: string, i: nat, t: Token)
    requires WellFormed(t) && t.kind == ID && StartsWith(s, t.text, i)
    requires i + |t.text| == |s| || !IsIdentChar(s[i + |t.text|])
    ensures i < |s| && ScanAt(s, i) == Lexeme(t)
  {
    assert s[i + 0] == t.text[0];
    ScanAtIdent(s, i);
    MatchDelimited(s, i, t.text);
  }

  /**
   * A well-formed token whose text starts at position i is what the scan emits
   * there, provided an identifier is not followed by another `[0-9a-z]`.
   */
  lemma LexFromTokenAt(s: string, i: nat, acc: seq<Token>, t: Token)
    requires WellFormed(t) && StartsWith(s, t.text, i)
    requires t.kind == ID ==> i + |t.text| == |s| || !IsIdentChar(s[i + |t.text|])
    ensures i < |s| && LexFrom(s, i, acc) == LexFrom(s, i + |t.text|, acc + [t])
  {
    if t.kind == ID {
      ScanAtToken(s, i, t);
    } else {
      LiteralsShape();
      var m := LiteralIndex(t.kind);
      assert s[i + 0] == t.text[0];
      ScanAtLiteral(s, i, m);
    }
    LexFromLexeme(s, i, acc, t);
  }

  /** A token and its separator: the scan emits the token and skips the blank, if there is one. */
  lemma LexFromTokenGap(s: string, i: nat, acc: seq<Token>, t: Token, gap: bool)
    requires WellFormed(t) && StartsWith(s, t.text, i)
    requires t.kind == ID ==> i + |t.text| == |s| || !IsIdentChar(s[i + |t.text|])
    requires gap ==> i + |t.text| < |s| && s[i + |t.text|] == ' '
    ensures LexFrom(s, i, acc) == LexFrom(s, i + |t.text| + |Blank(gap)|, acc + [t])
  {
    LexFromTokenAt(s, i, acc, t);
    if gap {
      LexFromSpace(s, i + |t.text|, acc + [t]);
    }
  }

  /** A text w, its separator and the rest, read off s from position i on. */
  lemma SplitBlank(s: string, i: nat, w: string, gap: bool, rest: string)
    requires i <= |s| && s[i..] == w + Blank(gap) + rest
    ensures StartsWith(s, w, i) && i + |w| + |Blank(gap)| <= |s|
    ensures gap ==> i + |w| < |s| && s[i + |w|] == ' '
    ensures s[i + |w| + |Blank(gap)|..] == rest
  {
    forall q | 0 <= q < |w|
      ensures s[i + q] == w[q]
    {
      assert s[i + q] == s[i..][q];
    }
    if gap {
      assert s[i + |w|] == s[i..][|w|];
    }
    assert s[i + |w| + |Blank(gap)|..] == s[i..][|w| + |Blank(gap)|..];
  }

  /** The tokens ts are laid out with separators gaps from position i to the end of s. */
  predicate LaidAt(s: string, i: nat, ts: seq<Token>, gaps: seq<bool>)
    requires |gaps| == |ts|
    decreases |ts|
  {
    if ts == [] then i == |s|
    else
      var n := |ts[0].text|;
      StartsWith(s, ts[0].text, i) && (gaps[0] ==> i + n < |s| && s[i + n] == ' ') &&
      LaidAt(s, i + n + |Blank(gaps[0])|, ts[1..], gaps[1..])
  }

  /** The laid-out text, from position i on, has the shape LaidAt describes. */
  lemma {:induction false} LayoutIsLaidAt(s: string, i: nat, ts: seq<Token>, gaps: seq<bool>)
    requires |gaps| == |ts| && i <= |s| && s[i..] == Layout(ts, gaps)
    ensures LaidAt(s, i, ts, gaps)
    decreases |ts|
  {
    if ts != [] {
      SplitBlank(s, i, ts[0].text, gaps[0], Layout(ts[1..], gaps[1..]));
      LayoutIsLaidAt(s, i + |ts[0].text| + |Blank(gaps[0])|, ts[1..], gaps[1..]);
    }
  }

  /** Delimited tokens laid out from position i to the end of s. */
  predicate LaidWell(s: string, i: nat, ts: seq<Token>, gaps: seq<bool>) {
    |gaps| == |ts| && i <= |s| && LaidAt(s, i, ts, gaps) && Delimited(ts, gaps)
  }

  /** The first token of ts, well formed and delimited at i, and the rest laid out after its separator. */
  predicate LaidCons(s: string, i: nat, ts: seq<Token>, gaps: seq<bool>) {
    ts != [] && |gaps| == |ts| && WellFormed(ts[0]) && StartsWith(s, ts[0].text, i) &&
    (ts[0].kind == ID ==> i + |ts[0].text| == |s| || !IsIdentChar(s[i + |ts[0].text|])) &&
    (gaps[0] ==> i + |ts[0].text| < |s| && s[i + |ts[0].text|] == ' ') &&
    LaidWell(s, i + |ts[0].text| + |Blank(gaps[0])|, ts[1..], gaps[1..])
  }

  /** The text right after an identifier with no blank is the next token's, so it does not continue the identifier. */
  lemma LaidFirst(s: string, i: nat, ts: seq<Token>, gaps: seq<bool>)
    requires LaidWell(s, i, ts, gaps) && ts != []
    ensures LaidCons(s, i, ts, gaps)
  {
    var n := |ts[0].text|;
    if ts[0].kind == ID && !gaps[0] && i + n < |s| {
      LaidNext(s, i + n + |Blank(gaps[0])|, ts[1..], gaps[1..]);
    }
  }

  /** Where a laid-out, delimited sequence does not end, its first token starts at i with a character of its text. */
  lemma LaidNext(s: string, i: nat, ts: seq<Token>, gaps: seq<bool>)
    requires LaidWell(s, i, ts, gaps) && i < |s|
    ensures ts != [] && 0 < |ts[0].text| && s[i] == ts[0].text[0]
  {
    var t := ts[0];
    LiteralsShape();
    if t.kind != ID {
      var m := LiteralIndex(t.kind);
      assert |Literals[m].0| > 0;
    }
    assert s[i + 0] == t.text[0];
  }

  /** Lexing delimited tokens laid out from position i gives the tokens back. */
  lemma {:induction false} LexFromLaid(s: string, i: nat, acc: seq<Token>, ts: seq<Token>, gaps: seq<bool>)
    requires LaidWell(s, i, ts, gaps)
    ensures LexFrom(s, i, acc) == Some(acc + ts)
    decreases |ts|, 2
  {
    if ts == [] {
      assert acc + ts == acc;
    } else {
      LaidFirst(s, i, ts, gaps);
      LexLaidCons(s, i, acc, ts, gaps);
    }
  }

  /** LexFromLaid for a non-empty ts: the first token, its separator, then the rest. */
  lemma {:induction false} LexLaidCons(s: string, i: nat, acc: seq<Token>, ts: seq<Token>, gaps: seq<bool>)
    requires LaidCons(s, i, ts, gaps)
    ensures LexFrom(s, i, acc) == Some(acc + ts)
    decreases |ts|, 1
  {
    LexLaidTail(s, i + |ts[0].text| + |Blank(gaps[0])|, acc, ts, gaps);
    LexFromTokenGap(s, i, acc, ts[0], gaps[0]);
  }

  /** LexFromLaid after the first token and its separator, from position j on. */
  lemma {:induction false} LexLaidTail(s: string, j: nat, acc: seq<Token>, ts: seq<Token>, gaps: seq<bool>)
    requires ts != [] && |gaps| == |ts| && LaidWell(s, j, ts[1..], gaps[1..])
    ensures LexFrom(s, j, acc + [ts[0]]) == Some(acc + ts)
    decreases |ts|, 0
  {
    LexFromLaid(s, j, acc + [ts[0]], ts[1..], gaps[1..]);
    AppendFirst(acc, ts);
  }

  /** Appending the first token and then the rest appends the whole sequence. */
  lemma AppendFirst(acc: seq<Token>, ts: seq<Token>)
    requires ts != []
    ensures acc + [ts[0]] + ts[1..] == acc + ts
  {
    assert [ts[0]] + ts[1..] == ts;
  }

  /** Delimited tokens, laid out, are laid out from position 0. */
  lemma LaidFromStart(ts: seq<Token>, gaps: seq<bool>)
    requires |gaps| == |ts| && Delimited(ts, gaps)
    ensures LaidWell(Layout(ts, gaps), 0, ts, gaps)
  {
    var s := Layout(ts, gaps);
    assert s[0..] == s;
    LayoutIsLaidAt(s, 0, ts, gaps);
  }

  /**
   * `analisador_lexico` inverts writing out well-formed tokens, with or without
   * a blank after each, as long as no identifier runs into a following `[0-9a-z]`.
   */
  lemma LexLayout(ts: seq<Token>, gaps: seq<bool>)
    requires |gaps| == |ts| && Readable(ts, gaps)
    ensures LexFrom(Layout(ts, gaps), 0, []) == Some(ts)
  {
    DelimitedIff(ts, gaps);
    LaidFromStart(ts, gaps);
    LexFromLaid(Layout(ts, gaps), 0, [], ts, gaps);
    assert [] + ts == ts;
  }
}
