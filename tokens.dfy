/**
 * Token kinds, tokens and the table of fixed spellings (`TOKENS` in
 * RA1Frank/validador.py). Spellings start with a literal backslash:
 * the Dafny string `"\\neg"` is the four characters backslash, n, e, g.
 */
module Tokens {

  /** The closed set of token kinds. */
  datatype Kind = NOT | AND | OR | IMPLIES | IFF | LPAREN | RPAREN | TRUE | FALSE | ID

  /** A token: its kind and the text it was read from. */
  datatype Token = Token(kind: Kind, text: string)

  /** The `TOKENS` dictionary, as (spelling, kind) pairs in declaration order. */
  const Table: seq<(string, Kind)> := [
    ("\\neg", NOT), ("\\wedge", AND), ("\\vee", OR), ("\\rightarrow", IMPLIES),
    ("\\leftrightarrow", IFF), ("(", LPAREN), (")", RPAREN), ("true", TRUE), ("false", FALSE)
  ]

  /**
   * The order in which the lexer tries the spellings: `sorted(TOKENS, key=-len)`,
   * a stable sort of `Table` by decreasing length (see LiteralsPermuteTable and LiteralsByLength).
   */
  const Literals: seq<(string, Kind)> := [
    ("\\leftrightarrow", IFF), ("\\rightarrow", IMPLIES), ("\\wedge", AND), ("false", FALSE),
    ("\\neg", NOT), ("\\vee", OR), ("true", TRUE), ("(", LPAREN), (")", RPAREN)
  ]

  /** The spelling of every kind but ID: the inverse of the `TOKENS` dictionary. */
  function Spelling(k: Kind): string
    requires k != ID
  {
    match k
    case NOT => "\\neg"
    case AND => "\\wedge"
    case OR => "\\vee"
    case IMPLIES => "\\rightarrow"
    case IFF => "\\leftrightarrow"
    case LPAREN => "("
    case RPAREN => ")"
    case TRUE => "true"
    case FALSE => "false"
  }

  /** A token whose text is the spelling of its kind, unless it is an identifier. */
  predicate Canonical(t: Token) {
    t.kind != ID ==> t.text == Spelling(t.kind)
  }

  /** For each entry of `Literals`, its position in `Table`. */
  const SortOrder: seq<nat> := [4, 3, 1, 8, 0, 2, 7, 5, 6]

  /** `Literals` is `Table` reordered by `SortOrder`, and `SortOrder` is a permutation of Table's positions. */
  lemma LiteralsPermuteTable()
    ensures |SortOrder| == |Literals| == |Table|
    ensures forall k :: 0 <= k < |SortOrder| ==> SortOrder[k] < |Table| && Literals[k] == Table[SortOrder[k]]
    ensures forall m, n :: 0 <= m < n < |SortOrder| ==> SortOrder[m] != SortOrder[n]
  {
    assert Literals == [Table[4], Table[3], Table[1], Table[8], Table[0], Table[2], Table[7], Table[5], Table[6]];
  }

  /**
   * `Literals` is ordered by decreasing length, and the order is stable like
   * Python's `sorted`: spellings of equal length keep their order in `Table`.
   * (The tie order is unobservable anyway: by LiteralsPrefixFree at most one
   * spelling starts at any position.)
   */
  lemma LiteralsByLength()
    ensures forall m, n :: 0 <= m < n < |Literals| ==> |Literals[m].0| >= |Literals[n].0|
    ensures forall m, n :: 0 <= m < n < |Literals| && |Literals[m].0| == |Literals[n].0| ==>
              SortOrder[m] < SortOrder[n]
  {
    var lengths := seq(|Literals|, k requires 0 <= k < |Literals| => |Literals[k].0|);
    assert lengths == [15, 11, 6, 5, 4, 4, 4, 1, 1];
  }

  /** Every pair of `Table` is a kind other than ID with its spelling. */
  lemma TableCanonical()
    ensures forall n :: 0 <= n < |Table| ==> Table[n].1 != ID && Table[n].0 == Spelling(Table[n].1)
  {
  }

  /** Where a kind's spelling sits in `Table`: every kind but ID has an entry. */
  function TableIndex(k: Kind): (n: nat)
    requires k != ID
    ensures n < |Table| && Table[n] == (Spelling(k), k)
  {
    match k
    case NOT => 0
    case AND => 1
    case OR => 2
    case IMPLIES => 3
    case IFF => 4
    case LPAREN => 5
    case RPAREN => 6
    case TRUE => 7
    case FALSE => 8
  }

  /** Every pair of `Literals` is a kind other than ID with its spelling. */
  lemma LiteralsCanonical()
    ensures forall m :: 0 <= m < |Literals| ==> Literals[m].1 != ID && Literals[m].0 == Spelling(Literals[m].1)
  {
  }

  /** Where a kind's spelling sits in `Literals`. */
  function LiteralIndex(k: Kind): (m: nat)
    requires k != ID
    ensures m < |Literals| && Literals[m] == (Spelling(k), k)
  {
    match k
    case IFF => 0
    case IMPLIES => 1
    case AND => 2
    case FALSE => 3
    case NOT => 4
    case OR => 5
    case TRUE => 6
    case LPAREN => 7
    case RPAREN => 8
  }

  /** No spelling is a prefix of another, so at most one spelling starts at any position. */
  lemma LiteralsPrefixFree()
    ensures forall m, n :: 0 <= m < |Literals| && 0 <= n < |Literals| && m != n ==>
              !(Literals[m].0 <= Literals[n].0)
  {
    // the first two characters already tell the spellings apart
    var firsts := seq(|Literals|, k requires 0 <= k < |Literals| => Literals[k].0[0]);
    var seconds := seq(|Literals|, k requires 0 <= k < |Literals| =>
                         if |Literals[k].0| >= 2 then Literals[k].0[1] else ' ');
    assert firsts == ['\\', '\\', '\\', 'f', '\\', '\\', 't', '(', ')'];
    assert seconds == ['l', 'r', 'w', 'a', 'n', 'v', 'r', ' ', ' '];
    forall m, n | 0 <= m < |Literals| && 0 <= n < |Literals| && m != n
      ensures !(Literals[m].0 <= Literals[n].0)
    {
      assert firsts[m] != firsts[n] || seconds[m] != seconds[n];
      NotPrefixOf(Literals[m].0, Literals[n].0);
    }
  }

  /** Two texts that differ in their first or second character are not prefix-related. */
  lemma NotPrefixOf(a: string, b: string)
    requires |a| > 0 && |b| > 0
    requires a[0] != b[0] || (|a| >= 2 && (|b| < 2 || a[1] != b[1]))
    ensures !(a <= b)
  {
  }
}
