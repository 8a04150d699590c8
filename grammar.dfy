/**
 * The grammar encoding shared by every stage of the SLR(1) generator.
 * Symbols are single characters: upper-case letters name non-terminals in
 * the FIRST/FOLLOW computation, '~' is the empty-string marker, '$' the
 * end of input and 'D' the hard-wired augmented start symbol. A production
 * is the pair (left-hand side, right-hand side); a grammar keeps its
 * productions in a sequence whose order is significant (index 0 is the
 * augmented production, Reduce actions name productions by index).
 */
module Grammar {

  datatype Option<T> = None | Some(value: T)

  /** A production lhs -> rhs. */
  type Production = (char, string)

  const Epsilon: char := '~'
  const EndMarker: char := '$'
  const AugmentedStart: char := 'D'
  /** The marker of the recognised prefix inside an LR(0) item. */
  const Dot: char := '.'
  /** What std::string::operator[] yields at index size(). */
  const Nul: char := '\0'

  /** isupper in the C locale. */
  predicate IsUpper(c: char) {
    'A' <= c <= 'Z'
  }

  /** s[k] for a std::string, where index |s| reads the terminating '\0'. */
  function CharAt(s: string, k: nat): (c: char)
    requires k <= |s|
    ensures k < |s| ==> c == s[k]
    ensures k == |s| ==> c == Nul
  {
    if k < |s| then s[k] else Nul
  }

  /** The left-hand sides of all productions. */
  function LhsSymbols(productions: seq<Production>): (r: set<char>)
    ensures forall i :: 0 <= i < |productions| ==> productions[i].0 in r
    ensures forall c :: c in r ==> exists i :: 0 <= i < |productions| && productions[i].0 == c
  {
    set i | 0 <= i < |productions| :: productions[i].0
  }

  /** std::find over a sequence: the first index holding x, or the size when there is none. */
  function IndexOf<T(==)>(xs: seq<T>, x: T): (r: nat)
    ensures r <= |xs|
    ensures r < |xs| ==> xs[r] == x
    ensures forall a :: 0 <= a < r ==> xs[a] != x
    ensures r == |xs| <==> x !in xs
  {
    if |xs| == 0 then 0
    else if xs[0] == x then 0
    else 1 + IndexOf(xs[1..], x)
  }

  /** The textbook expression grammar built by both programs' main. */
  const TextbookNonTerminals: seq<char> := ['D', 'E', 'T', 'F']
  const TextbookTerminals: seq<char> := ['*', '+', 'i', '(', ')']
  const TextbookProductions: seq<Production> :=
    [('D', "E"), ('E', "E+T"), ('E', "T"), ('T', "T*F"), ('T', "F"), ('F', "(E)"), ('F', "i")]
}
