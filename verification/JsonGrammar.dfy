/** The documents the parser is for: what they look like as text and which values they stand for. */
module JsonGrammar {
  import opened JsonObject

  predicate Blank(c: char) { c == ' ' || c == '\t' || c == '\n' || c == '\r' }

  predicate Digit(c: char) { '0' <= c <= '9' }

  predicate AllBlank(s: string) { forall i: nat :: i < |s| ==> Blank(s[i]) }

  predicate AllDigits(s: string) { forall i: nat :: i < |s| ==> Digit(s[i]) }

  predicate Starts(s: string, c: char) { s != "" && s[0] == c }

  // ── Strings ───────────────────────────────────────────────────────

  /** One character of a string: as it is, or a backslash and a letter. */
  datatype Piece = Raw(c: char) | Escaped(c: char)

  predicate Escapable(c: char) { c in "\"/\\bfnrt" }

  predicate GoodPiece(p: Piece)
  {
    match p
    case Raw(c) => c != '\"' && c != '\\'
    case Escaped(c) => Escapable(c)
  }

  predicate GoodPieces(ps: seq<Piece>) { forall i: nat :: i < |ps| ==> GoodPiece(ps[i]) }

  function Unescaped(c: char): char
  {
    match c
    case 'b' => 8 as char
    case 'f' => 12 as char
    case 'n' => '\n'
    case 'r' => '\r'
    case 't' => '\t'
    case _ => c
  }

  function PiecesMeaning(ps: seq<Piece>): string
  {
    if ps == [] then "" else [if ps[0].Raw? then ps[0].c else Unescaped(ps[0].c)] + PiecesMeaning(ps[1..])
  }

  /** The pieces, the closing quote, and then rest. */
  function PrintPieces(ps: seq<Piece>, rest: string): string
  {
    if ps == [] then "\"" + rest
    else (if ps[0].Raw? then [ps[0].c] else ['\\', ps[0].c]) + PrintPieces(ps[1..], rest)
  }

  // ── Numbers ───────────────────────────────────────────────────────

  datatype Num = Num(minus: bool, whole: string, fraction: string, exponent: string)

  predicate GoodNum(n: Num)
  {
    && n.whole != "" && AllDigits(n.whole) && (n.whole[0] == '0' ==> |n.whole| == 1)
    && GoodFraction(n.fraction) && GoodExponent(n.exponent)
  }

  predicate GoodFraction(s: string) { s == "" || (s[0] == '.' && |s| > 1 && AllDigits(s[1..])) }

  predicate GoodExponent(s: string)
  {
    s == "" || ((s[0] == 'e' || s[0] == 'E') && Exponent(s[1..]) != "" && AllDigits(Exponent(s[1..])))
  }

  /** An exponent without its sign. */
  function Exponent(s: string): string { if Starts(s, '+') || Starts(s, '-') then s[1..] else s }

  function Lexeme(n: Num): string { (if n.minus then "-" else "") + n.whole + n.fraction + n.exponent }

  // ── Documents ─────────────────────────────────────────────────────

  /** A document with its layout. */
  datatype Doc =
    | NullDoc | TrueDoc | FalseDoc | StrDoc(pieces: seq<Piece>) | NumDoc(num: Num)
    | EmptyArray(blank: string) | ArrayDoc(items: Items) | EmptyObject(blank: string) | ObjectDoc(pairs: Pairs)

  datatype Items = LastItem(before: string, doc: Doc, after: string) | MoreItems(before: string, doc: Doc,
    after: string, rest: Items)

  datatype Pairs =
    | LastPair(before: string, name: seq<Piece>, colonBefore: string, colonAfter: string, doc: Doc, after: string)
    | MorePairs(before: string, name: seq<Piece>, colonBefore: string, colonAfter: string, doc: Doc, after: string,
      rest: Pairs)

  ghost predicate Good(d: Doc)
  {
    match d
    case StrDoc(ps) => GoodPieces(ps)
    case NumDoc(n) => GoodNum(n)
    case EmptyArray(b) => AllBlank(b)
    case ArrayDoc(items) => GoodItems(items)
    case EmptyObject(b) => AllBlank(b)
    case ObjectDoc(pairs) => GoodPairs(pairs)
    case _ => true
  }

  ghost predicate GoodItems(items: Items)
  {
    AllBlank(items.before) && Good(items.doc) && AllBlank(items.after) && (items.MoreItems? ==> GoodItems(items.rest))
  }

  ghost predicate GoodPairs(ps: Pairs)
  {
    && AllBlank(ps.before) && GoodPieces(ps.name) && AllBlank(ps.colonBefore) && AllBlank(ps.colonAfter)
    && Good(ps.doc) && AllBlank(ps.after) && (ps.MorePairs? ==> GoodPairs(ps.rest))
  }

  /** The text of d, and then rest. */
  function Print(d: Doc, rest: string): string
  {
    match d
    case NullDoc => "null" + rest
    case TrueDoc => "true" + rest
    case FalseDoc => "false" + rest
    case StrDoc(ps) => "\"" + PrintPieces(ps, rest)
    case NumDoc(n) => Lexeme(n) + rest
    case EmptyArray(b) => "[" + (b + ("]" + rest))
    case ArrayDoc(items) => "[" + PrintItems(items, rest)
    case EmptyObject(b) => "{" + (b + ("}" + rest))
    case ObjectDoc(pairs) => "{" + PrintPairs(pairs, rest)
  }

  function PrintItems(items: Items, rest: string): string
  {
    match items
    case LastItem(before, d, after) => before + Print(d, after + ("]" + rest))
    case MoreItems(before, d, after, more) => before + Print(d, after + ("," + PrintItems(more, rest)))
  }

  function PrintPairs(ps: Pairs, rest: string): string
  {
    match ps
    case LastPair(before, name, b, a, d, after) =>
      before + ("\"" + PrintPieces(name, b + (":" + (a + Print(d, after + ("}" + rest))))))
    case MorePairs(before, name, b, a, d, after, more) =>
      before + ("\"" + PrintPieces(name, b + (":" + (a + Print(d, after + ("," + PrintPairs(more, rest)))))))
  }

  /** What d stands for. */
  function Meaning(d: Doc): JsonValue
  {
    match d
    case NullDoc => Null
    case TrueDoc => True
    case FalseDoc => False
    case StrDoc(ps) => Str(PiecesMeaning(ps))
    case NumDoc(n) => Number(Lexeme(n))
    case EmptyArray(b) => Array([])
    case ArrayDoc(items) => Array(ItemsMeaning(items))
    case EmptyObject(b) => Object(NewMembers())
    case ObjectDoc(pairs) => Object(PairsMeaning(pairs, NewMembers()))
  }

  function ItemsMeaning(items: Items): seq<JsonValue>
  {
    [Meaning(items.doc)] + if items.LastItem? then [] else ItemsMeaning(items.rest)
  }

  /** The members of o followed by the pairs, in order. */
  function PairsMeaning(ps: Pairs, o: Members): (r: Members)
    requires |o.table| == SLOTS
    ensures |r.table| == SLOTS
    decreases ps
  {
    var o' := Add(o, PiecesMeaning(ps.name), Meaning(ps.doc));
    if ps.LastPair? then o' else PairsMeaning(ps.rest, o')
  }

  /** Whatever object a document stands for, its members can be looked up. */
  lemma {:induction false} PairsValid(ps: Pairs, o: Members)
    requires Valid(o)
    ensures Valid(PairsMeaning(ps, o))
    decreases ps
  {
    hide Valid, Add;
    ValidSize(o);
    AddValid(o, PiecesMeaning(ps.name), Meaning(ps.doc));
    if ps.MorePairs? { PairsValid(ps.rest, Add(o, PiecesMeaning(ps.name), Meaning(ps.doc))); }
  }

  lemma ValidSize(o: Members)
    requires Valid(o)
    ensures |o.table| == SLOTS
  {}
}
