/** Reading a document from text: what the parser computes, and why it reads exactly the documents. */
module JsonReading {
  import opened JsonGrammar
  import opened JsonObject
  import opened Options

  /** A value and the text after it; a panic; or a loop that never ends. */
  datatype Parse<T> = Done(value: T, rest: string) | Panic | Endless

  function SkipBlank(s: string): (r: string)
    ensures |r| <= |s|
  {
    if s != "" && Blank(s[0]) then SkipBlank(s[1..]) else s
  }

  function DropDigits(s: string): (r: string)
    ensures |r| <= |s|
  {
    if s != "" && Digit(s[0]) then DropDigits(s[1..]) else s
  }

  /** After one digit or more. */
  function AfterDigits(s: string): (r: Option<string>)
    ensures r.Some? ==> |r.value| < |s|
  {
    if s != "" && Digit(s[0]) then Some(DropDigits(s[1..])) else None
  }

  function AfterFraction(s: string): (r: Option<string>)
    ensures r.Some? ==> |r.value| <= |s|
  {
    if Starts(s, '.') then AfterDigits(s[1..]) else Some(s)
  }

  function AfterExponent(s: string): (r: Option<string>)
    ensures r.Some? ==> |r.value| <= |s|
  {
    if Starts(s, 'e') || Starts(s, 'E') then AfterDigits(Exponent(s[1..])) else Some(s)
  }

  function AfterWhole(s: string): (r: Option<string>)
    ensures r.Some? ==> |r.value| < |s|
  {
    if s == "" || !Digit(s[0]) then None else Some(if s[0] != '0' then DropDigits(s[1..]) else s[1..])
  }

  /** Whatever follows the longest number that s starts with. */
  function AfterNumber(s: string): (r: Option<string>)
    ensures r.Some? ==> |r.value| < |s|
  {
    var w := AfterWhole(if Starts(s, '-') then s[1..] else s);
    if w.None? then None
    else
      var f := AfterFraction(w.value);
      if f.None? then None else AfterExponent(f.value)
  }

  /** A number that ends with the text makes the capture run over the end. */
  function ReadNumber(s: string): (r: Parse<JsonValue>)
    ensures r.Done? ==> |r.rest| < |s|
  {
    var rest := AfterNumber(s);
    if rest.None? || rest.value == "" then Panic else Done(Number(s[..|s| - |rest.value|]), rest.value)
  }

  /** A string after its opening quote. */
  function ReadString(s: string): (r: Parse<string>)
    ensures r.Done? ==> |r.rest| < |s|
  {
    if s == "" then Endless
    else if s[0] == '\"' then Done("", s[1..])
    else if s[0] != '\\' then Prefixed([s[0]], ReadString(s[1..]))
    else if |s| > 1 && Escapable(s[1]) then Prefixed([Unescaped(s[1])], ReadString(s[2..]))
    else Panic
  }

  function Prefixed(p: string, r: Parse<string>): Parse<string>
  {
    match r
    case Done(v, rest) => Done(p + v, rest)
    case _ => r
  }

  function ReadWord(s: string, word: string, v: JsonValue): (r: Parse<JsonValue>)
    requires word != ""
    ensures r.Done? ==> |r.rest| < |s|
  {
    if word <= s then Done(v, s[|word|..]) else Panic
  }

  function ReadValue(s: string): (r: Parse<JsonValue>)
    ensures r.Done? ==> |r.rest| < |s|
    decreases |s|, 0
  {
    if s == "" then Panic
    else if s[0] == 'n' then ReadWord(s, "null", Null)
    else if s[0] == 't' then ReadWord(s, "true", True)
    else if s[0] == 'f' then ReadWord(s, "false", False)
    else if s[0] == '\"' then
      match ReadString(s[1..])
      case Done(v, rest) => Done(Str(v), rest)
      case Panic => Panic
      case Endless => Endless
    else if s[0] == '[' then ReadArray(s[1..])
    else if s[0] == '{' then ReadObject(s[1..])
    else if s[0] == '-' || Digit(s[0]) then ReadNumber(s)
    else Panic
  }

  /** An array after its opening bracket. */
  function ReadArray(s: string): (r: Parse<JsonValue>)
    ensures r.Done? ==> |r.rest| < |s|
    decreases |s|, 2
  {
    var t := SkipBlank(s);
    if Starts(t, ']') then Done(Array([]), t[1..]) else ReadItems(t, [])
  }

  /** An object after its opening brace. */
  function ReadObject(s: string): (r: Parse<JsonValue>)
    ensures r.Done? ==> |r.rest| < |s|
    decreases |s|, 2
  {
    var t := SkipBlank(s);
    if Starts(t, '}') then Done(Object(NewMembers()), t[1..]) else ReadPairs(t, NewMembers())
  }

  /** The items of an array after those in acc. */
  function ReadItems(s: string, acc: seq<JsonValue>): (r: Parse<JsonValue>)
    ensures r.Done? ==> |r.rest| < |s|
    decreases |s|, 1
  {
    var v := ReadValue(SkipBlank(s));
    if !v.Done? then v
    else
      var t := SkipBlank(v.rest);
      if Starts(t, ',') then ReadItems(t[1..], acc + [v.value])
      else if Starts(t, ']') then Done(Array(acc + [v.value]), t[1..])
      else Panic
  }

  /** The text of a name. */
  function ReadName(s: string): (r: Parse<string>)
    ensures r.Done? ==> |r.rest| < |s|
  {
    if Starts(s, '\"') then ReadString(s[1..]) else Panic
  }

  /** The members of an object after those in o. */
  function ReadPairs(s: string, o: Members): (r: Parse<JsonValue>)
    requires |o.table| == SLOTS
    ensures r.Done? ==> |r.rest| < |s|
    decreases |s|, 1
  {
    match ReadName(SkipBlank(s))
    case Panic => Panic
    case Endless => Endless
    case Done(name, rest) =>
      var t := SkipBlank(rest);
      if !Starts(t, ':') then Panic
      else
        var v := ReadValue(SkipBlank(t[1..]));
        if !v.Done? then v
        else
          var o', u := Add(o, name, v.value), SkipBlank(v.rest);
          if Starts(u, ',') then ReadPairs(u[1..], o')
          else if Starts(u, '}') then Done(Object(o'), u[1..])
          else Panic
  }

  /** A whole text. */
  function ReadDocument(s: string): Parse<JsonValue>
  {
    var v := ReadValue(SkipBlank(s));
    if !v.Done? then v
    else if SkipBlank(v.rest) == "" then Done(v.value, "")
    else Panic
  }

  // ── Every document is read ────────────────────────────────────────

  lemma {:induction false} BlankSkipped(b: string, s: string)
    requires AllBlank(b)
    ensures SkipBlank(b + s) == SkipBlank(s)
  {
    if b == "" {
      assert b + s == s;
    } else {
      assert (b + s)[1..] == b[1..] + s;
      BlankSkipped(b[1..], s);
    }
  }

  lemma {:induction false} DigitsDropped(d: string, s: string)
    requires AllDigits(d)
    ensures DropDigits(d + s) == DropDigits(s)
  {
    if d == "" {
      assert d + s == s;
    } else {
      assert (d + s)[1..] == d[1..] + s;
      DigitsDropped(d[1..], s);
    }
  }

  predicate NoDigit(s: string) { s == "" || !Digit(s[0]) }

  lemma DigitsRead(d: string, s: string)
    requires d != "" && AllDigits(d) && NoDigit(s)
    ensures AfterDigits(d + s) == Some(s)
  {
    assert (d + s)[1..] == d[1..] + s;
    DigitsDropped(d[1..], s);
  }

  lemma ExponentRead(e: string, s: string)
    requires GoodExponent(e) && NoDigit(s) && !Starts(s, 'e') && !Starts(s, 'E')
    ensures AfterExponent(e + s) == Some(s)
  {
    if e == "" {
      assert e + s == s;
    } else {
      var d := Exponent(e[1..]);
      assert (e + s)[1..] == e[1..] + s;
      assert Exponent(e[1..] + s) == d + s;
      DigitsRead(d, s);
    }
  }

  lemma FractionRead(f: string, s: string)
    requires GoodFraction(f) && NoDigit(s) && !Starts(s, '.')
    ensures AfterFraction(f + s) == Some(s)
  {
    if f == "" {
      assert f + s == s;
    } else {
      assert (f + s)[1..] == f[1..] + s;
      DigitsRead(f[1..], s);
    }
  }

  lemma WholeRead(w: string, s: string)
    requires w != "" && AllDigits(w) && (w[0] == '0' ==> |w| == 1) && NoDigit(s)
    ensures AfterWhole(w + s) == Some(s)
  {
    assert (w + s)[1..] == w[1..] + s;
    DigitsDropped(w[1..], s);
  }

  /** A number is over where nothing that may follow can belong to it. */
  predicate Ends(s: string) { NoDigit(s) && !Starts(s, '.') && !Starts(s, 'e') && !Starts(s, 'E') }

  lemma NumberRead(n: Num, s: string)
    requires GoodNum(n) && Ends(s)
    ensures AfterNumber(Lexeme(n) + s) == Some(s)
    ensures (Lexeme(n) + s)[0] == '-' || Digit((Lexeme(n) + s)[0])
  {
    var m := if n.minus then "-" else "";
    var t := n.whole + (n.fraction + (n.exponent + s));
    assert Lexeme(n) + s == m + t;
    assert (if Starts(m + t, '-') then (m + t)[1..] else m + t) == t;
    WholeRead(n.whole, n.fraction + (n.exponent + s));
    FractionRead(n.fraction, n.exponent + s);
    ExponentRead(n.exponent, s);
  }

  lemma {:induction false} StringRead(ps: seq<Piece>, s: string)
    requires GoodPieces(ps)
    ensures ReadString(PrintPieces(ps, s)) == Done(PiecesMeaning(ps), s)
  {
    if ps == [] {
      assert ("\"" + s)[1..] == s;
    } else {
      StringRead(ps[1..], s);
      assert GoodPiece(ps[0]);
      var t := PrintPieces(ps[1..], s);
      var u := PrintPieces(ps, s);
      if ps[0].Raw? { assert u[1..] == t; } else { assert u[2..] == t; }
    }
  }

  /** A document starts with none of what can stand in its place. */
  lemma PrintStarts(d: Doc, s: string)
    requires Good(d)
    ensures var t := Print(d, s); t != "" && !Blank(t[0]) && t[0] != ']' && t[0] != '}' && SkipBlank(t) == t
  {
    if d.NumDoc? { assert Lexeme(d.num) != ""; }
  }

  lemma {:induction false} ItemsStart(items: Items, s: string)
    requires GoodItems(items)
    ensures !Starts(SkipBlank(PrintItems(items, s)), ']')
  {
    var tail := if items.LastItem? then items.after + ("]" + s) else items.after + ("," + PrintItems(items.rest, s));
    BlankSkipped(items.before, Print(items.doc, tail));
    PrintStarts(items.doc, tail);
  }

  lemma PairsStart(ps: Pairs, s: string)
    requires GoodPairs(ps)
    ensures !Starts(SkipBlank(PrintPairs(ps, s)), '}')
  {
    var t := PrintPairs(ps, s)[|ps.before|..];
    assert PrintPairs(ps, s) == ps.before + t;
    BlankSkipped(ps.before, t);
  }

  /** What follows an item or a member ends a number. */
  lemma BlankEnds(b: string, c: char, s: string)
    requires AllBlank(b) && (c == ',' || c == ']' || c == '}')
    ensures Ends(b + ([c] + s)) && b + ([c] + s) != "" && SkipBlank(b + ([c] + s)) == [c] + s && ([c] + s)[1..] == s
  {
    BlankSkipped(b, [c] + s);
    assert b + ([c] + s) == b + [c] + s;
  }

  /** The parser reads the text of any document as its meaning; a number must not end the text. */
  lemma {:induction false} DocRead(d: Doc, s: string)
    requires Good(d) && (d.NumDoc? ==> Ends(s) && s != "")
    ensures ReadValue(Print(d, s)) == Done(Meaning(d), s)
    decreases d, 0
  {
    hide ReadArray, ReadObject, SkipBlank, ReadString, PrintItems, PrintPairs, PrintPieces, AfterNumber, Lexeme;
    var t := Print(d, s);
    match d
    case NullDoc => assert "null" <= t && t[4..] == s;
    case TrueDoc => assert "true" <= t && t[4..] == s;
    case FalseDoc => assert "false" <= t && t[5..] == s;
    case StrDoc(ps) =>
      StringRead(ps, s);
      assert t[1..] == PrintPieces(ps, s);
    case NumDoc(n) =>
      NumberRead(n, s);
      assert t[..|t| - |s|] == Lexeme(n);
    case EmptyArray(b) =>
      assert t[1..] == b + ("]" + s);
      EmptyRead(b, s);
    case EmptyObject(b) =>
      assert t[1..] == b + ("}" + s);
      EmptyRead(b, s);
    case ArrayDoc(items) =>
      assert t[1..] == PrintItems(items, s);
      ArrayRead(items, s);
    case ObjectDoc(pairs) =>
      assert t[1..] == PrintPairs(pairs, s);
      ObjectRead(pairs, s);
  }

  lemma EmptyRead(b: string, s: string)
    requires AllBlank(b)
    ensures ReadArray(b + ("]" + s)) == Done(Array([]), s) && ReadObject(b + ("}" + s)) == Done(Object(NewMembers()), s)
  {
    BlankEnds(b, ']', s);
    BlankEnds(b, '}', s);
  }

  lemma {:induction false} ArrayRead(items: Items, s: string)
    requires GoodItems(items)
    ensures ReadArray(PrintItems(items, s)) == Done(Array(ItemsMeaning(items)), s)
    decreases items, 1
  {
    hide ReadItems, SkipBlank, PrintItems;
    ItemsStart(items, s);
    ItemsSkip(PrintItems(items, s), []);
    ItemsRead(items, s, []);
    assert [] + ItemsMeaning(items) == ItemsMeaning(items);
  }

  lemma {:induction false} ObjectRead(pairs: Pairs, s: string)
    requires GoodPairs(pairs)
    ensures ReadObject(PrintPairs(pairs, s)) == Done(Object(PairsMeaning(pairs, NewMembers())), s)
    decreases pairs, 1
  {
    hide ReadPairs, SkipBlank, PrintPairs;
    PairsStart(pairs, s);
    PairsSkip(PrintPairs(pairs, s), NewMembers());
    PairsRead(pairs, s, NewMembers());
  }

  lemma {:induction false} SkipTwice(s: string)
    ensures SkipBlank(SkipBlank(s)) == SkipBlank(s)
  {
    if s != "" && Blank(s[0]) { SkipTwice(s[1..]); }
  }

  lemma ItemsSkip(s: string, acc: seq<JsonValue>)
    ensures ReadItems(SkipBlank(s), acc) == ReadItems(s, acc)
  {
    hide ReadValue;
    SkipTwice(s);
  }

  lemma PairsSkip(s: string, o: Members)
    requires |o.table| == SLOTS
    ensures ReadPairs(SkipBlank(s), o) == ReadPairs(s, o)
  {
    hide ReadValue, ReadName;
    SkipTwice(s);
  }

  lemma {:induction false} ItemsRead(items: Items, s: string, acc: seq<JsonValue>)
    requires GoodItems(items)
    ensures ReadItems(PrintItems(items, s), acc) == Done(Array(acc + ItemsMeaning(items)), s)
    decreases items, 0
  {
    hide ReadValue, Print, SkipBlank, Meaning;
    var d, v := items.doc, Meaning(items.doc);
    var next := if items.LastItem? then "]" + s else "," + PrintItems(items.rest, s);
    if items.LastItem? {
      BlankEnds(items.after, ']', s);
    } else {
      BlankEnds(items.after, ',', PrintItems(items.rest, s));
    }
    var tail := items.after + next;
    BlankSkipped(items.before, Print(d, tail));
    PrintStarts(d, tail);
    DocRead(d, tail);
    if items.MoreItems? {
      ItemsRead(items.rest, s, acc + [v]);
      assert acc + [v] + ItemsMeaning(items.rest) == acc + ItemsMeaning(items);
    } else {
      assert acc + [v] == acc + ItemsMeaning(items);
    }
  }

  /** A member up to its value. */
  lemma NameRead(before: string, name: seq<Piece>, b: string, a: string, d: Doc, tail: string)
    requires AllBlank(before) && GoodPieces(name) && AllBlank(b) && AllBlank(a) && Good(d)
    ensures var t := before + ("\"" + PrintPieces(name, b + (":" + (a + Print(d, tail)))));
            var n := ReadName(SkipBlank(t));
            && n.Done? && n.value == PiecesMeaning(name) && Starts(SkipBlank(n.rest), ':')
            && SkipBlank(SkipBlank(n.rest)[1..]) == Print(d, tail)
  {
    hide Print;
    var r := a + Print(d, tail);
    var t := "\"" + PrintPieces(name, b + (":" + r));
    BlankSkipped(before, t);
    assert SkipBlank(t) == t && t[1..] == PrintPieces(name, b + (":" + r));
    StringRead(name, b + (":" + r));
    BlankSkipped(b, ":" + r);
    assert SkipBlank(":" + r) == ":" + r && (":" + r)[1..] == r;
    BlankSkipped(a, Print(d, tail));
    PrintStarts(d, tail);
  }

  lemma {:induction false} PairsRead(ps: Pairs, s: string, o: Members)
    requires GoodPairs(ps) && |o.table| == SLOTS
    ensures ReadPairs(PrintPairs(ps, s), o) == Done(Object(PairsMeaning(ps, o)), s)
    decreases ps, 0
  {
    hide ReadValue, Print, SkipBlank, Meaning, ReadName, PrintPieces, PiecesMeaning, Add;
    var d := ps.doc;
    var next := if ps.LastPair? then "}" + s else "," + PrintPairs(ps.rest, s);
    if ps.LastPair? { BlankEnds(ps.after, '}', s); } else { BlankEnds(ps.after, ',', PrintPairs(ps.rest, s)); }
    var tail := ps.after + next;
    NameRead(ps.before, ps.name, ps.colonBefore, ps.colonAfter, d, tail);
    DocRead(d, tail);
    if ps.MorePairs? { PairsRead(ps.rest, s, Add(o, PiecesMeaning(ps.name), Meaning(d))); }
  }

  // ── Whatever is read is a document ────────────────────────────────

  lemma {:induction false} BlankBefore(s: string) returns (b: string)
    ensures AllBlank(b) && s == b + SkipBlank(s)
  {
    b := "";
    if s != "" && Blank(s[0]) {
      b := BlankBefore(s[1..]);
      assert s == [s[0]] + s[1..];
      b := [s[0]] + b;
    }
  }

  lemma {:induction false} DigitsBefore(s: string) returns (d: string)
    ensures AllDigits(d) && s == d + DropDigits(s) && NoDigit(DropDigits(s))
  {
    d := "";
    if s != "" && Digit(s[0]) {
      d := DigitsBefore(s[1..]);
      assert s == [s[0]] + s[1..];
      d := [s[0]] + d;
    }
  }

  lemma SomeDigits(s: string) returns (d: string)
    requires AfterDigits(s).Some?
    ensures d != "" && AllDigits(d) && s == d + AfterDigits(s).value
  {
    d := DigitsBefore(s[1..]);
    assert s == [s[0]] + s[1..];
    d := [s[0]] + d;
  }

  lemma SomeFraction(s: string) returns (f: string)
    requires AfterFraction(s).Some?
    ensures GoodFraction(f) && s == f + AfterFraction(s).value
  {
    f := "";
    if Starts(s, '.') {
      var d := SomeDigits(s[1..]);
      f := "." + d;
      assert s == "." + s[1..] && f[1..] == d;
    }
  }

  lemma SomeExponent(s: string) returns (e: string)
    requires AfterExponent(s).Some?
    ensures GoodExponent(e) && s == e + AfterExponent(s).value
  {
    hide Exponent, AfterDigits, AllDigits;
    e := "";
    if Starts(s, 'e') || Starts(s, 'E') {
      var t := s[1..];
      var sign, d := SomeSigned(t);
      e := [s[0]] + (sign + d);
      assert e[1..] == sign + d && e[0] == s[0];
      FirstPart(s, sign + d, AfterExponent(s).value);
    }
  }

  lemma FirstPart(s: string, d: string, r: string)
    requires s != "" && s[1..] == d + r
    ensures s == [s[0]] + d + r
  {
    assert s == [s[0]] + s[1..];
  }

  lemma SomeSigned(t: string) returns (sign: string, d: string)
    requires AfterDigits(Exponent(t)).Some?
    ensures d != "" && AllDigits(d) && Exponent(sign + d) == d && t == sign + d + AfterDigits(Exponent(t)).value
  {
    hide AfterDigits;
    d := SomeDigits(Exponent(t));
    sign := "";
    if Starts(t, '+') || Starts(t, '-') {
      sign := t[..1];
      assert t == sign + Exponent(t) && (sign + d)[1..] == d;
    } else {
      assert d[0] == t[0] && sign + d == d;
    }
  }

  lemma SomeWhole(t: string) returns (w: string)
    requires AfterWhole(t).Some?
    ensures w != "" && AllDigits(w) && (w[0] == '0' ==> |w| == 1) && t == w + AfterWhole(t).value
  {
    w := [t[0]];
    assert t == [t[0]] + t[1..];
    if t[0] != '0' {
      var d := DigitsBefore(t[1..]);
      w := w + d;
    }
  }

  lemma SomeNumber(s: string) returns (n: Num)
    requires AfterNumber(s).Some?
    ensures GoodNum(n) && s == Lexeme(n) + AfterNumber(s).value
  {
    hide AfterWhole, AfterFraction, AfterExponent, GoodFraction, GoodExponent, AllDigits;
    var m := if Starts(s, '-') then "-" else "";
    var t := if Starts(s, '-') then s[1..] else s;
    assert s == m + t;
    var w := SomeWhole(t);
    var u := AfterWhole(t).value;
    var f := SomeFraction(u);
    var e := SomeExponent(AfterFraction(u).value);
    n := Num(Starts(s, '-'), w, f, e);
    FourParts(m, w, f, e, AfterNumber(s).value);
  }

  lemma FourParts(m: string, w: string, f: string, e: string, r: string)
    ensures m + (w + (f + (e + r))) == m + w + f + e + r
  {}

  lemma {:induction false} SomeString(s: string) returns (ps: seq<Piece>)
    requires ReadString(s).Done?
    ensures GoodPieces(ps) && PiecesMeaning(ps) == ReadString(s).value && s == PrintPieces(ps, ReadString(s).rest)
  {
    ps := [];
    if s[0] == '\"' {
      assert s == "\"" + s[1..];
    } else if s[0] != '\\' {
      var qs := SomeString(s[1..]);
      ps := [Raw(s[0])] + qs;
      assert ps[1..] == qs && s == [s[0]] + s[1..];
    } else {
      var qs := SomeString(s[2..]);
      ps := [Escaped(s[1])] + qs;
      assert ps[1..] == qs && s == ['\\', s[1]] + s[2..];
    }
  }

  /** Whatever value the parser reads is the meaning of a document that the text starts with. */
  lemma {:induction false} SomeDoc(s: string) returns (d: Doc)
    requires ReadValue(s).Done?
    ensures Good(d) && Meaning(d) == ReadValue(s).value && s == Print(d, ReadValue(s).rest)
        && (d.NumDoc? ==> ReadValue(s).rest != "")
    decreases |s|, 0
  {
    hide ReadArray, ReadObject, ReadString, AfterNumber, GoodNum, Lexeme, GoodItems, GoodPairs, PrintItems, PrintPairs;
    var r := ReadValue(s).rest;
    assert s == [s[0]] + s[1..];
    if s[0] == 'n' {
      d := NullDoc;
      assert s == "null" + s[4..];
    } else if s[0] == 't' {
      d := TrueDoc;
      assert s == "true" + s[4..];
    } else if s[0] == 'f' {
      d := FalseDoc;
      assert s == "false" + s[5..];
    } else if s[0] == '\"' {
      var ps := SomeString(s[1..]);
      d := StrDoc(ps);
    } else if s[0] == '[' {
      d := SomeArray(s[1..]);
    } else if s[0] == '{' {
      d := SomeObject(s[1..]);
    } else {
      var n := SomeNumber(s);
      d := NumDoc(n);
      assert s[..|s| - |r|] == Lexeme(n);
    }
  }

  lemma {:induction false} SomeArray(s: string) returns (d: Doc)
    requires ReadArray(s).Done?
    ensures Good(d) && Meaning(d) == ReadArray(s).value && "[" + s == Print(d, ReadArray(s).rest) && !d.NumDoc?
    decreases |s|, 2
  {
    hide ReadItems, SkipBlank;
    var t := SkipBlank(s);
    var b := BlankBefore(s);
    if Starts(t, ']') {
      d := EmptyArray(b);
      assert t == "]" + t[1..];
    } else {
      ItemsSkip(s, []);
      var items := SomeItems(s, []);
      d := ArrayDoc(items);
      assert [] + ItemsMeaning(items) == ItemsMeaning(items);
    }
  }

  lemma {:induction false} SomeObject(s: string) returns (d: Doc)
    requires ReadObject(s).Done?
    ensures Good(d) && Meaning(d) == ReadObject(s).value && "{" + s == Print(d, ReadObject(s).rest) && !d.NumDoc?
    decreases |s|, 2
  {
    hide ReadPairs, SkipBlank;
    var t := SkipBlank(s);
    var b := BlankBefore(s);
    if Starts(t, '}') {
      d := EmptyObject(b);
      assert t == "}" + t[1..];
    } else {
      PairsSkip(s, NewMembers());
      var pairs := SomePairs(s, NewMembers());
      d := ObjectDoc(pairs);
    }
  }

  lemma {:induction false} SomeItems(s: string, acc: seq<JsonValue>) returns (items: Items)
    requires ReadItems(s, acc).Done?
    ensures GoodItems(items) && ReadItems(s, acc).value == Array(acc + ItemsMeaning(items))
    ensures s == PrintItems(items, ReadItems(s, acc).rest)
    decreases |s|, 1
  {
    hide ReadValue, SkipBlank, Print, Meaning, Good;
    var before := BlankBefore(s);
    var d := SomeDoc(SkipBlank(s));
    var v := ReadValue(SkipBlank(s));
    var after := BlankBefore(v.rest);
    var t := SkipBlank(v.rest);
    if Starts(t, ',') {
      var more := SomeItems(t[1..], acc + [v.value]);
      items := MoreItems(before, d, after, more);
      assert t == "," + t[1..];
      assert acc + [v.value] + ItemsMeaning(more) == acc + ItemsMeaning(items);
    } else {
      items := LastItem(before, d, after);
      assert t == "]" + t[1..];
      assert acc + [v.value] == acc + ItemsMeaning(items);
    }
  }

  lemma {:induction false} SomePairs(s: string, o: Members) returns (ps: Pairs)
    requires |o.table| == SLOTS && ReadPairs(s, o).Done?
    ensures GoodPairs(ps) && ReadPairs(s, o).value == Object(PairsMeaning(ps, o))
    ensures s == PrintPairs(ps, ReadPairs(s, o).rest)
    decreases |s|, 1
  {
    hide ReadValue, SkipBlank, Print, Meaning, Good, ReadString, PrintPieces, PiecesMeaning, Add;
    var before := BlankBefore(s);
    var q := SkipBlank(s);
    var name := SomeString(q[1..]);
    assert q == "\"" + q[1..];
    var n := ReadName(q);
    var b := BlankBefore(n.rest);
    var t := SkipBlank(n.rest);
    assert t == ":" + t[1..];
    var a := BlankBefore(t[1..]);
    var d := SomeDoc(SkipBlank(t[1..]));
    var v := ReadValue(SkipBlank(t[1..]));
    var after := BlankBefore(v.rest);
    var u := SkipBlank(v.rest);
    if Starts(u, ',') {
      var more := SomePairs(u[1..], Add(o, n.value, v.value));
      ps := MorePairs(before, name, b, a, d, after, more);
      assert u == "," + u[1..];
    } else {
      ps := LastPair(before, name, b, a, d, after);
      assert u == "}" + u[1..];
    }
  }

  // ── Whole texts ───────────────────────────────────────────────────

  /** s is a document between blanks, standing for v; a bare number has a blank after it. */
  ghost predicate IsText(s: string, v: JsonValue, before: string, d: Doc, after: string)
  {
    && AllBlank(before) && Good(d) && AllBlank(after) && s == before + Print(d, after) && Meaning(d) == v
    && (d.NumDoc? ==> after != "")
  }

  /** The parser accepts exactly the texts of documents, and returns what they stand for. */
  lemma ReadIff(s: string, v: JsonValue)
    ensures ReadDocument(s) == Done(v, "") <==>
        exists before: string, d: Doc, after: string :: IsText(s, v, before, d, after)
  {
    hide ReadValue, Print, Meaning, Good;
    if ReadDocument(s) == Done(v, "") {
      var before := BlankBefore(s);
      var d := SomeDoc(SkipBlank(s));
      var after := BlankBefore(ReadValue(SkipBlank(s)).rest);
      assert after + "" == after;
      assert IsText(s, v, before, d, after);
    }
    forall before: string, d: Doc, after: string | IsText(s, v, before, d, after)
        ensures ReadDocument(s) == Done(v, "") {
      BlankSkipped(before, Print(d, after));
      PrintStarts(d, after);
      DocRead(d, after);
      assert after + "" == after;
      BlankSkipped(after, "");
    }
  }

  /** No text stands for two values. */
  lemma OneMeaning(s: string, v: JsonValue, before: string, d: Doc, after: string,
                   w: JsonValue, before': string, d': Doc, after': string)
    requires IsText(s, v, before, d, after) && IsText(s, w, before', d', after')
    ensures v == w
  {
    hide IsText;
    ReadIff(s, v);
    ReadIff(s, w);
  }

  function Plain(s: string): seq<Piece> { seq(|s|, i requires 0 <= i < |s| => Raw(s[i])) }

  /** {"ab":1,"cd":2} */
  function TwoNames(): Doc
  {
    ObjectDoc(MorePairs("", Plain("ab"), "", "", NumDoc(Num(false, "1", "", "")), "",
                        LastPair("", Plain("cd"), "", "", NumDoc(Num(false, "2", "", "")), "")))
  }

  /** A document that parses, and a name of it whose lookup panics: a later name has the same length. */
  lemma LostName()
    ensures ReadDocument(Print(TwoNames(), "")) == Done(Meaning(TwoNames()), "") && Meaning(TwoNames()).Object?
    ensures var o := Meaning(TwoNames()).members; Valid(o) && o.names == ["ab", "cd"] && Get(o, "ab") == None
  {
    hide Slot, Get, ReadValue, Print, LatestIn;
    var d := TwoNames();
    assert PiecesMeaning(Plain("ab")) == "ab" && PiecesMeaning(Plain("cd")) == "cd" by {
      assert Plain("ab")[1..] == [Raw('b')] && Plain("cd")[1..] == [Raw('d')];
    }
    assert Good(d);
    assert IsText(Print(d, ""), Meaning(d), "", d, "");
    ReadIff(Print(d, ""), Meaning(d));
    NewValid();
    PairsValid(d.pairs, NewMembers());
    var o := Meaning(d).members;
    assert o.names == ["ab", "cd"];
    assert |o.names[1]| % SLOTS == |"ab"| % SLOTS;
    forall i: nat, v: JsonValue ensures !FoundAt(o, "ab", v, i) {}
    forall v: JsonValue ensures Get(o, "ab") != Some(v) { GetIff(o, "ab", v); }
  }
}
