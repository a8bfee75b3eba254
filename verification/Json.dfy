/** The parser: one current character, and captures that pause at escapes. */
module Json {
  import opened JsonGrammar
  import opened JsonObject
  import opened JsonReading
  import opened Options

  /** How a method ends: with a result, by a panic, or never. */
  datatype Outcome = Fine | Panicked | Looping

  ghost predicate Agrees<T(!new)>(outcome: Outcome, value: T, rest: string, p: Parse<T>)
  {
    match p
    case Done(v, r) => outcome == Fine && value == v && rest == r
    case Panic => outcome == Panicked
    case Endless => outcome == Looping
  }

  function Newlines(s: string): nat
  {
    if s == "" then 0 else Newlines(s[..|s| - 1]) + if s[|s| - 1] == '\n' then 1 else 0
  }

  class Parser {
    const input: string
    var index: int
    var line: int
    var column: int
    var current: Option<char>
    var eot: bool
    var captureBuffer: string
    var captureStart: int

    constructor (input: string)
      ensures this.input == input && Unread()
    {
      this.input, index, line, column, current, eot := input, -1, 1, 0, None, false;
      captureBuffer, captureStart := "", -1;
    }

    ghost predicate Unread()
      reads this
    {
      index == -1 && line == 1 && current == None && !eot && captureBuffer == ""
    }

    /** current is the character at index, or none at the end of the text; line counts the newlines passed. */
    ghost predicate Valid()
      reads this
    {
      && 0 <= index <= |input| && eot == (index == |input|)
      && current == (if index < |input| then Some(input[index]) else None)
      && line == 1 + Newlines(input[..index])
    }

    /** The text not yet passed. */
    ghost function Rest(): string
      requires Valid()
      reads this
    {
      input[index..]
    }

    method Read()
      requires Unread() || (Valid() && !eot)
      modifies this
      ensures Valid() && index == old(index) + 1
      ensures captureBuffer == old(captureBuffer) && captureStart == old(captureStart)
    {
      if current == Some('\n') { line, column := line + 1, 0; }
      index := index + 1;
      if index < |input| {
        current := Some(input[index]);
      } else {
        current, eot := None, true;
      }
      if index > 0 { assert input[..index][..index - 1] == input[..index - 1]; }
    }

    method ReadChar(ch: char) returns (ok: bool)
      requires Valid()
      modifies this
      ensures Valid() && ok == Starts(old(Rest()), ch) && Rest() == if ok then old(Rest())[1..] else old(Rest())
      ensures index == old(index) + if ok then 1 else 0
      ensures captureBuffer == old(captureBuffer) && captureStart == old(captureStart)
    {
      if current != Some(ch) { return false; }
      Read();
      ok := true;
    }

    method ReadDigit() returns (ok: bool)
      requires Valid()
      modifies this
      ensures Valid() && ok == !NoDigit(old(Rest())) && Rest() == if ok then old(Rest())[1..] else old(Rest())
      ensures index == old(index) + if ok then 1 else 0
      ensures captureBuffer == old(captureBuffer) && captureStart == old(captureStart)
    {
      if current.None? || !Digit(current.value) { return false; }
      Read();
      ok := true;
    }

    method SkipWhiteSpace()
      requires Valid()
      modifies this
      ensures Valid() && Rest() == SkipBlank(old(Rest())) && index >= old(index)
      ensures captureBuffer == old(captureBuffer) && captureStart == old(captureStart)
    {
      hide Newlines;
      while current.Some? && Blank(current.value)
        invariant Valid() && SkipBlank(Rest()) == SkipBlank(old(Rest())) && index >= old(index)
        invariant captureBuffer == old(captureBuffer) && captureStart == old(captureStart)
        decreases |input| - index
      {
        Read();
      }
    }

    // ── Captures ──────────────────────────────────────────────────────

    method StartCapture()
      requires Valid()
      modifies `captureStart
      ensures captureStart == index
    {
      captureStart := index;
    }

    method PauseCapture()
      requires Valid() && !eot && 0 <= captureStart <= index
      modifies `captureBuffer, `captureStart
      ensures captureBuffer == old(captureBuffer) + input[old(captureStart)..index]
    {
      var end := if eot then index else index - 1;
      captureBuffer := captureBuffer + input[captureStart..end + 1];
      captureStart := -1;
    }

    /** At the end of the text the capture runs one past the input, which fails. */
    method EndCapture() returns (ok: bool, captured: string)
      requires Valid() && 0 <= captureStart <= index
      modifies `captureBuffer, `captureStart
      ensures ok == !eot && (ok ==>
          captured == old(captureBuffer) + input[old(captureStart)..index] && captureBuffer == "")
    {
      var end := if eot then index else index - 1;
      if end + 1 > |input| { return false, ""; }
      var piece := input[captureStart..end + 1];
      if captureBuffer == "" {
        captured := piece;
      } else {
        captured := captureBuffer + piece;
        captureBuffer := "";
      }
      captureStart := -1;
      ok := true;
    }

    // ── Strings ───────────────────────────────────────────────────────

    /** One escape, put into the buffer unescaped. */
    method ReadEscape() returns (ok: bool)
      requires Valid() && current == Some('\\')
      modifies this
      ensures ok == (|old(Rest())| > 1 && Escapable(old(Rest())[1]))
      ensures ok ==>
                && Valid() && index == old(index) + 2
                && captureBuffer == old(captureBuffer) + [Unescaped(old(Rest())[1])]
    {
      Read();
      if current.None? { return false; }
      var ch := current.value;
      match ch {
        case '\"' | '/' | '\\' => captureBuffer := captureBuffer + [ch];
        case 'b' => captureBuffer := captureBuffer + [8 as char];
        case 'f' => captureBuffer := captureBuffer + [12 as char];
        case 'n' => captureBuffer := captureBuffer + ['\n'];
        case 'r' => captureBuffer := captureBuffer + ['\r'];
        case 't' => captureBuffer := captureBuffer + ['\t'];
        case _ => return false;
      }
      Read();
      ok := true;
    }

    method ReadStringInternal() returns (outcome: Outcome, s: string)
      requires Valid() && current == Some('\"') && captureBuffer == ""
      modifies this
      ensures outcome == Fine ==> Valid() && captureBuffer == "" && index > old(index)
      ensures Agrees(outcome, s, if outcome == Fine then Rest() else "", ReadString(old(Rest())[1..]))
    {
      hide ReadString, Newlines, Unescaped, Escapable, Seen;
      s := "";
      ghost var start := Rest()[1..];
      Read();
      StartCapture();
      SeenStart(input, index, start);
      while current != Some('\"')
        invariant Valid() && 0 <= captureStart <= index && index > old(index)
        invariant Seen(input, index, captureStart, captureBuffer, start)
        decreases |input| - index
      {
        SeenStep(input, index, captureStart, captureBuffer, start);
        if current.None? { return Looping, ""; }
        if current == Some('\\') {
          PauseCapture();
          var ok := ReadEscape();
          if !ok { return Panicked, ""; }
          StartCapture();
        } else {
          Read();
        }
      }
      SeenStep(input, index, captureStart, captureBuffer, start);
      var ok;
      ok, s := EndCapture();
      Read();
      outcome := Fine;
    }

    // ── Numbers ───────────────────────────────────────────────────────

    /** All digits from here on. */
    method SkipDigits()
      requires Valid()
      modifies this
      ensures Valid() && Rest() == DropDigits(old(Rest())) && index >= old(index)
      ensures captureBuffer == old(captureBuffer) && captureStart == old(captureStart)
    {
      hide Newlines;
      var more := true;
      while more
        invariant Valid() && DropDigits(Rest()) == DropDigits(old(Rest())) && index >= old(index)
        invariant !more ==> NoDigit(Rest())
        invariant captureBuffer == old(captureBuffer) && captureStart == old(captureStart)
        decreases |input| - index, more
      {
        more := ReadDigit();
      }
    }

    method ReadFraction() returns (ok: bool)
      requires Valid()
      modifies this
      ensures ok == AfterFraction(old(Rest())).Some?
      ensures ok ==> Valid() && Rest() == AfterFraction(old(Rest())).value && index >= old(index)
      ensures captureBuffer == old(captureBuffer) && captureStart == old(captureStart)
    {
      hide Newlines;
      var dot := ReadChar('.');
      if !dot { return true; }
      ok := ReadDigit();
      if ok { SkipDigits(); }
    }

    method ReadExponent() returns (ok: bool)
      requires Valid()
      modifies this
      ensures ok == AfterExponent(old(Rest())).Some?
      ensures ok ==> Valid() && Rest() == AfterExponent(old(Rest())).value && index >= old(index)
      ensures captureBuffer == old(captureBuffer) && captureStart == old(captureStart)
    {
      hide Newlines;
      var e := ReadChar('e');
      if !e { e := ReadChar('E'); }
      if !e { return true; }
      var sign := ReadChar('+');
      if !sign { sign := ReadChar('-'); }
      ok := ReadDigit();
      if ok { SkipDigits(); }
    }

    /** The digits before a fraction: a zero, or as many as there are. */
    method ReadWhole() returns (ok: bool)
      requires Valid()
      modifies this
      ensures ok == AfterWhole(old(Rest())).Some?
      ensures ok ==> Valid() && Rest() == AfterWhole(old(Rest())).value && index > old(index)
      ensures captureBuffer == old(captureBuffer) && captureStart == old(captureStart)
    {
      hide Newlines, DropDigits;
      var firstDigit := current;
      ok := ReadDigit();
      if ok && firstDigit != Some('0') { SkipDigits(); }
    }

    method ReadNumber() returns (outcome: Outcome, v: JsonValue)
      requires Valid() && captureBuffer == ""
      modifies this
      ensures outcome == Fine ==> Valid() && captureBuffer == "" && index > old(index)
      ensures Agrees(outcome, v, if outcome == Fine then Rest() else "", JsonReading.ReadNumber(old(Rest())))
    {
      hide Newlines, AfterFraction, AfterExponent, AfterWhole, AfterNumber, JsonReading.ReadNumber, Starts;
      v := Null;
      ghost var s := Rest();
      NumberSteps(s);
      NumberIs(s);
      StartCapture();
      var minus := ReadChar('-');
      var ok := ReadWhole();
      if !ok { return Panicked, v; }
      ok := ReadFraction();
      if !ok { return Panicked, v; }
      ok := ReadExponent();
      if !ok { return Panicked, v; }
      var captured;
      ok, captured := EndCapture();
      if !ok { return Panicked, v; }
      Slice(input, old(index), index);
      assert captured == input[old(index)..index];
      return Fine, Number(captured);
    }

    // ── Values ────────────────────────────────────────────────────────

    /** The characters of a keyword after its first. */
    method ReadWord(word: string) returns (ok: bool)
      requires Valid() && word != "" && current == Some(word[0])
      modifies this
      ensures ok == (word <= old(Rest())) && captureBuffer == old(captureBuffer)
      ensures ok ==> Valid() && Rest() == old(Rest())[|word|..] && index == old(index) + |word|
    {
      hide Newlines;
      Read();
      var i := 1;
      while i < |word|
        invariant 1 <= i <= |word| && Valid() && captureBuffer == old(captureBuffer) && index == old(index) + i
        invariant word[..i] <= old(Rest())
      {
        ok := ReadChar(word[i]);
        if !ok {
          assert |old(Rest())| > i ==> old(Rest())[i] == input[old(index) + i];
          return;
        }
        assert word[..i + 1] == word[..i] + [word[i]] && old(Rest())[..i + 1] == old(Rest())[..i] + [old(Rest())[i]];
        i := i + 1;
      }
      assert word[..i] == word;
      ok := true;
    }

    method ReadArray() returns (outcome: Outcome, v: JsonValue)
      requires Valid() && current == Some('[') && captureBuffer == ""
      modifies this
      ensures outcome == Fine ==> Valid() && captureBuffer == "" && index > old(index)
      ensures Agrees(outcome, v, if outcome == Fine then Rest() else "", JsonReading.ReadArray(old(Rest())[1..]))
      decreases |input| - index, 1
    {
      hide Newlines, JsonReading.ReadValue, SkipBlank, ReadItems;
      ghost var start := Rest()[1..];
      Read();
      var items: seq<JsonValue> := [];
      SkipWhiteSpace();
      var close := ReadChar(']');
      if close { return Fine, Array(items); }
      var more := true;
      while more
        invariant Valid() && captureBuffer == "" && index > old(index)
        invariant more ==> JsonReading.ReadArray(start) == ReadItems(Rest(), items)
        invariant !more ==> JsonReading.ReadArray(start) == LastItemRead(Rest(), items)
        decreases more, |input| - index
      {
        ItemsStep(Rest(), items);
        SkipWhiteSpace();
        outcome, v := ReadValue();
        if outcome != Fine { return; }
        items := items + [v];
        SkipWhiteSpace();
        more := ReadChar(',');
      }
      close := ReadChar(']');
      if !close { return Panicked, Null; }
      return Fine, Array(items);
    }

    method ReadName() returns (outcome: Outcome, s: string)
      requires Valid() && captureBuffer == ""
      modifies this
      ensures outcome == Fine ==> Valid() && captureBuffer == "" && index > old(index)
      ensures Agrees(outcome, s, if outcome == Fine then Rest() else "", JsonReading.ReadName(old(Rest())))
    {
      if current != Some('\"') { return Panicked, ""; }
      outcome, s := ReadStringInternal();
    }

    method ReadObject() returns (outcome: Outcome, v: JsonValue)
      requires Valid() && current == Some('{') && captureBuffer == ""
      modifies this
      ensures outcome == Fine ==> Valid() && captureBuffer == "" && index > old(index)
      ensures Agrees(outcome, v, if outcome == Fine then Rest() else "", JsonReading.ReadObject(old(Rest())[1..]))
      decreases |input| - index, 1
    {
      hide Newlines, JsonReading.ReadValue, JsonReading.ReadName, SkipBlank, Add, ReadPairs;
      v := Null;
      ghost var start := Rest()[1..];
      Read();
      var members := NewMembers();
      SkipWhiteSpace();
      var close := ReadChar('}');
      if close { return Fine, Object(members); }
      var more := true;
      while more
        invariant Valid() && captureBuffer == "" && index > old(index) && |members.table| == SLOTS
        invariant more ==> JsonReading.ReadObject(start) == ReadPairs(Rest(), members)
        invariant !more ==> JsonReading.ReadObject(start) == LastPairRead(Rest(), members)
        decreases more, |input| - index
      {
        PairsStep(Rest(), members);
        SkipWhiteSpace();
        var name;
        outcome, name := ReadName();
        if outcome != Fine { return; }
        SkipWhiteSpace();
        var colon := ReadChar(':');
        if !colon { return Panicked, v; }
        SkipWhiteSpace();
        outcome, v := ReadValue();
        if outcome != Fine { return; }
        members := Add(members, name, v);
        SkipWhiteSpace();
        more := ReadChar(',');
      }
      close := ReadChar('}');
      if !close { return Panicked, v; }
      return Fine, Object(members);
    }

    method ReadValue() returns (outcome: Outcome, v: JsonValue)
      requires Valid() && captureBuffer == ""
      modifies this
      ensures outcome == Fine ==> Valid() && captureBuffer == "" && index > old(index)
      ensures Agrees(outcome, v, if outcome == Fine then Rest() else "", JsonReading.ReadValue(old(Rest())))
      decreases |input| - index, 2
    {
      hide Newlines, JsonReading.ReadArray, JsonReading.ReadObject, JsonReading.ReadNumber, ReadString;
      v := Null;
      outcome := Panicked;
      if current.None? { return; }
      var ch := current.value;
      match ch {
        case 'n' =>
          var ok := ReadWord("null");
          if ok { outcome := Fine; }
        case 't' =>
          var ok := ReadWord("true");
          if ok { outcome, v := Fine, True; }
        case 'f' =>
          var ok := ReadWord("false");
          if ok { outcome, v := Fine, False; }
        case '\"' =>
          var s;
          outcome, s := ReadStringInternal();
          v := Str(s);
        case '[' => outcome, v := ReadArray();
        case '{' => outcome, v := ReadObject();
        case _ =>
          if ch == '-' || Digit(ch) { outcome, v := ReadNumber(); }
      }
    }

    /** Parse the whole input: it succeeds exactly on the texts of documents, with their meaning. */
    method Parse() returns (outcome: Outcome, v: JsonValue)
      requires Unread()
      modifies this
      ensures Agrees(outcome, v, "", ReadDocument(input))
      ensures outcome == Fine ==> exists before: string, d: Doc, after: string :: IsText(input, v, before, d, after)
      ensures forall w: JsonValue, before: string, d: Doc, after: string :: IsText(input, w, before, d, after) ==>
                outcome == Fine && v == w
    {
      hide Newlines, JsonReading.ReadValue, IsText;
      Read();
      assert Rest() == input;
      SkipWhiteSpace();
      outcome, v := ReadValue();
      if outcome == Fine {
        SkipWhiteSpace();
        assert eot <==> Rest() == "";
        if !eot { outcome := Panicked; }
      }
      forall w: JsonValue, before: string, d: Doc, after: string | IsText(input, w, before, d, after)
        ensures ReadDocument(input) == Done(w, "")
      {
        ReadIff(input, w);
      }
      if outcome == Fine {
        assert ReadDocument(input) == Done(v, "");
        ReadIff(input, v);
      }
    }
  }

  /** What stands between two positions, from the text after each. */
  lemma Slice(s: string, a: nat, b: nat)
    requires a <= b <= |s|
    ensures s[a..b] == s[a..][..|s[a..]| - |s[b..]|]
  {}

  lemma NumberSteps(s: string)
    ensures var w := AfterWhole(if Starts(s, '-') then s[1..] else s);
            && (w.None? ==> AfterNumber(s).None?)
            && (w.Some? && AfterFraction(w.value).None? ==> AfterNumber(s).None?)
            && (w.Some? && AfterFraction(w.value).Some? ==>
               AfterNumber(s) == AfterExponent(AfterFraction(w.value).value))
  {}

  /** What a number is read as. */
  lemma NumberIs(s: string)
    ensures var r := AfterNumber(s);
            JsonReading.ReadNumber(s)
            == if r.None? || r.value == "" then Panic else Done(Number(s[..|s| - |r.value|]), r.value)
  {}

  /** One character of a string, after seen. */
  lemma StringStep(s: string, seen: string)
    ensures s == "" ==> Prefixed(seen, ReadString(s)) == Endless
    ensures Starts(s, '\"') ==> Prefixed(seen, ReadString(s)) == Done(seen, s[1..])
    ensures s != "" && s[0] != '\"' && s[0] != '\\' ==>
              Prefixed(seen, ReadString(s)) == Prefixed(seen + [s[0]], ReadString(s[1..]))
    ensures Starts(s, '\\') && !(|s| > 1 && Escapable(s[1])) ==> Prefixed(seen, ReadString(s)) == Panic
    ensures Starts(s, '\\') && |s| > 1 && Escapable(s[1]) ==>
              Prefixed(seen, ReadString(s)) == Prefixed(seen + [Unescaped(s[1])], ReadString(s[2..]))
  {
    assert seen + "" == seen;
    if s != "" && s[0] != '\"' && s[0] != '\\' { PrefixTwice(seen, [s[0]], ReadString(s[1..])); }
    if Starts(s, '\\') && |s| > 1 { PrefixTwice(seen, [Unescaped(s[1])], ReadString(s[2..])); }
  }

  /** An array where no further item follows. */
  ghost function LastItemRead(s: string, items: seq<JsonValue>): Parse<JsonValue>
  {
    if Starts(s, ']') then Done(Array(items), s[1..]) else Panic
  }

  /** One item of an array. */
  lemma ItemsStep(s: string, items: seq<JsonValue>)
    ensures var v, r := JsonReading.ReadValue(SkipBlank(s)), ReadItems(s, items);
            && (v.Panic? ==> r.Panic?) && (v.Endless? ==> r.Endless?)
            && (v.Done? ==>
                  var t, items' := SkipBlank(v.rest), items + [v.value];
                  r == if Starts(t, ',') then ReadItems(t[1..], items') else LastItemRead(t, items'))
  {
    hide JsonReading.ReadValue, SkipBlank;
  }

  /** An object where no further member follows. */
  ghost function LastPairRead(s: string, o: Members): Parse<JsonValue>
  {
    if Starts(s, '}') then Done(Object(o), s[1..]) else Panic
  }

  /** One member of an object. */
  lemma PairsStep(s: string, o: Members)
    requires |o.table| == SLOTS
    ensures var n, r := JsonReading.ReadName(SkipBlank(s)), ReadPairs(s, o);
            && (n.Panic? ==> r.Panic?) && (n.Endless? ==> r.Endless?)
            && (n.Done? && !Starts(SkipBlank(n.rest), ':') ==> r.Panic?)
            && (n.Done? && Starts(SkipBlank(n.rest), ':') ==>
                  var v := JsonReading.ReadValue(SkipBlank(SkipBlank(n.rest)[1..]));
                  && (v.Panic? ==> r.Panic?) && (v.Endless? ==> r.Endless?)
                  && (v.Done? ==>
                        var t, o' := SkipBlank(v.rest), Add(o, n.value, v.value);
                        r == if Starts(t, ',') then ReadPairs(t[1..], o') else LastPairRead(t, o')))
  {
    hide JsonReading.ReadName, JsonReading.ReadValue, SkipBlank, Add;
  }

  /** In the middle of a string: the buffer and the capture from a to i are what has been read of start. */
  ghost predicate Seen(s: string, i: nat, a: nat, buffer: string, start: string)
    requires a <= i <= |s|
  {
    ReadString(start) == Prefixed(buffer + s[a..i], ReadString(s[i..]))
  }

  lemma SeenStart(s: string, i: nat, start: string)
    requires i <= |s| && start == s[i..]
    ensures Seen(s, i, i, "", start)
  {
    assert "" + s[i..i] == "";
    PrefixNone(ReadString(start));
  }

  /** What the next character does to the capture. */
  lemma SeenStep(s: string, i: nat, a: nat, buffer: string, start: string)
    requires a <= i <= |s| && Seen(s, i, a, buffer, start)
    ensures i == |s| ==> ReadString(start) == Endless
    ensures i < |s| && s[i] == '\"' ==> ReadString(start) == Done(buffer + s[a..i], s[i + 1..])
    ensures i < |s| && s[i] != '\"' && s[i] != '\\' ==> Seen(s, i + 1, a, buffer, start)
    ensures i < |s| && s[i] == '\\' ==>
              if |s[i..]| > 1 && Escapable(s[i..][1]) then
                Seen(s, i + 2, i + 2, buffer + s[a..i] + [Unescaped(s[i..][1])], start)
              else ReadString(start) == Panic
  {
    hide ReadString, Prefixed, Unescaped, Escapable;
    var seen, rest := buffer + s[a..i], s[i..];
    StringStep(rest, seen);
    if i < |s| {
      assert rest[1..] == s[i + 1..] && buffer + s[a..i + 1] == seen + [s[i]];
      if |rest| > 1 {
        var buffer' := seen + [Unescaped(rest[1])];
        assert rest[2..] == s[i + 2..] && buffer' + s[i + 2..i + 2] == buffer';
      }
    }
  }

  lemma PrefixNone(r: Parse<string>)
    ensures Prefixed("", r) == r
  {
    if r.Done? { assert "" + r.value == r.value; }
  }

  lemma PrefixTwice(a: string, b: string, r: Parse<string>)
    ensures Prefixed(a, Prefixed(b, r)) == Prefixed(a + b, r)
  {
    if r.Done? { assert a + (b + r.value) == a + b + r.value; }
  }
}
