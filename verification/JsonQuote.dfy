/** Writing a string out: whatever its characters, the quoted text is read back as the string. */
module JsonQuote {
  import opened JsonGrammar
  import opened JsonObject
  import opened JsonReading

  /** One character as it may stand between quotes. */
  function Quote(c: char): string
  {
    if c == '\"' then "\\\""
    else if c == '\\' then "\\\\"
    else if c == '\n' then "\\n"
    else if c == '\r' then "\\r"
    else if c == '\t' then "\\t"
    else if c == 8 as char then "\\b"
    else if c == 12 as char then "\\f"
    else [c]
  }

  function Quoted(text: string): string { if text == "" then "" else Quote(text[0]) + Quoted(text[1..]) }

  lemma QuoteShape(c: char)
    ensures var q := Quote(c);
            if |q| == 1 then q == [c] && c != '\"' && c != '\\'
            else |q| == 2 && q[0] == '\\' && Escapable(q[1]) && Unescaped(q[1]) == c
  {}

  lemma QuoteRead(c: char, s: string)
    ensures ReadString(Quote(c) + s) == Prefixed([c], ReadString(s))
  {
    QuoteShape(c);
    hide Quote, Unescaped, Escapable;
    var q := Quote(c);
    if |q| == 1 { assert (q + s)[1..] == s; } else { assert (q + s)[2..] == s; }
  }

  lemma QuoteEnd(rest: string)
    ensures ReadString("\"" + rest) == Done("", rest)
  {
    assert ("\"" + rest)[1..] == rest;
  }

  /** Every text is read back from its quoted form. */
  lemma {:induction false} QuotedRead(text: string, rest: string)
    ensures ReadString(Quoted(text) + ("\"" + rest)) == Done(text, rest)
  {
    hide Quote, ReadString;
    var tail := "\"" + rest;
    if text == "" {
      assert Quoted(text) + tail == tail;
      QuoteEnd(rest);
    } else {
      QuotedRead(text[1..], rest);
      QuoteRead(text[0], Quoted(text[1..]) + tail);
      assert Quoted(text) + tail == Quote(text[0]) + (Quoted(text[1..]) + tail);
      assert [text[0]] + text[1..] == text;
    }
  }

  /** The one escape that quoting never needs: a slash stands for itself with or without it. */
  lemma SlashRead(s: string)
    ensures ReadString("\\/" + s) == ReadString("/" + s) == Prefixed("/", ReadString(s))
  {
    assert ("\\/" + s)[2..] == s && ("/" + s)[1..] == s;
  }

  /** As a whole document. */
  lemma QuotedDocument(text: string)
    ensures ReadDocument("\"" + (Quoted(text) + "\"")) == Done(Str(text), "")
  {
    hide Quoted, ReadString;
    var t := Quoted(text) + ("\"" + "");
    QuotedRead(text, "");
    assert "\"" + "" == "\"";
    assert ("\"" + t)[1..] == t;
    assert SkipBlank("\"" + t) == "\"" + t;
    assert SkipBlank("") == "";
  }
}
