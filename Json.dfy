/** A JSON codec restricted to the two shapes the application serialises: the
    analysis result `{"resumo": ..., "lista_fatos": [...]}` and the array of history
    records. It stands in for `JSON.stringify` and `JSON.parse`. The encoder writes
    what `JSON.stringify` writes for these values: no whitespace, keys in creation
    order, and in strings the quote, the backslash and the control characters
    escaped. The decoder accepts whitespace between tokens and the escapes of the
    JSON string grammar, refuses raw control characters inside strings, and expects
    exactly the keys of each object in the order the encoder writes them. Every
    decoder returns the unread rest of its input, and the round-trip lemmas say that
    decoding an encoding gives back the value and the rest. */
module Json {
  import opened Wrappers
  import opened Types

  // The object keys, in the order JSON.stringify writes them.
  const SUMMARY_KEY: string := "resumo"
  const FACTS_KEY: string := "lista_fatos"
  const ID_KEY: string := "id"
  const TIMESTAMP_KEY: string := "timestamp"
  const FILE_NAME_KEY: string := "fileName"
  const RESULT_KEY: string := "result"

  predicate IsWhitespace(c: char) {
    c == ' ' || c == '\t' || c == '\n' || c == '\r'
  }

  /** Drops leading whitespace: the result is no longer than the input and does not
      start with whitespace. */
  function SkipWhitespace(s: string): (r: string)
    ensures |r| <= |s|
    ensures r == [] || !IsWhitespace(r[0])
  {
    if s != [] && IsWhitespace(s[0]) then SkipWhitespace(s[1..]) else s
  }

  /** SkipWhitespace drops exactly the leading whitespace: what it returns is a
      suffix of its input, and every character before that suffix is whitespace. */
  lemma {:induction false} SkipWhitespaceDropsWhitespace(s: string)
    ensures SkipWhitespace(s) == s[|s| - |SkipWhitespace(s)|..]
    ensures forall i :: 0 <= i < |s| - |SkipWhitespace(s)| ==> IsWhitespace(s[i])
  {
    if s != [] && IsWhitespace(s[0]) {
      SkipWhitespaceDropsWhitespace(s[1..]);
      assert s[1..][|s[1..]| - |SkipWhitespace(s[1..])|..] == s[|s| - |SkipWhitespace(s)|..];
      forall i | 0 <= i < |s| - |SkipWhitespace(s)|
        ensures IsWhitespace(s[i])
      {
        if i > 0 {
          assert s[i] == s[1..][i - 1];
        }
      }
    }
  }

  /** Reads the punctuation character `c`, after optional whitespace. */
  function Expect(c: char, s: string): (r: Option<string>)
    ensures r.Some? ==> |r.value| < |s|
  {
    var t := SkipWhitespace(s);
    if t != [] && t[0] == c then Some(t[1..]) else None
  }

  lemma SkipNothing(s: string)
    requires s != [] && !IsWhitespace(s[0])
    ensures SkipWhitespace(s) == s
  {
  }

  lemma ExpectRoundTrip(c: char, rest: string)
    requires !IsWhitespace(c)
    ensures Expect(c, [c] + rest) == Some(rest)
  {
    assert ([c] + rest)[1..] == rest;
  }

  // ---------------------------------------------------------------------------
  // Strings

  const BACKSPACE: char := 8 as char
  const FORM_FEED: char := 12 as char

  /** The value of a hexadecimal digit, in either case. */
  function HexValue(c: char): (r: Option<int>)
    ensures r.Some? ==> 0 <= r.value < 16
  {
    if '0' <= c <= '9' then Some(c as int - '0' as int)
    else if 'a' <= c <= 'f' then Some(c as int - 'a' as int + 10)
    else if 'A' <= c <= 'F' then Some(c as int - 'A' as int + 10)
    else None
  }

  /** The lower-case digit `JSON.stringify` writes for a value below 16. */
  function HexDigit(d: int): (c: char)
    requires 0 <= d < 16
    ensures HexValue(c) == Some(d)
  {
    if d < 10 then ('0' as int + d) as char else ('a' as int + d - 10) as char
  }

  /** How `JSON.stringify` writes one character of a string: the quote and the
      backslash escaped, the control characters as their short escape or as
      `\u00XX`, everything else as itself. */
  function EscapeChar(c: char): string {
    if c == '"' then "\\\""
    else if c == '\\' then "\\\\"
    else if c == '\n' then "\\n"
    else if c == '\r' then "\\r"
    else if c == '\t' then "\\t"
    else if c == BACKSPACE then "\\b"
    else if c == FORM_FEED then "\\f"
    else if c < ' ' then "\\u00" + [HexDigit(c as int / 16), HexDigit(c as int % 16)]
    else [c]
  }

  /** The character a one-letter backslash escape stands for. */
  function UnescapeChar(c: char): Option<char> {
    if c == '"' then Some('"')
    else if c == '\\' then Some('\\')
    else if c == '/' then Some('/')
    else if c == 'b' then Some(BACKSPACE)
    else if c == 'f' then Some(FORM_FEED)
    else if c == 'n' then Some('\n')
    else if c == 'r' then Some('\r')
    else if c == 't' then Some('\t')
    else None
  }

  /** Reads the four digits of a `\uXXXX` escape. A code unit in the surrogate range
      is refused: it is half of a UTF-16 pair, not a character of its own. */
  function ParseUnicodeEscape(s: string): (r: Option<(char, string)>)
    ensures r.Some? ==> |r.value.1| < |s|
  {
    if |s| < 4 then None
    else
      var d0 :- HexValue(s[0]);
      var d1 :- HexValue(s[1]);
      var d2 :- HexValue(s[2]);
      var d3 :- HexValue(s[3]);
      var high := d0 * 16 + d1;
      assert 0 <= high < 256;
      var v := (high * 16 + d2) * 16 + d3;
      assert 0 <= v < 0x10000;
      if 0xD800 <= v < 0xE000 then None else Some((v as char, s[4..]))
  }

  /** Reads what follows a backslash: the character it stands for and the rest. */
  function ParseEscape(s: string): (r: Option<(char, string)>)
    ensures r.Some? ==> |r.value.1| < |s|
  {
    if s == [] then None
    else if s[0] == 'u' then ParseUnicodeEscape(s[1..])
    else
      var c :- UnescapeChar(s[0]);
      Some((c, s[1..]))
  }

  /** The encoders below take the text that follows the value (`rest`) as a
      parameter, so that an encoding is `WriteX(x, "")`. */

  function WriteEscaped(s: string, rest: string): string {
    if s == [] then rest else EscapeChar(s[0]) + WriteEscaped(s[1..], rest)
  }

  function WriteString(s: string, rest: string): (r: string)
    ensures r != [] && r[0] == '"'
  {
    ['"'] + WriteEscaped(s, ['"'] + rest)
  }

  /** Reads the characters of a string literal up to its closing quote; returns the
      decoded text and what follows the quote. A raw control character is refused,
      as `JSON.parse` refuses it. */
  function ParseStringBody(s: string): (r: Option<(string, string)>)
    ensures r.Some? ==> |r.value.1| < |s|
    decreases |s|
  {
    if s == [] then None
    else if s[0] == '"' then Some(([], s[1..]))
    else if s[0] == '\\' then
      var e :- ParseEscape(s[1..]);
      var p :- ParseStringBody(e.1);
      Some(([e.0] + p.0, p.1))
    else if s[0] < ' ' then None
    else
      var p :- ParseStringBody(s[1..]);
      Some(([s[0]] + p.0, p.1))
  }

  /** A control character is refused inside a literal, whatever follows it. */
  lemma RawControlRefused(c: char, tail: string)
    requires c < ' '
    ensures ParseStringBody([c] + tail) == None
  {
  }

  lemma EscapeCharFacts(c: char)
    ensures |EscapeChar(c)| == 1 ==> EscapeChar(c) == [c] && c != '"' && c != '\\' && !(c < ' ')
    ensures |EscapeChar(c)| != 1 ==> |EscapeChar(c)| >= 2 && EscapeChar(c)[0] == '\\'
  {
  }

  /** What follows the backslash of a written escape reads back as the character. */
  lemma EscapeParses(c: char, tail: string)
    requires |EscapeChar(c)| != 1
    ensures ParseEscape(EscapeChar(c)[1..] + tail) == Some((c, tail))
  {
    var e := EscapeChar(c);
    if c < ' ' && c != '\n' && c != '\r' && c != '\t' && c != BACKSPACE && c != FORM_FEED {
      var h1 := HexDigit(c as int / 16);
      var h0 := HexDigit(c as int % 16);
      assert e == ['\\', 'u', '0', '0', h1, h0];
      var u := ['0', '0', h1, h0] + tail;
      assert e[1..] + tail == ['u'] + u;
      assert (['u'] + u)[1..] == u;
      assert u[4..] == tail;
      assert HexValue(u[0]) == Some(0) && HexValue(u[1]) == Some(0);
      assert HexValue(u[2]) == Some(c as int / 16) && HexValue(u[3]) == Some(c as int % 16);
      assert ((0 * 16 + 0) * 16 + c as int / 16) * 16 + c as int % 16 == c as int;
    } else {
      assert |e| == 2;
      assert (e[1..] + tail)[1..] == tail;
    }
  }

  /** Reading an escaped character, then the rest of the literal. */
  lemma EscapedCharStep(c: char, tail: string)
    ensures ParseStringBody(EscapeChar(c) + tail) ==
      if ParseStringBody(tail).Some? then Some(([c] + ParseStringBody(tail).value.0, ParseStringBody(tail).value.1))
      else None
  {
    var e := EscapeChar(c);
    EscapeCharFacts(c);
    if |e| == 1 {
      assert (e + tail)[0] == c && (e + tail)[1..] == tail;
    } else {
      EscapeParses(c, tail);
      assert (e + tail)[0] == '\\' && (e + tail)[1..] == e[1..] + tail;
    }
  }

  lemma {:induction false} StringBodyRoundTrip(s: string, rest: string)
    ensures ParseStringBody(WriteEscaped(s, ['"'] + rest)) == Some((s, rest))
    decreases |s|
  {
    if s == [] {
      assert (['"'] + rest)[1..] == rest;
    } else {
      var tail := WriteEscaped(s[1..], ['"'] + rest);
      assert WriteEscaped(s, ['"'] + rest) == EscapeChar(s[0]) + tail;
      StringBodyRoundTrip(s[1..], rest);
      EscapedCharStep(s[0], tail);
      assert [s[0]] + s[1..] == s;
    }
  }

  function ParseString(s: string): (r: Option<(string, string)>)
    ensures r.Some? ==> |r.value.1| < |s|
  {
    var t :- Expect('"', s);
    ParseStringBody(t)
  }

  lemma StringRoundTrip(x: string, rest: string)
    ensures ParseString(WriteString(x, rest)) == Some((x, rest))
  {
    ExpectRoundTrip('"', WriteEscaped(x, ['"'] + rest));
    StringBodyRoundTrip(x, rest);
  }

  // ---------------------------------------------------------------------------
  // Object keys

  function WriteKey(key: string, rest: string): (r: string)
    ensures r != [] && r[0] == '"'
  {
    WriteString(key, [':'] + rest)
  }

  /** Reads `"key":` for the given key. */
  function ParseKey(key: string, s: string): (r: Option<string>)
    ensures r.Some? ==> |r.value| < |s|
  {
    var p :- ParseString(s);
    if p.0 == key then Expect(':', p.1) else None
  }

  lemma KeyRoundTrip(key: string, rest: string)
    ensures ParseKey(key, WriteKey(key, rest)) == Some(rest)
  {
    StringRoundTrip(key, [':'] + rest);
    ExpectRoundTrip(':', rest);
  }

  // ---------------------------------------------------------------------------
  // Arrays, over any element codec

  /** A parser that consumes at least one character whenever it succeeds. */
  ghost predicate Consumes<T>(parse: string -> Option<(T, string)>) {
    forall s :: parse(s).Some? ==> |parse(s).value.1| < |s|
  }

  /** A writer whose output opens with a character that is neither whitespace nor
      the closing bracket, so it cannot be mistaken for the end of an array. */
  ghost predicate OpensValue<T(!new)>(write: (T, string) -> string) {
    forall x, rest :: write(x, rest) != [] && !IsWhitespace(write(x, rest)[0]) && write(x, rest)[0] != ']'
  }

  /** `parse` reads back exactly what `write` wrote. */
  ghost predicate Inverts<T(!new)>(parse: string -> Option<(T, string)>, write: (T, string) -> string) {
    forall x, rest :: parse(write(x, rest)) == Some((x, rest))
  }

  /** One or more items, comma-separated, then `rest`. */
  function WriteItems<T>(xs: seq<T>, write: (T, string) -> string, rest: string): string
    requires xs != []
    decreases |xs|
  {
    if |xs| == 1 then write(xs[0], rest)
    else write(xs[0], [','] + WriteItems(xs[1..], write, rest))
  }

  function WriteArray<T>(xs: seq<T>, write: (T, string) -> string, rest: string): (r: string)
    ensures r != [] && r[0] == '['
  {
    ['['] + if xs == [] then [']'] + rest else WriteItems(xs, write, [']'] + rest)
  }

  /** Reads one or more comma-separated items and the closing bracket. */
  function ParseItems<T>(s: string, parse: string -> Option<(T, string)>): (r: Option<(seq<T>, string)>)
    requires Consumes(parse)
    ensures r.Some? ==> |r.value.1| < |s|
    decreases |s|
  {
    var p :- parse(s);
    var t := SkipWhitespace(p.1);
    if t != [] && t[0] == ',' then
      var q :- ParseItems(t[1..], parse);
      Some(([p.0] + q.0, q.1))
    else if t != [] && t[0] == ']' then Some(([p.0], t[1..]))
    else None
  }

  function ParseArray<T>(s: string, parse: string -> Option<(T, string)>): (r: Option<(seq<T>, string)>)
    requires Consumes(parse)
    ensures r.Some? ==> |r.value.1| < |s|
  {
    var t :- Expect('[', s);
    var u := SkipWhitespace(t);
    if u != [] && u[0] == ']' then Some(([], u[1..])) else ParseItems(u, parse)
  }

  lemma {:induction false} ItemsRoundTrip<T(!new)>(xs: seq<T>, write: (T, string) -> string,
                                            parse: string -> Option<(T, string)>, rest: string)
    requires xs != [] && Consumes(parse) && Inverts(parse, write)
    ensures ParseItems(WriteItems(xs, write, [']'] + rest), parse) == Some((xs, rest))
    decreases |xs|
  {
    var tail := if |xs| == 1 then [']'] + rest else [','] + WriteItems(xs[1..], write, [']'] + rest);
    assert WriteItems(xs, write, [']'] + rest) == write(xs[0], tail);
    assert parse(write(xs[0], tail)) == Some((xs[0], tail));
    SkipNothing(tail);
    if |xs| == 1 {
      assert tail[1..] == rest;
      assert [xs[0]] == xs;
    } else {
      assert tail[1..] == WriteItems(xs[1..], write, [']'] + rest);
      ItemsRoundTrip(xs[1..], write, parse, rest);
      assert [xs[0]] + xs[1..] == xs;
    }
  }

  lemma ArrayRoundTrip<T(!new)>(xs: seq<T>, write: (T, string) -> string,
                          parse: string -> Option<(T, string)>, rest: string)
    requires Consumes(parse) && Inverts(parse, write) && OpensValue(write)
    ensures ParseArray(WriteArray(xs, write, rest), parse) == Some((xs, rest))
  {
    var inner := if xs == [] then [']'] + rest else WriteItems(xs, write, [']'] + rest);
    ExpectRoundTrip('[', inner);
    if xs == [] {
      assert inner[1..] == rest;
    } else {
      if |xs| == 1 {
        assert inner == write(xs[0], [']'] + rest);
      } else {
        assert inner == write(xs[0], [','] + WriteItems(xs[1..], write, [']'] + rest));
      }
      SkipNothing(inner);
      ItemsRoundTrip(xs, write, parse, rest);
    }
  }

  lemma StringCodecFacts()
    ensures Consumes(ParseString) && Inverts(ParseString, WriteString) && OpensValue(WriteString)
  {
    forall x, rest ensures ParseString(WriteString(x, rest)) == Some((x, rest)) {
      StringRoundTrip(x, rest);
    }
  }

  function WriteStrings(xs: seq<string>, rest: string): (r: string)
    ensures r != [] && r[0] == '['
  {
    WriteArray(xs, WriteString, rest)
  }

  function ParseStrings(s: string): (r: Option<(seq<string>, string)>)
    ensures r.Some? ==> |r.value.1| < |s|
  {
    ParseArray(s, ParseString)
  }

  lemma StringsRoundTrip(xs: seq<string>, rest: string)
    ensures ParseStrings(WriteStrings(xs, rest)) == Some((xs, rest))
  {
    StringCodecFacts();
    ArrayRoundTrip(xs, WriteString, ParseString, rest);
  }

  // ---------------------------------------------------------------------------
  // The analysis result

  function WriteResult(r: AnalysisResult, rest: string): (s: string)
    ensures s != [] && s[0] == '{'
  {
    ['{'] + WriteKey(SUMMARY_KEY, WriteString(r.resumo,
      [','] + WriteKey(FACTS_KEY, WriteStrings(r.listaFatos, ['}'] + rest))))
  }

  function ParseResult(s: string): (r: Option<(AnalysisResult, string)>)
    ensures r.Some? ==> |r.value.1| < |s|
  {
    var t1 :- Expect('{', s);
    var t2 :- ParseKey(SUMMARY_KEY, t1);
    var summary :- ParseString(t2);
    var t3 :- Expect(',', summary.1);
    var t4 :- ParseKey(FACTS_KEY, t3);
    var facts :- ParseStrings(t4);
    var t5 :- Expect('}', facts.1);
    Some((AnalysisResult(summary.0, facts.0), t5))
  }

  lemma ResultRoundTrip(r: AnalysisResult, rest: string)
    ensures ParseResult(WriteResult(r, rest)) == Some((r, rest))
  {
    var input := WriteResult(r, rest);
    var s5 := WriteStrings(r.listaFatos, ['}'] + rest);
    var s4 := WriteKey(FACTS_KEY, s5);
    var s2 := WriteString(r.resumo, [','] + s4);
    var s1 := WriteKey(SUMMARY_KEY, s2);
    ExpectRoundTrip('{', s1);
    KeyRoundTrip(SUMMARY_KEY, s2);
    StringRoundTrip(r.resumo, [','] + s4);
    ExpectRoundTrip(',', s4);
    KeyRoundTrip(FACTS_KEY, s5);
    StringsRoundTrip(r.listaFatos, ['}'] + rest);
    ExpectRoundTrip('}', rest);
    var e1 := Expect('{', input);
    assert e1 == Some(s1);
    var e2 := ParseKey(SUMMARY_KEY, e1.value);
    assert e2 == Some(s2);
    var e3 := ParseString(e2.value);
    assert e3 == Some((r.resumo, [','] + s4));
  }

  // ---------------------------------------------------------------------------
  // History records

  /** A record, with its keys in the order App.tsx creates them. */
  function WriteRecord(rec: AnalysisRecord, rest: string): (s: string)
    ensures s != [] && s[0] == '{'
  {
    ['{'] + WriteKey(ID_KEY, WriteString(rec.id,
      [','] + WriteKey(TIMESTAMP_KEY, WriteString(rec.timestamp,
      [','] + WriteKey(FILE_NAME_KEY, WriteString(rec.fileName,
      [','] + WriteKey(RESULT_KEY, WriteResult(rec.result, ['}'] + rest))))))))
  }

  function ParseRecord(s: string): (r: Option<(AnalysisRecord, string)>)
    ensures r.Some? ==> |r.value.1| < |s|
  {
    var t1 :- Expect('{', s);
    var t2 :- ParseKey(ID_KEY, t1);
    var id :- ParseString(t2);
    var t3 :- Expect(',', id.1);
    var t4 :- ParseKey(TIMESTAMP_KEY, t3);
    var timestamp :- ParseString(t4);
    var t5 :- Expect(',', timestamp.1);
    var t6 :- ParseKey(FILE_NAME_KEY, t5);
    var fileName :- ParseString(t6);
    var t7 :- Expect(',', fileName.1);
    var t8 :- ParseKey(RESULT_KEY, t7);
    var result :- ParseResult(t8);
    var t9 :- Expect('}', result.1);
    Some((AnalysisRecord(id.0, timestamp.0, fileName.0, result.0), t9))
  }

  lemma RecordRoundTrip(rec: AnalysisRecord, rest: string)
    ensures ParseRecord(WriteRecord(rec, rest)) == Some((rec, rest))
  {
    var s11 := WriteResult(rec.result, ['}'] + rest);
    var s10 := WriteKey(RESULT_KEY, s11);
    var s8 := WriteString(rec.fileName, [','] + s10);
    var s7 := WriteKey(FILE_NAME_KEY, s8);
    var s5 := WriteString(rec.timestamp, [','] + s7);
    var s4 := WriteKey(TIMESTAMP_KEY, s5);
    var s2 := WriteString(rec.id, [','] + s4);
    var s1 := WriteKey(ID_KEY, s2);
    ExpectRoundTrip('{', s1);
    KeyRoundTrip(ID_KEY, s2);
    StringRoundTrip(rec.id, [','] + s4);
    ExpectRoundTrip(',', s4);
    KeyRoundTrip(TIMESTAMP_KEY, s5);
    StringRoundTrip(rec.timestamp, [','] + s7);
    ExpectRoundTrip(',', s7);
    KeyRoundTrip(FILE_NAME_KEY, s8);
    StringRoundTrip(rec.fileName, [','] + s10);
    ExpectRoundTrip(',', s10);
    KeyRoundTrip(RESULT_KEY, s11);
    ResultRoundTrip(rec.result, ['}'] + rest);
    ExpectRoundTrip('}', rest);
  }

  lemma RecordCodecFacts()
    ensures Consumes(ParseRecord) && Inverts(ParseRecord, WriteRecord) && OpensValue(WriteRecord)
  {
    forall x, rest ensures ParseRecord(WriteRecord(x, rest)) == Some((x, rest)) {
      RecordRoundTrip(x, rest);
    }
  }

  function WriteRecords(rs: seq<AnalysisRecord>, rest: string): (r: string)
    ensures r != [] && r[0] == '['
  {
    WriteArray(rs, WriteRecord, rest)
  }

  function ParseRecords(s: string): (r: Option<(seq<AnalysisRecord>, string)>)
    ensures r.Some? ==> |r.value.1| < |s|
  {
    ParseArray(s, ParseRecord)
  }

  lemma RecordsRoundTrip(rs: seq<AnalysisRecord>, rest: string)
    ensures ParseRecords(WriteRecords(rs, rest)) == Some((rs, rest))
  {
    RecordCodecFacts();
    ArrayRoundTrip(rs, WriteRecord, ParseRecord, rest);
  }

  // ---------------------------------------------------------------------------
  // Whole documents: a value, surrounded by nothing but whitespace

  /** The text `JSON.stringify` writes for a list of records. */
  function EncodeRecords(rs: seq<AnalysisRecord>): string {
    WriteRecords(rs, "")
  }

  /** The text of a reply that carries the result `r`. */
  function EncodeResult(r: AnalysisResult): string {
    WriteResult(r, "")
  }

  /** `JSON.parse` of a stored history: None where it would throw. */
  function DecodeRecords(s: string): Option<seq<AnalysisRecord>> {
    var p :- ParseRecords(s);
    if SkipWhitespace(p.1) == [] then Some(p.0) else None
  }

  /** `JSON.parse` of the analysis service's reply text: None where it would throw. */
  function DecodeResult(s: string): Option<AnalysisResult> {
    var p :- ParseResult(s);
    if SkipWhitespace(p.1) == [] then Some(p.0) else None
  }

  /** Decoding what was encoded gives back the list, and the encoding is never the
      empty string (which the store would read as "nothing stored"). */
  lemma RecordsDocumentRoundTrip(rs: seq<AnalysisRecord>)
    ensures EncodeRecords(rs) != ""
    ensures DecodeRecords(EncodeRecords(rs)) == Some(rs)
  {
    RecordsRoundTrip(rs, "");
  }

  lemma ResultDocumentRoundTrip(r: AnalysisResult)
    ensures EncodeResult(r) != ""
    ensures DecodeResult(EncodeResult(r)) == Some(r)
  {
    ResultRoundTrip(r, "");
  }
}
