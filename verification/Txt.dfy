/** TXT presentation form: content rendered as adjacent quoted strings, and its reading back. */
module Txt {

  /** Bytes per quoted string. */
  const CHUNK: nat := 253

  predicate Ascii(s: string) {
    forall i :: 0 <= i < |s| ==> s[i] < 128 as char
  }

  predicate PrintableChar(c: char) {
    ' ' <= c <= '~'
  }

  predicate Printable(s: string) {
    forall i :: 0 <= i < |s| ==> PrintableChar(s[i])
  }

  function HexNibble(n: int): char
    requires 0 <= n < 16
  {
    "0123456789abcdef"[n]
  }

  /** One ASCII byte inside a Go quoted string. */
  function QuoteChar(c: char): (r: string)
    requires c < 128 as char
  {
    if c == '"' || c == '\\' then ['\\', c]
    else if PrintableChar(c) then [c]
    else if c == 7 as char then "\\a"
    else if c == 8 as char then "\\b"
    else if c == 12 as char then "\\f"
    else if c == '\n' then "\\n"
    else if c == '\r' then "\\r"
    else if c == '\t' then "\\t"
    else if c == 11 as char then "\\v"
    else ['\\', 'x', HexNibble(c as int / 16), HexNibble(c as int % 16)]
  }

  /** Printable ASCII stays as it is, quotes and backslashes after a backslash; the rest is escaped, by letter where the
      language has one and otherwise by the two hexadecimal digits of its code. */
  lemma QuotedExactly(c: char)
    requires c < 128 as char
    ensures PrintableChar(c) <==> 32 <= c as int <= 126
    ensures c as int == 34 || c as int == 92 ==> QuoteChar(c) == [92 as char, c]
    ensures 32 <= c as int <= 126 && c as int != 34 && c as int != 92 ==> QuoteChar(c) == [c]
    ensures 7 <= c as int <= 13 ==> QuoteChar(c) == [92 as char, "abtnvfr"[c as int - 7]]
    ensures c as int < 7 || 13 < c as int < 32 || c as int == 127 ==>
              QuoteChar(c) == [92 as char, 'x', "0123456789abcdef"[c as int / 16], "0123456789abcdef"[c as int % 16]]
  {
  }

  function QuoteChars(s: string): string
    requires Ascii(s)
  {
    if s == "" then "" else QuoteChar(s[0]) + QuoteChars(s[1..])
  }

  function Quote(s: string): string
    requires Ascii(s)
  {
    "\"" + QuoteChars(s) + "\""
  }

  function Min(a: int, b: int): int {
    if a < b then a else b
  }

  function Split(content: string): string
    requires Ascii(content)
  {
    if content == "" then ""
    else
      var n := Min(|content|, CHUNK);
      Quote(content[..n]) + Split(content[n..])
  }

  /** splitTXT. */
  method SplitTXT(content: string) returns (txt: string)
    requires Ascii(content)
    ensures txt == Split(content)
  {
    txt := "";
    var rest := content;
    while rest != ""
      invariant Ascii(rest) && txt + Split(rest) == Split(content)
      decreases |rest|
    {
      var n := Min(|rest|, CHUNK);
      txt := txt + Quote(rest[..n]);
      rest := rest[n..];
    }
  }

  /** What the reader keeps of s from a given quoting state. */
  function Scan(s: string, inQuote: bool, escaped: bool): string {
    if s == "" then ""
    else if escaped then [s[0]] + Scan(s[1..], inQuote, false)
    else if s[0] == '\\' then Scan(s[1..], inQuote, true)
    else if s[0] == '"' then Scan(s[1..], !inQuote, false)
    else if inQuote then [s[0]] + Scan(s[1..], inQuote, false)
    else Scan(s[1..], inQuote, false)
  }

  function Normal(content: string): string {
    if !("\"" <= content) then content else Scan(content, false, false)
  }

  /** normalizeTXT. */
  method NormalizeTXT(content: string) returns (text: string)
    ensures text == Normal(content)
  {
    if !("\"" <= content) {
      return content;
    }
    text := "";
    var inQuote, escaped := false, false;
    for i := 0 to |content|
      invariant text + Scan(content[i..], inQuote, escaped) == Scan(content, false, false)
    {
      var c := content[i];
      assert content[i..][0] == c && content[i..][1..] == content[i + 1..];
      if escaped {
        text := text + [c];
        escaped := false;
      } else if c == '\\' {
        escaped := true;
      } else if c == '"' {
        inQuote := !inQuote;
      } else if inQuote {
        text := text + [c];
      }
    }
  }

  // ----- reading back what was rendered -----

  /** What one quoted byte reads back as: the escape letter, not the control byte. */
  function EchoChar(c: char): string
    requires c < 128 as char
  {
    if PrintableChar(c) then [c] else QuoteChar(c)[1..]
  }

  function Echo(s: string): string
    requires Ascii(s)
  {
    if s == "" then "" else EchoChar(s[0]) + Echo(s[1..])
  }

  lemma ScanQuoteChar(c: char, rest: string)
    requires c < 128 as char
    ensures Scan(QuoteChar(c) + rest, true, false) == EchoChar(c) + Scan(rest, true, false)
  {
    var q := QuoteChar(c);
    if |q| == 1 {
      assert (q + rest)[0] == c && (q + rest)[1..] == rest;
    } else {
      assert q[0] == '\\' && (q + rest)[1..] == q[1..] + rest;
      ScanEscaped(q[1..], rest);
    }
  }

  /** After a backslash, one character and then any that are not special. */
  lemma ScanEscaped(s: string, rest: string)
    requires s != "" && forall i :: 1 <= i < |s| ==> s[i] != '\\' && s[i] != '"'
    ensures Scan(s + rest, true, true) == s + Scan(rest, true, false)
  {
    var tail := s[1..];
    assert (s + rest)[0] == s[0] && (s + rest)[1..] == tail + rest;
    ScanPlain(tail, rest);
    Regroup([s[0]], tail, Scan(rest, true, false));
    assert s == [s[0]] + tail;
  }

  lemma {:induction false} ScanPlain(s: string, rest: string)
    requires forall i :: 0 <= i < |s| ==> s[i] != '\\' && s[i] != '"'
    ensures Scan(s + rest, true, false) == s + Scan(rest, true, false)
  {
    if s == "" {
      assert s + rest == rest;
    } else {
      var tail := s[1..];
      assert (s + rest)[0] == s[0] && (s + rest)[1..] == tail + rest;
      ScanPlain(tail, rest);
      Regroup([s[0]], tail, Scan(rest, true, false));
      assert s == [s[0]] + tail;
    }
  }

  lemma {:induction false} ScanQuoteChars(s: string, rest: string)
    requires Ascii(s)
    ensures Scan(QuoteChars(s) + rest, true, false) == Echo(s) + Scan(rest, true, false)
  {
    if s == "" {
      assert QuoteChars(s) + rest == rest;
    } else {
      assert QuoteChars(s) + rest == QuoteChar(s[0]) + (QuoteChars(s[1..]) + rest);
      ScanQuoteChar(s[0], QuoteChars(s[1..]) + rest);
      ScanQuoteChars(s[1..], rest);
    }
  }

  /** Content is quoted in pieces of 253 bytes, the last of which may be shorter. */
  lemma PiecesExactly(content: string)
    requires Ascii(content)
    ensures content == "" ==> Split(content) == ""
    ensures 0 < |content| <= 253 ==> Split(content) == Quote(content)
    ensures |content| > 253 ==> Split(content) == Quote(content[..253]) + Split(content[253..])
  {
    if 0 < |content| <= 253 {
      assert content[..|content|] == content && content[|content|..] == "";
    }
  }

  lemma Regroup(a: string, b: string, c: string)
    ensures a + (b + c) == a + b + c
  {
  }

  lemma {:induction false} EchoConcat(a: string, b: string)
    requires Ascii(a) && Ascii(b)
    ensures Ascii(a + b) && Echo(a + b) == Echo(a) + Echo(b)
  {
    if a == "" {
      assert a + b == b;
    } else {
      var tail := a[1..];
      assert (a + b)[1..] == tail + b && (a + b)[0] == a[0];
      EchoConcat(tail, b);
      Regroup(EchoChar(a[0]), Echo(tail), Echo(b));
    }
  }

  lemma {:induction false} ScanSplit(content: string)
    requires Ascii(content)
    ensures Scan(Split(content), false, false) == Echo(content)
  {
    if content != "" {
      var n := Min(|content|, CHUNK);
      var head, rest := content[..n], Split(content[n..]);
      var body := QuoteChars(head) + ("\"" + rest);
      assert Split(content) == "\"" + body;
      assert ("\"" + body)[1..] == body && ("\"" + rest)[1..] == rest;
      ScanQuoteChars(head, "\"" + rest);
      ScanSplit(content[n..]);
      EchoConcat(head, content[n..]);
      assert head + content[n..] == content;
    }
  }

  /** Every byte reads back as at least one character, and as itself alone exactly when it is printable. */
  lemma {:induction false} EchoIsIdentity(s: string)
    requires Ascii(s)
    ensures |Echo(s)| >= |s|
    ensures Echo(s) == s <==> Printable(s)
  {
    if s != "" {
      EchoIsIdentity(s[1..]);
      var e, rest := EchoChar(s[0]), Echo(s[1..]);
      assert Printable(s) <==> PrintableChar(s[0]) && Printable(s[1..]) by {
        assert forall i :: 1 <= i < |s| ==> s[i] == s[1..][i - 1];
      }
      if Echo(s) == s {
        assert |e| == 1;
        assert e[0] == s[0] && rest == s[1..];
      }
    }
  }

  /** normalizeTXT inverts splitTXT exactly on printable ASCII content. */
  lemma NormalInvertsSplit(content: string)
    requires Ascii(content)
    ensures Normal(Split(content)) == content <==> Printable(content)
  {
    if content != "" {
      assert Split(content)[0] == '"';
      ScanSplit(content);
      EchoIsIdentity(content);
    }
  }
}
