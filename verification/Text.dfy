/** Strings, four-byte fork hashes and their hexadecimal spelling.
    Strings are ASCII here: the columns compared below hold hexadecimal text. */
module Text {

  datatype Option<+T> = None | Some(value: T) {
    function GetOr(default: T): T {
      if Some? then value else default
    }
  }

  const MAX_UINT64: int := 0xFFFF_FFFF_FFFF_FFFF
  const MAX_INT64: int := 0x7FFF_FFFF_FFFF_FFFF

  /** Next values up to this block number are block forks. */
  const FORK_HEAD_BLOCK: Uint64 := 30_000_000

  type Uint64 = n: int | 0 <= n <= MAX_UINT64

  type Byte = b: int | 0 <= b < 256

  type Hash4 = h: seq<Byte> | |h| == 4 witness [0, 0, 0, 0]

  function Lower(c: char): char {
    if 'A' <= c <= 'Z' then (c as int + 32) as char else c
  }

  function ToLower(s: string): (r: string)
    ensures |r| == |s|
    ensures forall i :: 0 <= i < |s| ==> r[i] == Lower(s[i])
  {
    seq(|s|, i requires 0 <= i < |s| => Lower(s[i]))
  }

  predicate EqualFold(a: string, b: string) {
    ToLower(a) == ToLower(b)
  }

  predicate ContainsFold(list: seq<string>, s: string) {
    exists i :: 0 <= i < |list| && EqualFold(list[i], s)
  }

  lemma ToLowerIdempotent(s: string)
    ensures ToLower(ToLower(s)) == ToLower(s)
  {
  }

  predicate IsSpace(c: char) {
    c == ' ' || '\t' <= c <= '\r'
  }

  function TrimLeft(s: string): string {
    if s != "" && IsSpace(s[0]) then TrimLeft(s[1..]) else s
  }

  function TrimRight(s: string): string {
    if s != "" && IsSpace(s[|s| - 1]) then TrimRight(s[..|s| - 1]) else s
  }

  function TrimSpace(s: string): string {
    TrimRight(TrimLeft(s))
  }

  function TrimHexPrefix(s: string): string {
    if "0x" <= s then s[2..] else s
  }

  /** The text parseHash4 hands to the hex decoder. */
  function Bare(raw: string): string {
    TrimHexPrefix(ToLower(TrimSpace(raw)))
  }

  /** No surrounding space and no 0x prefix: the spelling every writer of a row uses. */
  predicate Undecorated(raw: string) {
    Bare(raw) == ToLower(raw)
  }

  function HexDigit(n: int): (c: char)
    requires 0 <= n < 16
    ensures HexValue(c) == Some(n)
    ensures Lower(c) == c
  {
    if n < 10 then ('0' as int + n) as char else ('a' as int + n - 10) as char
  }

  function HexValue(c: char): (r: Option<int>)
    ensures r.Some? ==> 0 <= r.value < 16
  {
    if '0' <= c <= '9' then Some(c as int - '0' as int)
    else if 'a' <= c <= 'f' then Some(c as int - 'a' as int + 10)
    else if 'A' <= c <= 'F' then Some(c as int - 'A' as int + 10)
    else None
  }

  function EncodeHex(bytes: seq<Byte>): (s: string)
    ensures |s| == 2 * |bytes|
    ensures forall i :: 0 <= i < |s| ==> Lower(s[i]) == s[i]
  {
    if bytes == [] then ""
    else [HexDigit(bytes[0] / 16), HexDigit(bytes[0] % 16)] + EncodeHex(bytes[1..])
  }

  function DecodeHex(s: string): (r: Option<seq<Byte>>)
    ensures r.Some? ==> |s| == 2 * |r.value|
  {
    if s == "" then Some([])
    else if |s| == 1 then None
    else
      var hi, lo, rest := HexValue(s[0]), HexValue(s[1]), DecodeHex(s[2..]);
      if hi.Some? && lo.Some? && rest.Some? then Some([hi.value * 16 + lo.value] + rest.value) else None
  }

  lemma {:induction false} DecodeEncode(bytes: seq<Byte>)
    ensures DecodeHex(EncodeHex(bytes)) == Some(bytes)
  {
    if bytes != [] {
      DecodeEncode(bytes[1..]);
      assert EncodeHex(bytes)[2..] == EncodeHex(bytes[1..]);
      assert [bytes[0]] + bytes[1..] == bytes;
    }
  }

  lemma {:induction false} EncodeDecode(s: string)
    requires ToLower(s) == s
    ensures DecodeHex(s).Some? ==> EncodeHex(DecodeHex(s).value) == s
  {
    if DecodeHex(s).Some? && s != "" {
      assert ToLower(s)[0] == s[0] && ToLower(s)[1] == s[1];
      assert ToLower(s[2..]) == s[2..];
      EncodeDecode(s[2..]);
      var b := DecodeHex(s).value;
      assert b[1..] == DecodeHex(s[2..]).value;
      assert HexDigit(b[0] / 16) == s[0] && HexDigit(b[0] % 16) == s[1];
      assert s == [s[0], s[1]] + s[2..];
    }
  }

  function ParseHash4(raw: string): (r: Option<Hash4>) {
    var b := DecodeHex(Bare(raw));
    if b.Some? && |b.value| == 4 then Some(b.value) else None
  }

  /** parseHash4 accepts exactly the spellings whose bare text is the hash in lower-case hex. */
  lemma ParsesToExactly(raw: string, h: Hash4)
    ensures ParseHash4(raw) == Some(h) <==> Bare(raw) == EncodeHex(h)
  {
    DecodeEncode(h);
    var t := ToLower(TrimSpace(raw));
    ToLowerIdempotent(TrimSpace(raw));
    assert ToLower(Bare(raw)) == Bare(raw) by {
      forall i | 0 <= i < |Bare(raw)| ensures Lower(Bare(raw)[i]) == Bare(raw)[i] {
        var j := if "0x" <= t then i + 2 else i;
        assert Bare(raw)[i] == t[j] && ToLower(t)[j] == Lower(t[j]);
      }
    }
    EncodeDecode(Bare(raw));
  }

  /** Lower-case hex never starts with 0x or a space, so an encoded hash is undecorated. */
  lemma EncodedIsUndecorated(h: Hash4)
    ensures Undecorated(EncodeHex(h)) && ToLower(EncodeHex(h)) == EncodeHex(h)
  {
    var s := EncodeHex(h);
    assert ToLower(s) == s;
    HexDigitsOnly(h);
    assert TrimLeft(s) == s && TrimRight(s) == s;
    assert s[1] != 'x';
  }

  lemma {:induction false} HexDigitsOnly(bytes: seq<Byte>)
    ensures forall i :: 0 <= i < |EncodeHex(bytes)| ==> HexValue(EncodeHex(bytes)[i]).Some?
  {
    if bytes != [] {
      HexDigitsOnly(bytes[1..]);
    }
  }
}
