/**
 The cursor codec of the inventory: a prefix, a colon, and either the sentinel
 "-" or the token in base64url (section 5 of RFC 4648). A token is the sequence
 of its UTF-8 bytes.
 */
module Cursor {
  import opened Basics

  type byte = x: int | 0 <= x < 256

  type Token = seq<byte>

  datatype Phase = Normal | Junk

  // ------------------------------------------------------------- base64url

  function Digit(n: int): (c: char)
    requires 0 <= n < 64
    ensures c != '='
    ensures Value(c) == Some(n)
  {
    if n < 26 then ('A' as int + n) as char
    else if n < 52 then ('a' as int + (n - 26)) as char
    else if n < 62 then ('0' as int + (n - 52)) as char
    else if n == 62 then '-'
    else '_'
  }

  /** The decoder translates the url alphabet to the plain one, so it reads both. */
  function Value(c: char): (v: Option<int>)
    ensures v.Some? ==> 0 <= v.value < 64
  {
    if 'A' <= c <= 'Z' then Some(c as int - 'A' as int)
    else if 'a' <= c <= 'z' then Some(c as int - 'a' as int + 26)
    else if '0' <= c <= '9' then Some(c as int - '0' as int + 52)
    else if c == '-' || c == '+' then Some(62)
    else if c == '_' || c == '/' then Some(63)
    else None
  }

  function EncodeThree(a: byte, b: byte, c: byte): string {
    [Digit(a / 4), Digit(a % 4 * 16 + b / 16), Digit(b % 16 * 4 + c / 64), Digit(c % 64)]
  }

  /** Base64url with padding. */
  function Encode(bytes: seq<byte>): (s: string)
    ensures |s| == (|bytes| + 2) / 3 * 4
  {
    if |bytes| == 0 then ""
    else if |bytes| == 1 then [Digit(bytes[0] / 4), Digit(bytes[0] % 4 * 16), '=', '=']
    else if |bytes| == 2 then
      [Digit(bytes[0] / 4), Digit(bytes[0] % 4 * 16 + bytes[1] / 16), Digit(bytes[1] % 16 * 4), '=']
    else EncodeThree(bytes[0], bytes[1], bytes[2]) + Encode(bytes[3..])
  }

  /** Strict decoding: whole groups of four, padding only at the end of the last one. */
  function Decode(s: string): Option<seq<byte>> {
    if |s| == 0 then Some([])
    else if |s| < 4 then None
    else if Value(s[0]) == None || Value(s[1]) == None then None
    else
      var w, x := Value(s[0]).value, Value(s[1]).value;
      var first: byte := w * 4 + x / 16;
      if s[2] == '=' then
        if s[3] == '=' && |s| == 4 then Some([first]) else None
      else if Value(s[2]) == None then None
      else
        var y := Value(s[2]).value;
        var second: byte := x % 16 * 16 + y / 4;
        if s[3] == '=' then
          if |s| == 4 then Some([first, second]) else None
        else if Value(s[3]) == None then None
        else
          var third: byte := y % 4 * 64 + Value(s[3]).value;
          match Decode(s[4..])
          case None => None
          case Some(rest) => Some([first, second, third] + rest)
  }

  lemma SextetsRebuild(a: byte, b: byte, c: byte)
    ensures a / 4 * 4 + (a % 4 * 16 + b / 16) / 16 == a
    ensures (a % 4 * 16 + b / 16) % 16 * 16 + (b % 16 * 4 + c / 64) / 4 == b
    ensures (b % 16 * 4 + c / 64) % 4 * 64 + c % 64 == c
  {
  }

  lemma DecodeGroup(a: byte, b: byte, c: byte, rest: string)
    requires Decode(rest).Some?
    ensures Decode(EncodeThree(a, b, c) + rest) == Some([a, b, c] + Decode(rest).value)
  {
    hide Digit, Value;
    var s := EncodeThree(a, b, c) + rest;
    assert s[4..] == rest;
    DecodeFour(s, a / 4, a % 4 * 16 + b / 16, b % 16 * 4 + c / 64, c % 64);
    hide Decode;
    SextetsRebuild(a, b, c);
  }

  /** One whole group of four digits. */
  lemma DecodeFour(s: string, w: int, x: int, y: int, z: int)
    requires |s| >= 4 && 0 <= w < 64 && 0 <= x < 64 && 0 <= y < 64 && 0 <= z < 64
    requires s[0] == Digit(w) && s[1] == Digit(x) && s[2] == Digit(y) && s[3] == Digit(z)
    requires Decode(s[4..]).Some?
    ensures Decode(s) == Some([w * 4 + x / 16, x % 16 * 16 + y / 4, y % 4 * 64 + z] + Decode(s[4..]).value)
  {
    hide Digit, Value;
  }

  lemma DecodeOne(a: byte)
    ensures Decode([Digit(a / 4), Digit(a % 4 * 16), '=', '=']) == Some([a])
  {
    hide Digit, Value;
    SextetsRebuild(a, 0, 0);
  }

  lemma DecodeTwo(a: byte, b: byte)
    ensures Decode([Digit(a / 4), Digit(a % 4 * 16 + b / 16), Digit(b % 16 * 4), '=']) == Some([a, b])
  {
    hide Digit, Value;
    SextetsRebuild(a, b, 0);
  }

  /** Decoding inverts encoding, padding included. */
  lemma {:induction false} DecodeInvertsEncode(bytes: seq<byte>)
    ensures Decode(Encode(bytes)) == Some(bytes)
  {
    hide Digit, Value;
    if |bytes| == 0 {
    } else if |bytes| == 1 {
      DecodeOne(bytes[0]);
      assert bytes == [bytes[0]];
    } else if |bytes| == 2 {
      DecodeTwo(bytes[0], bytes[1]);
      assert bytes == [bytes[0], bytes[1]];
    } else {
      DecodeInvertsEncode(bytes[3..]);
      DecodeGroup(bytes[0], bytes[1], bytes[2], Encode(bytes[3..]));
      assert bytes == [bytes[0], bytes[1], bytes[2]] + bytes[3..];
    }
  }

  // --------------------------------------------------------------- cursors

  const FULL_PREFIX := "mailcleanup-full-v1"
  const PARTIAL_PREFIX := "mailcleanup-partial-v1"

  /** ASCII white space: tab to carriage return, the separators and the space. */
  predicate White(b: byte) {
    9 <= b <= 13 || 28 <= b <= 32
  }

  /** A token the service sends: not empty and without white space at its ends. */
  predicate Stripped(t: Token) {
    t != [] && !White(t[0]) && !White(t[|t| - 1])
  }

  function EncodeCursor(prefix: string, token: Option<Token>): string {
    prefix + ":" + (match token case None => "-" case Some(t) => Encode(t))
  }

  datatype CursorError = BadCursor

  function DecodeCursor(prefix: string, value: string): Result<Option<Token>, CursorError> {
    if !(prefix + ":" <= value) then Err(BadCursor)
    else
      var encoded := value[|prefix| + 1..];
      if encoded == "-" then Ok(None)
      else if encoded == "" then Err(BadCursor)
      else match Decode(encoded)
        case None => Err(BadCursor)
        case Some(t) => if Stripped(t) then Ok(Some(t)) else Err(BadCursor)
  }

  /** A cursor of any token the service sends, or of none, is read back; "-" is never an encoded token. */
  lemma CursorRoundTrip(prefix: string, token: Option<Token>)
    requires token.Some? ==> Stripped(token.value)
    ensures DecodeCursor(prefix, EncodeCursor(prefix, token)) == Ok(token)
    ensures token.Some? ==> Encode(token.value) != "-"
  {
    var value := EncodeCursor(prefix, token);
    assert prefix + ":" <= value;
    match token
    case None =>
      assert value[|prefix| + 1..] == "-";
    case Some(t) =>
      assert value[|prefix| + 1..] == Encode(t);
      DecodeInvertsEncode(t);
  }

  /** Only a token the service could have sent is ever read from a cursor. */
  lemma DecodedIsStripped(prefix: string, value: string)
    ensures DecodeCursor(prefix, value).Ok? && DecodeCursor(prefix, value).value.Some? ==>
      Stripped(DecodeCursor(prefix, value).value.value)
  {
  }

  function PhasePrefix(phase: Phase): string {
    match phase
    case Normal => FULL_PREFIX + ":normal"
    case Junk => FULL_PREFIX + ":spam"
  }

  function EncodeFull(phase: Phase, token: Option<Token>): string {
    EncodeCursor(PhasePrefix(phase), token)
  }

  datatype Position = Position(phase: Phase, token: Option<Token>)

  function DecodeFull(value: string): Result<Position, CursorError> {
    if PhasePrefix(Normal) + ":" <= value then
      match DecodeCursor(PhasePrefix(Normal), value)
      case Ok(token) => Ok(Position(Normal, token))
      case Err(e) => Err(e)
    else if PhasePrefix(Junk) + ":" <= value then
      match DecodeCursor(PhasePrefix(Junk), value)
      case Ok(token) => Ok(Position(Junk, token))
      case Err(e) => Err(e)
    else Err(BadCursor)
  }

  /** The phase and the token of a full scan are read back from its cursor. */
  lemma FullCursorRoundTrip(phase: Phase, token: Option<Token>)
    requires token.Some? ==> Stripped(token.value)
    ensures DecodeFull(EncodeFull(phase, token)) == Ok(Position(phase, token))
  {
    var value := EncodeFull(phase, token);
    CursorRoundTrip(PhasePrefix(phase), token);
    assert PhasePrefix(phase) + ":" <= value;
    if phase == Junk {
      assert value[|FULL_PREFIX| + 1] == 's' && (PhasePrefix(Normal) + ":")[|FULL_PREFIX| + 1] == 'n';
      assert !(PhasePrefix(Normal) + ":" <= value);
    }
  }

  // ------------------------------------------------------------ the format

  /** The test vectors of section 10 of RFC 4648, and the two characters of the url alphabet. */
  lemma TestVectors()
    ensures Encode([]) == ""
    ensures Encode([102]) == "Zg=="
    ensures Encode([102, 111]) == "Zm8="
    ensures Encode([102, 111, 111]) == "Zm9v"
    ensures Encode([102, 111, 111, 98]) == "Zm9vYg=="
    ensures Encode([102, 111, 111, 98, 97]) == "Zm9vYmE="
    ensures Encode([102, 111, 111, 98, 97, 114]) == "Zm9vYmFy"
    ensures Encode([251, 255, 191]) == "-_-_"
  {
    assert [102, 111, 111, 98][3..] == [98] && [102, 111, 111, 98, 97][3..] == [98, 97];
    assert [102, 111, 111, 98, 97, 114][3..] == [98, 97, 114] && [98, 97, 114][3..] == [];
    assert [102, 111, 111][3..] == [] && [251, 255, 191][3..] == [];
  }

  /** The cursors of a scan before its first page, and of a page of each kind. */
  lemma CursorFormat()
    ensures EncodeFull(Normal, None) == "mailcleanup-full-v1:normal:-"
    ensures EncodeFull(Junk, None) == "mailcleanup-full-v1:spam:-"
    ensures EncodeCursor(PARTIAL_PREFIX, None) == "mailcleanup-partial-v1:-"
    ensures EncodeFull(Junk, Some([102, 111, 111, 98])) == "mailcleanup-full-v1:spam:Zm9vYg=="
  {
    TestVectors();
  }
}
