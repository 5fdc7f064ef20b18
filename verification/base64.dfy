/** Base64, section 4 of RFC 4648, as `Buffer.toString("base64")` writes it and `base64 -d` reads it. */
module Base64 {
  import opened Common

  type sextet = x: int | 0 <= x < 64

  /** Table 1 of the RFC: A-Z, a-z, 0-9, '+', '/'. */
  function Symbol(n: sextet): char {
    if n < 26 then 'A' + n as char
    else if n < 52 then 'a' + (n - 26) as char
    else if n < 62 then '0' + (n - 52) as char
    else if n == 62 then '+' else '/'
  }

  function Value(c: char): Option<sextet> {
    if 'A' <= c <= 'Z' then Some((c - 'A') as int)
    else if 'a' <= c <= 'z' then Some((c - 'a') as int + 26)
    else if '0' <= c <= '9' then Some((c - '0') as int + 52)
    else if c == '+' then Some(62)
    else if c == '/' then Some(63)
    else None
  }

  lemma SymbolHasItsValue(n: sextet)
    ensures Value(Symbol(n)) == Some(n)
    ensures Symbol(n) != '=' && Symbol(n) != '\n'
  {
  }

  /** Three bytes as four symbols. */
  function EncodeGroup(a: byte, b: byte, c: byte): (g: string)
    ensures |g| == 4
  {
    [Symbol(a / 4), Symbol(a % 4 * 16 + b / 16), Symbol(b % 16 * 4 + c / 64), Symbol(c % 64)]
  }

  function Encode(bytes: seq<byte>): string {
    if bytes == [] then ""
    else if |bytes| == 1 then EncodeGroup(bytes[0], 0, 0)[..2] + "=="
    else if |bytes| == 2 then EncodeGroup(bytes[0], bytes[1], 0)[..3] + "="
    else EncodeGroup(bytes[0], bytes[1], bytes[2]) + Encode(bytes[3..])
  }

  /** Four sextets as three bytes. */
  function DecodeGroup(w: sextet, x: sextet, y: sextet, z: sextet): (bytes: seq<byte>)
    ensures |bytes| == 3
  {
    [w * 4 + x / 16, x % 16 * 16 + y / 4, y % 4 * 64 + z]
  }

  /** `None` for text that is not padded groups of four symbols. */
  function Decode(text: string): Option<seq<byte>> {
    if text == "" then Some([])
    else if |text| < 4 || Value(text[0]).None? || Value(text[1]).None? then None
    else
      var w, x := Value(text[0]).value, Value(text[1]).value;
      if text[2..] == "==" then Some(DecodeGroup(w, x, 0, 0)[..1])
      else if Value(text[2]).None? then None
      else if text[3..] == "=" then Some(DecodeGroup(w, x, Value(text[2]).value, 0)[..2])
      else if Value(text[3]).None? then None
      else
        match Decode(text[4..])
        case None => None
        case Some(rest) => Some(DecodeGroup(w, x, Value(text[2]).value, Value(text[3]).value) + rest)
  }

  lemma GroupRoundTrip(a: byte, b: byte, c: byte)
    ensures var g := EncodeGroup(a, b, c);
            && (forall i | 0 <= i < 4 :: Value(g[i]).Some? && g[i] != '=' && g[i] != '\n')
            && DecodeGroup(Value(g[0]).value, Value(g[1]).value, Value(g[2]).value, Value(g[3]).value) == [a, b, c]
            && (c == 0 ==> DecodeGroup(Value(g[0]).value, Value(g[1]).value, Value(g[2]).value, 0)[..2] == [a, b])
            && (b == 0 && c == 0 ==> DecodeGroup(Value(g[0]).value, Value(g[1]).value, 0, 0)[..1] == [a])
  {
    SymbolHasItsValue(a / 4);
    SymbolHasItsValue(a % 4 * 16 + b / 16);
    SymbolHasItsValue(b % 16 * 4 + c / 64);
    SymbolHasItsValue(c % 64);
    GroupArithmetic(a, b, c);
  }

  lemma GroupArithmetic(a: byte, b: byte, c: byte)
    ensures a / 4 * 4 + (a % 4 * 16 + b / 16) / 16 == a
    ensures (a % 4 * 16 + b / 16) % 16 * 16 + (b % 16 * 4 + c / 64) / 4 == b
    ensures (b % 16 * 4 + c / 64) % 4 * 64 + c % 64 == c
  {
  }

  /** Decoding gives back any bytes whatever, and the text is always one line. */
  lemma {:induction false} RoundTrip(bytes: seq<byte>)
    ensures Decode(Encode(bytes)) == Some(bytes)
    ensures '\n' !in Encode(bytes)
    decreases |bytes|
  {
    hide Value, EncodeGroup, DecodeGroup;
    if |bytes| == 1 {
      GroupRoundTrip(bytes[0], 0, 0);
      var text, g := Encode(bytes), EncodeGroup(bytes[0], 0, 0);
      assert text[0] == g[0] && text[1] == g[1] && text[2..] == "==";
      assert Decode(text) == Some(DecodeGroup(Value(g[0]).value, Value(g[1]).value, 0, 0)[..1]);
      assert bytes == [bytes[0]];
    } else if |bytes| == 2 {
      GroupRoundTrip(bytes[0], bytes[1], 0);
      var text, g := Encode(bytes), EncodeGroup(bytes[0], bytes[1], 0);
      assert text[0] == g[0] && text[1] == g[1] && text[2] == g[2];
      assert text[2..][0] == text[2] != '=' && text[3..] == "=";
      var w, x, y := Value(g[0]).value, Value(g[1]).value, Value(g[2]).value;
      assert Decode(text) == Some(DecodeGroup(w, x, y, 0)[..2]);
      assert bytes == [bytes[0], bytes[1]];
    } else if |bytes| >= 3 {
      GroupRoundTrip(bytes[0], bytes[1], bytes[2]);
      RoundTrip(bytes[3..]);
      var g := EncodeGroup(bytes[0], bytes[1], bytes[2]);
      var text := Encode(bytes);
      assert text == g + Encode(bytes[3..]) && text[4..] == Encode(bytes[3..]);
      assert text[2..][0] == text[2] != '=' && text[3..][0] == text[3] != '=';
      assert bytes == [bytes[0], bytes[1], bytes[2]] + bytes[3..];
    }
  }

  /** Three bytes and their four symbols are one and the same 24-bit number, most significant first. */
  lemma GroupIsBigEndian(a: byte, b: byte, c: byte)
    ensures var g := EncodeGroup(a, b, c);
            && (forall i | 0 <= i < 4 :: Value(g[i]).Some?)
            && 65536 * a + 256 * b + c
            == 262144 * Value(g[0]).value + 4096 * Value(g[1]).value + 64 * Value(g[2]).value + Value(g[3]).value
  {
    SymbolHasItsValue(a / 4);
    SymbolHasItsValue(a % 4 * 16 + b / 16);
    SymbolHasItsValue(b % 16 * 4 + c / 64);
    SymbolHasItsValue(c % 64);
    hide Value, Symbol;
  }

  /** The test vectors of section 10 of the RFC - "f", "fo", "foo" - and the last two symbols of its table. */
  lemma TestVectors()
    ensures Encode([102]) == "Zg==" && Encode([102, 111]) == "Zm8=" && Encode([102, 111, 111]) == "Zm9v"
    ensures Encode([251, 239, 190]) == "++++" && Encode([255, 255, 255]) == "////"
    ensures Encode([]) == ""
  {
    assert EncodeGroup(102, 0, 0) == "ZgAA" && EncodeGroup(102, 111, 0) == "Zm8A";
    assert EncodeGroup(102, 111, 111) == "Zm9v";
    assert EncodeGroup(251, 239, 190) == "++++";
    assert EncodeGroup(255, 255, 255) == "////";
    hide EncodeGroup;
    EncodedGroup(102, 111, 111);
    EncodedGroup(251, 239, 190);
    EncodedGroup(255, 255, 255);
  }

  lemma EncodedGroup(a: byte, b: byte, c: byte)
    ensures Encode([a, b, c]) == EncodeGroup(a, b, c)
  {
    hide EncodeGroup;
    assert [a, b, c][3..] == [];
    assert EncodeGroup(a, b, c) + "" == EncodeGroup(a, b, c);
  }
}
