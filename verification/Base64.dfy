/**
 Standard base64, sections 3.2 and 4 of RFC 4648: unpadded as the encoded key hash uses it
 (internal/controlplane/keys/hasher.go:26-87), padded as the encryption envelope does
 (internal/crypto/cipher.go:87-125).
 */
module Base64 {
  type Byte = b: int | 0 <= b < 256

  datatype Result<+T> = Ok(value: T) | Err

  /** The alphabet A-Z a-z 0-9 + / */
  function Symbol(v: int): char
    requires 0 <= v < 64
  {
    if v < 26 then 'A' + v as char
    else if v < 52 then 'a' + (v - 26) as char
    else if v < 62 then '0' + (v - 52) as char
    else if v == 62 then '+' else '/'
  }

  /** -1 for a character outside the alphabet, padding included. */
  function SymbolValue(c: char): (v: int)
    ensures -1 <= v < 64
  {
    if 'A' <= c <= 'Z' then (c - 'A') as int
    else if 'a' <= c <= 'z' then (c - 'a') as int + 26
    else if '0' <= c <= '9' then (c - '0') as int + 52
    else if c == '+' then 62 else if c == '/' then 63 else -1
  }

  lemma SymbolsRoundTrip(v: int)
    requires 0 <= v < 64
    ensures SymbolValue(Symbol(v)) == v
  {
  }

  function Encode(bs: seq<Byte>): string {
    if |bs| == 0 then []
    else if |bs| == 1 then [Symbol(bs[0] / 4), Symbol(bs[0] % 4 * 16)]
    else if |bs| == 2 then
      [Symbol(bs[0] / 4), Symbol(bs[0] % 4 * 16 + bs[1] / 16), Symbol(bs[1] % 16 * 4)]
    else Quad(bs[0], bs[1], bs[2]) + Encode(bs[3..])
  }

  /** Three bytes cut into four six-bit groups. */
  function Quad(x: Byte, y: Byte, z: Byte): (q: string)
    ensures |q| == 4
  {
    [Symbol(x / 4), Symbol(x % 4 * 16 + y / 16), Symbol(y % 16 * 4 + z / 64), Symbol(z % 64)]
  }

  /** The decoder skips line breaks wherever they stand. */
  function WithoutBreaks(s: string): string {
    if s == [] then []
    else (if s[0] == '\r' || s[0] == '\n' then [] else [s[0]]) + WithoutBreaks(s[1..])
  }

  function DecodeSymbols(s: string): Result<seq<Byte>> {
    if |s| == 0 then Ok([])
    else if |s| == 1 then Err
    else
      var a, b := SymbolValue(s[0]), SymbolValue(s[1]);
      if a < 0 || b < 0 then Err
      else if |s| == 2 then Ok([a * 4 + b / 16])
      else
        var c := SymbolValue(s[2]);
        if c < 0 then Err
        else if |s| == 3 then Ok([a * 4 + b / 16, b % 16 * 16 + c / 4])
        else
          var d := SymbolValue(s[3]);
          if d < 0 then Err
          else match DecodeSymbols(s[4..])
            case Err => Err
            case Ok(rest) => Ok([a * 4 + b / 16, b % 16 * 16 + c / 4, c % 4 * 64 + d] + rest)
  }

  function Decode(s: string): Result<seq<Byte>> {
    DecodeSymbols(WithoutBreaks(s))
  }

  lemma OneByte(x: Byte)
    ensures DecodeSymbols([Symbol(x / 4), Symbol(x % 4 * 16)]) == Ok([x])
  {
    hide Symbol, SymbolValue;
    SymbolsRoundTrip(x / 4);
    SymbolsRoundTrip(x % 4 * 16);
  }

  lemma TwoBytes(x: Byte, y: Byte)
    ensures DecodeSymbols([Symbol(x / 4), Symbol(x % 4 * 16 + y / 16), Symbol(y % 16 * 4)]) == Ok([x, y])
  {
    hide Symbol, SymbolValue;
    SymbolsRoundTrip(x / 4);
    SymbolsRoundTrip(x % 4 * 16 + y / 16);
    SymbolsRoundTrip(y % 16 * 4);
  }

  lemma DecodeFour(a: int, b: int, c: int, d: int, rest: string)
    requires 0 <= a < 64 && 0 <= b < 64 && 0 <= c < 64 && 0 <= d < 64 && DecodeSymbols(rest).Ok?
    ensures DecodeSymbols([Symbol(a), Symbol(b), Symbol(c), Symbol(d)] + rest)
         == Ok([a * 4 + b / 16, b % 16 * 16 + c / 4, c % 4 * 64 + d] + DecodeSymbols(rest).value)
  {
    hide Symbol, SymbolValue;
    SymbolsRoundTrip(a);
    SymbolsRoundTrip(b);
    SymbolsRoundTrip(c);
    SymbolsRoundTrip(d);
    assert ([Symbol(a), Symbol(b), Symbol(c), Symbol(d)] + rest)[4..] == rest;
  }

  lemma QuadDecodes(x: Byte, y: Byte, z: Byte, rest: string)
    requires DecodeSymbols(rest).Ok?
    ensures DecodeSymbols(Quad(x, y, z) + rest) == Ok([x, y, z] + DecodeSymbols(rest).value)
  {
    hide DecodeSymbols, Symbol;
    var a, b, c, d := x / 4, x % 4 * 16 + y / 16, y % 16 * 4 + z / 64, z % 64;
    DecodeFour(a, b, c, d, rest);
    assert a * 4 + b / 16 == x && b % 16 * 16 + c / 4 == y && c % 4 * 64 + d == z;
  }

  lemma {:induction false} SymbolsDecode(bs: seq<Byte>)
    ensures DecodeSymbols(Encode(bs)) == Ok(bs)
    decreases |bs|
  {
    hide DecodeSymbols, Symbol, Quad;
    if |bs| == 0 {
      NothingDecodes();
    } else if |bs| == 1 {
      OneByte(bs[0]);
      assert bs == [bs[0]];
    } else if |bs| == 2 {
      TwoBytes(bs[0], bs[1]);
      assert bs == [bs[0], bs[1]];
    } else {
      SymbolsDecode(bs[3..]);
      QuadDecodes(bs[0], bs[1], bs[2], Encode(bs[3..]));
      assert bs == [bs[0], bs[1], bs[2]] + bs[3..];
    }
  }

  lemma NothingDecodes()
    ensures DecodeSymbols([]) == Ok([])
  {
  }

  predicate InAlphabet(s: string) {
    forall i :: 0 <= i < |s| ==> SymbolValue(s[i]) >= 0
  }

  lemma SymbolInAlphabet(v: int)
    requires 0 <= v < 64
    ensures SymbolValue(Symbol(v)) >= 0
  {
  }

  lemma QuadInAlphabet(x: Byte, y: Byte, z: Byte)
    ensures InAlphabet(Quad(x, y, z))
  {
    hide Symbol, SymbolValue;
    SymbolInAlphabet(x / 4);
    SymbolInAlphabet(x % 4 * 16 + y / 16);
    SymbolInAlphabet(y % 16 * 4 + z / 64);
    SymbolInAlphabet(z % 64);
  }

  lemma {:induction false} EncodeInAlphabet(bs: seq<Byte>)
    ensures InAlphabet(Encode(bs))
    decreases |bs|
  {
    hide Symbol, SymbolValue, Quad;
    if |bs| >= 3 {
      EncodeInAlphabet(bs[3..]);
      QuadInAlphabet(bs[0], bs[1], bs[2]);
    } else if |bs| == 2 {
      SymbolInAlphabet(bs[0] / 4);
      SymbolInAlphabet(bs[0] % 4 * 16 + bs[1] / 16);
      SymbolInAlphabet(bs[1] % 16 * 4);
    } else if |bs| == 1 {
      SymbolInAlphabet(bs[0] / 4);
      SymbolInAlphabet(bs[0] % 4 * 16);
    }
  }

  lemma {:induction false} NoBreaks(s: string)
    requires InAlphabet(s)
    ensures WithoutBreaks(s) == s
  {
    if s != [] {
      assert SymbolValue(s[0]) >= 0;
      NoBreaks(s[1..]);
    }
  }

  /** Base64 is undone by its decoder. */
  lemma Base64RoundTrip(bs: seq<Byte>)
    ensures Decode(Encode(bs)) == Ok(bs)
  {
    EncodeInAlphabet(bs);
    NoBreaks(Encode(bs));
    SymbolsDecode(bs);
  }

  // --- With padding ------------------------------------------------------------------------

  function EncodePadded(bs: seq<Byte>): string {
    Encode(bs) + match |bs| % 3 case 0 => "" case 1 => "==" case _ => "="
  }

  function DecodePadded(s: string): Result<seq<Byte>> {
    match Unpadded(WithoutBreaks(s))
    case Err => Err
    case Ok(symbols) => DecodeSymbols(symbols)
  }

  /** Padding is read only at the very end; elsewhere `=` is outside the alphabet. */
  function Unpadded(s: string): Result<string> {
    var n := |s|;
    if n % 4 != 0 then Err
    else if n > 0 && s[n - 2] == '=' && s[n - 1] == '=' then Ok(s[..n - 2])
    else if n > 0 && s[n - 1] == '=' then Ok(s[..n - 1])
    else Ok(s)
  }

  lemma {:induction false} EncodedLength(bs: seq<Byte>)
    ensures |Encode(bs)| % 4 == match |bs| % 3 case 0 => 0 case 1 => 2 case _ => 3
    decreases |bs|
  {
    hide Symbol, Quad;
    if |bs| >= 3 { EncodedLength(bs[3..]); }
  }

  lemma {:induction false} BreaksApart(s: string, t: string)
    ensures WithoutBreaks(s + t) == WithoutBreaks(s) + WithoutBreaks(t)
  {
    if s == [] {
      assert s + t == t;
    } else {
      assert (s + t)[1..] == s[1..] + t;
      BreaksApart(s[1..], t);
    }
  }

  predicate PadsTo(e: string, pad: string) {
    (|e| % 4 == 0 && pad == "") || (|e| % 4 == 2 && pad == "==") || (|e| % 4 == 3 && pad == "=")
  }

  lemma NoPads(e: string)
    requires InAlphabet(e)
    ensures forall i :: 0 <= i < |e| ==> e[i] != '='
  {
    forall i | 0 <= i < |e| ensures e[i] != '=' { assert SymbolValue(e[i]) >= 0; }
  }

  lemma PadsComeOff(e: string, pad: string)
    requires InAlphabet(e) && PadsTo(e, pad)
    ensures Unpadded(e + pad) == Ok(e)
  {
    NoPads(e);
    hide InAlphabet;
    var s := e + pad;
    assert s[..|e|] == e;
    if pad == "" { assert s == e; }
  }

  lemma PaddedRoundTrip(bs: seq<Byte>)
    ensures DecodePadded(EncodePadded(bs)) == Ok(bs)
  {
    EncodeInAlphabet(bs);
    EncodedLength(bs);
    SymbolsDecode(bs);
    hide Encode, DecodeSymbols, InAlphabet, WithoutBreaks, Unpadded;
    var e, pad := Encode(bs), match |bs| % 3 case 0 => "" case 1 => "==" case _ => "=";
    NoBreaks(e);
    PadsStay();
    BreaksApart(e, pad);
    PadsComeOff(e, pad);
  }

  lemma PadsStay()
    ensures WithoutBreaks("") == "" && WithoutBreaks("=") == "=" && WithoutBreaks("==") == "=="
  {
    assert "=="[1..] == "=" && "="[1..] == "";
  }

  // --- The standard's own tables and examples ------------------------------------------------

  const UPPER := "ABCDEFGHIJKLMNOPQRSTUVWXYZ"
  const LOWER := "abcdefghijklmnopqrstuvwxyz"
  const OTHERS := "0123456789+/"

  lemma UpperSymbols(v: nat)
    requires v < 26
    ensures Symbol(v) == UPPER[v] && Symbol(v + 26) == LOWER[v]
  {
    assert v == 0 || v == 1 || v == 2 || v == 3 || v == 4 || v == 5 || v == 6 || v == 7 ||
           v == 8 || v == 9 || v == 10 || v == 11 || v == 12 || v == 13 || v == 14 || v == 15 ||
           v == 16 || v == 17 || v == 18 || v == 19 || v == 20 || v == 21 || v == 22 || v == 23 ||
           v == 24 || v == 25;
  }

  lemma OtherSymbols(v: nat)
    requires v < 12
    ensures Symbol(v + 52) == OTHERS[v]
  {
    assert v == 0 || v == 1 || v == 2 || v == 3 || v == 4 || v == 5 || v == 6 || v == 7 ||
           v == 8 || v == 9 || v == 10 || v == 11;
  }

  /** Table 1 of RFC 4648. */
  lemma AlphabetIsStandard(v: nat)
    requires v < 64
    ensures Symbol(v) == (UPPER + LOWER + OTHERS)[v]
  {
    hide Symbol;
    if v < 26 { UpperSymbols(v); } else if v < 52 { UpperSymbols(v - 26); } else { OtherSymbols(v - 52); }
  }

  /** Section 10 of RFC 4648. */
  lemma StandardExamples()
    ensures EncodePadded([0x66]) == "Zg==" && EncodePadded([0x66, 0x6f]) == "Zm8="
    ensures EncodePadded([0x66, 0x6f, 0x6f]) == "Zm9v"
    ensures EncodePadded([0x66, 0x6f, 0x6f, 0x62, 0x61, 0x72]) == "Zm9vYmFy"
  {
    var foo: seq<Byte> := [0x66, 0x6f, 0x6f];
    var bar: seq<Byte> := [0x62, 0x61, 0x72];
    assert Quad(0x66, 0x6f, 0x6f) == "Zm9v" && Quad(0x62, 0x61, 0x72) == "YmFy";
    assert foo[3..] == [] && bar[3..] == [] && (foo + bar)[3..] == bar;
    assert Encode(foo) == "Zm9v" + "" && Encode(bar) == "YmFy" + "";
    assert Encode(foo + bar) == "Zm9v" + "YmFy";
    assert foo + bar == [0x66, 0x6f, 0x6f, 0x62, 0x61, 0x72];
  }
}
