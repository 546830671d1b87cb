/**
 The encoded argon2id hash: its printer, its parser and Verify
 (internal/controlplane/keys/hasher.go:16-87).  The key derivation itself is a parameter.
 */
module Hasher {
  import opened Base64

  // --- Decimal numbers ----------------------------------------------------------------------

  predicate IsDigit(c: char) { '0' <= c <= '9' }

  function Digit(d: int): char
    requires 0 <= d < 10
  {
    '0' + d as char
  }

  /** fmt's %d */
  function Decimal(n: nat): string {
    if n < 10 then [Digit(n)] else Decimal(n / 10) + [Digit(n % 10)]
  }

  function Digits(s: string): (d: string)
    ensures |d| <= |s|
  {
    if s == [] || !IsDigit(s[0]) then [] else [s[0]] + Digits(s[1..])
  }

  function Number(digits: string): nat
    requires forall i :: 0 <= i < |digits| ==> IsDigit(digits[i])
  {
    if digits == [] then 0
    else
      assert IsDigit(digits[|digits| - 1]);
      Number(digits[..|digits| - 1]) * 10 + (digits[|digits| - 1] - '0') as int
  }

  lemma {:induction false} DecimalDigits(n: nat)
    ensures Decimal(n) != []
    ensures forall i :: 0 <= i < |Decimal(n)| ==> IsDigit(Decimal(n)[i])
    ensures Number(Decimal(n)) == n
  {
    if n < 10 {
      assert Decimal(n)[..0] == [];
    } else {
      DecimalDigits(n / 10);
      assert Decimal(n)[..|Decimal(n)| - 1] == Decimal(n / 10);
    }
  }

  lemma {:induction false} DigitsStop(d: string, rest: string)
    requires forall i :: 0 <= i < |d| ==> IsDigit(d[i])
    requires rest == [] || !IsDigit(rest[0])
    ensures Digits(d + rest) == d
  {
    if d == [] {
      assert d + rest == rest;
    } else {
      assert (d + rest)[1..] == d[1..] + rest;
      DigitsStop(d[1..], rest);
    }
  }

  lemma {:induction false} DigitsAreDigits(s: string)
    ensures forall i :: 0 <= i < |Digits(s)| ==> IsDigit(Digits(s)[i])
  {
    if s != [] && IsDigit(s[0]) { DigitsAreDigits(s[1..]); }
  }

  function SkipSpace(s: string): string {
    if s != [] && (s[0] == ' ' || s[0] == '\t' || s[0] == '\r') then SkipSpace(s[1..]) else s
  }

  /** Sscanf's %d into an unsigned destination: leading blanks, at least one digit, no
      overflow.  The second component is the text left to scan. */
  function ScanUint(s: string, limit: nat): Result<(nat, string)> {
    var t := SkipSpace(s);
    var d := Digits(t);
    DigitsAreDigits(t);
    if d == [] || Number(d) > limit then Err else Ok((Number(d), t[|d|..]))
  }

  function ScanLiteral(s: string, literal: string): Result<string> {
    if |s| >= |literal| && s[..|literal|] == literal then Ok(s[|literal|..]) else Err
  }

  const MAX32: nat := 0xFFFF_FFFF
  const MAX8: nat := 0xFF

  /** Sscanf(s, "m=%d,t=%d,p=%d"), which ignores whatever follows the last number. */
  function ScanParams(s: string): Result<(nat, nat, nat)> {
    match ScanLiteral(s, "m=")
    case Err => Err
    case Ok(s1) =>
      match ScanUint(s1, MAX32)
      case Err => Err
      case Ok((m, s2)) =>
        match ScanLiteral(s2, ",t=")
        case Err => Err
        case Ok(s3) =>
          match ScanUint(s3, MAX32)
          case Err => Err
          case Ok((t, s4)) =>
            match ScanLiteral(s4, ",p=")
            case Err => Err
            case Ok(s5) =>
              match ScanUint(s5, MAX8)
              case Err => Err
              case Ok((p, _)) => Ok((m, t, p))
  }

  lemma ScanDecimal(n: nat, rest: string, limit: nat)
    requires n <= limit && (rest == [] || !IsDigit(rest[0]))
    ensures ScanUint(Decimal(n) + rest, limit) == Ok((n, rest))
  {
    DecimalDigits(n);
    DigitsStop(Decimal(n), rest);
    var s := Decimal(n) + rest;
    assert s[0] == Decimal(n)[0];
    assert s[|Decimal(n)|..] == rest;
  }

  lemma ScanLiteralPrefix(literal: string, rest: string)
    ensures ScanLiteral(literal + rest, literal) == Ok(rest)
  {
  }

  function PrintParams(m: nat, t: nat, p: nat): string {
    "m=" + (Decimal(m) + (",t=" + (Decimal(t) + (",p=" + Decimal(p)))))
  }

  lemma ParamsRoundTrip(m: nat, t: nat, p: nat)
    requires m <= MAX32 && t <= MAX32 && p <= MAX8
    ensures ScanParams(PrintParams(m, t, p)) == Ok((m, t, p))
  {
    var s5 := Decimal(p);
    var s3 := Decimal(t) + (",p=" + s5);
    var s1 := Decimal(m) + (",t=" + s3);
    ScanLiteralPrefix("m=", s1);
    ScanDecimal(m, ",t=" + s3, MAX32);
    ScanLiteralPrefix(",t=", s3);
    ScanDecimal(t, ",p=" + s5, MAX32);
    ScanLiteralPrefix(",p=", s5);
    assert s5 + [] == s5;
    ScanDecimal(p, [], MAX8);
  }

  // --- The encoded form -----------------------------------------------------------------------

  datatype Params = Params(memory: nat, time: nat, threads: nat, salt: seq<Byte>, hash: seq<Byte>)

  predicate InRange(p: Params) {
    p.memory <= MAX32 && p.time <= MAX32 && p.threads <= MAX8
  }

  /** strings.Split(s, "$") */
  function Split(s: string): (parts: seq<string>)
    ensures |parts| >= 1
  {
    if s == [] then [[]]
    else
      var rest := Split(s[1..]);
      if s[0] == '$' then [[]] + rest else [[s[0]] + rest[0]] + rest[1..]
  }

  function Print(p: Params): string {
    "" + "$" + ("argon2id" + "$" + ("v=19" + "$" + (
      PrintParams(p.memory, p.time, p.threads) + "$" + (Encode(p.salt) + "$" + Encode(p.hash)))))
  }

  function ParseEncoded(s: string): Result<Params> {
    var parts := Split(s);
    if |parts| != 6 || parts[1] != "argon2id" then Err
    else if parts[2] != "v=19" then Err
    else match ScanParams(parts[3])
      case Err => Err
      case Ok((memory, time, threads)) =>
        match Decode(parts[4])
        case Err => Err
        case Ok(salt) =>
          match Decode(parts[5])
          case Err => Err
          case Ok(hash) => Ok(Params(memory, time, threads, salt, hash))
  }

  predicate NoDollar(s: string) {
    forall i :: 0 <= i < |s| ==> s[i] != '$'
  }

  lemma {:induction false} SplitFirst(a: string, rest: string)
    requires NoDollar(a)
    ensures Split(a + "$" + rest) == [a] + Split(rest)
  {
    var s := a + "$" + rest;
    if a == [] {
      assert s == "$" + rest;
      assert s[1..] == rest;
    } else {
      SplitFirst(a[1..], rest);
      assert s[1..] == a[1..] + "$" + rest;
      assert [a[0]] + a[1..] == a;
    }
  }

  lemma {:induction false} SplitLast(a: string)
    requires NoDollar(a)
    ensures Split(a) == [a]
  {
    if a != [] {
      SplitLast(a[1..]);
      assert [a[0]] + a[1..] == a;
    }
  }

  lemma PrintedPieces(p: Params)
    ensures NoDollar(PrintParams(p.memory, p.time, p.threads)) && NoDollar(Encode(p.salt)) && NoDollar(Encode(p.hash))
  {
    DecimalDigits(p.memory);
    DecimalDigits(p.time);
    DecimalDigits(p.threads);
    NoDollarInDigits(Decimal(p.memory));
    NoDollarInDigits(Decimal(p.time));
    NoDollarInDigits(Decimal(p.threads));
    EncodeInAlphabet(p.salt);
    EncodeInAlphabet(p.hash);
    NoDollarInAlphabet(Encode(p.salt));
    NoDollarInAlphabet(Encode(p.hash));
  }

  lemma NoDollarInDigits(s: string)
    requires forall i :: 0 <= i < |s| ==> IsDigit(s[i])
    ensures NoDollar(s)
  {
    forall i | 0 <= i < |s| ensures s[i] != '$' { assert IsDigit(s[i]); }
  }

  lemma NoDollarInAlphabet(s: string)
    requires InAlphabet(s)
    ensures NoDollar(s)
  {
    forall i | 0 <= i < |s| ensures s[i] != '$' { assert SymbolValue(s[i]) >= 0; }
  }

  lemma SplitPrinted(p: Params)
    ensures Split(Print(p)) ==
      ["", "argon2id", "v=19", PrintParams(p.memory, p.time, p.threads), Encode(p.salt), Encode(p.hash)]
  {
    PrintedPieces(p);
    SplitPieces(PrintParams(p.memory, p.time, p.threads), Encode(p.salt), Encode(p.hash));
  }

  lemma SplitPieces(params: string, salt: string, hash: string)
    requires NoDollar(params) && NoDollar(salt) && NoDollar(hash)
    ensures Split("" + "$" + ("argon2id" + "$" + ("v=19" + "$" + (params + "$" + (salt + "$" + hash)))))
         == ["", "argon2id", "v=19", params, salt, hash]
  {
    hide Split;
    var t4 := salt + "$" + hash;
    var t3 := params + "$" + t4;
    var t2 := "v=19" + "$" + t3;
    SplitLast(hash);
    SplitFirst(salt, hash);
    SplitFirst(params, t4);
    SplitFirst("v=19", t3);
    SplitFirst("argon2id", t2);
    SplitFirst("", "argon2id" + "$" + t2);
  }

  /** Parsing what was printed gives back every parameter, salt and hash exactly. */
  lemma EncodedRoundTrip(p: Params)
    requires InRange(p)
    ensures ParseEncoded(Print(p)) == Ok(p)
  {
    hide Split, Print, PrintParams, ScanParams, Encode, Decode;
    SplitPrinted(p);
    ParamsRoundTrip(p.memory, p.time, p.threads);
    Base64RoundTrip(p.salt);
    Base64RoundTrip(p.hash);
  }

  // --- Hash and Verify -------------------------------------------------------------------------

  /** argon2.IDKey: password, salt, time, memory, threads, key length. */
  type Kdf = (string, seq<Byte>, nat, nat, nat, nat) -> seq<Byte>

  ghost predicate ReturnsKeyLength(idKey: Kdf) {
    forall w, s, t, m, p, n :: |idKey(w, s, t, m, p, n)| == n
  }

  const ARGON_TIME: nat := 2
  const ARGON_MEMORY: nat := 64 * 1024
  const ARGON_THREADS: nat := 4
  const ARGON_KEY_LEN: nat := 32

  /** Hash, given the random salt it drew. */
  function Hash(idKey: Kdf, plaintext: string, salt: seq<Byte>): string {
    Print(Params(ARGON_MEMORY, ARGON_TIME, ARGON_THREADS, salt,
                 idKey(plaintext, salt, ARGON_TIME, ARGON_MEMORY, ARGON_THREADS, ARGON_KEY_LEN)))
  }

  datatype Verdict = Match | Mismatch | BadEncoding

  function Verify(idKey: Kdf, plaintext: string, encoded: string): Verdict {
    match ParseEncoded(encoded)
    case Err => BadEncoding
    case Ok(p) =>
      if idKey(plaintext, p.salt, p.time, p.memory, p.threads, |p.hash|) == p.hash then Match else Mismatch
  }

  /** A stored hash always parses, the password it was made from always verifies, and another
      password verifies exactly when it derives the same key. */
  lemma VerifyHash(idKey: Kdf, password: string, other: string, salt: seq<Byte>)
    requires ReturnsKeyLength(idKey)
    ensures Verify(idKey, password, Hash(idKey, password, salt)) == Match
    ensures var key := (w: string) => idKey(w, salt, ARGON_TIME, ARGON_MEMORY, ARGON_THREADS, ARGON_KEY_LEN);
            Verify(idKey, other, Hash(idKey, password, salt)) == if key(other) == key(password) then Match else Mismatch
  {
    var sum := idKey(password, salt, ARGON_TIME, ARGON_MEMORY, ARGON_THREADS, ARGON_KEY_LEN);
    EncodedRoundTrip(Params(ARGON_MEMORY, ARGON_TIME, ARGON_THREADS, salt, sum));
  }

  /** Over every stored text, well formed or not: a password matches exactly when the text parses and
      the password derives the hash in it; a text that does not parse is reported as such. */
  lemma VerifyIff(idKey: Kdf, plaintext: string, encoded: string)
    ensures Verify(idKey, plaintext, encoded) == Match <==>
            exists p :: ParseEncoded(encoded) == Ok(p) &&
                        idKey(plaintext, p.salt, p.time, p.memory, p.threads, |p.hash|) == p.hash
    ensures Verify(idKey, plaintext, encoded) == BadEncoding <==> forall p :: ParseEncoded(encoded) != Ok(p)
  {
    if ParseEncoded(encoded).Ok? {
      assert ParseEncoded(encoded) == Ok(ParseEncoded(encoded).value);
    }
  }

  function Encoded(prefix: string, params: string, salt: string, hash: string): string {
    prefix + "$" + ("argon2id" + "$" + ("v=19" + "$" + (params + "$" + (salt + "$" + hash))))
  }

  function JoinDollar(parts: seq<string>): string {
    if parts == [] then "" else if |parts| == 1 then parts[0] else parts[0] + "$" + JoinDollar(parts[1..])
  }

  lemma {:induction false} SplitInverse(s: string)
    ensures JoinDollar(Split(s)) == s && forall i :: 0 <= i < |Split(s)| ==> NoDollar(Split(s)[i])
  {
    if s != [] {
      var rest := Split(s[1..]);
      SplitInverse(s[1..]);
      if s[0] == '$' {
        assert Split(s) == [[]] + rest && Split(s)[1..] == rest;
        assert [] + "$" + s[1..] == s;
      } else {
        assert Split(s)[0] == [s[0]] + rest[0] && Split(s)[1..] == rest[1..];
        assert s == [s[0]] + s[1..];
        if |rest| > 1 {
          assert [s[0]] + (rest[0] + "$" + JoinDollar(rest[1..])) == ([s[0]] + rest[0]) + "$" + JoinDollar(rest[1..]);
        }
      }
    }
  }

  lemma SixParts(parts: seq<string>)
    requires |parts| == 6 && parts[1] == "argon2id" && parts[2] == "v=19"
    ensures JoinDollar(parts) == Encoded(parts[0], parts[3], parts[4], parts[5])
  {
    var t1, t2, t3, t4, t5 := parts[1..], parts[2..], parts[3..], parts[4..], parts[5..];
    assert t1[1..] == t2 && t2[1..] == t3 && t3[1..] == t4 && t4[1..] == t5;
    assert JoinDollar(t5) == parts[5];
    assert JoinDollar(t4) == parts[4] + "$" + parts[5];
    assert JoinDollar(t3) == parts[3] + "$" + JoinDollar(t4);
    assert JoinDollar(t2) == "v=19" + "$" + JoinDollar(t3);
    assert JoinDollar(t1) == "argon2id" + "$" + JoinDollar(t2);
  }

  /** What the parser accepts and what it makes of it: six parts between dollar signs, "argon2id" and
      "v=19" in their places, numbers that fit, and two base64 texts.  What stands before the first
      dollar sign is not looked at. */
  lemma ParseIff(s: string, p: Params)
    ensures ParseEncoded(s) == Ok(p) <==>
            exists prefix, params, salt, hash ::
              && NoDollar(prefix) && NoDollar(params) && NoDollar(salt) && NoDollar(hash)
              && s == Encoded(prefix, params, salt, hash)
              && ScanParams(params) == Ok((p.memory, p.time, p.threads))
              && Decode(salt) == Ok(p.salt) && Decode(hash) == Ok(p.hash)
    ensures ParseEncoded(s) == Ok(p) ==> InRange(p)
  {
    hide Split, ScanParams, Decode, JoinDollar, Encoded, NoDollar;
    if ParseEncoded(s) == Ok(p) {
      var parts := Split(s);
      SplitInverse(s);
      SixParts(parts);
      ScanInRange(parts[3]);
      assert s == Encoded(parts[0], parts[3], parts[4], parts[5]);
    }
    if prefix, params, salt, hash :|
        && NoDollar(prefix) && NoDollar(params) && NoDollar(salt) && NoDollar(hash)
        && s == Encoded(prefix, params, salt, hash)
        && ScanParams(params) == Ok((p.memory, p.time, p.threads))
        && Decode(salt) == Ok(p.salt) && Decode(hash) == Ok(p.hash)
    {
      SplitEncoded(prefix, params, salt, hash);
    }
  }

  lemma SplitEncoded(prefix: string, params: string, salt: string, hash: string)
    requires NoDollar(prefix) && NoDollar(params) && NoDollar(salt) && NoDollar(hash)
    ensures Split(Encoded(prefix, params, salt, hash)) == [prefix, "argon2id", "v=19", params, salt, hash]
  {
    hide Split;
    var t4 := salt + "$" + hash;
    var t3 := params + "$" + t4;
    var t2 := "v=19" + "$" + t3;
    SplitLast(hash);
    SplitFirst(salt, hash);
    SplitFirst(params, t4);
    SplitFirst("v=19", t3);
    SplitFirst("argon2id", t2);
    SplitFirst(prefix, "argon2id" + "$" + t2);
  }

  lemma ScanInRange(s: string)
    ensures ScanParams(s).Ok? ==>
              var (m, t, p) := ScanParams(s).value; m <= 0xFFFF_FFFF && t <= 0xFFFF_FFFF && p <= 0xFF
  {
    hide ScanLiteral, SkipSpace, Digits, Number;
  }

  predicate Blanks(s: string) { forall i :: 0 <= i < |s| ==> s[i] == ' ' || s[i] == '\t' || s[i] == '\r' }
  predicate AllDigits(s: string) { forall i :: 0 <= i < |s| ==> IsDigit(s[i]) }

  /** A number is read as it stands, never wrapped: blanks, then digits up to the first other character. */
  lemma ScanUintReads(s: string, limit: nat) returns (blanks: string, digits: string)
    ensures Blanks(blanks) && AllDigits(digits)
    ensures ScanUint(s, limit).Ok? ==>
              var (n, rest) := ScanUint(s, limit).value;
              && s == blanks + digits + rest && n == Number(digits) <= limit && digits != []
              && (rest != [] ==> !IsDigit(rest[0]))
  {
    var t := SkipSpace(s);
    hide SkipSpace, Digits, Number, IsDigit;
    SkipsPrefix(s);
    DigitsPrefix(t);
    DigitsAreDigits(t);
    blanks, digits := s[..|s| - |t|], Digits(t);
    ThreeParts(s, |s| - |t|, |digits|);
  }

  lemma ThreeParts(s: string, k: nat, d: nat)
    requires k <= |s| && d <= |s| - k
    ensures s == s[..k] + s[k..][..d] + s[k..][d..]
  {
  }

  lemma {:induction false} SkipsPrefix(s: string)
    ensures |SkipSpace(s)| <= |s| && SkipSpace(s) == s[|s| - |SkipSpace(s)|..]
    ensures forall i :: 0 <= i < |s| - |SkipSpace(s)| ==> s[i] == ' ' || s[i] == '\t' || s[i] == '\r'
  {
    if s != [] && SkipSpace(s) != s {
      SkipsPrefix(s[1..]);
      var n := |s| - 1 - |SkipSpace(s[1..])|;
      assert s[1..][n..] == s[n + 1..];
      assert forall i :: 1 <= i < |s| ==> s[i] == s[1..][i - 1];
    }
  }

  /** And blanks before a number are skipped. */
  lemma {:induction false} BlanksAreSkipped(blanks: string, n: nat, rest: string, limit: nat)
    requires Blanks(blanks) && n <= limit && (rest == [] || !IsDigit(rest[0]))
    ensures ScanUint(blanks + (Decimal(n) + rest), limit) == Ok((n, rest))
  {
    var text := Decimal(n) + rest;
    if blanks == [] {
      assert blanks + text == text;
      ScanDecimal(n, rest, limit);
    } else {
      BlanksAreSkipped(blanks[1..], n, rest, limit);
      assert (blanks + text)[1..] == blanks[1..] + text;
      hide Decimal, Digits, Number;
      assert SkipSpace(blanks + text) == SkipSpace(blanks[1..] + text);
    }
  }

  lemma {:induction false} DigitsPrefix(s: string)
    ensures |Digits(s)| <= |s| && Digits(s) == s[..|Digits(s)|]
    ensures |Digits(s)| < |s| ==> !IsDigit(s[|Digits(s)|])
  {
    if s != [] && IsDigit(s[0]) {
      DigitsPrefix(s[1..]);
      assert s == [s[0]] + s[1..];
    }
  }

  /** The text that is stored for a new key: 64 MiB, two passes, four lanes, a 32-byte key. */
  lemma StoredText(idKey: Kdf, plaintext: string, salt: seq<Byte>)
    ensures Hash(idKey, plaintext, salt) ==
            Encoded("", "m=65536,t=2,p=4", Encode(salt), Encode(idKey(plaintext, salt, 2, 65536, 4, 32)))
  {
    Constants();
    hide Decimal, Encode, Decode;
    assert PrintParams(65536, 2, 4) == "m=65536,t=2,p=4";
  }

  lemma Constants()
    ensures Decimal(65536) == "65536" && Decimal(2) == "2" && Decimal(4) == "4"
  {
    assert Decimal(6) == "6";
    assert Decimal(65) == "65";
    assert Decimal(655) == "655";
    assert Decimal(6553) == "6553";
  }
}
