/** The parts of Go's strconv, fmt, strings and encoding/base64 that the cursors and signed links rely on.
    A Go string is a sequence of bytes: here a string whose characters are below 256. */
module Text {
  import opened Wrappers

  predicate InInt64(n: int) {
    -0x8000_0000_0000_0000 <= n < 0x8000_0000_0000_0000
  }

  predicate IsBytes(s: string) {
    forall i :: 0 <= i < |s| ==> s[i] as int < 256
  }

  // ---- decimal numbers ----

  predicate IsDigit(c: char) { 48 <= c as int <= 57 }

  function FormatNat(n: nat): (s: string)
    ensures s != "" && forall i :: 0 <= i < |s| ==> IsDigit(s[i])
  {
    if n < 10 then [(48 + n) as char] else FormatNat(n / 10) + [(48 + n % 10) as char]
  }

  /** strconv.FormatInt(n, 10) and "%d". */
  function FormatInt(n: int): string {
    if n < 0 then "-" + FormatNat(-n) else FormatNat(n)
  }

  function DigitsValue(s: string): nat
    requires forall i :: 0 <= i < |s| ==> IsDigit(s[i])
  {
    if s == "" then 0
    else
      assert IsDigit(s[|s| - 1]);
      DigitsValue(s[..|s| - 1]) * 10 + (s[|s| - 1] as int - 48)
  }

  function LeadingDigits(s: string): (n: nat)
    ensures n <= |s| && forall i :: 0 <= i < n ==> IsDigit(s[i])
    ensures n < |s| ==> !IsDigit(s[n])
  {
    if s != "" && IsDigit(s[0]) then 1 + LeadingDigits(s[1..]) else 0
  }

  function Signed(negative: bool, digits: string): Option<int>
    requires forall i :: 0 <= i < |digits| ==> IsDigit(digits[i])
  {
    var n := DigitsValue(digits);
    var v: int := if negative then 0 - n else n;
    if digits != "" && InInt64(v) then Some(v) else None
  }

  /** strconv.ParseInt(s, 10, 64): the whole text, nothing else. */
  function ParseInt(s: string): Option<int> {
    var signed := s != "" && (s[0] == '-' || s[0] == '+');
    var digits := if signed then s[1..] else s;
    if LeadingDigits(digits) == |digits| then Signed(signed && s[0] == '-', digits) else None
  }

  /** fmt.Sscanf(s, "%d", &n): leading blanks are skipped and what follows the number is ignored. */
  function ScanInt(s: string): Option<int> {
    if s != "" && s[0] in " \t" then ScanInt(s[1..])
    else
      var signed := s != "" && (s[0] == '-' || s[0] == '+');
      var rest := if signed then s[1..] else s;
      Signed(signed && s[0] == '-', rest[..LeadingDigits(rest)])
  }

  lemma {:induction false} FormatNatValue(n: nat)
    ensures DigitsValue(FormatNat(n)) == n
  {
    if n >= 10 {
      FormatNatValue(n / 10);
      var s := FormatNat(n);
      assert s[..|s| - 1] == FormatNat(n / 10);
    } else {
      assert FormatNat(n)[..0] == "";
    }
  }

  lemma {:induction false} AllDigitsLead(s: string)
    requires forall i :: 0 <= i < |s| ==> IsDigit(s[i])
    ensures LeadingDigits(s) == |s|
  {
    if s != "" {
      AllDigitsLead(s[1..]);
    }
  }

  /** Printing and reading a 64-bit number is the identity, for both readers. */
  lemma DecimalRoundTrip(n: int)
    requires InInt64(n)
    ensures ParseInt(FormatInt(n)) == Some(n)
    ensures ScanInt(FormatInt(n)) == Some(n)
  {
    var digits := FormatNat(if n < 0 then -n else n);
    FormatNatValue(if n < 0 then -n else n);
    AllDigitsLead(digits);
    assert digits[..|digits|] == digits;
    assert n < 0 ==> FormatInt(n)[1..] == digits;
  }

  /** Different numbers are printed differently. */
  lemma FormatIntInjective(m: int, n: int)
    ensures FormatInt(m) == FormatInt(n) <==> m == n
  {
    FormatNatValue(if m < 0 then -m else m);
    FormatNatValue(if n < 0 then -n else n);
    if FormatInt(m) == FormatInt(n) {
      assert m < 0 <==> FormatInt(m)[0] == '-';
      assert n < 0 <==> FormatInt(n)[0] == '-';
      assert m < 0 ==> FormatNat(-m) == FormatInt(m)[1..] == FormatNat(-n);
    }
  }

  predicate IsDecimal(s: string) {
    forall i :: 0 <= i < |s| ==> IsDigit(s[i]) || s[i] == '-'
  }

  lemma FormatIntIsDecimal(n: int)
    ensures FormatInt(n) != "" && IsDecimal(FormatInt(n))
  {
  }

  // ---- splitting ----

  /** Where `c` first occurs, |s| when it does not. */
  function IndexOf(s: string, c: char): (i: nat)
    ensures i <= |s| && (i < |s| ==> s[i] == c)
    ensures forall j :: 0 <= j < i ==> s[j] != c
  {
    if s == "" || s[0] == c then 0 else 1 + IndexOf(s[1..], c)
  }

  /** strings.SplitN(s, c, 2), None when the separator is missing. */
  function Cut(s: string, c: char): Option<(string, string)> {
    var i := IndexOf(s, c);
    if i < |s| then Some((s[..i], s[i + 1..])) else None
  }

  lemma CutJoined(a: string, c: char, b: string)
    requires c !in a
    ensures Cut(a + [c] + b, c) == Some((a, b))
  {
    var s := a + [c] + b;
    assert s[|a|] == c;
    assert forall j :: 0 <= j < |a| ==> s[j] == a[j];
    assert IndexOf(s, c) == |a|;
    assert s[..|a|] == a && s[|a| + 1..] == b;
  }

  // ---- white space ----

  predicate IsSpace(c: char) {
    c as int == 32 || 9 <= c as int <= 13
  }

  function TrimLeft(s: string): string {
    if s != "" && IsSpace(s[0]) then TrimLeft(s[1..]) else s
  }

  function TrimRight(s: string): string {
    if s != "" && IsSpace(s[|s| - 1]) then TrimRight(s[..|s| - 1]) else s
  }

  /** strings.TrimSpace. */
  function TrimSpace(s: string): string {
    TrimRight(TrimLeft(s))
  }

  /** Nothing to trim. */
  predicate IsTrimmed(s: string) {
    s == "" || (!IsSpace(s[0]) && !IsSpace(s[|s| - 1]))
  }

  /** The number of white-space characters a text begins with. */
  function LeftBlanks(s: string): (n: nat)
    ensures n <= |s| && (n < |s| ==> !IsSpace(s[n]))
    ensures forall i :: 0 <= i < n ==> IsSpace(s[i])
  {
    if s != "" && IsSpace(s[0]) then 1 + LeftBlanks(s[1..]) else 0
  }

  lemma {:induction false} TrimLeftFacts(s: string)
    ensures TrimLeft(s) == s[LeftBlanks(s)..]
  {
    if s != "" && IsSpace(s[0]) {
      TrimLeftFacts(s[1..]);
    }
  }

  lemma {:induction false} TrimRightFacts(s: string)
    ensures TrimRight(s) == "" || !IsSpace(TrimRight(s)[|TrimRight(s)| - 1])
    ensures TrimRight(s) <= s
    ensures forall i :: |TrimRight(s)| <= i < |s| ==> IsSpace(s[i])
  {
    if s != "" && IsSpace(s[|s| - 1]) {
      TrimRightFacts(s[..|s| - 1]);
    }
  }

  /** TrimSpace removes white space at both ends and nothing else; it keeps a text exactly if there
      is nothing to trim. */
  lemma TrimSpaceFacts(s: string)
    ensures IsTrimmed(TrimSpace(s))
    ensures TrimSpace(s) == s <==> IsTrimmed(s)
  {
    TrimLeftFacts(s);
    TrimRightFacts(TrimLeft(s));
    var t := TrimSpace(s);
    if t != "" {
      assert t[0] == TrimLeft(s)[0];
    }
  }

  // ---- URL-safe base64 ----

  function Char64(v: nat): (c: char)
    requires v < 64
    ensures Value64(c) == v
  {
    if v < 26 then (65 + v) as char
    else if v < 52 then (71 + v) as char
    else if v < 62 then (v - 4) as char
    else if v == 62 then '-'
    else '_'
  }

  predicate Is64(c: char) {
    Value64(c) < 64
  }

  /** 64 for a character outside the alphabet. */
  function Value64(c: char): (v: nat)
    ensures v <= 64
  {
    var n := c as int;
    if 65 <= n <= 90 then n - 65
    else if 97 <= n <= 122 then n - 71
    else if 48 <= n <= 57 then n + 4
    else if c == '-' then 62
    else if c == '_' then 63
    else 64
  }

  function ByteAt(s: string, i: nat): (b: nat)
    ensures b < 256
  {
    if i < |s| then s[i] as int % 256 else 0
  }

  /** The four characters that stand for up to three bytes. */
  function Quartet(s: string): (q: string)
    ensures |q| == 4 && forall i :: 0 <= i < 4 ==> Is64(q[i])
  {
    var b0, b1, b2 := ByteAt(s, 0), ByteAt(s, 1), ByteAt(s, 2);
    [Char64(b0 / 4), Char64(b0 % 4 * 16 + b1 / 16), Char64(b1 % 16 * 4 + b2 / 64), Char64(b2 % 64)]
  }

  /** base64.URLEncoding when `pad`, base64.RawURLEncoding otherwise. */
  function Encode64(s: string, pad: bool): string {
    if s == "" then ""
    else if |s| == 1 then Quartet(s)[..2] + if pad then "==" else ""
    else if |s| == 2 then Quartet(s)[..3] + if pad then "=" else ""
    else Quartet(s) + Encode64(s[3..], pad)
  }

  function Triple(v0: nat, v1: nat, v2: nat, v3: nat): (t: string)
    requires v0 < 64 && v1 < 64 && v2 < 64 && v3 < 64
    ensures |t| == 3
  {
    [(v0 * 4 + v1 / 16) as char, (v1 % 16 * 16 + v2 / 4) as char, (v2 % 4 * 64 + v3) as char]
  }

  /** Go's decoder drops line breaks anywhere in its input. */
  function WithoutBreaks(s: string): string {
    if s == "" then ""
    else (if s[0] == '\n' || s[0] == '\r' then "" else [s[0]]) + WithoutBreaks(s[1..])
  }

  function Decode64(s: string, pad: bool): Option<string> {
    DecodeQuartets(WithoutBreaks(s), pad)
  }

  function DecodeQuartets(s: string, pad: bool): Option<string> {
    if s == "" then Some("")
    else if pad && |s| == 4 && Is64(s[0]) && Is64(s[1]) && s[2..] == "==" then
      Some(Triple(Value64(s[0]), Value64(s[1]), 0, 0)[..1])
    else if pad && |s| == 4 && Is64(s[0]) && Is64(s[1]) && Is64(s[2]) && s[3] == '=' then
      Some(Triple(Value64(s[0]), Value64(s[1]), Value64(s[2]), 0)[..2])
    else if !pad && |s| == 2 && Is64(s[0]) && Is64(s[1]) then
      Some(Triple(Value64(s[0]), Value64(s[1]), 0, 0)[..1])
    else if !pad && |s| == 3 && Is64(s[0]) && Is64(s[1]) && Is64(s[2]) then
      Some(Triple(Value64(s[0]), Value64(s[1]), Value64(s[2]), 0)[..2])
    else if |s| >= 4 && Is64(s[0]) && Is64(s[1]) && Is64(s[2]) && Is64(s[3]) then
      match DecodeQuartets(s[4..], pad)
      case None => None
      case Some(rest) => Some(Triple(Value64(s[0]), Value64(s[1]), Value64(s[2]), Value64(s[3])) + rest)
    else None
  }

  lemma QuartetValues(s: string)
    ensures
      var q, b0, b1, b2 := Quartet(s), ByteAt(s, 0), ByteAt(s, 1), ByteAt(s, 2);
      && Value64(q[0]) == b0 / 4
      && Value64(q[1]) == b0 % 4 * 16 + b1 / 16
      && Value64(q[2]) == b1 % 16 * 4 + b2 / 64
      && Value64(q[3]) == b2 % 64
  {
  }

  lemma SextetsOfBytes(b0: nat, b1: nat, b2: nat)
    requires b0 < 256 && b1 < 256 && b2 < 256
    ensures b0 / 4 * 4 + (b0 % 4 * 16 + b1 / 16) / 16 == b0
    ensures (b0 % 4 * 16 + b1 / 16) % 16 * 16 + (b1 % 16 * 4 + b2 / 64) / 4 == b1
    ensures (b1 % 16 * 4 + b2 / 64) % 4 * 64 + b2 % 64 == b2
  {
  }

  lemma SextetsInRange(b0: nat, b1: nat, b2: nat)
    requires b0 < 256 && b1 < 256 && b2 < 256
    ensures b0 / 4 < 64 && b0 % 4 * 16 + b1 / 16 < 64 && b1 % 16 * 4 + b2 / 64 < 64 && b2 % 64 < 64
  {
  }

  lemma TripleOfBytes(b0: nat, b1: nat, b2: nat, v0: nat, v1: nat, v2: nat, v3: nat)
    requires b0 < 256 && b1 < 256 && b2 < 256 && v0 < 64 && v1 < 64 && v2 < 64 && v3 < 64
    requires v0 == b0 / 4 && v1 == b0 % 4 * 16 + b1 / 16 && v2 == b1 % 16 * 4 + b2 / 64 && v3 == b2 % 64
    ensures Triple(v0, v1, v2, v3) == [b0 as char, b1 as char, b2 as char]
  {
    SextetsOfBytes(b0, b1, b2);
  }

  lemma TripleOfValues(s: string, v0: nat, v1: nat, v2: nat, v3: nat)
    requires IsBytes(s) && v0 < 64 && v1 < 64 && v2 < 64 && v3 < 64
    requires v0 == ByteAt(s, 0) / 4 && v1 == ByteAt(s, 0) % 4 * 16 + ByteAt(s, 1) / 16
    requires v2 == ByteAt(s, 1) % 16 * 4 + ByteAt(s, 2) / 64 && v3 == ByteAt(s, 2) % 64
    ensures forall i :: 0 <= i < 3 && i < |s| ==> Triple(v0, v1, v2, v3)[i] == s[i]
  {
    TripleOfBytes(ByteAt(s, 0), ByteAt(s, 1), ByteAt(s, 2), v0, v1, v2, v3);
    BytesAre(s);
  }

  lemma BytesAre(s: string)
    requires IsBytes(s)
    ensures forall i :: 0 <= i < |s| ==> ByteAt(s, i) as char == s[i]
  {
  }

  lemma TripleOfQuartet(s: string)
    requires IsBytes(s)
    ensures
      var q := Quartet(s);
      var t := Triple(Value64(q[0]), Value64(q[1]), Value64(q[2]), Value64(q[3]));
      forall i :: 0 <= i < 3 && i < |s| ==> t[i] == s[i]
  {
    var q := Quartet(s);
    QuartetValues(s);
    SextetsInRange(ByteAt(s, 0), ByteAt(s, 1), ByteAt(s, 2));
    TripleOfValues(s, Value64(q[0]), Value64(q[1]), Value64(q[2]), Value64(q[3]));
  }

  lemma {:induction false} NoBreaks(s: string)
    requires forall i :: 0 <= i < |s| ==> s[i] != '\n' && s[i] != '\r'
    ensures WithoutBreaks(s) == s
  {
    if s != "" {
      NoBreaks(s[1..]);
    }
  }

  lemma {:induction false} EncodedAlphabet(s: string, pad: bool)
    ensures forall i :: 0 <= i < |Encode64(s, pad)| ==> Is64(Encode64(s, pad)[i]) || (pad && Encode64(s, pad)[i] == '=')
    ensures s != "" ==> Encode64(s, pad) != ""
  {
    if |s| >= 3 {
      EncodedAlphabet(s[3..], pad);
    }
  }

  lemma {:induction false} QuartetsRoundTrip(s: string, pad: bool)
    requires IsBytes(s)
    ensures DecodeQuartets(Encode64(s, pad), pad) == Some(s)
  {
    if s != "" {
      TripleOfQuartet(s);
      var q, e := Quartet(s), Encode64(s, pad);
      var v0, v1, v2, v3 := Value64(q[0]), Value64(q[1]), Value64(q[2]), Value64(q[3]);
      assert e[0] == q[0] && e[1] == q[1];
      if |s| == 1 {
        assert Triple(v0, v1, 0, 0)[..1] == s;
      } else if |s| == 2 {
        assert e[2] == q[2];
        assert Triple(v0, v1, v2, 0)[..2] == s;
      } else {
        QuartetsRoundTrip(s[3..], pad);
        assert e[4..] == Encode64(s[3..], pad);
        assert e[2] == q[2] && e[3] == q[3];
        assert s == Triple(v0, v1, v2, v3) + s[3..];
      }
    }
  }

  lemma QuartetText(s: string, v0: nat, v1: nat, v2: nat, v3: nat)
    requires v0 < 64 && v1 < 64 && v2 < 64 && v3 < 64
    requires ByteAt(s, 0) == v0 * 4 + v1 / 16 && ByteAt(s, 1) == v1 % 16 * 16 + v2 / 4
    requires ByteAt(s, 2) == v2 % 4 * 64 + v3
    ensures Quartet(s) == [Char64(v0), Char64(v1), Char64(v2), Char64(v3)]
  {
    assert ByteAt(s, 0) / 4 == v0 && ByteAt(s, 0) % 4 == v1 / 16;
    assert ByteAt(s, 1) / 16 == v1 % 16 && ByteAt(s, 1) % 16 == v2 / 4;
    assert ByteAt(s, 2) / 64 == v2 % 4 && ByteAt(s, 2) % 64 == v3;
  }

  /** Test vectors of section 10 of RFC 4648, and the two characters in which the URL-safe alphabet differs. */
  lemma EncodedVectors()
    ensures Encode64("f", true) == "Zg==" && Encode64("fo", true) == "Zm8=" && Encode64("foo", true) == "Zm9v"
    ensures Encode64("f", false) == "Zg" && Encode64("fo", false) == "Zm8"
    ensures Encode64([251 as char, 255 as char, 191 as char], false) == "-_-_"
  {
    QuartetText("f", 25, 32, 0, 0);
    QuartetText("fo", 25, 38, 60, 0);
    QuartetText("foo", 25, 38, 61, 47);
    QuartetText([251 as char, 255 as char, 191 as char], 62, 63, 62, 63);
  }

  lemma PrintedNumbers()
    ensures FormatInt(0) == "0" && FormatInt(907) == "907" && FormatInt(-45) == "-45"
  {
    assert FormatNat(9) == "9" && FormatNat(90) == "90";
    assert FormatNat(4) == "4";
  }

  /** Decoding inverts encoding on every byte string, with and without padding. */
  lemma Base64RoundTrip(s: string, pad: bool)
    requires IsBytes(s)
    ensures Decode64(Encode64(s, pad), pad) == Some(s)
  {
    EncodedAlphabet(s, pad);
    NoBreaks(Encode64(s, pad));
    QuartetsRoundTrip(s, pad);
  }
}
