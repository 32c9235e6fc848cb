/**
 * The one-time-password service behind the wallet's e-mail check: `sendOtp`
 * draws a six-digit code, remembers it against the e-mail address and mails
 * it; `verifyOtp` accepts a code once, when it reads as the number
 * remembered for that address.
 */
module OtpService {
  import opened Wrappers
  import opened Text

  const LowestOtp := 100000
  const OtpRange := 900000

  /** `generateOTP`, with `draw` the whole part of `Math.random() * 900000`. */
  function GenerateOtp(draw: int): (otp: nat)
    requires 0 <= draw < OtpRange
    ensures LowestOtp <= otp < LowestOtp + OtpRange
    ensures |NatToString(otp)| == 6
  {
    var otp := LowestOtp + draw;
    NumeralLength(otp, 5);
    otp
  }

  function Pow10(k: nat): (p: nat)
    ensures p >= 1
  {
    if k == 0 then 1 else 10 * Pow10(k - 1)
  }

  /** A number with k + 1 digits is written with k + 1 characters. */
  lemma {:induction false} NumeralLength(n: nat, k: nat)
    requires Pow10(k) <= n < Pow10(k + 1)
    ensures |NatToString(n)| == k + 1
  {
    if k > 0 {
      assert Pow10(k) == 10 * Pow10(k - 1);
      assert Pow10(k - 1) <= n / 10 < Pow10(k);
      NumeralLength(n / 10, k - 1);
    }
  }

  // ------------------------------------------------------------- parseInt

  /** The longest prefix of `s` whose characters all satisfy `p`. */
  function LongestPrefix(s: string, p: char -> bool): (r: string)
    ensures r <= s
    ensures forall i :: 0 <= i < |r| ==> p(r[i])
    ensures |r| < |s| ==> !p(s[|r|])
  {
    if s != [] && p(s[0]) then [s[0]] + LongestPrefix(s[1..], p) else []
  }

  predicate IsHexDigit(c: char) {
    HexValue(c).Some?
  }

  function HexDigitsValue(s: string): nat
    requires forall i :: 0 <= i < |s| ==> IsHexDigit(s[i])
  {
    if s == [] then 0
    else
      assert IsHexDigit(s[|s| - 1]);
      HexDigitsValue(s[..|s| - 1]) * 16 + HexValue(s[|s| - 1]).value
  }

  predicate HexPrefixed(s: string) {
    |s| >= 2 && s[0] == '0' && (s[1] == 'x' || s[1] == 'X')
  }

  /** The value of the digits `s` starts with, in base 16 or base 10;
      `None` (NaN) when it starts with none. */
  function Magnitude(s: string, hex: bool): (r: Option<nat>) {
    if hex then
      var digits := LongestPrefix(s, IsHexDigit);
      if digits == [] then None else Some(HexDigitsValue(digits))
    else
      var digits := LongestPrefix(s, IsDigit);
      if digits == [] then None else Some(DigitsValue(digits))
  }

  /** An optional leading sign: whether it is `-`, and what follows it. */
  function SplitSign(t: string): (bool, string) {
    if t != [] && (t[0] == '-' || t[0] == '+') then (t[0] == '-', t[1..]) else (false, t)
  }

  /** `parseInt(text)` with no radix: leading white space skipped, an
      optional sign, a `0x` prefix switching to base 16, then the longest
      run of digits; `None` stands for NaN. */
  function ParseInt(text: string): Option<int> {
    var (negative, unsigned) := SplitSign(TrimStart(text));
    var hex := HexPrefixed(unsigned);
    match Magnitude(if hex then unsigned[2..] else unsigned, hex)
    case None => None
    case Some(m) =>
      var value: int := if negative then -(m as int) else m;
      Some(value)
  }

  /** The numeral of `n`, after any white space and before anything that
      cannot continue it, reads as `n`: the code as mailed, as typed into
      the wallet's boxes, or with stray spaces, is read back. */
  lemma NumeralParses(spaces: string, n: nat, rest: string)
    requires forall i :: 0 <= i < |spaces| ==> IsSpace(spaces[i])
    requires rest == [] || (!IsDigit(rest[0]) && rest[0] != 'x' && rest[0] != 'X')
    ensures ParseInt(spaces + NatToString(n) + rest) == Some(n)
  {
    var numeral := NatToString(n);
    var t := numeral + rest;
    LeadingSpacesSkipped(spaces, t);
    assert spaces + numeral + rest == spaces + t;
    NumeralNotHex(numeral, rest);
    DecimalMagnitude(numeral, rest);
    UnsignedDecimal(spaces + t, t);
    NatToStringValue(n);
  }

  lemma NumeralNotHex(numeral: string, rest: string)
    requires AllDigits(numeral) && numeral != []
    requires rest == [] || (rest[0] != 'x' && rest[0] != 'X')
    ensures var t := numeral + rest; t != [] && IsDigit(t[0]) && !HexPrefixed(t)
  {
    var t := numeral + rest;
    assert t[0] == numeral[0];
    if |numeral| == 1 {
      if rest != [] {
        assert t[1] == rest[0];
      }
    } else {
      assert t[1] == numeral[1];
    }
  }

  /** Text that, past its white space, starts with a decimal digit and no
      `0x`, reads as its decimal magnitude. */
  lemma UnsignedDecimal(text: string, t: string)
    requires TrimStart(text) == t && t != [] && IsDigit(t[0]) && !HexPrefixed(t)
    ensures ParseInt(text) == match Magnitude(t, false) case None => None case Some(m) => Some(m as int)
  {
    assert SplitSign(t) == (false, t);
  }

  lemma DecimalMagnitude(numeral: string, rest: string)
    requires AllDigits(numeral) && numeral != []
    requires rest == [] || !IsDigit(rest[0])
    ensures Magnitude(numeral + rest, false) == Some(DigitsValue(numeral))
  {
    DigitsPrefix(numeral, rest);
  }

  lemma {:induction false} LeadingSpacesSkipped(spaces: string, s: string)
    requires forall i :: 0 <= i < |spaces| ==> IsSpace(spaces[i])
    requires s == [] || !IsSpace(s[0])
    ensures TrimStart(spaces + s) == s
  {
    if spaces != [] {
      assert (spaces + s)[1..] == spaces[1..] + s;
      LeadingSpacesSkipped(spaces[1..], s);
    }
  }

  lemma {:induction false} DigitsPrefix(digits: string, rest: string)
    requires AllDigits(digits)
    requires rest == [] || !IsDigit(rest[0])
    ensures LongestPrefix(digits + rest, IsDigit) == digits
  {
    if digits != [] {
      assert (digits + rest)[1..] == digits[1..] + rest;
      DigitsPrefix(digits[1..], rest);
    }
  }

  // ---------------------------------------------------------------- store

  /** `otpStore[email] && otpStore[email] === parseInt(otp)`. */
  predicate Accepts(otps: map<string, int>, email: string, otp: string) {
    email in otps && otps[email] != 0 && ParseInt(otp) == Some(otps[email])
  }

  /** The shared `otpStore`: the code last sent to each address and not yet
      used. */
  class OtpStore {
    var otps: map<string, int>

    ghost predicate Valid()
      reads this
    {
      forall email :: email in otps ==> LowestOtp <= otps[email] < LowestOtp + OtpRange
    }

    constructor ()
      ensures otps == map[] && Valid()
    {
      otps := map[];
    }

    /** `POST /api/otpService/sendOtp`. `draw` is the random draw and
        `mailed` whether the mail went out. The code is stored before the
        mail is sent, so it stays stored when sending fails. */
    method SendOtp(email: string, draw: int, mailed: bool) returns (status: int)
      requires 0 <= draw < OtpRange
      requires Valid()
      modifies this
      ensures Valid()
      ensures email == "" ==> status == 400 && otps == old(otps)
      ensures email != "" ==> otps == old(otps)[email := GenerateOtp(draw)]
      ensures email != "" ==> status == (if mailed then 200 else 500)
    {
      if email == "" {
        return 400;
      }
      var otp := GenerateOtp(draw);
      otps := otps[email := otp];
      if !mailed {
        return 500;
      }
      return 200;
    }

    /** `POST /api/otpService/verifyOtp`: 200 and the code forgotten when it
        matches, 400 otherwise. */
    method VerifyOtp(email: string, otp: string) returns (status: int)
      requires Valid()
      modifies this
      ensures Valid()
      ensures email == "" || otp == "" ==> status == 400 && otps == old(otps)
      ensures email != "" && otp != "" ==>
        (status == 200 <==> Accepts(old(otps), email, otp))
      ensures status == 200 || status == 400
      ensures status == 200 ==> otps == old(otps) - {email}
      ensures status != 200 ==> otps == old(otps)
    {
      if email == "" || otp == "" {
        return 400;
      }
      if Accepts(otps, email, otp) {
        otps := otps - {email};
        return 200;
      }
      return 400;
    }
  }

  /** The code just sent to an address verifies, as mailed, and only
      once: after it is accepted the same code is refused. */
  lemma SentCodeAcceptedOnce(otps: map<string, int>, email: string, draw: int)
    requires 0 <= draw < OtpRange
    ensures var code := GenerateOtp(draw);
      Accepts(otps[email := code], email, NatToString(code))
      && !Accepts(otps[email := code] - {email}, email, NatToString(code))
  {
    NumeralParses([], GenerateOtp(draw), []);
    assert [] + NatToString(GenerateOtp(draw)) + [] == NatToString(GenerateOtp(draw));
  }
}
