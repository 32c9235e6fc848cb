/**
 * The wallet extension popup's own string handling: the masked e-mail shown
 * after an OTP is sent, the OTP assembled from its input boxes, and the
 * hexadecimal rendering of salts and digests.
 */
module WalletPopup {
  import opened Wrappers
  import opened Text

  // --------------------------------------------------------- masked e-mail

  /** The user part as shown: its first character and "***" when it has at
      most three characters, otherwise its first two, "***" and its last two. */
  function MaskUser(user: string): (m: string)
    ensures |user| <= 3 ==> m == user[..if user == [] then 0 else 1] + "***"
    ensures |user| > 3 ==> m == user[..2] + "***" + user[|user| - 2..]
  {
    if |user| <= 3 then user[..if user == [] then 0 else 1] + "***"
    else user[..2] + "***" + user[|user| - 2..]
  }

  /** `maskEmail`: an address that does not split into exactly two parts
      around "@" is shown unchanged. */
  function MaskEmail(email: string): string {
    var parts := Split(email, "@");
    if |parts| != 2 then email else MaskUser(parts[0]) + "@" + parts[1]
  }

  /** An address with exactly one "@" keeps its domain and masks its user. */
  lemma MaskEmailOf(user: string, domain: string)
    requires '@' !in user && '@' !in domain
    ensures MaskEmail(user + "@" + domain) == MaskUser(user) + "@" + domain
  {
    var email := user + "@" + domain;
    SplitCharCount(email, '@');
    assert multiset(email)['@'] == 1 by {
      assert multiset(email) == multiset(user) + multiset{'@'} + multiset(domain);
    }
    assert OccursAt("@", email, |user|) by {
      assert email[|user|..|user| + 1] == "@";
    }
    forall k: nat | k < |user| ensures !OccursAt("@", email, k) {
      assert email[k..k + 1][0] == email[k] == user[k];
    }
    var i := IndexOf(email, "@").value;
    assert email[..i] == user && email[i + 1..] == domain;
    assert Split(email, "@")[0] == user;
    assert Split(email, "@")[1..] == Split(domain, "@");
    JoinSplit(domain, "@");
  }

  /** Any other address is returned as it is. */
  lemma MaskEmailUnchanged(email: string)
    requires multiset(email)['@'] != 1
    ensures MaskEmail(email) == email
  {
    SplitCharCount(email, '@');
  }

  /** A long user part shows four of its characters and hides the rest. */
  lemma MaskHidesMiddle(user: string)
    requires |user| > 3
    ensures |MaskUser(user)| == 7
    ensures MaskUser(user)[2..5] == "***"
  {
  }

  // ------------------------------------------------------------- the OTP

  function TotalLength(boxes: seq<string>): nat {
    if boxes == [] then 0 else |boxes[0]| + TotalLength(boxes[1..])
  }

  /** The code typed into the boxes, read in order; it is sent for checking
      only when it has six characters. */
  function OtpToVerify(boxes: seq<string>): (otp: Option<string>)
    ensures otp.Some? <==> TotalLength(boxes) == 6
    ensures otp.Some? ==> otp.value == Join(boxes, "")
  {
    JoinLength(boxes);
    var otp := Join(boxes, "");
    if |otp| != 6 then None else Some(otp)
  }

  lemma {:induction false} JoinLength(boxes: seq<string>)
    ensures |Join(boxes, "")| == TotalLength(boxes)
  {
    if |boxes| > 1 {
      JoinLength(boxes[1..]);
    } else if |boxes| == 1 {
      assert boxes[1..] == [];
    }
  }

  /** Boxes holding one character each give the code those characters
      spell, in box order; six of them are sent for checking. */
  lemma {:induction false} OneCharacterBoxes(boxes: seq<string>)
    requires forall k :: 0 <= k < |boxes| ==> |boxes[k]| == 1
    ensures Join(boxes, "") == seq(|boxes|, k requires 0 <= k < |boxes| => boxes[k][0])
    ensures |boxes| == 6 ==> OtpToVerify(boxes) == Some(Join(boxes, ""))
  {
    JoinLength(boxes);
    if |boxes| == 1 {
      assert boxes[0] == [boxes[0][0]];
    } else if |boxes| > 1 {
      OneCharacterBoxes(boxes[1..]);
      assert boxes[0] == [boxes[0][0]];
    }
  }

  // ----------------------------------------------------------------- hex

  type Byte = b: int | 0 <= b < 256

  /** `b.toString(16).padStart(2, "0")`. */
  function ByteToHex(b: Byte): (h: string)
    ensures |h| == 2
  {
    var digits := if b < 16 then [HexDigit(b)] else [HexDigit(b / 16), HexDigit(b % 16)];
    if |digits| < 2 then ['0'] + digits else digits
  }

  /** `bytes.map(byteToHex).join("")`. */
  function HexEncode(bytes: seq<Byte>): (h: string)
    ensures |h| == 2 * |bytes|
  {
    if bytes == [] then [] else ByteToHex(bytes[0]) + HexEncode(bytes[1..])
  }

  function HexDecode(h: string): Option<seq<Byte>>
    decreases |h|
  {
    if h == [] then Some([])
    else if |h| == 1 then None
    else match (HexValue(h[0]), HexValue(h[1]), HexDecode(h[2..]))
      case (Some(hi), Some(lo), Some(rest)) => Some([hi * 16 + lo] + rest)
      case _ => None
  }

  /** Every character of the rendering is a lower-case hexadecimal digit. */
  lemma {:induction false} HexEncodeLowerCase(bytes: seq<Byte>)
    ensures forall k :: 0 <= k < |HexEncode(bytes)| ==> IsDigit(HexEncode(bytes)[k]) || 'a' <= HexEncode(bytes)[k] <= 'f'
  {
    if bytes != [] {
      HexEncodeLowerCase(bytes[1..]);
      var h := HexEncode(bytes);
      var first := ByteToHex(bytes[0]);
      forall k | 0 <= k < |h| ensures IsDigit(h[k]) || 'a' <= h[k] <= 'f' {
        if k < 2 {
          assert h[k] == first[k];
        } else {
          assert h[k] == HexEncode(bytes[1..])[k - 2];
        }
      }
    }
  }

  /** Two characters per byte, high digit first: the rendering decodes back
      to the bytes. */
  lemma {:induction false} HexDecodeEncode(bytes: seq<Byte>)
    ensures HexDecode(HexEncode(bytes)) == Some(bytes)
  {
    if bytes != [] {
      var b := bytes[0];
      var h := HexEncode(bytes);
      HexRoundTrip(b / 16);
      HexRoundTrip(b % 16);
      assert h[0] == HexDigit(b / 16) && h[1] == HexDigit(b % 16);
      assert h[2..] == HexEncode(bytes[1..]);
      HexDecodeEncode(bytes[1..]);
      assert [b] + bytes[1..] == bytes;
    }
  }

  /** `hashEmail`: an empty address is refused; otherwise the digest of the
      address, rendered in hexadecimal. */
  function HashEmail(email: string, digest: string -> seq<Byte>): (r: Option<string>)
    ensures r.None? <==> email == []
    ensures r.Some? ==> |r.value| == 2 * |digest(email)| && HexDecode(r.value) == Some(digest(email))
  {
    if email == [] then None
    else
      HexDecodeEncode(digest(email));
      Some(HexEncode(digest(email)))
  }
}
