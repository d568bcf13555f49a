/** `encodeURIComponent` and its inverse `decodeURIComponent`, as section
    19.2.6 of ECMA-262 defines them: every character outside the unreserved set
    is written as the UTF-8 octets of its code point, each octet as `%XX`
    (section 2.1 of RFC 3986, upper-case hexadecimal). A Dafny `char` is a
    Unicode scalar value, so a character above U+FFFF stands for the surrogate
    pair a JavaScript string would hold, and it is encoded to the same four
    octets. */
module UriComponent {
  import opened Wrappers

  /** The characters `encodeURIComponent` leaves as they are. */
  predicate IsUnreserved(c: char) {
    ('A' <= c <= 'Z') || ('a' <= c <= 'z') || ('0' <= c <= '9') ||
    c == '-' || c == '_' || c == '.' || c == '!' || c == '~' ||
    c == '*' || c == '\'' || c == '(' || c == ')'
  }

  /** The characters an encoded string is made of. */
  predicate IsEncodedChar(c: char) {
    IsUnreserved(c) || c == '%'
  }

  /** Upper-case hexadecimal digit for `d`. */
  function HexDigit(d: nat): (c: char)
    requires d < 16
    ensures IsUnreserved(c)
  {
    if d < 10 then (48 + d) as char else (55 + d) as char
  }

  /** Value of a hexadecimal digit, either case. */
  function HexValue(c: char): Option<nat> {
    if '0' <= c <= '9' then Some(c as int - 48)
    else if 'A' <= c <= 'F' then Some(c as int - 55)
    else if 'a' <= c <= 'f' then Some(c as int - 87)
    else None
  }

  lemma HexRoundTrip(d: nat)
    requires d < 16
    ensures HexValue(HexDigit(d)) == Some(d)
  {
  }

  /** One octet as `%XX`. */
  function Escape(b: nat): (r: string)
    requires b < 256
    ensures |r| == 3 && r[0] == '%'
  {
    ['%', HexDigit(b / 16), HexDigit(b % 16)]
  }

  /** The UTF-8 octets of a code point (section 3 of RFC 3629). */
  function Utf8(c: char): (bs: seq<nat>)
    ensures 1 <= |bs| <= 4
    ensures forall i :: 0 <= i < |bs| ==> bs[i] < 256
  {
    var n := c as int;
    if n < 0x80 then [n]
    else if n < 0x800 then [0xC0 + n / 64, 0x80 + n % 64]
    else if n < 0x10000 then [0xE0 + n / 4096, 0x80 + (n / 64) % 64, 0x80 + n % 64]
    else [0xF0 + n / 262144, 0x80 + (n / 4096) % 64, 0x80 + (n / 64) % 64, 0x80 + n % 64]
  }

  /** Every octet of a sequence written as `%XX`. */
  function EscapeAll(bs: seq<nat>): (r: string)
    requires forall i :: 0 <= i < |bs| ==> bs[i] < 256
    ensures |r| == 3 * |bs|
    decreases |bs|
  {
    if bs == [] then [] else Escape(bs[0]) + EscapeAll(bs[1..])
  }

  /** The encoding of a single character. */
  function EncodeChar(c: char): (r: string)
  {
    if IsUnreserved(c) then [c] else EscapeAll(Utf8(c))
  }

  /** `encodeURIComponent(s)` */
  function Encode(s: string): (r: string)
    ensures forall i :: 0 <= i < |r| ==> IsEncodedChar(r[i])
    ensures |r| >= |s|
    ensures |r| == |s| <==> forall i :: 0 <= i < |s| ==> IsUnreserved(s[i])
    ensures |r| == |s| ==> r == s
    decreases |s|
  {
    if s == [] then []
    else
      var head := EncodeChar(s[0]);
      assert forall i :: 0 <= i < |head| ==> IsEncodedChar(head[i]) by {
        if !IsUnreserved(s[0]) { EscapeAllChars(Utf8(s[0])); }
      }
      assert IsUnreserved(s[0]) <==> |head| == 1;
      assert (forall i :: 0 <= i < |s| ==> IsUnreserved(s[i])) <==>
             IsUnreserved(s[0]) && forall i :: 0 <= i < |s[1..]| ==> IsUnreserved(s[1..][i]) by {
        assert forall i :: 1 <= i < |s| ==> s[i] == s[1..][i - 1];
      }
      assert IsUnreserved(s[0]) && s[1..] == Encode(s[1..]) ==> [s[0]] + s[1..] == s;
      head + Encode(s[1..])
  }

  lemma {:induction false} EscapeAllChars(bs: seq<nat>)
    requires forall i :: 0 <= i < |bs| ==> bs[i] < 256
    ensures forall i :: 0 <= i < |EscapeAll(bs)| ==> IsEncodedChar(EscapeAll(bs)[i])
    decreases |bs|
  {
    if bs != [] { EscapeAllChars(bs[1..]); }
  }

  // ---------------------------------------------------------------------
  // decodeURIComponent

  /** The octet written as `%XX` at index `k` of `s`, if there is one. */
  function OctetAt(s: string, k: nat): (r: Option<nat>)
    ensures r.Some? ==> r.value < 256
  {
    if k + 3 <= |s| && s[k] == '%' && HexValue(s[k + 1]).Some? && HexValue(s[k + 2]).Some?
    then Some(16 * HexValue(s[k + 1]).value + HexValue(s[k + 2]).value)
    else None
  }

  predicate IsContinuation(b: nat) { 0x80 <= b < 0xC0 }

  /** A code point that is a Unicode scalar value, and so a `char`. */
  predicate IsScalar(n: int) {
    (0 <= n < 0xD800) || (0xE000 <= n < 0x110000)
  }

  /** The escape sequence at the head of `s` (which starts with `%`) decoded to
      one character, with the number of characters it spans; `None` is the
      `URIError` of the standard (a malformed escape, a bad continuation octet,
      an overlong form, a surrogate or a code point above U+10FFFF). */
  function DecodeEscape(s: string): (r: Option<(char, nat)>)
    ensures r.Some? ==> 3 <= r.value.1 <= |s|
  {
    match OctetAt(s, 0)
    case None => None
    case Some(b0) =>
      if b0 < 0x80 then Some((b0 as char, 3))
      else if 0xC0 <= b0 < 0xE0 then
        match OctetAt(s, 3)
        case Some(b1) =>
          if IsContinuation(b1) then
            var n := (b0 - 0xC0) * 64 + (b1 - 0x80);
            if 0x80 <= n then Some((n as char, 6)) else None
          else None
        case None => None
      else if 0xE0 <= b0 < 0xF0 then
        match (OctetAt(s, 3), OctetAt(s, 6))
        case (Some(b1), Some(b2)) =>
          if IsContinuation(b1) && IsContinuation(b2) then
            var n := (b0 - 0xE0) * 4096 + (b1 - 0x80) * 64 + (b2 - 0x80);
            if 0x800 <= n && IsScalar(n) then Some((n as char, 9)) else None
          else None
        case _ => None
      else if 0xF0 <= b0 < 0xF8 then
        match (OctetAt(s, 3), OctetAt(s, 6), OctetAt(s, 9))
        case (Some(b1), Some(b2), Some(b3)) =>
          if IsContinuation(b1) && IsContinuation(b2) && IsContinuation(b3) then
            var n := (b0 - 0xF0) * 262144 + (b1 - 0x80) * 4096 + (b2 - 0x80) * 64 + (b3 - 0x80);
            if 0x10000 <= n < 0x110000 then Some((n as char, 12)) else None
          else None
        case _ => None
      else None
  }

  /** `decodeURIComponent(s)`; `None` is a `URIError`. */
  function Decode(s: string): (r: Option<string>)
    ensures r.Some? ==> |r.value| <= |s|
    ensures '%' !in s ==> r == Some(s)
    decreases |s|
  {
    if s == [] then Some([])
    else if s[0] != '%' then
      assert '%' !in s ==> '%' !in s[1..] && s == [s[0]] + s[1..];
      match Decode(s[1..])
      case Some(t) => Some([s[0]] + t)
      case None => None
    else
      match DecodeEscape(s)
      case None => None
      case Some((c, n)) =>
        match Decode(s[n..])
        case Some(t) => Some([c] + t)
        case None => None
  }

  // ---------------------------------------------------------------------
  // Round trip

  lemma EscapeOctet(b: nat, rest: string)
    requires b < 256
    ensures OctetAt(Escape(b) + rest, 0) == Some(b)
  {
    HexRoundTrip(b / 16);
    HexRoundTrip(b % 16);
  }

  /** Reading the octets back out of their escapes. */
  lemma {:induction false} OctetsOfEscapeAll(bs: seq<nat>, rest: string, k: nat)
    requires forall i :: 0 <= i < |bs| ==> bs[i] < 256
    requires k < |bs|
    ensures OctetAt(EscapeAll(bs) + rest, 3 * k) == Some(bs[k])
    decreases k
  {
    var s := EscapeAll(bs) + rest;
    var tail := EscapeAll(bs[1..]) + rest;
    assert s == Escape(bs[0]) + tail;
    if k == 0 {
      EscapeOctet(bs[0], tail);
    } else {
      OctetsOfEscapeAll(bs[1..], rest, k - 1);
      assert s[3 * k..] == tail[3 * (k - 1)..];
      OctetShift(s, 3 * k);
      OctetShift(tail, 3 * (k - 1));
    }
  }

  /** An octet depends only on the characters from its index on. */
  lemma OctetShift(s: string, k: nat)
    requires k <= |s|
    ensures OctetAt(s, k) == OctetAt(s[k..], 0)
  {
  }

  /** A two-octet sequence decodes to its code point. */
  lemma DecodeTwoOctets(s: string, n: int)
    requires 0x80 <= n < 0x800
    requires OctetAt(s, 0) == Some(0xC0 + n / 64) && OctetAt(s, 3) == Some(0x80 + n % 64)
    ensures DecodeEscape(s) == Some((n as char, 6))
  {
  }

  /** A three-octet sequence decodes to its code point. */
  lemma DecodeThreeOctets(s: string, n: int)
    requires 0x800 <= n < 0x10000 && IsScalar(n)
    requires OctetAt(s, 0) == Some(0xE0 + n / 4096)
    requires OctetAt(s, 3) == Some(0x80 + (n / 64) % 64) && OctetAt(s, 6) == Some(0x80 + n % 64)
    ensures DecodeEscape(s) == Some((n as char, 9))
  {
    Recompose3(n);
  }

  /** A four-octet sequence decodes to its code point. */
  lemma DecodeFourOctets(s: string, n: int)
    requires 0x10000 <= n < 0x110000
    requires OctetAt(s, 0) == Some(0xF0 + n / 262144) && OctetAt(s, 3) == Some(0x80 + (n / 4096) % 64)
    requires OctetAt(s, 6) == Some(0x80 + (n / 64) % 64) && OctetAt(s, 9) == Some(0x80 + n % 64)
    ensures DecodeEscape(s) == Some((n as char, 12))
  {
    Recompose4(n);
  }

  /** Decoding the escapes of one character gives that character back. */
  lemma DecodeEscapedChar(c: char, rest: string)
    requires !IsUnreserved(c)
    ensures DecodeEscape(EncodeChar(c) + rest) == Some((c, |EncodeChar(c)|))
  {
    var bs := Utf8(c);
    var s := EncodeChar(c) + rest;
    var n := c as int;
    forall k | 0 <= k < |bs| ensures OctetAt(s, 3 * k) == Some(bs[k]) {
      OctetsOfEscapeAll(bs, rest, k);
    }
    assert OctetAt(s, 0) == Some(bs[0]);
    if n < 0x80 {
    } else if n < 0x800 {
      assert OctetAt(s, 3) == Some(bs[1]);
      DecodeTwoOctets(s, n);
    } else if n < 0x10000 {
      assert OctetAt(s, 3) == Some(bs[1]);
      assert OctetAt(s, 6) == Some(bs[2]);
      DecodeThreeOctets(s, n);
    } else {
      assert OctetAt(s, 3) == Some(bs[1]);
      assert OctetAt(s, 6) == Some(bs[2]);
      assert OctetAt(s, 9) == Some(bs[3]);
      DecodeFourOctets(s, n);
    }
  }

  lemma Recompose3(n: int)
    requires 0x800 <= n < 0x10000
    ensures (n / 4096) * 4096 + ((n / 64) % 64) * 64 + n % 64 == n
  {
  }

  lemma Recompose4(n: int)
    requires 0x10000 <= n < 0x110000
    ensures (n / 262144) * 262144 + ((n / 4096) % 64) * 4096 + ((n / 64) % 64) * 64 + n % 64 == n
  {
  }

  /** Decoding an encoded character in front of `rest`. */
  lemma DecodeEncodedChar(c: char, rest: string)
    ensures Decode(EncodeChar(c) + rest) ==
              match Decode(rest)
              case Some(t) => Some([c] + t)
              case None => None
  {
    var e := EncodeChar(c) + rest;
    if IsUnreserved(c) {
      assert e[0] == c && e[1..] == rest;
    } else {
      DecodeEscapedChar(c, rest);
      var bs := Utf8(c);
      assert EncodeChar(c) == Escape(bs[0]) + EscapeAll(bs[1..]);
      assert e[0] == '%';
      assert e[|EncodeChar(c)|..] == rest;
    }
  }

  /** `decodeURIComponent(encodeURIComponent(s)) == s`, for every string. */
  lemma {:induction false} DecodeEncode(s: string)
    ensures Decode(Encode(s)) == Some(s)
    decreases |s|
  {
    if s != [] {
      DecodeEncode(s[1..]);
      DecodeEncodedChar(s[0], Encode(s[1..]));
      assert Encode(s) == EncodeChar(s[0]) + Encode(s[1..]);
      assert s == [s[0]] + s[1..];
    }
  }
}
