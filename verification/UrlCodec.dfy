/** UrlEncode and UrlDecode (HttpConnection.cpp), on bytes, for the "C" locale. */
module UrlCodec {
  import opened Bytes

  type Text = seq<Byte>

  const SPACE: Byte := 0x20
  const PERCENT: Byte := 0x25
  const PLUS: Byte := 0x2B

  predicate IsDigit(b: Byte) { '0' as int <= b as int <= '9' as int }
  predicate IsUpper(b: Byte) { 'A' as int <= b as int <= 'Z' as int }
  predicate IsLower(b: Byte) { 'a' as int <= b as int <= 'z' as int }

  /** The bytes UrlEncode copies: the unreserved ones of RFC 3986, section 2.3. */
  predicate Unreserved(b: Byte) {
    || IsDigit(b) || IsUpper(b) || IsLower(b)
    || b as int in {'-' as int, '_' as int, '.' as int, '~' as int}
  }

  /** ToHex, in unsigned char arithmetic. */
  function ToHex(x: Byte): Byte {
    ((x as int + if x > 9 then 55 else 48) % 0x100) as Byte
  }

  /** FromHex; None where its assert fails. It takes every letter, not only A to F. */
  function FromHex(x: Byte): Option<Byte> {
    if IsUpper(x) then Some(x - 'A' as Byte + 10)
    else if IsLower(x) then Some(x - 'a' as Byte + 10)
    else if IsDigit(x) then Some(x - '0' as Byte)
    else None
  }

  predicate UpperHex(x: Byte) {
    IsDigit(x) || 'A' as int <= x as int <= 'F' as int
  }

  lemma HexRoundTrip(x: Byte)
    ensures x < 16 ==> UpperHex(ToHex(x)) && FromHex(ToHex(x)) == Some(x)
    ensures UpperHex(x) ==> FromHex(x).Some? && FromHex(x).value < 16 && ToHex(FromHex(x).value) == x
  {
  }

  /** A letter counts the same in either case, and one more than the letter before it, also
      beyond 'F'; with HexRoundTrip this is the value of every digit. */
  lemma LetterValues(x: Byte)
    ensures 0x61 <= x <= 0x7A ==> FromHex(x) == FromHex(x - 0x20)
    ensures 0x41 <= x < 0x5A ==> FromHex(x + 1) == Some(FromHex(x).value + 1)
    ensures FromHex(0x41) == Some(10)
    ensures FromHex(x).Some? <==> 0x30 <= x <= 0x39 || 0x41 <= x <= 0x5A || 0x61 <= x <= 0x7A
  {
  }

  /** The bytes that are copied, by their codes. */
  lemma UnreservedBytes(b: Byte)
    ensures Unreserved(b) <==>
      0x30 <= b <= 0x39 || 0x41 <= b <= 0x5A || 0x61 <= b <= 0x7A || b in {0x2D, 0x2E, 0x5F, 0x7E}
  {
  }

  // ----- encoding -----

  function EncodeByte(b: Byte): Text {
    if Unreserved(b) then [b]
    else if b == SPACE then [PLUS]
    else [PERCENT, ToHex(b / 16), ToHex(b % 16)]
  }

  function Encoded(s: Text): Text {
    if s == [] then [] else EncodeByte(s[0]) + Encoded(s[1..])
  }

  /** A space becomes a plus sign, an unreserved byte stays, and any other becomes a percent
      sign and the two upper-case digits of its value. */
  lemma EncodesByteByByte(b: Byte, s: Text)
    ensures Encoded([' ' as Byte] + s) == ['+' as Byte] + Encoded(s)
    ensures Unreserved(b) ==> Encoded([b] + s) == [b] + Encoded(s)
    ensures !Unreserved(b) && b != ' ' as Byte ==>
      exists h, l :: UpperHex(h) && UpperHex(l) && Encoded([b] + s) == ['%' as Byte, h, l] + Encoded(s)
        && 16 * FromHex(h).value as int + FromHex(l).value as int == b as int
  {
    assert ([b] + s)[1..] == s && ([' ' as Byte] + s)[1..] == s;
    if !Unreserved(b) && b != ' ' as Byte {
      HexRoundTrip(b / 16);
      HexRoundTrip(b % 16);
      var h, l := ToHex(b / 16), ToHex(b % 16);
      assert Encoded([b] + s) == ['%' as Byte, h, l] + Encoded(s);
      assert UpperHex(h) && UpperHex(l) && 16 * FromHex(h).value as int + FromHex(l).value as int == b as int;
    }
  }

  method UrlEncode(str: Text) returns (strTemp: Text)
    ensures strTemp == Encoded(str) && Decoded(strTemp) == Some(str)
  {
    DecodeEncoded(str);
    strTemp := [];
    assert str[0..] == str && [] + Encoded(str) == Encoded(str);
    for i := 0 to |str|
      invariant strTemp + Encoded(str[i..]) == Encoded(str)
    {
      EncodedFrom(str, i);
      Reassociate(strTemp, EncodeByte(str[i]), Encoded(str[i + 1..]));
      strTemp := Append(strTemp, str[i]);
    }
    assert str[|str|..] == [];
  }

  /** The branches of UrlEncode's loop. */
  method Append(out: Text, b: Byte) returns (strTemp: Text)
    ensures strTemp == out + EncodeByte(b)
  {
    strTemp := out;
    if Unreserved(b) {
      strTemp := strTemp + [b];
    } else if b == SPACE {
      strTemp := strTemp + [PLUS];
    } else {
      strTemp := strTemp + [PERCENT];
      strTemp := strTemp + [ToHex(b / 16)];
      strTemp := strTemp + [ToHex(b % 16)];
    }
  }

  lemma EncodedFrom(s: Text, i: nat)
    requires i < |s|
    ensures Encoded(s[i..]) == EncodeByte(s[i]) + Encoded(s[i + 1..])
  {
  }

  // ----- decoding -----

  function Prepend(b: Byte, d: Option<Text>): Option<Text> {
    if d.None? then None else Some([b] + d.value)
  }

  /** The byte an escape stands for, truncated to a char as the source's `+=` does. */
  function EscapeValue(s: Text): Option<Byte> {
    if |s| < 3 || FromHex(s[1]).None? || FromHex(s[2]).None? then None
    else Some(((FromHex(s[1]).value as int * 16 + FromHex(s[2]).value as int) % 0x100) as Byte)
  }

  /** None where one of UrlDecode's or FromHex's asserts fails. */
  function Decoded(s: Text): Option<Text> {
    if s == [] then Some([])
    else if s[0] == PLUS then Prepend(SPACE, Decoded(s[1..]))
    else if s[0] == PERCENT then
      if EscapeValue(s).None? then None else Prepend(EscapeValue(s).value, Decoded(s[3..]))
    else Prepend(s[0], Decoded(s[1..]))
  }

  /** A plus sign is a space, an escape the byte of its two digits in either case, and any
      other byte, reserved or not, itself. */
  lemma DecodesByteByByte(b: Byte, s: Text)
    ensures Decoded(['+' as Byte] + s) == Prepend(' ' as Byte, Decoded(s))
    ensures b != '+' as Byte && b != '%' as Byte ==> Decoded([b] + s) == Prepend(b, Decoded(s))
  {
    assert (['+' as Byte] + s)[1..] == s && ([b] + s)[1..] == s;
  }

  lemma DecodesEscape(h: Byte, l: Byte, s: Text)
    requires FromHex(h).Some? && FromHex(l).Some?
    ensures Decoded(['%' as Byte, h, l] + s) ==
      Prepend(((16 * FromHex(h).value as int + FromHex(l).value as int) % 256) as Byte, Decoded(s))
  {
    hide FromHex;
    var text := ['%' as Byte, h, l] + s;
    assert text[1] == h && text[2] == l && text[3..] == s;
  }

  function Extend(out: Text, d: Option<Text>): Option<Text> {
    if d.None? then None else Some(out + d.value)
  }

  lemma ExtendPrepend(out: Text, b: Byte, d: Option<Text>)
    ensures Extend(out, Prepend(b, d)) == Extend(out + [b], d)
  {
    if d.Some? { assert out + ([b] + d.value) == (out + [b]) + d.value; }
  }

  /** The loop; ok is false where an assert would end the process. */
  method UrlDecode(str: Text) returns (ok: bool, strTemp: Text)
    ensures ok <==> Decoded(str).Some?
    ensures ok ==> strTemp == Decoded(str).value
  {
    strTemp := [];
    var i := 0;
    assert str[0..] == str;
    assert Decoded(str).Some? ==> [] + Decoded(str).value == Decoded(str).value;
    while i < |str|
      invariant i <= |str| && Extend(strTemp, Decoded(str[i..])) == Decoded(str)
      decreases |str| - i
    {
      ghost var rest, was := str[i..], strTemp;
      assert rest[1..] == str[i + 1..];
      if str[i] == PLUS {
        strTemp := strTemp + [SPACE];
        ExtendPrepend(was, SPACE, Decoded(rest[1..]));
      } else if str[i] == PERCENT {
        if i + 2 >= |str| {
          return false, strTemp;
        }
        assert rest[1] == str[i + 1] && rest[2] == str[i + 2] && rest[3..] == str[i + 3..];
        i := i + 1;
        var high := FromHex(str[i]);
        if high.None? {
          return false, strTemp;
        }
        i := i + 1;
        var low := FromHex(str[i]);
        if low.None? {
          return false, strTemp;
        }
        strTemp := strTemp + [((high.value as int * 16 + low.value as int) % 0x100) as Byte];
        ExtendPrepend(was, EscapeValue(rest).value, Decoded(rest[3..]));
      } else {
        strTemp := strTemp + [str[i]];
        ExtendPrepend(was, rest[0], Decoded(rest[1..]));
      }
      i := i + 1;
    }
    ok := true;
    assert str[i..] == [] && strTemp + [] == strTemp;
  }

  predicate IsAlnum(b: Byte) {
    IsDigit(b) || IsUpper(b) || IsLower(b)
  }

  /** Every '%' has two more bytes behind it, and both are letters or digits. */
  ghost predicate EscapesComplete(s: Text) {
    forall i :: 0 <= i < |s| && s[i] == PERCENT ==> EscapeAt(s, i)
  }

  predicate EscapeAt(s: Text, i: nat) {
    i + 2 < |s| && IsAlnum(s[i + 1]) && IsAlnum(s[i + 2])
  }

  /** The asserts hold on exactly these texts. */
  lemma {:induction false} DecodesExactly(s: Text)
    ensures Decoded(s).Some? <==> EscapesComplete(s)
    decreases |s|
  {
    if s != [] {
      if s[0] != PERCENT {
        CompleteFrom(s, 1);
        DecodesExactly(s[1..]);
      } else if EscapeAt(s, 0) {
        CompleteFrom(s, 3);
        DecodesExactly(s[3..]);
      }
    }
  }

  lemma CompleteFrom(s: Text, n: nat)
    requires 0 < n <= |s| && (s[0] == PERCENT ==> EscapeAt(s, 0))
    requires forall i :: 0 < i < n ==> s[i] != PERCENT
    ensures EscapesComplete(s) <==> EscapesComplete(s[n..])
  {
  }

  // ----- the two together -----

  lemma EscapeRoundTrip(b: Byte, rest: Text)
    requires !Unreserved(b) && b != SPACE
    ensures var t := EncodeByte(b) + rest;
      && |t| >= 3 && t[0] == PERCENT && t[3..] == rest
      && UpperHex(t[1]) && UpperHex(t[2]) && EscapeValue(t) == Some(b)
  {
    HexRoundTrip(b / 16);
    HexRoundTrip(b % 16);
    assert b as int == (b / 16) as int * 16 + (b % 16) as int;
  }

  lemma DecodeByte(b: Byte, rest: Text)
    ensures Decoded(EncodeByte(b) + rest) == Prepend(b, Decoded(rest))
  {
    var t := EncodeByte(b) + rest;
    if Unreserved(b) || b == SPACE {
      assert t[1..] == rest;
    } else {
      EscapeRoundTrip(b, rest);
    }
  }

  /** Decoding undoes encoding, for every byte string. */
  lemma {:induction false} DecodeEncoded(s: Text)
    ensures Decoded(Encoded(s)) == Some(s)
  {
    if s != [] {
      DecodeByte(s[0], Encoded(s[1..]));
      DecodeEncoded(s[1..]);
      assert s == [s[0]] + s[1..];
    }
  }

  /** The texts that UrlEncode can write: unreserved bytes, '+', and upper-case escapes of
      all other bytes but the space. */
  predicate Canonical(t: Text) {
    t == [] || (
      if t[0] == PERCENT then
        && |t| >= 3 && UpperHex(t[1]) && UpperHex(t[2])
        && (var b := EscapeValue(t); b.Some? && !Unreserved(b.value) && b.value != SPACE)
        && Canonical(t[3..])
      else (Unreserved(t[0]) || t[0] == PLUS) && Canonical(t[1..]))
  }

  lemma CanonicalByte(b: Byte, rest: Text)
    requires Canonical(rest)
    ensures Canonical(EncodeByte(b) + rest)
  {
    var t := EncodeByte(b) + rest;
    if Unreserved(b) || b == SPACE {
      assert t[1..] == rest;
    } else {
      EscapeRoundTrip(b, rest);
    }
  }

  lemma {:induction false} EncodedIsCanonical(s: Text)
    ensures Canonical(Encoded(s))
  {
    if s != [] {
      EncodedIsCanonical(s[1..]);
      CanonicalByte(s[0], Encoded(s[1..]));
    }
  }

  lemma EncodeEscape(t: Text)
    requires |t| >= 3 && t[0] == PERCENT && UpperHex(t[1]) && UpperHex(t[2])
    requires EscapeValue(t).Some? && !Unreserved(EscapeValue(t).value) && EscapeValue(t).value != SPACE
    ensures EncodeByte(EscapeValue(t).value) == t[..3]
  {
    HexRoundTrip(t[1]);
    HexRoundTrip(t[2]);
    var h, l := FromHex(t[1]).value, FromHex(t[2]).value;
    var b := EscapeValue(t).value;
    assert b as int == h as int * 16 + l as int;
    assert b / 16 == h && b % 16 == l;
  }

  /** Encoding undoes decoding exactly on the canonical texts. */
  lemma {:induction false} EncodeDecoded(t: Text)
    ensures Canonical(t) <==> Decoded(t).Some? && Encoded(Decoded(t).value) == t
    decreases |t|
  {
    if Decoded(t).Some? && Encoded(Decoded(t).value) == t {
      EncodedIsCanonical(Decoded(t).value);
    } else if Canonical(t) {
      CanonicalEncodes(t);
    }
  }

  lemma {:induction false} CanonicalEncodes(t: Text)
    requires Canonical(t)
    ensures Decoded(t).Some? && Encoded(Decoded(t).value) == t
    decreases |t|
  {
    if t != [] {
      var n := if t[0] == PERCENT then 3 else 1;
      CanonicalEncodes(t[n..]);
      if t[0] == PERCENT { EncodeEscape(t); }
      var b := Decoded(t).value[0];
      assert Decoded(t).value == [b] + Decoded(t[n..]).value && EncodeByte(b) == t[..n];
      hide Decoded, Encoded, Canonical, EncodeByte;
      EncodedCons(b, Decoded(t[n..]).value);
      assert t == t[..n] + t[n..];
    }
  }

  lemma EncodedCons(b: Byte, s: Text)
    ensures Encoded([b] + s) == EncodeByte(b) + Encoded(s)
  {
    assert ([b] + s)[1..] == s;
  }

  /** No encoded text contains a byte with a meaning in a URL: only unreserved bytes, '+'
      and '%' occur. */
  lemma {:induction false} EncodedAlphabet(s: Text, x: Byte)
    requires x in Encoded(s)
    ensures Unreserved(x) || x == PLUS || x == PERCENT
  {
    HexRoundTrip(s[0] / 16);
    HexRoundTrip(s[0] % 16);
    if x !in EncodeByte(s[0]) {
      EncodedAlphabet(s[1..], x);
    }
  }
}
