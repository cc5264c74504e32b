/**
 * A Java `String` is a sequence of UTF-16 code units (`char`), while a Dafny `string` is a
 * sequence of Unicode scalar values. `Encode` relates the two: a character below U+10000 is one
 * unit, any other is a surrogate pair. `toCharArray`, `substring` and `charAt` count units.
 */
module JavaStrings {

  /** A UTF-16 code unit: Java's `char`, an unsigned 16-bit value. */
  newtype Unit = x: int | 0 <= x < 0x1_0000

  predicate IsHighSurrogate(u: Unit) {
    0xD800 <= u < 0xDC00
  }

  predicate IsLowSurrogate(u: Unit) {
    0xDC00 <= u < 0xE000
  }

  predicate IsSurrogate(u: Unit) {
    IsHighSurrogate(u) || IsLowSurrogate(u)
  }

  /** The UTF-16 units of one character. */
  function Units(c: char): (r: seq<Unit>)
    ensures c as int < 0x10000 ==> |r| == 1 && r[0] as int == c as int && !IsSurrogate(r[0])
    ensures c as int >= 0x10000 ==> |r| == 2 && IsHighSurrogate(r[0]) && IsLowSurrogate(r[1])
  {
    var n := c as int;
    if n < 0x10000 then [n as Unit]
    else [(0xD800 + (n - 0x10000) / 0x400) as Unit, (0xDC00 + (n - 0x10000) % 0x400) as Unit]
  }

  /** A surrogate pair decodes back to the character it encodes. */
  lemma UnitsDecode(c: char)
    requires c as int >= 0x10000
    ensures 0x10000 + (Units(c)[0] as int - 0xD800) * 0x400 + (Units(c)[1] as int - 0xDC00) == c as int
  {
  }

  /** The units Java stores for a string: the units of each character in turn. */
  function Encode(s: string): (r: seq<Unit>)
    ensures |r| >= |s|
    ensures |s| == 0 <==> |r| == 0
    ensures |s| > 0 ==> r[0] == Units(s[0])[0]
  {
    if |s| == 0 then [] else Units(s[0]) + Encode(s[1..])
  }

  /** Every character lies in the Basic Multilingual Plane, so takes a single unit. */
  predicate Bmp(s: string) {
    forall i :: 0 <= i < |s| ==> s[i] as int < 0x10000
  }

  /** A string in the Basic Multilingual Plane is stored one unit per character. */
  lemma {:induction false} EncodeBmp(s: string)
    requires Bmp(s)
    ensures |Encode(s)| == |s|
    ensures forall i :: 0 <= i < |s| ==> Encode(s)[i] as int == s[i] as int && !IsSurrogate(Encode(s)[i])
  {
    if |s| > 0 {
      var t := s[1..];
      assert Bmp(t) by {
        forall i | 0 <= i < |t| ensures t[i] as int < 0x10000 {
          assert t[i] == s[i + 1];
        }
      }
      EncodeBmp(t);
      var r := Encode(s);
      assert r == Units(s[0]) + Encode(t);
      forall i | 0 <= i < |s| ensures r[i] as int == s[i] as int && !IsSurrogate(r[i]) {
        if i > 0 {
          assert r[i] == Encode(t)[i - 1];
          assert s[i] == t[i - 1];
        }
      }
    }
  }

  /** The length part of `EncodeBmp`, on its own. */
  lemma EncodeBmpLength(s: string)
    requires Bmp(s)
    ensures |Encode(s)| == |s|
  {
    EncodeBmp(s);
  }

  /** One position of `EncodeBmp`, on its own. */
  lemma EncodeBmpAt(s: string, i: nat)
    requires Bmp(s) && i < |s|
    ensures i < |Encode(s)| && Encode(s)[i] as int == s[i] as int
  {
    EncodeBmp(s);
  }

  /** No encoded string starts with a low surrogate. */
  lemma EncodeNeverStartsLow(s: string)
    ensures |Encode(s)| > 0 ==> !IsLowSurrogate(Encode(s)[0])
  {
  }

  /** Units without surrogates read back as the characters with the same numbers. */
  function Chars(u: seq<Unit>): (r: string)
    requires forall i :: 0 <= i < |u| ==> !IsSurrogate(u[i])
    ensures |r| == |u|
    ensures forall i :: 0 <= i < |u| ==> r[i] as int == u[i] as int
    ensures Bmp(r) && Encode(r) == u
  {
    if |u| == 0 then []
    else
      assert !IsSurrogate(u[0]);
      var c := u[0] as int as char;
      var r := [c] + Chars(u[1..]);
      assert r[1..] == Chars(u[1..]);
      r
  }

  /** Reading back the units of a string in the Basic Multilingual Plane gives the string. */
  lemma CharsEncode(s: string)
    requires Bmp(s)
    ensures (forall i :: 0 <= i < |Encode(s)| ==> !IsSurrogate(Encode(s)[i])) && Chars(Encode(s)) == s
  {
    EncodeBmp(s);
    var r := Chars(Encode(s));
    assert forall i :: 0 <= i < |s| ==> r[i] as int == s[i] as int;
  }
}
