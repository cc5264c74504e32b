/**
 * The example's `@HexColor` adapter: an `int` colour is written as "#" followed by its lower-case
 * hexadecimal digits padded with zeros to six (String.format "#%06x"), and read back by dropping
 * the first UTF-16 unit and parsing the rest in base 16 (Integer.parseInt(s.substring(1), 16)).
 */
module Color {
  import opened Wrappers
  import opened JavaStrings

  const TwoTo31: int := 0x8000_0000
  const TwoTo32: int := 0x1_0000_0000

  /** Java's `int`. */
  type Int32 = x: int | -TwoTo31 <= x < TwoTo31

  /** Why fromJson threw. */
  datatype ColorError =
    | IndexOutOfBounds      // substring(1) of the empty string
    | NumberFormat          // Integer.parseInt rejected the rest

  /** `%x` formats an int as its unsigned 32-bit two's-complement value. */
  function Unsigned(x: Int32): (r: nat)
    ensures r < TwoTo32
    ensures x >= 0 ==> r == x
    ensures x < 0 ==> r - TwoTo32 == x
  {
    if x < 0 then x + TwoTo32 else x
  }

  const LowerDigits: string := "0123456789abcdef"

  predicate IsLowerHexDigit(c: char) {
    c in LowerDigits
  }

  /** Character.digit(c, 16), for the ASCII digits and letters of either case. */
  function DigitValue(c: char): Option<nat> {
    if '0' <= c <= '9' then Some(c as int - '0' as int)
    else if 'a' <= c <= 'f' then Some(c as int - 'a' as int + 10)
    else if 'A' <= c <= 'F' then Some(c as int - 'A' as int + 10)
    else None
  }

  predicate AllDigits(t: string) {
    forall i :: 0 <= i < |t| ==> DigitValue(t[i]).Some?
  }

  /** The number a string of base-16 digits spells, most significant digit first. */
  function Value(t: string): nat
    requires AllDigits(t)
  {
    if |t| == 0 then 0 else Value(t[..|t| - 1]) * 16 + DigitValue(t[|t| - 1]).value
  }

  function Pow16(k: nat): nat {
    if k == 0 then 1 else 16 * Pow16(k - 1)
  }

  /** The digits `%x` prints for n: lower-case, no leading zero, "0" for zero. */
  function HexDigits(n: nat): (r: string)
    ensures |r| >= 1
    ensures forall i :: 0 <= i < |r| ==> IsLowerHexDigit(r[i])
    ensures n > 0 ==> r[0] != '0'
  {
    if n < 16 then [LowerDigits[n]] else HexDigits(n / 16) + [LowerDigits[n % 16]]
  }

  /** Each lower-case digit is read back as its own position in the digit table. */
  lemma LowerDigitValue(i: nat)
    requires i < 16
    ensures DigitValue(LowerDigits[i]) == Some(i)
  {
  }

  /** The printed digits spell n back. */
  lemma {:induction false} HexDigitsValue(n: nat)
    ensures AllDigits(HexDigits(n)) && Value(HexDigits(n)) == n
  {
    var r := HexDigits(n);
    if n < 16 {
      LowerDigitValue(n);
    } else {
      var q := HexDigits(n / 16);
      HexDigitsValue(n / 16);
      LowerDigitValue(n % 16);
      assert r == q + [LowerDigits[n % 16]];
      assert r[..|r| - 1] == q;
      assert AllDigits(r) by {
        forall i | 0 <= i < |r| ensures DigitValue(r[i]).Some? {
          if i < |q| { assert r[i] == q[i]; }
        }
      }
    }
  }

  /** Below 16^k there are at most k digits. */
  lemma {:induction false} HexDigitsLength(n: nat, k: nat)
    requires 1 <= k && n < Pow16(k)
    ensures |HexDigits(n)| <= k
  {
    if n >= 16 {
      assert k >= 2;
      assert n / 16 < Pow16(k - 1);
      HexDigitsLength(n / 16, k - 1);
    }
  }

  function Zeros(k: nat): (r: string)
    ensures |r| == k
    ensures forall i :: 0 <= i < k ==> r[i] == '0'
  {
    if k == 0 then [] else Zeros(k - 1) + ['0']
  }

  /** The `0` flag with width 6: zeros on the left up to six characters, nothing cut off. */
  function PadTo6(d: string): (r: string)
    ensures |r| == if |d| < 6 then 6 else |d|
    ensures r[|r| - |d|..] == d
    ensures forall i :: 0 <= i < |r| - |d| ==> r[i] == '0'
  {
    if |d| < 6 then Zeros(6 - |d|) + d else d
  }

  /** ColorAdapter.toJson: String.format("#%06x", rgb). */
  function ToJson(rgb: Int32): string {
    "#" + PadTo6(HexDigits(Unsigned(rgb)))
  }

  /** Integer.parseInt(t, 16): an optional sign, then at least one digit, within int's range. */
  function ParseInt(t: string): (r: Result<Int32, ColorError>)
    ensures r.Success? ==> |t| > 0
    ensures r.Failure? ==> r.error == NumberFormat
  {
    if |t| == 0 then Failure(NumberFormat)
    else
      var negative := t[0] == '-';
      var digits := if t[0] == '-' || t[0] == '+' then t[1..] else t;
      if |digits| == 0 || !AllDigits(digits) then Failure(NumberFormat)
      else
        var v := Value(digits);
        if negative && v <= TwoTo31 then Success(0 - v)
        else if !negative && v < TwoTo31 then Success(v)
        else Failure(NumberFormat)
  }

  /** fromJson read character by character: drop the first character and parse the rest. */
  function FromChars(s: string): (r: Result<Int32, ColorError>)
    ensures |s| == 0 ==> r == Failure(IndexOutOfBounds)
    ensures r.Success? ==> |s| >= 2
  {
    if |s| == 0 then Failure(IndexOutOfBounds) else ParseInt(s[1..])
  }

  /**
   * ColorAdapter.fromJson: Integer.parseInt(rgb.substring(1), 16) on the UTF-16 units of the
   * string. `substring(1)` drops one unit; a surrogate unit is no digit in any radix.
   */
  function FromJson(u: seq<Unit>): (r: Result<Int32, ColorError>)
    ensures |u| == 0 ==> r == Failure(IndexOutOfBounds)
    ensures r.Success? ==> |u| >= 2 && forall i :: 1 <= i < |u| ==> !IsSurrogate(u[i])
    ensures |u| > 0 && (exists i :: 1 <= i < |u| && IsSurrogate(u[i])) ==> r == Failure(NumberFormat)
  {
    if |u| == 0 then Failure(IndexOutOfBounds)
    else if exists i :: 1 <= i < |u| && IsSurrogate(u[i]) then Failure(NumberFormat)
    else
      var t := u[1..];
      assert forall i :: 0 <= i < |t| ==> t[i] == u[i + 1];
      ParseInt(Chars(t))
  }

  /** In the Basic Multilingual Plane, reading units and reading characters agree. */
  lemma FromJsonBmp(s: string)
    requires Bmp(s)
    ensures FromJson(Encode(s)) == FromChars(s)
  {
    if |s| > 0 {
      CharsEncode(s);
      var u := Encode(s);
      EncodeBmp(s);
      var t := s[1..];
      assert Bmp(t) by {
        forall i | 0 <= i < |t| ensures t[i] as int < 0x10000 { assert t[i] == s[i + 1]; }
      }
      EncodeBmp(t);
      assert u == Units(s[0]) + Encode(t);
      assert u[1..] == Encode(t);
      CharsEncode(t);
    }
  }

  /**
   * Why units matter: "\U{1F600}ff" is a surrogate pair and two digits. Dropping the first
   * character would leave "ff"; dropping the first unit leaves the low surrogate, and parseInt
   * rejects it.
   */
  lemma SupplementaryFirstCharRejected()
    ensures FromChars("\U{1F600}ff") == Success(255)
    ensures FromJson(Encode("\U{1F600}ff")) == Failure(NumberFormat)
  {
    assert "\U{1F600}ff"[1..] == "ff";
    assert Value("ff") == 255 by { assert "ff"[..1] == "f"; }
    ParseUnsigned("ff");
    var u := Encode("\U{1F600}ff");
    assert u[..2] == Units('\U{1F600}');
    assert IsSurrogate(u[1]);
  }

  /** Leading zeros add nothing to the value of a digit string. */
  lemma {:induction false} ValueLeadingZeros(k: nat, d: string)
    requires AllDigits(d)
    ensures AllDigits(Zeros(k) + d) && Value(Zeros(k) + d) == Value(d)
  {
    var z := Zeros(k) + d;
    assert AllDigits(z) by {
      forall i | 0 <= i < |z| ensures DigitValue(z[i]).Some? {
        if i < k { assert z[i] == '0'; } else { assert z[i] == d[i - k]; }
      }
    }
    if |d| == 0 {
      assert z == Zeros(k);
      ValueZeros(k);
    } else {
      var d' := d[..|d| - 1];
      assert z[..|z| - 1] == Zeros(k) + d';
      assert z[|z| - 1] == d[|d| - 1];
      ValueLeadingZeros(k, d');
    }
  }

  lemma {:induction false} ValueZeros(k: nat)
    ensures AllDigits(Zeros(k)) && Value(Zeros(k)) == 0
  {
    if k > 0 {
      assert Zeros(k)[..k - 1] == Zeros(k - 1);
      ValueZeros(k - 1);
    }
  }


  lemma Pow16Six()
    ensures Pow16(6) == 0x100_0000
  {
  }

  /** Padding adds only zeros, so a padded digit string is still lower-case hex. */
  lemma PadDigits(d: string)
    requires forall i :: 0 <= i < |d| ==> IsLowerHexDigit(d[i])
    ensures forall i :: 0 <= i < |PadTo6(d)| ==> IsLowerHexDigit(PadTo6(d)[i])
  {
    var p := PadTo6(d);
    forall i | 0 <= i < |p| ensures IsLowerHexDigit(p[i]) {
      if i >= |p| - |d| {
        assert p[i] == d[i - (|p| - |d|)];
      } else {
        assert p[i] == '0';
      }
    }
  }

  /** What toJson writes: a '#', then at least six lower-case hex digits. */
  lemma ToJsonShape(rgb: Int32)
    ensures |ToJson(rgb)| >= 7 && ToJson(rgb)[0] == '#'
    ensures forall i :: 1 <= i < |ToJson(rgb)| ==> IsLowerHexDigit(ToJson(rgb)[i])
  {
    var d := HexDigits(Unsigned(rgb));
    var p := PadTo6(d);
    PadDigits(d);
    assert ToJson(rgb) == "#" + p;
  }

  /** What toJson writes is ASCII, one UTF-16 unit per character. */
  lemma ToJsonBmp(rgb: Int32)
    ensures Bmp(ToJson(rgb))
  {
    ToJsonShape(rgb);
    var s := ToJson(rgb);
    forall i | 0 <= i < |s| ensures s[i] as int < 0x10000 {
      if i > 0 { assert IsLowerHexDigit(s[i]); }
    }
  }

  /** A colour from 0 to 0xFFFFFF takes exactly seven characters. */
  lemma ToJsonWidth(rgb: Int32)
    ensures 0 <= rgb <= 0xFF_FFFF ==> |ToJson(rgb)| == 7
  {
    if 0 <= rgb <= 0xFF_FFFF {
      Pow16Six();
      HexDigitsLength(Unsigned(rgb), 6);
    }
  }

  /** A digit string does not start with a sign. */
  lemma DigitIsNotSign(t: string)
    requires |t| > 0 && AllDigits(t)
    ensures t[0] != '-' && t[0] != '+'
  {
    assert DigitValue(t[0]).Some?;
  }

  /** An unsigned digit string within int's range parses to its value. */
  lemma ParseUnsigned(t: string)
    requires |t| > 0 && AllDigits(t) && Value(t) < TwoTo31
    ensures ParseInt(t) == Success(Value(t))
  {
    DigitIsNotSign(t);
  }

  /** fromJson drops the '#' and parses the rest. */
  lemma FromJsonHash(p: string)
    ensures FromChars("#" + p) == ParseInt(p)
  {
    assert ("#" + p)[1..] == p;
  }

  /** Zero padding keeps the value. */
  lemma PaddedValue(d: string)
    requires AllDigits(d)
    ensures AllDigits(PadTo6(d)) && Value(PadTo6(d)) == Value(d)
  {
    var p := PadTo6(d);
    assert p == Zeros(|p| - |d|) + d;
    ValueLeadingZeros(|p| - |d|, d);
  }

  /** Every non-negative int colour reads back as itself, padding and all. */
  lemma RoundTrip(rgb: Int32)
    requires rgb >= 0
    ensures FromJson(Encode(ToJson(rgb))) == Success(rgb)
  {
    ToJsonBmp(rgb);
    FromJsonBmp(ToJson(rgb));
    var p := PadTo6(HexDigits(rgb));
    HexDigitsValue(rgb);
    PaddedValue(HexDigits(rgb));
    ParseUnsigned(p);
    FromJsonHash(p);
  }

  /** Appending a digit to the digits of m > 0 prints m * 16 + v. */
  lemma HexDigitsSnoc(m: nat, v: nat)
    requires m > 0 && v < 16
    ensures HexDigits(m * 16 + v) == HexDigits(m) + [LowerDigits[v]]
  {
    var n := m * 16 + v;
    assert n / 16 == m && n % 16 == v;
  }

  /** The digits of pure red. */
  lemma RedDigits()
    ensures HexDigits(0xff0000) == "ff0000"
  {
    assert HexDigits(0xf) == "f";
    HexDigitsSnoc(0xf, 0xf);
    assert HexDigits(0xff) == "ff";
    HexDigitsSnoc(0xff, 0);
    HexDigitsSnoc(0xff0, 0);
    HexDigitsSnoc(0xff00, 0);
    HexDigitsSnoc(0xff000, 0);
  }

  /** Pure red is written "#ff0000". */
  lemma RedWritten()
    ensures ToJson(0xff0000) == "#ff0000"
  {
    RedDigits();
    assert PadTo6("ff0000") == "ff0000";
  }

  /** "#ff0000" reads as pure red. */
  lemma RedRead()
    ensures FromJson(Encode("#ff0000")) == Success(0xff0000)
  {
    FromJsonBmp("#ff0000");
    RedDigits();
    HexDigitsValue(0xff0000);
    ParseUnsigned("ff0000");
    FromJsonHash("ff0000");
  }

  /** The digits of -1 as an unsigned 32-bit value. */
  lemma AllFsDigits()
    ensures HexDigits(0xffff_ffff) == "ffffffff"
  {
    assert HexDigits(0xf) == "f";
    HexDigitsSnoc(0xf, 0xf);
    HexDigitsSnoc(0xff, 0xf);
    HexDigitsSnoc(0xfff, 0xf);
    HexDigitsSnoc(0xffff, 0xf);
    HexDigitsSnoc(0xf_ffff, 0xf);
    HexDigitsSnoc(0xff_ffff, 0xf);
    HexDigitsSnoc(0xfff_ffff, 0xf);
  }

  /** -1 is written as its unsigned 32-bit value, eight digits. */
  lemma NegativeWritten()
    ensures ToJson(-1) == "#ffffffff"
  {
    AllFsDigits();
    assert PadTo6("ffffffff") == "ffffffff";
  }

  /**
   * A negative colour does not survive: the eight digits written for -1 exceed
   * Integer.MAX_VALUE, so parseInt rejects them.
   */
  lemma NegativeDoesNotRoundTrip()
    ensures FromJson(Encode(ToJson(-1))) == Failure(NumberFormat)
  {
    ToJsonBmp(-1);
    FromJsonBmp(ToJson(-1));
    NegativeWritten();
    AllFsDigits();
    HexDigitsValue(0xffff_ffff);
    DigitIsNotSign("ffffffff");
    FromJsonHash("ffffffff");
  }
}
