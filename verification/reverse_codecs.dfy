/**
 * The two qualifier adapters the functional tests register: `@ReverseList` reverses a list of
 * strings and `@ReverseString` reverses the `char`s of a string, in both directions. Both share
 * one reversal; a Java string is its sequence of UTF-16 units.
 */
module ReverseCodecs {
  import opened JavaStrings

  /** The reference reversal: position i of the result holds position n-1-i of the input. */
  function Reverse<T>(s: seq<T>): (r: seq<T>)
    ensures |r| == |s|
    ensures forall i :: 0 <= i < |s| ==> r[i] == s[|s| - 1 - i]
  {
    if |s| == 0 then [] else Reverse(s[1..]) + [s[0]]
  }

  /**
   * The adapters' private `reverse`: walk the input from its last index down to 0, appending
   * each element to a fresh list. The input is a value, so it is left as it was.
   */
  method ReverseByAppending<T>(input: seq<T>) returns (reversed: seq<T>)
    ensures |reversed| == |input|
    ensures forall k :: 0 <= k < |input| ==> reversed[k] == input[|input| - 1 - k]
    ensures reversed == Reverse(input)
  {
    reversed := [];
    var i := |input| - 1;
    while i >= 0
      invariant -1 <= i < |input|
      invariant |reversed| == |input| - 1 - i
      invariant forall k :: 0 <= k < |reversed| ==> reversed[k] == input[|input| - 1 - k]
    {
      reversed := reversed + [input[i]];
      i := i - 1;
    }
  }

  /** Reversing twice gives back the input. */
  lemma {:induction false} ReverseInvolution<T>(s: seq<T>)
    ensures Reverse(Reverse(s)) == s
  {
    var r := Reverse(s);
    forall i | 0 <= i < |s|
      ensures Reverse(r)[i] == s[i]
    {
      assert Reverse(r)[i] == r[|r| - 1 - i];
      assert r[|r| - 1 - i] == s[|s| - 1 - (|s| - 1 - i)];
    }
  }

  // ---- ReverseList.JsonAdapter ------------------------------------------------------------

  /** fromJson of ReverseList.JsonAdapter: the list read, reversed. */
  function ListFromJson(input: seq<string>): (r: seq<string>)
  {
    Reverse(input)
  }

  /** toJson of ReverseList.JsonAdapter: the list to write, reversed. */
  function ListToJson(input: seq<string>): (r: seq<string>)
  {
    Reverse(input)
  }

  /** Writing what was read gives back the JSON list, and reading what was written the value. */
  lemma ListRoundTrip(json: seq<string>, value: seq<string>)
    ensures ListToJson(ListFromJson(json)) == json
    ensures ListFromJson(ListToJson(value)) == value
  {
    ReverseInvolution(json);
    ReverseInvolution(value);
  }

  /** The list the functional tests use reads back in the opposite order. */
  lemma ListExample()
    ensures ListFromJson(["one", "two", "three"]) == ["three", "two", "one"]
  {
    var s := ["one", "two", "three"];
    assert Reverse(s)[0] == s[2];
  }

  // ---- ReverseString.JsonAdapter ----------------------------------------------------------

  /** fromJson of ReverseString.JsonAdapter: the units of the string read, last unit first. */
  function StringFromJson(input: seq<Unit>): (r: seq<Unit>)
  {
    Reverse(input)
  }

  /** toJson of ReverseString.JsonAdapter: the units of the string to write, last unit first. */
  function StringToJson(input: seq<Unit>): (r: seq<Unit>)
  {
    Reverse(input)
  }

  lemma StringRoundTrip(json: seq<Unit>, value: seq<Unit>)
    ensures StringToJson(StringFromJson(json)) == json
    ensures StringFromJson(StringToJson(value)) == value
  {
    ReverseInvolution(json);
    ReverseInvolution(value);
  }

  /** In the Basic Multilingual Plane, reversing the units reverses the characters. */
  lemma StringReverseBmp(s: string)
    requires Bmp(s)
    ensures StringFromJson(Encode(s)) == Encode(Reverse(s))
  {
    var t := Reverse(s);
    assert Bmp(t) by {
      forall i | 0 <= i < |t| ensures t[i] as int < 0x10000 {
        assert t[i] == s[|s| - 1 - i];
      }
    }
    var u := Encode(s);
    var b := Encode(t);
    EncodeBmpLength(s);
    EncodeBmpLength(t);
    forall i | 0 <= i < |u| ensures Reverse(u)[i] == b[i] {
      var j := |s| - 1 - i;
      EncodeBmpAt(s, j);
      EncodeBmpAt(t, i);
      assert t[i] == s[j];
    }
  }

  /**
   * Above the Basic Multilingual Plane the reversal splits surrogate pairs: a single such
   * character reads back with its low surrogate first, which is the encoding of no string.
   */
  lemma StringSplitsPairs(c: char)
    requires c as int >= 0x10000
    ensures StringFromJson(Encode([c])) == [Units(c)[1], Units(c)[0]]
    ensures forall s :: StringFromJson(Encode([c])) != Encode(s)
  {
    assert Encode([c]) == Units(c);
    var r := StringFromJson(Encode([c]));
    assert IsLowSurrogate(r[0]);
    forall s ensures r != Encode(s) {
      EncodeNeverStartsLow(s);
    }
  }

  /** The empty string reverses to itself; "abc" and "def" read as "cba" and "fed". */
  lemma StringExamples()
    ensures StringFromJson(Encode("")) == []
    ensures StringFromJson(Encode("abc")) == Encode("cba")
    ensures StringFromJson(Encode("def")) == Encode("fed")
  {
    StringReverseBmp("abc");
    StringReverseBmp("def");
    assert Reverse("abc") == "cba" by { assert Reverse("abc")[0] == 'c'; }
    assert Reverse("def") == "fed" by { assert Reverse("def")[0] == 'f'; }
  }
}
