/** How many characters Ruby finds in a string tagged UTF-8, which is what `String#size`
    counts.  Well-formed sequences follow section 4 of RFC 3629; a byte that starts no
    well-formed sequence is one character by itself. */
module Utf8 {
  import opened Base

  predicate Tail(b: byte) { 0x80 <= b <= 0xBF }

  predicate Lead2(a: byte, b: byte) { 0xC2 <= a <= 0xDF && Tail(b) }

  predicate Lead3(a: byte, b: byte) {
    || (a == 0xE0 && 0xA0 <= b <= 0xBF)
    || (0xE1 <= a <= 0xEC && Tail(b))
    || (a == 0xED && 0x80 <= b <= 0x9F)
    || (0xEE <= a <= 0xEF && Tail(b))
  }

  predicate Lead4(a: byte, b: byte) {
    || (a == 0xF0 && 0x90 <= b <= 0xBF)
    || (0xF1 <= a <= 0xF3 && Tail(b))
    || (a == 0xF4 && 0x80 <= b <= 0x8F)
  }

  /** Length in bytes of the first character. */
  function HeadLength(s: Bytes): (k: nat)
    requires s != []
    ensures 1 <= k <= |s| && k <= 4
  {
    if |s| >= 2 && Lead2(s[0], s[1]) then 2
    else if |s| >= 3 && Lead3(s[0], s[1]) && Tail(s[2]) then 3
    else if |s| >= 4 && Lead4(s[0], s[1]) && Tail(s[2]) && Tail(s[3]) then 4
    else 1
  }

  function CharCount(s: Bytes): (n: nat)
    ensures n <= |s|
    ensures s != [] ==> n >= 1
  {
    if s == [] then 0 else 1 + CharCount(s[HeadLength(s)..])
  }

  /** Some well-formed sequence of two or more bytes lies inside s. */
  ghost predicate Multibyte(s: Bytes) {
    exists i :: 0 <= i < |s| && HeadLength(s[i..]) > 1
  }

  /** As many characters as bytes, exactly when no multibyte sequence lies anywhere in s. */
  lemma {:induction false} CountIsLengthIff(s: Bytes)
    ensures CharCount(s) == |s| <==> !Multibyte(s)
  {
    if s != [] {
      assert s[0..] == s;
      var rest := s[1..];
      if HeadLength(s) == 1 {
        CountIsLengthIff(rest);
        forall i | 0 <= i < |rest| ensures rest[i..] == s[i + 1..] {}
        if Multibyte(s) {
          var i :| 0 <= i < |s| && HeadLength(s[i..]) > 1;
          assert rest[i - 1..] == s[i..];
        }
      }
    }
  }

  /** Cutting a piece out of s cannot create a multibyte sequence. */
  lemma SliceKeepsSingle(s: Bytes, lo: nat, hi: nat)
    requires lo <= hi <= |s| && !Multibyte(s)
    ensures !Multibyte(s[lo..hi])
  {
    var c := s[lo..hi];
    forall i | 0 <= i < |c| ensures HeadLength(c[i..]) == 1 {
      var here, whole := c[i..], s[lo + i..];
      assert HeadLength(whole) == 1;
      assert forall j :: 0 <= j < |here| ==> here[j] == whole[j];
    }
  }

  /** Continuation bytes at the front are characters of their own. */
  lemma {:induction false} TailsCountSingly(s: Bytes, k: nat)
    requires k <= |s| && forall i :: 0 <= i < k ==> Tail(s[i])
    ensures CharCount(s) == k + CharCount(s[k..])
  {
    if k > 0 {
      assert HeadLength(s) == 1;
      TailsCountSingly(s[1..], k - 1);
      assert s[1..][k - 1..] == s[k..];
    } else {
      assert s[0..] == s;
    }
  }

  /** Splitting a string can only add characters, never lose one. */
  lemma {:induction false} SplitCountsMore(a: Bytes, b: Bytes)
    ensures CharCount(a + b) <= CharCount(a) + CharCount(b)
    decreases |a|
  {
    var s := a + b;
    if a == [] {
      assert s == b;
    } else {
      var k := HeadLength(s);
      if k <= |a| {
        assert HeadLength(a) == k;
        assert s[k..] == a[k..] + b;
        SplitCountsMore(a[k..], b);
      } else {
        var m := k - |a|;
        assert s[k..] == b[m..];
        assert forall i :: 0 <= i < m ==> b[i] == s[|a| + i];
        TailsCountSingly(b, m);
      }
    }
  }

  // ------------------------------------------------ against the encoding itself

  /** The characters UTF-8 can encode: all code points but the surrogates. */
  predicate Scalar(c: nat) { c < 0x11_0000 && !(0xD800 <= c < 0xE000) }

  /** The encoding of section 3 of RFC 3629. */
  function Encode(c: nat): (s: Bytes)
    requires Scalar(c)
    ensures 1 <= |s| <= 4 && (|s| > 1 <==> c >= 0x80)
  {
    if c < 0x80 then [c as byte]
    else if c < 0x800 then [(0xC0 + c / 0x40) as byte, (0x80 + c % 0x40) as byte]
    else if c < 0x1_0000 then
      [(0xE0 + c / 0x1000) as byte, (0x80 + c / 0x40 % 0x40) as byte, (0x80 + c % 0x40) as byte]
    else
      [(0xF0 + c / 0x4_0000) as byte, (0x80 + c / 0x1000 % 0x40) as byte,
       (0x80 + c / 0x40 % 0x40) as byte, (0x80 + c % 0x40) as byte]
  }

  /** An encoded character in front is one character, whatever follows. */
  lemma EncodedHead(c: nat, s: Bytes)
    requires Scalar(c) && Encode(c) <= s
    ensures HeadLength(s) == |Encode(c)|
  {
    var e := Encode(c);
    assert forall i :: 0 <= i < |e| ==> s[i] == e[i];
  }

  lemma Decode2(a: byte, b: byte) returns (c: nat)
    requires Lead2(a, b)
    ensures Scalar(c) && Encode(c) == [a, b]
  {
    c := (a as int - 0xC0) * 0x40 + (b as int - 0x80);
  }

  lemma Decode3(a: byte, b: byte, d: byte) returns (c: nat)
    requires Lead3(a, b) && Tail(d)
    ensures Scalar(c) && Encode(c) == [a, b, d]
  {
    var upper := (a as int - 0xE0) * 0x40 + (b as int - 0x80);
    c := upper * 0x40 + (d as int - 0x80);
    assert c / 0x40 == upper && c / 0x1000 == a as int - 0xE0;
  }

  lemma Decode4(a: byte, b: byte, d: byte, e: byte) returns (c: nat)
    requires Lead4(a, b) && Tail(d) && Tail(e)
    ensures Scalar(c) && Encode(c) == [a, b, d, e]
  {
    var top := (a as int - 0xF0) * 0x40 + (b as int - 0x80);
    var upper := top * 0x40 + (d as int - 0x80);
    c := upper * 0x40 + (e as int - 0x80);
    assert c / 0x40 == upper && c / 0x1000 == top && c / 0x4_0000 == a as int - 0xF0;
  }

  /** A character of more than one byte in front is exactly an encoded one. */
  lemma MultibyteHeadIsEncoded(s: Bytes)
    requires s != []
    ensures HeadLength(s) > 1 <==> exists c :: Scalar(c) && c >= 0x80 && Encode(c) <= s
  {
    hide Encode;
    if HeadLength(s) == 2 {
      var c := Decode2(s[0], s[1]);
      assert s[..2] == Encode(c);
    } else if HeadLength(s) == 3 {
      var c := Decode3(s[0], s[1], s[2]);
      assert s[..3] == Encode(c);
    } else if HeadLength(s) == 4 {
      var c := Decode4(s[0], s[1], s[2], s[3]);
      assert s[..4] == Encode(c);
    } else if c :| Scalar(c) && c >= 0x80 && Encode(c) <= s {
      EncodedHead(c, s);
    }
  }

  function EncodeAll(text: seq<nat>): Bytes
    requires forall i :: 0 <= i < |text| ==> Scalar(text[i])
  {
    if text == [] then [] else Encode(text[0]) + EncodeAll(text[1..])
  }

  /** The count of an encoded text is the number of its characters. */
  lemma {:induction false} CountsCharacters(text: seq<nat>)
    requires forall i :: 0 <= i < |text| ==> Scalar(text[i])
    ensures CharCount(EncodeAll(text)) == |text|
  {
    hide Encode, HeadLength;
    if text != [] {
      var s := EncodeAll(text);
      EncodedHead(text[0], s);
      CountsCharacters(text[1..]);
      assert s[|Encode(text[0])|..] == EncodeAll(text[1..]);
    }
  }
}
