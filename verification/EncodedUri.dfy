/** encodeURIComponent, character by character (ECMA-262, section 19.2.6.4). */
module EncodedUri {
  import opened PathArgument

  /** The codes of the letters, the digits and `- _ . ! ~ * ' ( )`. */
  ghost predicate KeptCode(n: int) {
    || 0x41 <= n <= 0x5A || 0x61 <= n <= 0x7A || 0x30 <= n <= 0x39
    || n in {0x2D, 0x5F, 0x2E, 0x21, 0x7E, 0x2A, 0x27, 0x28, 0x29}
  }

  /** One octet as a percent sign and two upper-case digits. */
  ghost predicate WritesOctet(e: string, b: int) {
    var digits := "0123456789ABCDEF";
    0 <= b < 256 && e == ['%', digits[b / 16], digits[b % 16]]
  }

  /** A character is kept exactly when its code is one of these, and written octet by octet otherwise. */
  lemma CharacterExactly(c: char)
    ensures KeptCode(c as int) ==> Encode([c]) == [c]
    ensures !KeptCode(c as int) ==>
              var e, bs := Encode([c]), Utf8(c);
              |e| == 3 * |bs| && forall i :: 0 <= i < |bs| ==> WritesOctet(e[3 * i..3 * i + 3], bs[i])
  {
    EncodeOne(c);
    assert KeptCode(c as int) <==> Unreserved(c);
    OctetsExactly(Utf8(c));
    hide Encode, PercentBytes, Utf8, WritesOctet;
  }

  lemma EncodeOne(c: char)
    ensures Encode([c]) == EncodeChar(c)
  {
    var one := [c];
    assert one[1..] == [] && Encode(one[1..]) == [];
    assert EncodeChar(c) + [] == EncodeChar(c);
  }

  lemma {:induction false} OctetsExactly(bs: seq<Byte>)
    ensures |PercentBytes(bs)| == 3 * |bs|
    ensures forall i :: 0 <= i < |bs| ==> WritesOctet(PercentBytes(bs)[3 * i..3 * i + 3], bs[i])
  {
    if bs != [] {
      OctetsExactly(bs[1..]);
      OctetWritten(bs[0]);
      hide PercentByte, WritesOctet;
      var first, rest := PercentByte(bs[0]), PercentBytes(bs[1..]);
      forall i | 0 <= i < |bs| ensures WritesOctet((first + rest)[3 * i..3 * i + 3], bs[i]) {
        if i > 0 {
          assert (first + rest)[3 * i..3 * i + 3] == rest[3 * (i - 1)..3 * (i - 1) + 3];
          assert bs[i] == bs[1..][i - 1];
        } else {
          assert (first + rest)[0..3] == first;
        }
      }
    }
  }

  lemma OctetWritten(b: Byte)
    ensures |PercentByte(b)| == 3 && WritesOctet(PercentByte(b), b)
  {
    DigitIs(b / 16);
    DigitIs(b % 16);
  }

  lemma DigitIs(n: int)
    requires 0 <= n < 16
    ensures HexDigit(n) == "0123456789ABCDEF"[n]
  {
  }

  lemma {:induction false} EncodesEach(a: string, b: string)
    ensures Encode(a + b) == Encode(a) + Encode(b)
  {
    if a == [] {
      assert a + b == b && Encode(a) + Encode(b) == Encode(b);
    } else {
      assert (a + b)[1..] == a[1..] + b;
      EncodesEach(a[1..], b);
      assert EncodeChar(a[0]) + (Encode(a[1..]) + Encode(b)) == Encode(a) + Encode(b);
    }
  }
}
