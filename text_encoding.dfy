/** Text encodings used by the plug-in: the system code page (`Encoding.Default`),
    UTF-8 (`Encoding.UTF8`) and decimal rendering of a number (`long.ToString()`). */
module TextEncoding {
  import opened Common

  /** The system code page, modelled as Latin-1: a character below 256 becomes
      the byte with its code, any other becomes '?' as a replacement. */
  function CodePageByte(c: char): (b: byte)
    ensures (c as int) < 256 ==> b == c as int
  {
    if (c as int) < 256 then c as int else '?' as int
  }

  /** `Encoding.Default.GetBytes`: one byte per character. */
  function GetBytes(s: string): (r: seq<byte>)
    ensures |r| == |s|
    ensures forall i :: 0 <= i < |s| ==> r[i] == CodePageByte(s[i])
  {
    if s == [] then [] else [CodePageByte(s[0])] + GetBytes(s[1..])
  }

  /** `Encoding.Default.GetString`: every byte is the character with its code. */
  function GetString(b: seq<byte>): (r: string)
    ensures |r| == |b|
    ensures forall i :: 0 <= i < |b| ==> r[i] as int == b[i]
  {
    if b == [] then [] else [b[0] as char] + GetString(b[1..])
  }

  /** A string every character of which the code page represents. */
  predicate Representable(s: string)
  {
    forall i :: 0 <= i < |s| ==> (s[i] as int) < 256
  }

  /** Encoding text decoded from bytes gives the bytes back. */
  lemma GetBytesOfGetString(b: seq<byte>)
    ensures GetBytes(GetString(b)) == b
  {
    var s := GetString(b);
    assert forall i :: 0 <= i < |b| ==> GetBytes(s)[i] == b[i];
  }

  /** Decoding encoded text gives the text back exactly when the code page
      represents every character of it. */
  lemma GetStringOfGetBytes(s: string)
    ensures GetString(GetBytes(s)) == s <==> Representable(s)
  {
    var t := GetString(GetBytes(s));
    if Representable(s) {
      assert forall i :: 0 <= i < |s| ==> t[i] == s[i];
    } else {
      var i :| 0 <= i < |s| && (s[i] as int) >= 256;
      assert t[i] as int < 256;
    }
  }

  /** The code page encodes a concatenation piecewise. */
  lemma GetBytesAppend(a: string, b: string)
    ensures GetBytes(a + b) == GetBytes(a) + GetBytes(b)
  {
    var l, r := GetBytes(a + b), GetBytes(a) + GetBytes(b);
    assert forall i :: 0 <= i < |l| ==> l[i] == r[i] by {
      forall i | 0 <= i < |l| ensures l[i] == r[i] {
        if i < |a| { assert (a + b)[i] == a[i]; } else { assert (a + b)[i] == b[i - |a|]; }
      }
    }
  }

  /** The UTF-8 encoding of one character (a Unicode scalar value). */
  function Utf8Char(c: char): (r: seq<byte>)
    ensures 1 <= |r| <= 4
    ensures (c as int) < 0x80 <==> r == [c as int]
  {
    var n := c as int;
    if n < 0x80 then [n]
    else if n < 0x800 then [0xC0 + n / 0x40, 0x80 + n % 0x40]
    else if n < 0x10000 then [0xE0 + n / 0x1000, 0x80 + (n / 0x40) % 0x40, 0x80 + n % 0x40]
    else [0xF0 + (n / 0x40000) % 8, 0x80 + (n / 0x1000) % 0x40, 0x80 + (n / 0x40) % 0x40, 0x80 + n % 0x40]
  }

  /** `Encoding.UTF8.GetBytes`. */
  function Utf8(s: string): seq<byte>
  {
    if s == [] then [] else Utf8Char(s[0]) + Utf8(s[1..])
  }

  /** Text made of ASCII characters only. */
  predicate Ascii(s: string)
  {
    forall i :: 0 <= i < |s| ==> (s[i] as int) < 0x80
  }

  /** UTF-8 encodes a concatenation piecewise, so a message built from lines
      is sent as the lines' encodings one after another. */
  lemma {:induction false} Utf8Append(a: string, b: string)
    ensures Utf8(a + b) == Utf8(a) + Utf8(b)
  {
    if a == [] {
      assert a + b == b;
    } else {
      assert (a + b)[0] == a[0] && (a + b)[1..] == a[1..] + b;
      Utf8Append(a[1..], b);
    }
  }

  /** ASCII text is one byte per character, each byte the character's code. */
  lemma {:induction false} Utf8OfAscii(s: string)
    requires Ascii(s)
    ensures |Utf8(s)| == |s|
    ensures forall i :: 0 <= i < |s| ==> Utf8(s)[i] == s[i] as int
  {
    if s != [] {
      assert Ascii(s[1..]) by {
        forall i | 0 <= i < |s[1..]| ensures (s[1..][i] as int) < 0x80 { assert s[1..][i] == s[i + 1]; }
      }
      Utf8OfAscii(s[1..]);
      forall i | 0 <= i < |s| ensures Utf8(s)[i] == s[i] as int {
        if i > 0 { assert s[1..][i - 1] == s[i]; }
      }
    }
  }

  /** The decimal digit for `d`. */
  function DigitChar(d: nat): (c: char)
    requires d < 10
    ensures '0' <= c <= '9' && (c as int) - ('0' as int) == d
  {
    (('0' as int) + d) as char
  }

  /** `Int64.ToString()` of a non-negative value: decimal, no leading zeros. */
  function NatToString(n: nat): (s: string)
    ensures |s| >= 1
    ensures forall i :: 0 <= i < |s| ==> '0' <= s[i] <= '9'
    ensures s[0] == '0' ==> n == 0
  {
    if n < 10 then [DigitChar(n)] else NatToString(n / 10) + [DigitChar(n % 10)]
  }

  /** The value of a string of decimal digits. */
  function DigitsValue(s: string): nat
    requires forall i :: 0 <= i < |s| ==> '0' <= s[i] <= '9'
  {
    if s == [] then 0 else 10 * DigitsValue(s[..|s| - 1]) + ((s[|s| - 1] as int) - ('0' as int))
  }

  /** Rendering a number in decimal and reading it back gives the number. */
  lemma {:induction false} NatToStringRoundTrip(n: nat)
    ensures DigitsValue(NatToString(n)) == n
  {
    if n >= 10 {
      NatToStringRoundTrip(n / 10);
      var s := NatToString(n);
      assert s[..|s| - 1] == NatToString(n / 10);
    }
  }
}
