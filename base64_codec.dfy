/** The base64 encoding of section 4 of RFC 4648, as `Convert.ToBase64String`
    and `Convert.FromBase64String` apply it: alphabet A-Z a-z 0-9 + /, groups of
    three bytes become four characters, and a short final group is padded with '='. */
module Base64 {
  import opened Common

  /** The character for a 6-bit value (the table of section 4 of RFC 4648). */
  function CharOf(v: nat): (c: char)
    requires v < 64
  {
    if v < 26 then (('A' as int) + v) as char
    else if v < 52 then (('a' as int) + (v - 26)) as char
    else if v < 62 then (('0' as int) + (v - 52)) as char
    else if v == 62 then '+'
    else '/'
  }

  /** The 6-bit value of an alphabet character; None for anything else,
      the pad character '=' included. */
  function ValueOf(c: char): (r: Option<nat>)
    ensures r.Some? ==> r.value < 64 && CharOf(r.value) == c
  {
    if 'A' <= c <= 'Z' then Some((c as int) - ('A' as int))
    else if 'a' <= c <= 'z' then Some((c as int) - ('a' as int) + 26)
    else if '0' <= c <= '9' then Some((c as int) - ('0' as int) + 52)
    else if c == '+' then Some(62)
    else if c == '/' then Some(63)
    else None
  }

  lemma ValueOfCharOf(v: nat)
    requires v < 64
    ensures ValueOf(CharOf(v)) == Some(v)
  {
  }

  /** The 6-bit values of a group put back together give its bytes. */
  lemma RegroupBits(b0: byte, b1: byte, b2: byte)
    ensures (b0 / 4) * 4 + ((b0 % 4) * 16 + b1 / 16) / 16 == b0
    ensures (((b0 % 4) * 16 + b1 / 16) % 16) * 16 + ((b1 % 16) * 4 + b2 / 64) / 4 == b1
    ensures (((b1 % 16) * 4 + b2 / 64) % 4) * 64 + b2 % 64 == b2
  {
    var y0, x0 := b0 % 4, b1 / 16;
    assert 0 <= x0 < 16 && (y0 * 16 + x0) / 16 == y0 && (y0 * 16 + x0) % 16 == x0;
    var y1, x1 := b1 % 16, b2 / 64;
    assert 0 <= x1 < 4 && (y1 * 4 + x1) / 4 == y1 && (y1 * 4 + x1) % 4 == x1;
  }

  /** Four characters for three bytes. */
  function EncodeGroup(b0: byte, b1: byte, b2: byte): (r: string)
    ensures |r| == 4
  {
    [CharOf(b0 / 4), CharOf((b0 % 4) * 16 + b1 / 16), CharOf((b1 % 16) * 4 + b2 / 64), CharOf(b2 % 64)]
  }

  /** `Convert.ToBase64String`. */
  function Encode(b: seq<byte>): (r: string)
    ensures |r| % 4 == 0
    ensures |r| == 0 <==> |b| == 0
    decreases |b|
  {
    if |b| == 0 then ""
    else if |b| == 1 then [CharOf(b[0] / 4), CharOf((b[0] % 4) * 16), '=', '=']
    else if |b| == 2 then [CharOf(b[0] / 4), CharOf((b[0] % 4) * 16 + b[1] / 16), CharOf((b[1] % 16) * 4), '=']
    else EncodeGroup(b[0], b[1], b[2]) + Encode(b[3..])
  }

  /** The bytes of one four-character quantum; `last` says whether padding may
      appear (only the final quantum may carry it). */
  function DecodeQuantum(q: string, last: bool): (r: Option<seq<byte>>)
    requires |q| == 4
    ensures r.Some? ==> 1 <= |r.value| <= 3
  {
    var v0, v1, v2, v3 := ValueOf(q[0]), ValueOf(q[1]), ValueOf(q[2]), ValueOf(q[3]);
    if v0.None? || v1.None? then None
    else
      var b0 := v0.value * 4 + v1.value / 16;
      if last && q[2] == '=' && q[3] == '=' then Some([b0])
      else if v2.None? then None
      else
        var b1 := (v1.value % 16) * 16 + v2.value / 4;
        if last && q[3] == '=' then Some([b0, b1])
        else if v3.None? then None
        else Some([b0, b1, (v2.value % 4) * 64 + v3.value])
  }

  /** `Convert.FromBase64String`; None where it throws a FormatException. */
  function Decode(s: string): (r: Option<seq<byte>>)
    ensures r.Some? ==> |s| % 4 == 0
    ensures r.Some? ==> |r.value| <= 3 * (|s| / 4) && (|s| > 0 ==> 3 * (|s| / 4) - 2 <= |r.value|)
    decreases |s|
  {
    if |s| == 0 then Some([])
    else if |s| < 4 then None
    else
      match DecodeQuantum(s[..4], |s| == 4)
      case None => None
      case Some(head) =>
        if |s| > 4 && |head| < 3 then None
        else
          match Decode(s[4..])
          case None => None
          case Some(tail) => Some(head + tail)
  }

  /** The texts `Convert.FromBase64String` accepts here: whole quanta of
      alphabet characters, where only the last two characters may be the pad
      '=', and a pad in the next-to-last place is followed by another. */
  predicate WellFormed(s: string)
  {
    |s| % 4 == 0
    && (forall i :: 0 <= i < |s| - 2 ==> ValueOf(s[i]).Some?)
    && (|s| >= 4 ==>
          (ValueOf(s[|s| - 2]).Some? || (s[|s| - 2] == '=' && s[|s| - 1] == '='))
          && (ValueOf(s[|s| - 1]).Some? || s[|s| - 1] == '='))
  }

  /** A quantum that is not the last one must be four alphabet characters. */
  lemma InnerQuantum(q: string)
    requires |q| == 4
    ensures DecodeQuantum(q, false).Some? <==> forall i :: 0 <= i < 4 ==> ValueOf(q[i]).Some?
  {
    if forall i :: 0 <= i < 4 ==> ValueOf(q[i]).Some? {
    } else {
      var i :| 0 <= i < 4 && ValueOf(q[i]).None?;
      assert i == 0 || i == 1 || i == 2 || i == 3;
    }
  }

  /** A text of two quanta or more is well formed exactly when its first
      quantum is four alphabet characters and the rest is well formed. */
  lemma WellFormedCons(s: string)
    requires |s| >= 8
    ensures WellFormed(s) <==> (forall i :: 0 <= i < 4 ==> ValueOf(s[i]).Some?) && WellFormed(s[4..])
  {
    var t := s[4..];
    assert t[|t| - 2] == s[|s| - 2] && t[|t| - 1] == s[|s| - 1];
    if WellFormed(s) {
      forall i | 0 <= i < |t| - 2 ensures ValueOf(t[i]).Some? {
        assert t[i] == s[i + 4];
      }
    }
    if (forall i :: 0 <= i < 4 ==> ValueOf(s[i]).Some?) && WellFormed(t) {
      forall i | 0 <= i < |s| - 2 ensures ValueOf(s[i]).Some? {
        if i >= 4 { assert s[i] == t[i - 4]; }
      }
    }
  }

  /** `Decode` succeeds exactly on well-formed text. */
  lemma {:induction false} DecodeWellFormed(s: string)
    ensures Decode(s).Some? <==> WellFormed(s)
    decreases |s|
  {
    if |s| == 0 {
    } else if |s| < 4 {
    } else if |s| == 4 {
      assert s[..4] == s && s[4..] == [];
      assert Decode(s[4..]) == Some([]);
    } else {
      DecodeWellFormed(s[4..]);
      InnerQuantum(s[..4]);
      assert forall i :: 0 <= i < 4 ==> s[..4][i] == s[i];
      if |s| >= 8 {
        WellFormedCons(s);
      }
    }
  }

  /** A full group decodes to its three bytes, wherever it stands. */
  lemma DecodeGroup(b0: byte, b1: byte, b2: byte, last: bool)
    ensures DecodeQuantum(EncodeGroup(b0, b1, b2), last) == Some([b0, b1, b2])
  {
    RegroupBits(b0, b1, b2);
    ValueOfCharOf(b0 / 4);
    ValueOfCharOf((b0 % 4) * 16 + b1 / 16);
    ValueOfCharOf((b1 % 16) * 4 + b2 / 64);
    ValueOfCharOf(b2 % 64);
  }

  /** A final single byte decodes through its two pad characters. */
  lemma DecodePaddedOne(b0: byte)
    ensures DecodeQuantum([CharOf(b0 / 4), CharOf((b0 % 4) * 16), '=', '='], true) == Some([b0])
  {
    RegroupBits(b0, 0, 0);
    ValueOfCharOf(b0 / 4);
    ValueOfCharOf((b0 % 4) * 16);
  }

  /** A final pair of bytes decodes through its pad character. */
  lemma DecodePaddedTwo(b0: byte, b1: byte)
    ensures DecodeQuantum([CharOf(b0 / 4), CharOf((b0 % 4) * 16 + b1 / 16), CharOf((b1 % 16) * 4), '='], true)
         == Some([b0, b1])
  {
    RegroupBits(b0, b1, 0);
    ValueOfCharOf(b0 / 4);
    ValueOfCharOf((b0 % 4) * 16 + b1 / 16);
    ValueOfCharOf((b1 % 16) * 4);
  }

  /** Decoding a text that is one final quantum. */
  lemma DecodeLast(q: string, bytes: seq<byte>)
    requires |q| == 4 && DecodeQuantum(q, true) == Some(bytes)
    ensures Decode(q) == Some(bytes)
  {
    assert q[..4] == q && q[4..] == [];
    assert bytes + [] == bytes;
  }

  /** Decoding a full group followed by more text. */
  lemma DecodeCons(g: string, rest: string, bytes: seq<byte>, tail: seq<byte>)
    requires |g| == 4 && |bytes| == 3
    requires DecodeQuantum(g, |rest| == 0) == Some(bytes)
    requires Decode(rest) == Some(tail)
    ensures Decode(g + rest) == Some(bytes + tail)
  {
    var s := g + rest;
    assert s[..4] == g && s[4..] == rest;
  }

  /** The round trip for a single byte. */
  lemma DecodeEncodeOne(b0: byte)
    ensures Decode(Encode([b0])) == Some([b0])
  {
    var e := [CharOf(b0 / 4), CharOf((b0 % 4) * 16), '=', '='];
    assert Encode([b0]) == e;
    DecodePaddedOne(b0);
    DecodeLast(e, [b0]);
  }

  /** The round trip for two bytes. */
  lemma DecodeEncodeTwo(b0: byte, b1: byte)
    ensures Decode(Encode([b0, b1])) == Some([b0, b1])
  {
    var e := [CharOf(b0 / 4), CharOf((b0 % 4) * 16 + b1 / 16), CharOf((b1 % 16) * 4), '='];
    assert Encode([b0, b1]) == e;
    DecodePaddedTwo(b0, b1);
    DecodeLast(e, [b0, b1]);
  }

  /** Decoding undoes encoding (the round trip of section 4 of RFC 4648). */
  lemma {:induction false} DecodeEncode(b: seq<byte>)
    ensures Decode(Encode(b)) == Some(b)
    decreases |b|
  {
    if |b| == 0 {
    } else if |b| == 1 {
      DecodeEncodeOne(b[0]);
      assert b == [b[0]];
    } else if |b| == 2 {
      DecodeEncodeTwo(b[0], b[1]);
      assert b == [b[0], b[1]];
    } else {
      DecodeEncode(b[3..]);
      DecodeEncodeStep(b);
    }
  }

  /** The round trip extends from the rest of the input to a leading group. */
  lemma DecodeEncodeStep(b: seq<byte>)
    requires |b| >= 3 && Decode(Encode(b[3..])) == Some(b[3..])
    ensures Decode(Encode(b)) == Some(b)
  {
    var rest := Encode(b[3..]);
    var g := EncodeGroup(b[0], b[1], b[2]);
    assert Encode(b) == g + rest;
    DecodeGroup(b[0], b[1], b[2], |rest| == 0);
    DecodeCons(g, rest, [b[0], b[1], b[2]], b[3..]);
    SplitGroup(b);
  }

  lemma SplitGroup<T>(b: seq<T>)
    requires |b| >= 3
    ensures [b[0], b[1], b[2]] + b[3..] == b
  {
  }

  /** n bytes encode to 4 * ceil(n / 3) characters. */
  lemma {:induction false} EncodedLength(b: seq<byte>)
    ensures |Encode(b)| == 4 * ((|b| + 2) / 3)
    decreases |b|
  {
    if |b| >= 3 {
      EncodedLength(b[3..]);
      assert |Encode(b)| == 4 + |Encode(b[3..])|;
      assert (|b| + 2) / 3 == 1 + (|b[3..]| + 2) / 3;
    }
  }

  /** Every character of an encoding is in the alphabet or is padding. */
  lemma {:induction false} EncodeAlphabet(b: seq<byte>)
    ensures forall i :: 0 <= i < |Encode(b)| ==> ValueOf(Encode(b)[i]).Some? || Encode(b)[i] == '='
    decreases |b|
  {
    var e := Encode(b);
    if |b| == 1 {
      ValueOfCharOf(b[0] / 4);
      ValueOfCharOf((b[0] % 4) * 16);
    } else if |b| == 2 {
      ValueOfCharOf(b[0] / 4);
      ValueOfCharOf((b[0] % 4) * 16 + b[1] / 16);
      ValueOfCharOf((b[1] % 16) * 4);
    } else if |b| >= 3 {
      ValueOfCharOf(b[0] / 4);
      ValueOfCharOf((b[0] % 4) * 16 + b[1] / 16);
      ValueOfCharOf((b[1] % 16) * 4 + b[2] / 64);
      ValueOfCharOf(b[2] % 64);
      EncodeAlphabet(b[3..]);
      var g := EncodeGroup(b[0], b[1], b[2]);
      assert e == g + Encode(b[3..]);
      forall i | 0 <= i < |e| ensures ValueOf(e[i]).Some? || e[i] == '=' {
        if i >= 4 { assert e[i] == Encode(b[3..])[i - 4]; }
      }
    }
  }
}
