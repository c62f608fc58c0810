/** `Base64String`: an immutable wrapper that keeps a password only in its
    base64 form, so that it is not shown as plain text. */
module Base64Strings {
  import opened Common
  import opened TextEncoding
  import Base64

  /** The one field holds the encoded text. */
  datatype Base64String = Base64String(base64value: string)
  {
    /** The length of the encoded text (not of the plain text). */
    function Length(): (n: nat)
      ensures n == |ToString(this)|
    {
      |base64value|
    }
  }

  /** The encoding of a plain string: its code-page bytes in base64. */
  function EncodeTo64(plain: string): (r: Base64String)
    ensures Base64.Decode(r.base64value) == Some(GetBytes(plain))
    ensures r.Length() == 4 * ((|plain| + 2) / 3)
  {
    Base64.DecodeEncode(GetBytes(plain));
    Base64.EncodedLength(GetBytes(plain));
    Base64String(Base64.Encode(GetBytes(plain)))
  }

  /** The plain string behind an encoded text; None where the text is not
      base64 and `Convert.FromBase64String` throws. */
  function DecodeFrom64(encoded: string): (r: Option<string>)
    ensures r.Some? <==> Base64.Decode(encoded).Some?
    ensures r.Some? <==> Base64.WellFormed(encoded)
    ensures r.Some? ==> GetBytes(r.value) == Base64.Decode(encoded).value && Representable(r.value)
  {
    Base64.DecodeWellFormed(encoded);
    match Base64.Decode(encoded)
    case None => None
    case Some(bytes) =>
      GetBytesOfGetString(bytes);
      Some(GetString(bytes))
  }

  /** Encoding then decoding gives back every string the code page can
      represent; other characters come back as '?'. */
  lemma DecodeFrom64EncodeTo64(plain: string)
    ensures DecodeFrom64(EncodeTo64(plain).base64value) == Some(GetString(GetBytes(plain)))
    ensures Representable(plain) ==> DecodeFrom64(EncodeTo64(plain).base64value) == Some(plain)
  {
    GetStringOfGetBytes(plain);
  }

  /** The default constructor: the empty encoded string. */
  function Default(): (r: Base64String)
    ensures r.Length() == 0
  {
    Base64String("")
  }

  /** The constructor that takes a plain string, and the implicit conversion
      from `string`: both store the encoding. */
  function FromPlain(plain: string): (r: Base64String)
    ensures DecodeFrom64(r.base64value) == Some(GetString(GetBytes(plain)))
    ensures r.Length() == 0 <==> plain == ""
  {
    DecodeFrom64EncodeTo64(plain);
    EncodeTo64(plain)
  }

  /** The constructor with an `encode` flag: verbatim when it is false. */
  function FromString(s: string, encode: bool): (r: Base64String)
    ensures !encode ==> r.base64value == s
    ensures encode ==> r == FromPlain(s)
  {
    if encode then FromPlain(s) else Base64String(s)
  }

  /** The copy constructor. */
  function Copy(other: Base64String): (r: Base64String)
    ensures r.base64value == other.base64value
  {
    Base64String(other.base64value)
  }

  /** The implicit conversion to `string`: the encoded text, null for null. */
  function ToText(o: Option<Base64String>): (r: Option<string>)
    ensures o.None? <==> r.None?
    ensures o.Some? ==> r == Some(o.value.base64value)
  {
    match o
    case None => None
    case Some(b) => Some(b.base64value)
  }

  /** `ToString`: the encoded text, never the plain text. */
  function ToString(b: Base64String): (r: string)
    ensures r == ToText(Some(b)).value
  {
    b.base64value
  }

  /** `prefix`: a new value whose plain text is `plain` followed by the plain
      text of `b`; None where the stored text is not base64 (the decode throws). */
  function Prefix(b: Base64String, plain: string): (r: Option<Base64String>)
    ensures r.Some? <==> Base64.Decode(b.base64value).Some?
    ensures r.Some? ==> Base64.Decode(r.value.base64value) == Some(GetBytes(plain) + Base64.Decode(b.base64value).value)
    ensures r.Some? ==> r.value.base64value == Base64.Encode(GetBytes(plain) + Base64.Decode(b.base64value).value)
  {
    match DecodeFrom64(b.base64value)
    case None => None
    case Some(inner) =>
      GetBytesAppend(plain, inner);
      Some(EncodeTo64(plain + inner))
  }

  /** The prefixed value's plain text, read back through `DecodeFrom64`, is
      the prefix followed by the original plain text, whenever both are
      representable in the code page. */
  lemma PrefixDecodes(b: Base64String, plain: string)
    requires DecodeFrom64(b.base64value).Some?
    requires Representable(plain)
    ensures Prefix(b, plain).Some?
    ensures DecodeFrom64(Prefix(b, plain).value.base64value) == Some(plain + DecodeFrom64(b.base64value).value)
  {
    var inner := DecodeFrom64(b.base64value).value;
    assert Representable(plain + inner) by {
      forall i | 0 <= i < |plain + inner| ensures ((plain + inner)[i] as int) < 256 {
        if i >= |plain| { assert (plain + inner)[i] == inner[i - |plain|]; }
      }
    }
    DecodeFrom64EncodeTo64(plain + inner);
  }
}
