/**
 * The URL- and filename-safe base64 alphabet of RFC 4648 section 5, with '=' padding,
 * as Go's base64.URLEncoding writes it: every three bytes become four six-bit values,
 * and a final group of one or two bytes is completed with one or two padding symbols.
 * Encoding is split into the six-bit values (Sextets) and their characters (Render);
 * decoding reverses the two steps (Scan, then Assemble).
 */
module Base64Url {
  import opened Wrappers

  type byte = x: int | 0 <= x < 256

  /** The value that stands for the padding character '='. */
  const Pad := 64

  /** A character of the base64url alphabet: A-Z, a-z, 0-9, '-' and '_'. */
  predicate IsUrlChar(c: char) {
    'A' <= c <= 'Z' || 'a' <= c <= 'z' || '0' <= c <= '9' || c == '-' || c == '_'
  }

  /** The character for a six-bit value, or '=' for Pad. */
  function Symbol(v: int): (c: char)
    requires 0 <= v <= Pad
    ensures v < Pad ==> IsUrlChar(c)
    ensures v == Pad ==> c == '='
  {
    if v < 26 then ('A' as int + v) as char
    else if v < 52 then ('a' as int + (v - 26)) as char
    else if v < 62 then ('0' as int + (v - 52)) as char
    else if v == 62 then '-'
    else if v == 63 then '_'
    else '='
  }

  /** The value of a character: its six bits, Pad for '=', None outside the alphabet. */
  function ValueOfSymbol(c: char): (r: Option<int>)
    ensures r.Some? <==> IsUrlChar(c) || c == '='
    ensures r.Some? ==> 0 <= r.value <= Pad && (r.value == Pad <==> c == '=')
  {
    if 'A' <= c <= 'Z' then Some(c as int - 'A' as int)
    else if 'a' <= c <= 'z' then Some(c as int - 'a' as int + 26)
    else if '0' <= c <= '9' then Some(c as int - '0' as int + 52)
    else if c == '-' then Some(62)
    else if c == '_' then Some(63)
    else if c == '=' then Some(Pad)
    else None
  }

  /** Every value is read back from its character. */
  lemma ValueOfSymbolOf(v: int)
    requires 0 <= v <= Pad
    ensures ValueOfSymbol(Symbol(v)) == Some(v)
  {
  }

  predicate AllValues(v: seq<int>) {
    forall i :: 0 <= i < |v| ==> 0 <= v[i] <= Pad
  }

  /** The six-bit values of the bytes, four per started group of three, padded with Pad. */
  function Sextets(b: seq<byte>): (v: seq<int>)
    ensures AllValues(v)
  {
    if |b| == 0 then []
    else if |b| == 1 then [b[0] / 4, (b[0] % 4) * 16, Pad, Pad]
    else if |b| == 2 then [b[0] / 4, (b[0] % 4) * 16 + b[1] / 16, (b[1] % 16) * 4, Pad]
    else [b[0] / 4, (b[0] % 4) * 16 + b[1] / 16, (b[1] % 16) * 4 + b[2] / 64, b[2] % 64] + Sextets(b[3..])
  }

  /** The characters of a sequence of values. */
  function Render(v: seq<int>): (s: string)
    requires AllValues(v)
    ensures |s| == |v|
    ensures forall i :: 0 <= i < |v| ==> s[i] == Symbol(v[i])
  {
    if v == [] then [] else [Symbol(v[0])] + Render(v[1..])
  }

  /**
   * base64.URLEncoding.EncodeToString: four characters per started group of three
   * bytes, each from the URL-safe alphabet or the padding '='.
   */
  function Encode(b: seq<byte>): (s: string)
    ensures |s| == 4 * ((|b| + 2) / 3)
    ensures forall i :: 0 <= i < |s| ==> IsUrlChar(s[i]) || s[i] == '='
  {
    SextetsLength(b);
    Render(Sextets(b))
  }

  /** The values of a string's characters; None if one is outside the alphabet and not '='. */
  function Scan(s: string): (r: Option<seq<int>>)
    ensures r.Some? ==> |r.value| == |s| && AllValues(r.value)
  {
    if s == [] then Some([])
    else
      match ValueOfSymbol(s[0])
      case None => None
      case Some(x) =>
        match Scan(s[1..])
        case None => None
        case Some(more) => Some([x] + more)
  }

  /**
   * Groups of four values back to bytes. Padding may appear only at the end of the last
   * group, as "x x Pad Pad" (one byte) or "x x x Pad" (two bytes); the bits that the
   * padding leaves over are ignored.
   */
  function Assemble(v: seq<int>): Option<seq<byte>>
    requires AllValues(v)
  {
    if v == [] then Some([])
    else if |v| < 4 || v[0] == Pad || v[1] == Pad then None
    else if v[2] == Pad then
      if v[3] == Pad && |v| == 4 then Some([v[0] * 4 + v[1] / 16]) else None
    else if v[3] == Pad then
      if |v| == 4 then Some([v[0] * 4 + v[1] / 16, (v[1] % 16) * 16 + v[2] / 4]) else None
    else
      match Assemble(v[4..])
      case None => None
      case Some(more) =>
        Some([v[0] * 4 + v[1] / 16, (v[1] % 16) * 16 + v[2] / 4, (v[2] % 4) * 64 + v[3]] + more)
  }

  /** The decoder partner of Encode. */
  function Decode(s: string): Option<seq<byte>> {
    match Scan(s)
    case None => None
    case Some(v) => Assemble(v)
  }

  /** Scanning rendered values gives them back. */
  lemma {:induction false} ScanRender(v: seq<int>)
    requires AllValues(v)
    ensures Scan(Render(v)) == Some(v)
  {
    if v != [] {
      var s := Render(v);
      ValueOfSymbolOf(v[0]);
      ScanRender(v[1..]);
      assert s[1..] == Render(v[1..]);
      assert [v[0]] + v[1..] == v;
    }
  }

  /** Assembling the values of some bytes gives back the bytes. */
  lemma {:induction false} AssembleSextets(b: seq<byte>)
    ensures Assemble(Sextets(b)) == Some(b)
    decreases |b|
  {
    var v := Sextets(b);
    if |b| == 1 {
      assert b == [b[0]];
    } else if |b| == 2 {
      assert b == [b[0], b[1]];
    } else if |b| >= 3 {
      AssembleSextets(b[3..]);
      assert v[4..] == Sextets(b[3..]);
      assert b == [b[0], b[1], b[2]] + b[3..];
    }
  }

  /** Decoding what Encode wrote gives back the bytes. */
  lemma DecodeEncode(b: seq<byte>)
    ensures Decode(Encode(b)) == Some(b)
  {
    ScanRender(Sextets(b));
    AssembleSextets(b);
  }

  /** Encoding is injective: different byte strings never give the same key. */
  lemma EncodeInjective(a: seq<byte>, b: seq<byte>)
    requires Encode(a) == Encode(b)
    ensures a == b
  {
    DecodeEncode(a);
    DecodeEncode(b);
  }

  /** The number of padding values Sextets appends: none, two or one. */
  function PadLength(n: nat): nat {
    if n % 3 == 0 then 0 else 3 - n % 3
  }

  /** Every started group of three bytes takes four values. */
  lemma {:induction false} SextetsLength(b: seq<byte>)
    ensures |Sextets(b)| == 4 * ((|b| + 2) / 3)
    decreases |b|
  {
    if |b| >= 3 {
      SextetsLength(b[3..]);
      assert (|b| + 2) / 3 == (|b[3..]| + 2) / 3 + 1;
    }
  }

  /** All values are six-bit values except the last PadLength(|b|), which are padding. */
  lemma {:induction false} SextetsLayout(b: seq<byte>)
    ensures var v := Sextets(b);
      PadLength(|b|) <= |v|
      && (forall i :: 0 <= i < |v| - PadLength(|b|) ==> v[i] < Pad)
      && (forall i :: |v| - PadLength(|b|) <= i < |v| ==> v[i] == Pad)
    decreases |b|
  {
    if |b| >= 3 {
      SextetsLayout(b[3..]);
      var v, w := Sextets(b), Sextets(b[3..]);
      assert PadLength(|b|) == PadLength(|b[3..]|);
      assert v == v[..4] + w;
      forall i | 4 <= i < |v|
        ensures v[i] == w[i - 4]
      {
      }
    }
  }

  /**
   * The shape of a generated API key: 32 bytes give 44 characters, 43 from the alphabet
   * followed by one '=' (32 = 3 * 10 + 2 leaves a two-byte final group).
   */
  lemma KeyShape(b: seq<byte>)
    requires |b| == 32
    ensures |Encode(b)| == 44
    ensures forall i :: 0 <= i < 43 ==> IsUrlChar(Encode(b)[i])
    ensures Encode(b)[43] == '='
  {
    SextetsLength(b);
    SextetsLayout(b);
  }
}
