/** Shared vocabulary: optional and failure values, bytes and 32-bit words,
    and the decimal rendering JavaScript uses when it turns numbers into text. */
module Base {

  datatype Option<+T> = None | Some(value: T)

  datatype Result<+R, +E> = Ok(value: R) | Err(error: E)

  /** A JavaScript number as far as the modelled code produces one: an
      integer, or `NaN` (an empty range in a draw, a failed `parseInt`). */
  datatype JsNumber = Num(v: int) | NaN

  /** An octet, the element type of a `Uint8Array`. */
  newtype byte = x: int | 0 <= x < 256

  /** An unsigned 32-bit word, the element type of a `Uint32Array`. */
  newtype uint32 = x: int | 0 <= x < 0x1_0000_0000

  predicate IsDigit(c: char) { '0' <= c <= '9' }

  /** The ASCII digit of a value below ten. */
  function DigitChar(d: nat): (c: char)
    requires d < 10
    ensures IsDigit(c) && c as int - '0' as int == d
  {
    (('0' as int) + d) as char
  }

  /** `String(n)` for a non-negative integer: its decimal digits, no leading zeros. */
  function Decimal(n: nat): (s: string)
    ensures |s| >= 1
    ensures forall i :: 0 <= i < |s| ==> IsDigit(s[i])
    ensures |s| > 1 ==> s[0] != '0'
  {
    if n < 10 then [DigitChar(n)] else Decimal(n / 10) + [DigitChar(n % 10)]
  }

  /** The value the digits of `s` denote, read most significant first. */
  function DigitsValue(s: string): (v: int)
    requires forall i :: 0 <= i < |s| ==> IsDigit(s[i])
    ensures v >= 0
  {
    if s == [] then 0
    else
      assert IsDigit(s[|s| - 1]);
      DigitsValue(s[..|s| - 1]) * 10 + (s[|s| - 1] as int - '0' as int)
  }

  /** Decimal rendering loses nothing: the digits read back to the number. */
  lemma {:induction false} DecimalValue(n: nat)
    ensures DigitsValue(Decimal(n)) == n
  {
    if n >= 10 {
      var s := Decimal(n);
      assert s[..|s| - 1] == Decimal(n / 10);
      DecimalValue(n / 10);
    }
  }

  /** How `Uint8Array.prototype.toString` renders a chunk: the decimal
      value of each byte, separated by commas. */
  function ChunkText(chunk: seq<byte>): (s: string)
    ensures |chunk| == 0 <==> s == []
    ensures forall i :: 0 <= i < |s| ==> IsDigit(s[i]) || s[i] == ','
  {
    if |chunk| == 0 then []
    else if |chunk| == 1 then Decimal(chunk[0] as nat)
    else Decimal(chunk[0] as nat) + "," + ChunkText(chunk[1..])
  }

  /** `data.join('')` over an array of chunks: each chunk rendered by
      `ChunkText`, the renderings concatenated with no separator. */
  function JoinChunks(chunks: seq<seq<byte>>): (s: string)
    ensures forall i :: 0 <= i < |s| ==> IsDigit(s[i]) || s[i] == ','
  {
    if chunks == [] then [] else ChunkText(chunks[0]) + JoinChunks(chunks[1..])
  }

  /** A chunk of two or more bytes always renders with a comma in it. */
  lemma ChunkTextHasComma(chunk: seq<byte>)
    requires |chunk| >= 2
    ensures ',' in ChunkText(chunk)
  {
    var d := Decimal(chunk[0] as nat);
    assert ChunkText(chunk) == d + "," + ChunkText(chunk[1..]);
    assert ChunkText(chunk)[|d|] == ',';
  }

  /** A one-byte chunk renders as that byte's decimal digits and nothing else. */
  lemma ChunkTextSingle(b: byte)
    ensures ChunkText([b]) == Decimal(b as nat)
    ensures ',' !in ChunkText([b])
  {
  }

  /** Any chunk of two or more bytes puts a comma into the joined text. */
  lemma {:induction false} JoinChunksHasComma(chunks: seq<seq<byte>>, k: nat)
    requires k < |chunks| && |chunks[k]| >= 2
    ensures ',' in JoinChunks(chunks)
  {
    if k == 0 {
      ChunkTextHasComma(chunks[0]);
      var c := ChunkText(chunks[0]);
      var i :| 0 <= i < |c| && c[i] == ',';
      assert JoinChunks(chunks)[i] == ',';
    } else {
      JoinChunksHasComma(chunks[1..], k - 1);
      var c := ChunkText(chunks[0]);
      var rest := JoinChunks(chunks[1..]);
      var i :| 0 <= i < |rest| && rest[i] == ',';
      assert JoinChunks(chunks)[|c| + i] == ',';
    }
  }

  /** The length of a string's UTF-8 encoding equals its length when every
      character is ASCII; `AsciiBytes` is that encoding. */
  predicate IsAscii(s: string) { forall i :: 0 <= i < |s| ==> s[i] as int < 128 }

  function AsciiBytes(s: string): (b: seq<byte>)
    requires IsAscii(s)
    ensures |b| == |s|
    ensures forall i :: 0 <= i < |s| ==> b[i] as int == s[i] as int
  {
    if s == [] then [] else [s[0] as int as byte] + AsciiBytes(s[1..])
  }

  /** Decoding bytes as text: an ASCII byte becomes its character; a byte
      outside ASCII becomes the replacement character U+FFFD. */
  function DecodeText(b: seq<byte>): (s: string)
    ensures |s| == |b|
    ensures forall i :: 0 <= i < |b| ==>
              (b[i] < 128 ==> s[i] as int == b[i] as int) && (b[i] >= 128 ==> s[i] == '\U{FFFD}')
  {
    if b == [] then [] else [if b[0] < 128 then b[0] as int as char else '\U{FFFD}'] + DecodeText(b[1..])
  }

  /** Encoding an ASCII string and decoding it again gives the string back. */
  lemma AsciiRoundTrip(s: string)
    requires IsAscii(s)
    ensures DecodeText(AsciiBytes(s)) == s
  {
    var b := AsciiBytes(s);
    var t := DecodeText(b);
    assert forall i :: 0 <= i < |s| ==> t[i] == s[i];
  }

  /** A character outside the Basic Multilingual Plane, which UTF-16 writes
      as a surrogate pair. */
  predicate IsAstral(c: char) { c as int >= 0x1_0000 }

  /** JavaScript's `length` of a string: its UTF-16 code units, two for an
      astral character and one for any other. It is the number of
      characters exactly when none is astral. */
  function Utf16Length(s: string): (n: nat)
    ensures |s| <= n <= 2 * |s|
    ensures n == |s| <==> forall i :: 0 <= i < |s| ==> !IsAstral(s[i])
  {
    if s == [] then 0
    else
      var rest := Utf16Length(s[1..]);
      assert forall i :: 1 <= i < |s| ==> s[i] == s[1..][i - 1];
      (if IsAstral(s[0]) then 2 else 1) + rest
  }

  lemma {:induction false} Utf16LengthAppend(a: string, b: string)
    ensures Utf16Length(a + b) == Utf16Length(a) + Utf16Length(b)
  {
    if a == [] {
      assert a + b == b;
    } else {
      assert (a + b)[1..] == a[1..] + b;
      Utf16LengthAppend(a[1..], b);
    }
  }
}
