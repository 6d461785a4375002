/** Request validation and response shaping (`src/dataHandler.ts`, class
    `DataHandler`): a bounded body reader, the two validators built on it,
    and the responses sent after a store operation. */
module DataHandler {
  import opened Base
  import opened Entropy
  import opened Rows

  /** What the handlers read from a request: the url, the method, the two
      headers the reader consults (absent when not sent) and the body as
      the sequence of chunks it arrives in. */
  datatype Request = Request(url: Option<string>, verb: string, contentType: Option<string>,
                             contentLength: Option<string>, body: seq<seq<byte>>)

  /** What `respond` is given: a status, the headers and the body text
      (absent when the response has none). */
  datatype Response = Response(status: int, headers: map<string, string>, body: Option<string>)

  /** The two errors `getString` throws. */
  datatype ReadError = IncorrectContentType(contentType: string) | TooMuchData

  const TextPlain: string := "text/plain"

  /** The body limits of `validateAdd` and `validateDelete`. */
  const AddLimit: nat := 1024
  const DeleteLimit: nat := 36

  /** The one error `validateDelete` lets through. */
  const ParseError: string := "Error parsing data"

  // ---------------------------------------------------------------------
  // parseInt(s, 10)
  // ---------------------------------------------------------------------

  /** The characters `parseInt` skips before the number: white space and
      line terminators of ECMAScript (section 7.2 and 7.3 of ECMA-262). */
  predicate IsJsSpace(c: char) {
    || c == '\t' || c == '\n' || c == '\U{000B}' || c == '\U{000C}' || c == '\r' || c == ' '
    || c == '\U{00A0}' || c == '\U{1680}' || ('\U{2000}' <= c <= '\U{200A}')
    || c == '\U{2028}' || c == '\U{2029}' || c == '\U{202F}' || c == '\U{205F}'
    || c == '\U{3000}' || c == '\U{FEFF}'
  }

  /** `s` without its leading white space. */
  function TrimStart(s: string): string {
    if s == [] || !IsJsSpace(s[0]) then s else TrimStart(s[1..])
  }

  /** `TrimStart` removes a prefix made of white space, and exactly all of it. */
  lemma {:induction false} TrimStartMeaning(s: string)
    ensures |TrimStart(s)| <= |s| && TrimStart(s) == s[|s| - |TrimStart(s)|..]
    ensures TrimStart(s) == [] || !IsJsSpace(TrimStart(s)[0])
    ensures forall i :: 0 <= i < |s| - |TrimStart(s)| ==> IsJsSpace(s[i])
  {
    if s != [] && IsJsSpace(s[0]) {
      TrimStartMeaning(s[1..]);
      var t := TrimStart(s[1..]);
      assert s[1..][|s[1..]| - |t|..] == s[|s| - |t|..];
    }
  }

  /** The longest run of decimal digits at the start of `s`. */
  function DigitPrefix(s: string): (d: string)
    ensures forall i :: 0 <= i < |d| ==> IsDigit(d[i])
  {
    if s == [] || !IsDigit(s[0]) then []
    else [s[0]] + DigitPrefix(s[1..])
  }

  /** `DigitPrefix` is a prefix, and it stops at the first non-digit. */
  lemma {:induction false} DigitPrefixMeaning(s: string)
    ensures |DigitPrefix(s)| <= |s| && DigitPrefix(s) == s[..|DigitPrefix(s)|]
    ensures |DigitPrefix(s)| < |s| ==> !IsDigit(s[|DigitPrefix(s)|])
  {
    if s != [] && IsDigit(s[0]) {
      DigitPrefixMeaning(s[1..]);
    }
  }

  /** `parseInt(s, 10)`: skip leading white space, read an optional sign,
      then the longest digit run. The result is `NaN` exactly when no digit
      follows the white space and the sign, and it is negative only after a
      `-`. */
  function ParseInt(s: string): (r: JsNumber)
    ensures r == NaN <==> Unsigned(TrimStart(s)) == [] || !IsDigit(Unsigned(TrimStart(s))[0])
    ensures r.Num? && r.v < 0 ==> TrimStart(s)[0] == '-'
  {
    ParseSigned(TrimStart(s))
  }

  /** `t` without its leading sign, if it has one. */
  function Unsigned(t: string): string {
    if |t| > 0 && (t[0] == '-' || t[0] == '+') then t[1..] else t
  }

  /** The part of `parseInt` after the white space: sign, then digits. */
  function ParseSigned(t: string): JsNumber {
    var digits := DigitPrefix(Unsigned(t));
    if digits == [] then NaN
    else if |t| > 0 && t[0] == '-' then Num(-DigitsValue(digits))
    else Num(DigitsValue(digits))
  }

  /** The digit run of a digit string followed by a non-digit (or by
      nothing) is that digit string. */
  lemma {:induction false} DigitPrefixStops(d: string, tail: string)
    requires forall i :: 0 <= i < |d| ==> IsDigit(d[i])
    requires tail == [] || !IsDigit(tail[0])
    ensures DigitPrefix(d + tail) == d
  {
    if d == [] {
      assert d + tail == tail;
    } else {
      assert (d + tail)[1..] == d[1..] + tail;
      DigitPrefixStops(d[1..], tail);
    }
  }

  /** White space in front of text that does not start with white space is
      skipped entirely. */
  lemma {:induction false} TrimStartSpaces(w: string, t: string)
    requires forall i :: 0 <= i < |w| ==> IsJsSpace(w[i])
    requires t == [] || !IsJsSpace(t[0])
    ensures TrimStart(w + t) == t
  {
    if w == [] {
      assert w + t == t;
    } else {
      assert (w + t)[1..] == w[1..] + t;
      TrimStartSpaces(w[1..], t);
    }
  }

  /** Text that starts with a digit is read from its first character on. */
  lemma ParseIntOfDigits(s: string)
    requires |s| >= 1 && forall i :: 0 <= i < |s| ==> IsDigit(s[i])
    ensures ParseInt(s) == Num(DigitsValue(s))
  {
    TrimStartSpaces([], s);
    assert [] + s == s;
    DigitPrefixStops(s, []);
    assert s + [] == s;
  }

  /** `parseInt` reads back what `String(n)` wrote. */
  lemma ParseIntDecimal(n: nat)
    ensures ParseInt(Decimal(n)) == Num(n)
  {
    ParseIntOfDigits(Decimal(n));
    DecimalValue(n);
  }

  /** Any leading white space, an optional sign, and whatever follows the
      digits do not disturb the value read: `parseInt` of
      `<spaces><sign><digits of n><tail>` is `n`, or `-n` after a `-`. */
  lemma ParseIntSpacesAndSign(w: string, sign: string, n: nat, tail: string)
    requires forall i :: 0 <= i < |w| ==> IsJsSpace(w[i])
    requires sign == "" || sign == "+" || sign == "-"
    requires tail == [] || !IsDigit(tail[0])
    ensures ParseInt(w + sign + Decimal(n) + tail) == Num(if sign == "-" then -(n as int) else n)
  {
    var d := Decimal(n);
    var t := sign + (d + tail);
    assert w + sign + d + tail == w + t;
    UnsignedAfterSign(sign, d + tail);
    TrimStartSpaces(w, t);
    DigitPrefixStops(d, tail);
    DecimalValue(n);
  }

  /** A sign in front of text that starts with a digit is what `Unsigned` drops. */
  lemma UnsignedAfterSign(sign: string, u: string)
    requires sign == "" || sign == "+" || sign == "-"
    requires |u| >= 1 && IsDigit(u[0])
    ensures Unsigned(sign + u) == u && !IsJsSpace((sign + u)[0])
    ensures |sign + u| > 0 && ((sign + u)[0] == '-' <==> sign == "-")
  {
    if sign == "" {
      assert sign + u == u;
    } else {
      assert (sign + u)[1..] == u;
    }
  }

  /** Text with no digit after its white space and its sign is `NaN`:
      `parseInt` of `<spaces><sign><u>` is `NaN` when `u` does not start
      with a digit (and, without a sign, does not start with more white
      space or a sign, which would belong to the first two parts). */
  lemma ParseIntNoDigits(w: string, sign: string, u: string)
    requires forall i :: 0 <= i < |w| ==> IsJsSpace(w[i])
    requires sign == "" || sign == "+" || sign == "-"
    requires u == [] || !IsDigit(u[0])
    requires sign == "" && u != [] ==> !IsJsSpace(u[0]) && u[0] != '-' && u[0] != '+'
    ensures ParseInt(w + sign + u) == NaN
  {
    var t := sign + u;
    assert w + sign + u == w + t;
    if sign == "" {
      assert t == u;
    } else {
      assert t[0] == sign[0] && t[1..] == u;
    }
    TrimStartSpaces(w, t);
    assert Unsigned(t) == u;
  }

  // ---------------------------------------------------------------------
  // getString
  // ---------------------------------------------------------------------

  /** JavaScript's `value || fallback` on a header: a missing or empty
      value is replaced. */
  function HeaderOr(h: Option<string>, fallback: string): (s: string)
    ensures h.Some? && h.value != "" ==> s == h.value
    ensures h.None? || h.value == "" ==> s == fallback
  {
    if h.Some? && h.value != "" then h.value else fallback
  }

  /** The size `getString` compares with its limit: the declared
      `content-length`, or `sizeLimit + 1` written out when there is none. */
  function DeclaredSize(contentLength: Option<string>, sizeLimit: nat): JsNumber {
    ParseInt(HeaderOr(contentLength, Decimal(sizeLimit + 1)))
  }

  /** `size > sizeLimit`; a comparison with `NaN` is false. */
  predicate DeclaredTooLarge(contentLength: Option<string>, sizeLimit: nat) {
    var size := DeclaredSize(contentLength, sizeLimit);
    size.Num? && size.v > sizeLimit
  }

  /** The number of bytes in a sequence of chunks. */
  function Total(chunks: seq<seq<byte>>): nat {
    if chunks == [] then 0 else |chunks[0]| + Total(chunks[1..])
  }

  lemma {:induction false} TotalAppend(a: seq<seq<byte>>, b: seq<seq<byte>>)
    ensures Total(a + b) == Total(a) + Total(b)
  {
    if a == [] {
      assert a + b == b;
    } else {
      assert (a + b)[1..] == a[1..] + b;
      TotalAppend(a[1..], b);
    }
  }

  function Shift(k: Option<nat>, d: nat): Option<nat> {
    if k.None? then None else Some(k.value + d)
  }

  lemma ShiftShift(k: Option<nat>, i: nat)
    ensures Shift(Shift(k, 1), i) == Shift(k, i + 1)
  {
  }

  /** The index of the chunk that takes the running total above `budget`,
      if any: what the streaming loop of `getString` stops at. */
  function FirstOverflow(chunks: seq<seq<byte>>, budget: nat): (k: Option<nat>)
    ensures k.Some? ==> k.value < |chunks|
  {
    if chunks == [] then None
    else if |chunks[0]| > budget then Some(0)
    else Shift(FirstOverflow(chunks[1..], budget - |chunks[0]|), 1)
  }

  /** The loop stops exactly when the whole body is over the limit, and at
      the first chunk whose running total passes it. */
  lemma {:induction false} FirstOverflowMeaning(chunks: seq<seq<byte>>, budget: nat)
    ensures FirstOverflow(chunks, budget).None? <==> Total(chunks) <= budget
    ensures FirstOverflow(chunks, budget).Some? ==>
              var k := FirstOverflow(chunks, budget).value;
              Total(chunks[..k]) <= budget < Total(chunks[..k + 1])
  {
    if chunks != [] {
      if |chunks[0]| > budget {
        assert chunks[..1] == [chunks[0]];
        assert chunks[..0] == [];
        TotalAppend([chunks[0]], []);
      } else {
        FirstOverflowMeaning(chunks[1..], budget - |chunks[0]|);
        var rest := FirstOverflow(chunks[1..], budget - |chunks[0]|);
        if rest.Some? {
          var k := rest.value;
          assert chunks[..k + 1] == [chunks[0]] + chunks[1..][..k];
          assert chunks[..k + 2] == [chunks[0]] + chunks[1..][..k + 1];
          TotalAppend([chunks[0]], chunks[1..][..k]);
          TotalAppend([chunks[0]], chunks[1..][..k + 1]);
        }
      }
    }
  }

  /** One step of the scan from position `i`. */
  lemma OverflowStep(chunks: seq<seq<byte>>, i: nat, budget: nat)
    requires i < |chunks|
    ensures FirstOverflow(chunks[i..], budget)
         == if |chunks[i]| > budget then Some(0) else Shift(FirstOverflow(chunks[i + 1..], budget - |chunks[i]|), 1)
  {
    assert chunks[i..][1..] == chunks[i + 1..];
  }

  /** What `getString(req, sizeLimit)` resolves to: the content type is
      checked first, then the declared length, then the bytes that arrive;
      on success the chunks are joined as `data.join('')` does. */
  function ReadBody(req: Request, sizeLimit: nat): (r: Result<string, ReadError>)
    ensures r.Ok? ==> r.value == JoinChunks(req.body) && Total(req.body) <= sizeLimit
    ensures r == Err(IncorrectContentType(HeaderOr(req.contentType, ""))) <==> HeaderOr(req.contentType, "") != TextPlain
  {
    FirstOverflowMeaning(req.body, sizeLimit);
    var contentType := HeaderOr(req.contentType, "");
    if contentType != TextPlain then Err(IncorrectContentType(contentType))
    else if DeclaredTooLarge(req.contentLength, sizeLimit) then Err(TooMuchData)
    else if FirstOverflow(req.body, sizeLimit).Some? then Err(TooMuchData)
    else Ok(JoinChunks(req.body))
  }

  /** How many chunks `getString` takes from the body. */
  function ChunksRead(req: Request, sizeLimit: nat): nat {
    if HeaderOr(req.contentType, "") != TextPlain || DeclaredTooLarge(req.contentLength, sizeLimit) then 0
    else if FirstOverflow(req.body, sizeLimit).Some? then FirstOverflow(req.body, sizeLimit).value + 1
    else |req.body|
  }

  /** `getString`: the two header checks, then the streaming loop. */
  method GetString(req: Request, sizeLimit: nat) returns (res: Result<string, ReadError>, read: nat)
    ensures res == ReadBody(req, sizeLimit)
    ensures read == ChunksRead(req, sizeLimit)
  {
    var contentType := HeaderOr(req.contentType, "");
    var size := DeclaredSize(req.contentLength, sizeLimit);
    if contentType != TextPlain {
      return Err(IncorrectContentType(contentType)), 0;
    } else if size.Num? && size.v > sizeLimit {
      return Err(TooMuchData), 0;
    }
    res, read := Stream(req.body, sizeLimit);
  }

  /** The `for await` loop of `getString`, with its running byte count and
      the array of chunks it collects: it fails at the first chunk that
      takes the count above the limit. */
  method Stream(body: seq<seq<byte>>, sizeLimit: nat) returns (res: Result<string, ReadError>, read: nat)
    ensures FirstOverflow(body, sizeLimit).Some? ==>
              res == Err(TooMuchData) && read == FirstOverflow(body, sizeLimit).value + 1
    ensures FirstOverflow(body, sizeLimit).None? ==> res == Ok(JoinChunks(body)) && read == |body|
  {
    var downloaded := 0;
    var data: seq<seq<byte>> := [];
    var i := 0;
    while i < |body|
      invariant 0 <= i <= |body|
      invariant data == body[..i]
      invariant downloaded <= sizeLimit
      invariant FirstOverflow(body, sizeLimit) == Shift(FirstOverflow(body[i..], sizeLimit - downloaded), i)
    {
      OverflowStep(body, i, sizeLimit - downloaded);
      var chunk := body[i];
      downloaded := downloaded + |chunk|;
      assert body[..i + 1] == data + [chunk];
      data := data + [chunk];
      if downloaded > sizeLimit {
        assert FirstOverflow(body, sizeLimit) == Some(i);
        return Err(TooMuchData), i + 1;
      }
      ShiftShift(FirstOverflow(body[i + 1..], sizeLimit - downloaded), i);
      i := i + 1;
    }
    assert body[i..] == [];
    assert data == body;
    return Ok(JoinChunks(data)), |body|;
  }

  /** The reader's outcomes. A content type other than exactly `text/plain`
      (a missing one included) fails first, whatever the length and body.
      A declared length over the limit fails before any chunk is read.
      Otherwise the read fails exactly when the bytes that arrive exceed
      the limit, whatever length was declared, and it stops at the chunk
      that passes the limit; a success yields the joined chunks. */
  lemma ReadBodyOutcomes(req: Request, sizeLimit: nat)
    ensures HeaderOr(req.contentType, "") != TextPlain ==>
              ReadBody(req, sizeLimit) == Err(IncorrectContentType(HeaderOr(req.contentType, "")))
              && ChunksRead(req, sizeLimit) == 0
    ensures HeaderOr(req.contentType, "") == TextPlain && DeclaredTooLarge(req.contentLength, sizeLimit) ==>
              ReadBody(req, sizeLimit) == Err(TooMuchData) && ChunksRead(req, sizeLimit) == 0
    ensures ReadBody(req, sizeLimit).Ok? <==>
              && HeaderOr(req.contentType, "") == TextPlain
              && !DeclaredTooLarge(req.contentLength, sizeLimit)
              && Total(req.body) <= sizeLimit
    ensures ReadBody(req, sizeLimit).Ok? ==>
              ReadBody(req, sizeLimit).value == JoinChunks(req.body) && ChunksRead(req, sizeLimit) == |req.body|
    ensures && HeaderOr(req.contentType, "") == TextPlain
            && !DeclaredTooLarge(req.contentLength, sizeLimit)
            && Total(req.body) > sizeLimit ==>
              && ReadBody(req, sizeLimit) == Err(TooMuchData)
              && 1 <= ChunksRead(req, sizeLimit) <= |req.body|
              && Total(req.body[..ChunksRead(req, sizeLimit) - 1]) <= sizeLimit
              && sizeLimit < Total(req.body[..ChunksRead(req, sizeLimit)])
  {
    FirstOverflowMeaning(req.body, sizeLimit);
  }

  /** Without a `content-length` header the default `sizeLimit + 1` is
      always too much, so a text body is refused unread. */
  lemma MissingLengthRejected(req: Request, sizeLimit: nat)
    requires req.contentLength.None? || req.contentLength == Some("")
    requires HeaderOr(req.contentType, "") == TextPlain
    ensures ReadBody(req, sizeLimit) == Err(TooMuchData)
    ensures ChunksRead(req, sizeLimit) == 0
  {
    ParseIntDecimal(sizeLimit + 1);
  }

  /** A declared length that is not a number (`parseInt` gives `NaN`, as
      for any text `ParseIntNoDigits` describes) is never too large, so the
      body is streamed and only the bytes that arrive count. */
  lemma UnparsableLengthStreams(req: Request, sizeLimit: nat)
    requires req.contentLength.Some? && req.contentLength.value != ""
    requires ParseInt(req.contentLength.value) == NaN
    ensures !DeclaredTooLarge(req.contentLength, sizeLimit)
    ensures HeaderOr(req.contentType, "") == TextPlain ==>
              (ReadBody(req, sizeLimit).Ok? <==> Total(req.body) <= sizeLimit)
  {
    ReadBodyOutcomes(req, sizeLimit);
  }

  /** The reader's text is made of digits and commas, so it is ASCII. */
  lemma JoinChunksAscii(chunks: seq<seq<byte>>)
    ensures IsAscii(JoinChunks(chunks))
  {
  }

  // ---------------------------------------------------------------------
  // validateAdd and validateDelete
  // ---------------------------------------------------------------------

  /** What `validateAdd` resolves to: the bytes of the `Blob` made from the
      read text, or the reader's error. */
  function AddPayload(req: Request): Result<seq<byte>, ReadError> {
    var read := ReadBody(req, AddLimit);
    if read.Err? then Err(read.error)
    else
      JoinChunksAscii(req.body);
      Ok(AsciiBytes(read.value))
  }

  /** `validateAdd`: `getString` with a limit of 1024 bytes. */
  method ValidateAdd(req: Request) returns (res: Result<seq<byte>, ReadError>)
    ensures res == AddPayload(req)
  {
    var read, _ := GetString(req, AddLimit);
    if read.Err? {
      return Err(read.error);
    }
    JoinChunksAscii(req.body);
    return Ok(AsciiBytes(read.value));
  }

  /** What `validateDelete` resolves to: the read text when it is a valid
      identifier; any failure, of the reader or of the identifier check,
      becomes the same error. */
  function DeletePayload(req: Request): Result<string, string> {
    var read := ReadBody(req, DeleteLimit);
    if read.Err? || !ValidateUuid(read.value) then Err(ParseError) else Ok(read.value)
  }

  /** `validateDelete`: `getString` with a limit of 36 bytes, then
      `validateUUID`, every error rethrown as one message. */
  method ValidateDelete(req: Request) returns (res: Result<string, string>)
    ensures res == DeletePayload(req)
  {
    var read, _ := GetString(req, DeleteLimit);
    if read.Err? {
      return Err(ParseError);
    }
    if !ValidateUuid(read.value) {
      return Err(ParseError);
    }
    return Ok(read.value);
  }

  /** The text `validateAdd` accepts is stored byte for byte: decoding the
      payload gives the joined text back. */
  lemma AddPayloadRoundTrip(req: Request)
    requires AddPayload(req).Ok?
    ensures ReadBody(req, AddLimit).Ok?
    ensures DecodeText(AddPayload(req).value) == JoinChunks(req.body)
  {
    ReadBodyOutcomes(req, AddLimit);
    JoinChunksAscii(req.body);
    AsciiRoundTrip(JoinChunks(req.body));
  }

  /** Every failure of `validateDelete` is the same error; a success is a
      valid identifier that is the joined body text. */
  lemma DeletePayloadOutcomes(req: Request)
    ensures DeletePayload(req).Err? ==> DeletePayload(req).error == ParseError
    ensures DeletePayload(req).Ok? <==>
              ReadBody(req, DeleteLimit).Ok? && ValidateUuid(ReadBody(req, DeleteLimit).value)
    ensures DeletePayload(req).Ok? ==>
              DeletePayload(req).value == JoinChunks(req.body) && Total(req.body) <= DeleteLimit
  {
    ReadBodyOutcomes(req, DeleteLimit);
  }

  /** Because each chunk is rendered as its comma-separated byte values, a
      body with a chunk of two or more bytes never passes `validateDelete`,
      and an identifier that does pass consists of decimal digits only. */
  lemma DeleteNeedsOneByteChunks(req: Request, k: nat)
    requires k < |req.body| && |req.body[k]| >= 2
    ensures DeletePayload(req) == Err(ParseError)
  {
    ReadBodyOutcomes(req, DeleteLimit);
    if ReadBody(req, DeleteLimit).Ok? {
      JoinChunksHasComma(req.body, k);
      var s := JoinChunks(req.body);
      var i :| 0 <= i < |s| && s[i] == ',';
      assert !IsIdChar(s[i]);
    }
  }

  lemma DeletedIdsAreDigits(req: Request)
    requires DeletePayload(req).Ok?
    ensures forall i :: 0 <= i < |DeletePayload(req).value| ==> IsDigit(DeletePayload(req).value[i])
  {
    var s := DeletePayload(req).value;
    forall i | 0 <= i < |s| ensures IsDigit(s[i]) {
      assert IsIdChar(s[i]);
    }
  }

  // ---------------------------------------------------------------------
  // onGet, onAdd, onDelete
  // ---------------------------------------------------------------------

  /** `onGet`: an item redirects to the text of its content; the empty item
      gives a bare 200. */
  function OnGet(data: DataItem): (resp: Response)
    ensures resp.status == 302 <==> data.id != ""
    ensures resp.status == 200 <==> data.id == ""
    ensures data.id != "" ==> resp.headers == map["Location" := DecodeText(data.content)]
    ensures data.id == "" ==> resp.headers == map[]
    ensures resp.body.None?
  {
    if data.id != "" then Response(302, map["Location" := DecodeText(data.content)], None)
    else Response(200, map[], None)
  }

  /** `onAdd`: 200 with the new item's identifier as the body. */
  function OnAdd(data: DataItem): (resp: Response)
    ensures resp.status == 200 && resp.headers == map[] && resp.body == Some(data.id)
  {
    Response(200, map[], Some(data.id))
  }

  /** `onDelete`: 200 with no body, whatever item it is given. */
  function OnDelete(data: DataItem): (resp: Response)
    ensures resp == Response(200, map[], None)
  {
    Response(200, map[], None)
  }
}
