/**
 The request size limit: a header test on Content-Length and a running count over the body
 chunks, kept in the request context.
 */
module RequestSize {
  import opened Wrappers
  import opened Text
  import opened Context
  import opened AccessControl
  import opened Arithmetic

  /** No buffer is longer. */
  const ISIZE_MAX: nat := 0x7FFF_FFFF_FFFF_FFFF
  const DEFAULT_MAX_BYTES: Usize := 1024 * 1024 * 10

  predicate Digits(s: string) {
    s != "" && forall i :: 0 <= i < |s| ==> IsDigit(s[i])
  }

  /** `str::parse::<usize>`: digits after an optional '+', within range. */
  function ParseUsize(s: string): Option<Usize> {
    var digits := if s != "" && s[0] == '+' then s[1..] else s;
    if Digits(digits) && DigitsValue(digits) < USIZE then Some(DigitsValue(digits)) else None
  }

  /** A readable declared length above the limit. */
  predicate DeclaredTooLarge(maxBytes: nat, contentLength: Option<string>) {
    && contentLength.Some?
    && ToStr(contentLength.value).Some?
    && ParseUsize(contentLength.value).Some?
    && ParseUsize(contentLength.value).value > maxBytes
  }

  /** The running count after one more chunk; `None` is a call without data. */
  function Count(bytesRead: nat, chunk: Option<nat>): nat {
    match chunk case None => bytesRead case Some(n) => (bytesRead + n) % USIZE
  }

  predicate Exceeds(maxBytes: nat, bytesRead: nat, chunk: Option<nat>) {
    chunk.Some? && Count(bytesRead, chunk) >= maxBytes
  }

  /** The middleware's answer once it wants to refuse: the 413 may fail to be written. */
  function Refusal(writable: bool): Result<Decision, WriteError> {
    if writable then Ok(Stop) else Err(ResponseNotWritten)
  }

  class RequestSizeMiddleware {
    const maxBytes: Usize

    constructor (configured: Option<Usize>)
      ensures maxBytes == if configured.Some? then configured.value else 10_485_760
    {
      maxBytes := if configured.Some? then configured.value else DEFAULT_MAX_BYTES;
    }

    method HandleRequest(ctx: GatewayContext, contentLength: Option<string>, writable: bool)
      returns (r: Result<Decision, WriteError>)
      requires ctx.Valid()
      modifies ctx
      ensures ctx.Valid() && ctx.state == old(ctx.state)[RequestSizeKey := SizeValue(0)]
      ensures r == if DeclaredTooLarge(maxBytes, contentLength) then Refusal(writable) else Ok(Continue)
    {
      var previous := ctx.Insert(SizeValue(0));
      if contentLength.Some? {
        var text := ToStr(contentLength.value);
        if text.Some? {
          var length := ParseUsize(text.value);
          if length.Some? && length.value > maxBytes {
            return Refusal(writable);
          }
        }
      }
      return Ok(Continue);
    }

    /** The source expects the count to be in the context. */
    method HandleRequestBody(ctx: GatewayContext, chunk: Option<nat>, writable: bool)
      returns (r: Result<Decision, WriteError>)
      requires ctx.Valid() && RequestSizeKey in ctx.state
      modifies ctx
      ensures ctx.Valid()
      ensures var bytesRead := old(ctx.state)[RequestSizeKey].bytesRead;
              && ctx.state == old(ctx.state)[RequestSizeKey := SizeValue(Count(bytesRead, chunk))]
              && r == if Exceeds(maxBytes, bytesRead, chunk) then Refusal(writable) else Ok(Continue)
    {
      var found := ctx.Get(RequestSizeKey);
      var bytesRead := found.value.bytesRead;
      assert ctx.state[RequestSizeKey := SizeValue(bytesRead)] == ctx.state;
      if chunk.Some? {
        bytesRead := (bytesRead + chunk.value) % USIZE;
        var previous := ctx.GetMut(SizeValue(bytesRead));
        if bytesRead >= maxBytes {
          return Refusal(writable);
        }
      }
      return Ok(Continue);
    }
  }

  // ---------- the stream law ----------

  function Total(chunks: seq<Option<nat>>): nat {
    if chunks == [] then 0
    else Total(chunks[..|chunks| - 1]) + match chunks[|chunks| - 1] case None => 0 case Some(n) => n
  }

  /** Every chunk fits in memory. */
  predicate Chunked(chunks: seq<Option<nat>>) {
    forall i :: 0 <= i < |chunks| && chunks[i].Some? ==> chunks[i].value <= ISIZE_MAX
  }

  /** The count after all chunks, or `None` when some chunk was refused. */
  function Stream(maxBytes: nat, chunks: seq<Option<nat>>): Option<nat> {
    if chunks == [] then Some(0)
    else
      var last := chunks[|chunks| - 1];
      match Stream(maxBytes, chunks[..|chunks| - 1])
      case None => None
      case Some(bytesRead) => if Exceeds(maxBytes, bytesRead, last) then None else Some(Count(bytesRead, last))
  }

  lemma {:induction false} StreamCounts(maxBytes: nat, chunks: seq<Option<nat>>)
    requires 0 < maxBytes <= ISIZE_MAX + 2 && Chunked(chunks)
    ensures Stream(maxBytes, chunks) == if Total(chunks) < maxBytes then Some(Total(chunks)) else None
  {
    if chunks != [] {
      StreamCounts(maxBytes, chunks[..|chunks| - 1]);
    }
  }

  /** For every chunking, a body passes exactly when its length is below the limit. */
  ghost predicate LimitsTheBody(maxBytes: nat) {
    forall chunks :: Chunked(chunks) ==> (Stream(maxBytes, chunks).Some? <==> Total(chunks) < maxBytes)
  }

  /** The law holds for exactly the positive limits up to 2^63 + 1: with a zero limit an empty
      body passes, and above the bound the count can wrap to zero. */
  lemma LimitsTheBodyExactly(maxBytes: Usize)
    ensures LimitsTheBody(maxBytes) <==> 0 < maxBytes <= ISIZE_MAX + 2
  {
    if 0 < maxBytes <= ISIZE_MAX + 2 {
      forall chunks | Chunked(chunks) ensures Stream(maxBytes, chunks).Some? <==> Total(chunks) < maxBytes {
        StreamCounts(maxBytes, chunks);
      }
    } else if maxBytes == 0 {
      assert Chunked([]) && Stream(0, []).Some? && Total([]) == 0;
    } else {
      WrappingBodyPasses(maxBytes);
    }
  }

  lemma TotalOfNext(chunks: seq<Option<nat>>, n: nat)
    ensures Total(chunks + [Some(n)]) == Total(chunks) + n
  {
  }

  lemma WrappingBodyPasses(maxBytes: Usize)
    requires maxBytes > ISIZE_MAX + 2
    ensures !LimitsTheBody(maxBytes)
  {
    var one: seq<Option<nat>> := [Some(ISIZE_MAX)];
    var two := one + [Some(2)];
    var three := two + [Some(ISIZE_MAX)];
    assert one[..0] == [] && two[..1] == one && three[..2] == two;
    assert Stream(maxBytes, one) == Some(ISIZE_MAX);
    assert Stream(maxBytes, two) == Some(ISIZE_MAX + 2);
    assert Stream(maxBytes, three) == Some(0);
    TotalOfNext([], ISIZE_MAX);
    TotalOfNext(one, 2);
    TotalOfNext(two, ISIZE_MAX);
    assert [] + one == one;
    assert Chunked(three);
  }

  /** Up to the refusal of chunk `k`, what was forwarded stays below the limit and the count
      stays below the limit plus that chunk. */
  lemma RefusalPoint(maxBytes: nat, chunks: seq<Option<nat>>, k: nat)
    requires 0 < maxBytes <= ISIZE_MAX + 2 && Chunked(chunks) && k < |chunks|
    requires Stream(maxBytes, chunks[..k]).Some? && Stream(maxBytes, chunks[..k + 1]).None?
    ensures Total(chunks[..k]) < maxBytes <= Total(chunks[..k + 1])
    ensures chunks[k].Some? && Total(chunks[..k + 1]) < maxBytes + chunks[k].value
  {
    StreamCounts(maxBytes, chunks[..k]);
    StreamCounts(maxBytes, chunks[..k + 1]);
    assert chunks[..k + 1][..k] == chunks[..k];
  }

  // ---------- the header test against the stream ----------

  lemma DecimalParses(n: nat)
    requires n < USIZE
    ensures ParseUsize(Decimal(n)) == Some(n) && ToStr(Decimal(n)) == Some(Decimal(n))
  {
    DecimalRoundTrip(n);
    assert IsDigit(Decimal(n)[0]);
    forall i | 0 <= i < |Decimal(n)| ensures 32 <= Decimal(n)[i] as int < 127 {
      assert IsDigit(Decimal(n)[i]);
    }
  }

  predicate Zeros(s: string) {
    forall i :: 0 <= i < |s| ==> s[i] == '0'
  }

  /** A text that declares a length: its decimal digits, perhaps after zeros and one '+'. */
  ghost predicate Declares(text: string, n: nat) {
    n < USIZE && exists sign, zeros :: (sign == "" || sign == "+") && Zeros(zeros) && text == sign + zeros + Decimal(n)
  }

  lemma {:induction false} DigitsAreDecimal(s: string) returns (zeros: string)
    requires Digits(s)
    ensures Zeros(zeros) && s == zeros + Decimal(DigitsValue(s))
  {
    var last := |s| - 1;
    assert IsDigit(s[last]);
    zeros := "";
    if last > 0 {
      zeros := DigitsAreDecimal(s[..last]);
      if DigitsValue(s[..last]) == 0 {
        zeros := s[..last];
      }
    }
  }

  lemma {:induction false} ZerosAddNothing(zeros: string, s: string)
    requires Zeros(zeros) && Digits(s)
    ensures Digits(zeros + s) && DigitsValue(zeros + s) == DigitsValue(s)
  {
    var all := zeros + s;
    assert forall i :: 0 <= i < |all| ==> IsDigit(all[i]);
    assert all[..|all| - 1] == zeros + s[..|s| - 1];
    if |s| > 1 {
      ZerosAddNothing(zeros, s[..|s| - 1]);
    } else {
      ZerosAreZero(zeros);
    }
  }

  lemma {:induction false} ZerosAreZero(zeros: string)
    requires Zeros(zeros)
    ensures (forall i :: 0 <= i < |zeros| ==> IsDigit(zeros[i])) && DigitsValue(zeros) == 0
  {
    if zeros != "" {
      ZerosAreZero(zeros[..|zeros| - 1]);
    }
  }

  lemma ParsedIsReadable(text: string)
    requires ParseUsize(text).Some?
    ensures ToStr(text) == Some(text)
  {
    var digits := if text[0] == '+' then text[1..] else text;
    forall i | 0 <= i < |text| ensures 32 <= text[i] as int < 127 {
      if i > 0 || text[0] != '+' {
        assert IsDigit(digits[i - (|text| - |digits|)]);
      }
    }
  }

  /** Digits after an optional '+' are read as their value. */
  lemma SignedDigits(sign: string, digits: string)
    requires (sign == "" || sign == "+") && Digits(digits)
    ensures ParseUsize(sign + digits) == if DigitsValue(digits) < USIZE then Some(DigitsValue(digits)) else None
  {
    var text := sign + digits;
    assert IsDigit(digits[0]);
    if sign == "" {
      assert text == digits;
    } else {
      assert text[0] == '+' && text[1..] == digits;
    }
  }

  lemma ParsedIsDeclared(text: string)
    requires ParseUsize(text).Some?
    ensures Declares(text, ParseUsize(text).value)
  {
    var n := ParseUsize(text).value;
    if text[0] == '+' {
      var zeros := DigitsAreDecimal(text[1..]);
      assert text == "+" + zeros + Decimal(n);
    } else {
      var zeros := DigitsAreDecimal(text);
      assert text == "" + zeros + Decimal(n);
    }
  }

  lemma WrittenIsParsed(sign: string, zeros: string, n: nat)
    requires n < USIZE && (sign == "" || sign == "+") && Zeros(zeros)
    ensures ParseUsize(sign + zeros + Decimal(n)) == Some(n)
  {
    DecimalRoundTrip(n);
    ZerosAddNothing(zeros, Decimal(n));
    SignedDigits(sign, zeros + Decimal(n));
    assert sign + zeros + Decimal(n) == sign + (zeros + Decimal(n));
  }

  lemma DeclaredIsParsed(text: string, n: nat)
    requires Declares(text, n)
    ensures ParseUsize(text) == Some(n)
  {
    var sign, zeros :| (sign == "" || sign == "+") && Zeros(zeros) && text == sign + zeros + Decimal(n);
    WrittenIsParsed(sign, zeros, n);
  }

  /** The header test refuses exactly the texts that declare a length above the limit. */
  lemma DeclaredTooLargeMeaning(maxBytes: nat, contentLength: Option<string>)
    ensures DeclaredTooLarge(maxBytes, contentLength) <==>
            contentLength.Some? && exists n: nat :: Declares(contentLength.value, n) && n > maxBytes
  {
    if contentLength.Some? {
      var text := contentLength.value;
      if ParseUsize(text).Some? {
        ParsedIsReadable(text);
        ParsedIsDeclared(text);
      }
      forall n: nat | Declares(text, n) ensures ParseUsize(text) == Some(n) {
        DeclaredIsParsed(text, n);
      }
    }
  }

  /** A declared length is refused exactly above the limit, while the stream refuses at the
      limit: the two tests disagree on exactly one length. */
  lemma HeaderAgainstStream(maxBytes: nat, chunks: seq<Option<nat>>)
    requires 0 < maxBytes <= ISIZE_MAX + 2 && Chunked(chunks) && Total(chunks) < USIZE
    ensures DeclaredTooLarge(maxBytes, Some(Decimal(Total(chunks)))) <==> Total(chunks) > maxBytes
    ensures Total(chunks) == maxBytes <==>
            !DeclaredTooLarge(maxBytes, Some(Decimal(Total(chunks)))) && Stream(maxBytes, chunks).None?
  {
    DecimalParses(Total(chunks));
    StreamCounts(maxBytes, chunks);
  }
}
