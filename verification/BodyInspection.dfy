/**
 Body inspection: chunks accumulate in a per-request buffer, and a request is refused as
 soon as the lossily decoded buffer contains the forbidden word.
 */
module BodyInspection {
  import opened Wrappers
  import opened Text
  import opened Utf8

  type Bytes = seq<Byte>

  datatype FilterError = SecurityPolicyViolation

  /** "rogue". */
  const ROGUE: seq<int> := [0x72, 0x6F, 0x67, 0x75, 0x65]

  function Payload(body: Option<Bytes>): Bytes {
    match body
    case None => []
    case Some(bytes) => bytes
  }

  /** The body that a sequence of chunks carries. */
  function Whole(chunks: seq<Option<Bytes>>): Bytes {
    if chunks == [] then [] else Payload(chunks[0]) + Whole(chunks[1..])
  }

  class BodyContext {
    var buffer: Bytes

    constructor ()
      ensures buffer == []
    {
      buffer := [];
    }

    method RequestBodyFilter(body: Option<Bytes>) returns (r: Result<(), FilterError>)
      modifies this
      ensures body.None? ==> buffer == old(buffer)
      ensures body.Some? ==> buffer == old(buffer) + body.value
      ensures r.Err? <==> body.Some? && Contains(buffer, ROGUE)
    {
      r := Ok(());
      match body {
        case None =>
        case Some(bytes) =>
          buffer := buffer + bytes;
          var content := DecodeLossy(buffer);
          AsciiSearch(buffer, ROGUE);
          if Contains(content, ROGUE) {
            r := Err(SecurityPolicyViolation);
          }
      }
    }
  }

  /** The body is the data of its chunks, put together in order. */
  lemma {:induction false} WholeOfSnoc(chunks: seq<Option<Bytes>>, last: Option<Bytes>)
    ensures Whole(chunks + [last]) == Whole(chunks) + if last.None? then [] else last.value
  {
    if chunks != [] {
      assert (chunks + [last])[1..] == chunks[1..] + [last];
      WholeOfSnoc(chunks[1..], last);
    }
  }

  lemma {:induction false} WholeOfPrefix(chunks: seq<Option<Bytes>>, k: nat)
    requires k <= |chunks|
    ensures Whole(chunks[..k]) <= Whole(chunks)
    decreases |chunks| - k
  {
    if k == |chunks| {
      assert chunks[..k] == chunks;
    } else {
      WholeOfPrefix(chunks, k + 1);
      WholeOfSnoc(chunks[..k], chunks[k]);
      assert chunks[..k + 1] == chunks[..k] + [chunks[k]];
    }
  }

  /** The word is in a body exactly when the body reads something, then "rogue", then something. */
  lemma RogueMeaning(body: Bytes)
    ensures Contains(body, ROGUE) <==>
            exists before: seq<int>, after: seq<int> :: before + [0x72, 0x6F, 0x67, 0x75, 0x65] + after == body
  {
    ContainsMeaning(body, ROGUE);
  }

  /** What a prefix of the chunks contains, the whole body contains. */
  lemma PrefixOccurs(chunks: seq<Option<Bytes>>, k: nat, word: seq<int>)
    requires k <= |chunks| && Contains(Whole(chunks[..k]), word)
    ensures Contains(Whole(chunks), word)
  {
    WholeOfPrefix(chunks, k);
    ContainsExtends(Whole(chunks[..k]), Whole(chunks), word);
  }

  /** The chunk at which the filter refuses a body, looking from chunk `i` on. */
  function RefusedAt(chunks: seq<Option<Bytes>>, i: nat): Option<nat>
    requires i <= |chunks|
    decreases |chunks| - i
  {
    if i == |chunks| then None
    else if chunks[i].Some? && Contains(DecodeLossy(Whole(chunks[..i + 1])), ROGUE) then Some(i)
    else RefusedAt(chunks, i + 1)
  }

  /** `k` is the first chunk that completes an occurrence of the word. */
  ghost predicate FirstOccurrence(chunks: seq<Option<Bytes>>, k: nat) {
    && k < |chunks|
    && Contains(Whole(chunks[..k + 1]), ROGUE)
    && !Contains(Whole(chunks[..k]), ROGUE)
  }

  lemma {:induction false} RefusedAtMeaning(chunks: seq<Option<Bytes>>, i: nat)
    requires i <= |chunks| && !Contains(Whole(chunks[..i]), ROGUE)
    ensures match RefusedAt(chunks, i)
      case None => !Contains(Whole(chunks), ROGUE)
      case Some(k) => FirstOccurrence(chunks, k)
    decreases |chunks| - i
  {
    if i == |chunks| {
      assert chunks[..i] == chunks;
    } else {
      AsciiSearch(Whole(chunks[..i + 1]), ROGUE);
      WholeOfSnoc(chunks[..i], chunks[i]);
      assert chunks[..i + 1] == chunks[..i] + [chunks[i]];
      assert chunks[i].None? ==> Whole(chunks[..i + 1]) == Whole(chunks[..i]);
      if chunks[i].None? || !Contains(Whole(chunks[..i + 1]), ROGUE) {
        RefusedAtMeaning(chunks, i + 1);
      }
    }
  }

  /** For every chunking: refused exactly when the whole body contains the word, at the first
      chunk that completes an occurrence, and nothing forwarded before contains it. */
  lemma RefusalMeaning(chunks: seq<Option<Bytes>>)
    ensures RefusedAt(chunks, 0).Some? <==> Contains(Whole(chunks), ROGUE)
    ensures forall k :: RefusedAt(chunks, 0) == Some(k) ==> FirstOccurrence(chunks, k)
  {
    RefusedAtMeaning(chunks, 0);
    var r := RefusedAt(chunks, 0);
    if r.Some? {
      PrefixOccurs(chunks, r.value + 1, ROGUE);
    }
  }

  /** The verdict depends on the body alone, not on how it was cut into chunks. */
  lemma VerdictIgnoresChunking(one: seq<Option<Bytes>>, other: seq<Option<Bytes>>)
    requires Whole(one) == Whole(other)
    ensures RefusedAt(one, 0).None? <==> RefusedAt(other, 0).None?
  {
    RefusalMeaning(one);
    RefusalMeaning(other);
  }

  /** The proxy feeding a body through the filter: each accepted chunk is forwarded, and the
      first refusal ends the request. */
  method ProxyBody(chunks: seq<Option<Bytes>>) returns (forwarded: seq<Option<Bytes>>, refused: Option<nat>)
    ensures refused == RefusedAt(chunks, 0)
    ensures refused.Some? <==> Contains(Whole(chunks), ROGUE)
    ensures refused.None? ==> forwarded == chunks
    ensures refused.Some? ==> refused.value < |chunks| && forwarded == chunks[..refused.value]
    ensures !Contains(Whole(forwarded), ROGUE)
  {
    var ctx := new BodyContext();
    forwarded, refused := [], None;
    for i := 0 to |chunks|
      invariant forwarded == chunks[..i]
      invariant ctx.buffer == Whole(forwarded)
      invariant RefusedAt(chunks, 0) == RefusedAt(chunks, i)
    {
      var r := ctx.RequestBodyFilter(chunks[i]);
      WholeOfSnoc(chunks[..i], chunks[i]);
      assert chunks[..i + 1] == chunks[..i] + [chunks[i]];
      AsciiSearch(ctx.buffer, ROGUE);
      if r.Err? {
        RefusalMeaning(chunks);
        return forwarded, Some(i);
      }
      forwarded := forwarded + [chunks[i]];
    }
    RefusalMeaning(chunks);
  }
}
