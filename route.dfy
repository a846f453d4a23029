/** The `POST /api/chat` handler: credential check, prompt assembly from the
    knowledge base and the newest message, the model call (an input here),
    response cleanup and the mapping of every thrown error to a 500 payload. */
module ChatRoute {
  import opened Wrappers
  import opened Text
  import opened Messages
  import LabelCleanup

  /** One `{ text }` entry of the `parts` array sent to the model. */
  datatype Part = Part(text: string)

  /** One canned question/answer pair of the knowledge base. */
  datatype Example = Example(input: string, output: string)

  /** A candidate of the model's answer, as the texts of its content parts. */
  datatype Candidate = Candidate(parts: seq<string>)

  /** What the awaited model call came back with. */
  datatype Upstream =
    | Answered(candidates: seq<Candidate>)      // `response.ok`, body parsed
    | Refused(status: int, statusText: string)  // `!response.ok`
    | Failed(message: string)                   // the call or the body parse threw this Error

  datatype Body = ResultBody(result: string) | ErrorBody(error: string)

  /** A JSON response: `{ result }` or `{ error }` with its HTTP status. */
  datatype Response = Response(status: int, body: Body)

  const InputPrefix := "input: "
  const OutputPrefix := "output: "
  const MissingKeyMessage := "Gemini API key not configured"
  const UpstreamErrorPrefix := "Gemini API error: "
  const RetryMessage := "Oops, I think the message" + " hasn't reached us." + " Please try again."
  const GenericPrefix := "Error in API route: "
  const UnknownError := "Unknown error"
  const RateLimitMarker := "rate limit"
  const ServerErrorMarker := "500"

  /** What reading a property of `undefined` throws: the newest message of an
      empty list, the first candidate of an empty list, the first part of an
      empty list. */
  const UndefinedRead := "Cannot read properties of undefined"
  const UndefinedText := UndefinedRead + ReadingText
  const UndefinedContent := UndefinedRead + ReadingContent
  const ReadingText := " (reading 'text')"
  const ReadingContent := " (reading 'content')"

  /** The knowledge base flattened to alternating labelled parts, in order. */
  function ExampleParts(kb: seq<Example>): (parts: seq<Part>)
    ensures |parts| == 2 * |kb|
  {
    if kb == [] then []
    else [Part(InputPrefix + kb[0].input), Part(OutputPrefix + kb[0].output)] + ExampleParts(kb[1..])
  }

  /** Example `k` is the `input:` part at `2k` followed by the `output:` part at `2k + 1`. */
  lemma {:induction false} ExamplePartsLayout(kb: seq<Example>, k: nat)
    requires k < |kb|
    ensures ExampleParts(kb)[2 * k] == Part(InputPrefix + kb[k].input)
    ensures ExampleParts(kb)[2 * k + 1] == Part(OutputPrefix + kb[k].output)
  {
    if k > 0 {
      ExamplePartsLayout(kb[1..], k - 1);
      assert ExampleParts(kb)[2 * k] == ExampleParts(kb[1..])[2 * (k - 1)];
      assert ExampleParts(kb)[2 * k + 1] == ExampleParts(kb[1..])[2 * (k - 1) + 1];
    }
  }

  /** `!apiKey`: the key is undefined or empty. */
  predicate KeyMissing(apiKey: Option<string>)
  {
    apiKey == None || apiKey.value == ""
  }

  /** The error messages that get the friendly "try again" text. */
  predicate IsRetryable(message: string)
  {
    Contains(message, RateLimitMarker) || Contains(message, ServerErrorMarker)
  }

  /** The catch block: the error's message alone decides the payload, and it
      is always a 500. */
  function ErrorResponse(message: string): (r: Response)
    ensures r.status == 500 && r.body.ErrorBody?
    ensures r.body.error == RetryMessage <==> IsRetryable(message)
    ensures !IsRetryable(message) ==>
              StartsWith(r.body.error, GenericPrefix)
              && r.body.error[|GenericPrefix|..] == (if message == "" then UnknownError else message)
  {
    if IsRetryable(message) then Response(500, ErrorBody(RetryMessage))
    else
      var detail := if message == "" then UnknownError else message;
      assert GenericPrefix[0] == 'E' && RetryMessage[0] == 'O';
      assert (GenericPrefix + detail)[0] != RetryMessage[0];
      assert (GenericPrefix + detail)[..|GenericPrefix|] == GenericPrefix;
      Response(500, ErrorBody(GenericPrefix + detail))
  }

  /** No "500" starts inside the prefix of a refused call's error. */
  lemma NoServerMarkerFromPrefix(statusText: string)
    ensures forall i :: 0 <= i < |UpstreamErrorPrefix| ==>
              !OccursAt(UpstreamErrorPrefix + statusText, ServerErrorMarker, i)
  {
    var p := UpstreamErrorPrefix;
    assert '5' !in p && ServerErrorMarker[0] == '5';
    forall i | 0 <= i < |p|
      ensures !OccursAt(p + statusText, ServerErrorMarker, i)
    {
      assert (p + statusText)[i] == p[i];
      CharMismatch(p + statusText, ServerErrorMarker, i, 0);
    }
  }

  /** No "rate limit" starts inside the prefix of a refused call's error. */
  lemma NoRateMarkerFromPrefix(statusText: string)
    ensures forall i :: 0 <= i < |UpstreamErrorPrefix| ==>
              !OccursAt(UpstreamErrorPrefix + statusText, RateLimitMarker, i)
  {
    var p := UpstreamErrorPrefix;
    assert 'a' !in p && p[|p| - 1] == ' ';
    assert RateLimitMarker[0] == 'r' && RateLimitMarker[1] == 'a';
    forall i | 0 <= i < |p|
      ensures !OccursAt(p + statusText, RateLimitMarker, i)
    {
      if i + 1 < |p| {
        assert (p + statusText)[i + 1] == p[i + 1];
        CharMismatch(p + statusText, RateLimitMarker, i, 1);
      } else {
        assert (p + statusText)[i] == p[i];
        CharMismatch(p + statusText, RateLimitMarker, i, 0);
      }
    }
  }

  /** The prefix of a refused call's error adds no marker, so the status text
      alone decides between the two payloads; the numeric status plays no part. */
  lemma UpstreamErrorClassifiedByStatusText(statusText: string)
    ensures IsRetryable(UpstreamErrorPrefix + statusText) <==> IsRetryable(statusText)
  {
    NoServerMarkerFromPrefix(statusText);
    NoRateMarkerFromPrefix(statusText);
    PrefixShift(UpstreamErrorPrefix, statusText, ServerErrorMarker);
    PrefixShift(UpstreamErrorPrefix, statusText, RateLimitMarker);
  }

  /** An HTTP 500 whose status text does not spell out "500" gets the generic
      payload, not the "try again" one. */
  lemma Http500WithoutCodeIsGeneric()
    ensures ErrorResponse(UpstreamErrorPrefix + "Internal Server Error")
         == Response(500, ErrorBody(GenericPrefix + UpstreamErrorPrefix + "Internal Server Error"))
  {
    var st := "Internal Server Error";
    UpstreamErrorClassifiedByStatusText(st);
    assert ServerErrorMarker[0] == '5' && RateLimitMarker[7] == 'm';
    assert '5' !in st && 'm' !in st;
    AbsentChar(st, ServerErrorMarker, 0);
    AbsentChar(st, RateLimitMarker, 7);
  }

  /** A message with neither a '5' nor an 'm' gets the generic payload. */
  lemma GenericWithout(message: string)
    requires message != [] && '5' !in message && 'm' !in message
    ensures ErrorResponse(message) == Response(500, ErrorBody(GenericPrefix + message))
  {
    assert ServerErrorMarker[0] == '5' && RateLimitMarker[7] == 'm';
    AbsentChar(message, ServerErrorMarker, 0);
    AbsentChar(message, RateLimitMarker, 7);
  }

  // Proof hints: character facts about the constants, one literal per lemma,
  // so that no proof unfolds more than one literal at a time.
  /** The texts of the `undefined` reads hold neither a '5' nor an 'm'. */
  lemma UndefinedReadLacksMarkers()
    ensures UndefinedRead != [] && '5' !in UndefinedRead && 'm' !in UndefinedRead
  {
  }

  lemma ReadingTextLacksMarkers()
    ensures '5' !in ReadingText && 'm' !in ReadingText
  {
  }

  lemma ReadingContentLacksMarkers()
    ensures '5' !in ReadingContent && 'm' !in ReadingContent
  {
  }

  /** Reading through `undefined` ends in the generic payload. */
  lemma UndefinedReadsAreGeneric()
    ensures ErrorResponse(UndefinedText) == Response(500, ErrorBody(GenericPrefix + UndefinedText))
    ensures ErrorResponse(UndefinedContent) == Response(500, ErrorBody(GenericPrefix + UndefinedContent))
  {
    UndefinedReadLacksMarkers();
    ReadingTextLacksMarkers();
    ReadingContentLacksMarkers();
    GenericWithout(UndefinedText);
    GenericWithout(UndefinedContent);
  }

  /** `data.candidates[0].content.parts[0].text`, when both lists are non-empty. */
  function FirstText(candidates: seq<Candidate>): (r: Option<string>)
    ensures r.Some? <==> candidates != [] && candidates[0].parts != []
    ensures r.Some? ==> r.value == candidates[0].parts[0]
  {
    if candidates == [] || candidates[0].parts == [] then None
    else Some(candidates[0].parts[0])
  }

  /** The handler. `sent` is the `parts` array posted to the model, `None`
      when the handler returns before making the call. */
  method Post(apiKey: Option<string>, messages: seq<Message>, kb: seq<Example>, upstream: Upstream)
    returns (response: Response, sent: Option<seq<Part>>)
    ensures KeyMissing(apiKey) ==> response == Response(500, ErrorBody(MissingKeyMessage))
    ensures !KeyMissing(apiKey) && messages == [] ==>
              response == Response(500, ErrorBody(GenericPrefix + UndefinedText))
    ensures sent.Some? <==> !KeyMissing(apiKey) && messages != []
    ensures sent.Some? ==> sent.value == ExampleParts(kb) + [Part(InputPrefix + Last(messages).text)]
    ensures sent.Some? && upstream.Refused? ==> response == ErrorResponse(UpstreamErrorPrefix + upstream.statusText)
    ensures sent.Some? && upstream.Failed? ==> response == ErrorResponse(upstream.message)
    ensures sent.Some? && upstream.Answered? && upstream.candidates == [] ==>
              response == Response(500, ErrorBody(GenericPrefix + UndefinedContent))
    ensures sent.Some? && upstream.Answered? && upstream.candidates != [] && upstream.candidates[0].parts == [] ==>
              response == Response(500, ErrorBody(GenericPrefix + UndefinedText))
    ensures response.status == 200 <==> sent.Some? && upstream.Answered? && FirstText(upstream.candidates).Some?
    ensures response.status == 200 ==>
              response.body == ResultBody(LabelCleanup.Cleanup(FirstText(upstream.candidates).value))
    ensures response.status != 200 ==> response.status == 500 && response.body.ErrorBody?
  {
    if KeyMissing(apiKey) {
      return Response(500, ErrorBody(MissingKeyMessage)), None;
    }
    UndefinedReadsAreGeneric();
    sent := None;
    var thrown: string;
    if messages == [] {
      thrown := UndefinedText;
    } else {
      var lastMessage := Last(messages).text;
      var parts := ExampleParts(kb);
      parts := parts + [Part(InputPrefix + lastMessage)];
      sent := Some(parts);
      match upstream {
        case Refused(_, statusText) =>
          thrown := UpstreamErrorPrefix + statusText;
        case Failed(message) =>
          thrown := message;
        case Answered(candidates) =>
          if candidates == [] {
            thrown := UndefinedContent;
          } else if candidates[0].parts == [] {
            thrown := UndefinedText;
          } else {
            var generatedText := candidates[0].parts[0];
            var cleanedResponse := LabelCleanup.Cleanup(generatedText);
            return Response(200, ResultBody(cleanedResponse)), sent;
          }
      }
    }
    response := ErrorResponse(thrown);
  }
}
