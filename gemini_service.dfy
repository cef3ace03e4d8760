/** The generation client of `services/geminiService.ts`: translation of the
    provider's replies into data URIs, construction of the multi-part edit
    request, and normalisation of every failure into one fixed message per
    operation. The SDK calls themselves are represented by their replies. */
module GeminiService {
  import opened Outcomes
  import opened DataUrls
  import opened ImageUpload

  const JpegMime := "image/jpeg"

  const GenerateFailedMessage := "Failed to generate image. Please check your prompt or API key."
  const NeedImageMessage := "At least one image is required for editing."
  const NoImageMessage := "The model did not return an image. Try a different prompt or image."
  const EditFailedMessage := "Failed to edit image. The model might not support the request."

  // ---------------------------------------------------------------------------
  // generate from text
  // ---------------------------------------------------------------------------

  /** `data:image/jpeg;base64,${imageBytes}` for every provider image, in
      provider order. */
  function JpegUris(imageBytes: seq<string>): (uris: seq<string>)
    ensures |uris| == |imageBytes|
    ensures forall k :: 0 <= k < |imageBytes| ==> uris[k] == DataUri(JpegMime, imageBytes[k])
    decreases |imageBytes|
  {
    if imageBytes == [] then [] else [DataUri(JpegMime, imageBytes[0])] + JpegUris(imageBytes[1..])
  }

  /** `generateImageFromPrompt`, given the provider's reply (the base64 bytes
      of each generated image) to the prompt: one JPEG data URI per image,
      or the generic failure whatever went wrong. */
  function GenerateImageFromPrompt(reply: Reply<seq<string>>): (r: Result<seq<string>>)
    ensures r.Err? <==> reply.Threw?
    ensures r.Err? ==> r.message == GenerateFailedMessage
    ensures reply.Answered? ==> |r.value| == |reply.response|
    ensures reply.Answered? ==>
              forall k :: 0 <= k < |reply.response| ==> r.value[k] == DataUri(JpegMime, reply.response[k])
  {
    match reply
    case Answered(imageBytes) => Ok(JpegUris(imageBytes))
    case Threw => Err(GenerateFailedMessage)
  }

  /** Every generated URI hands its base64 payload back to `split(',')[1]`, so
      a generated image can be attached and sent to the edit operation. */
  lemma GeneratedUrisCarryPayloads(imageBytes: seq<string>)
    requires forall k :: 0 <= k < |imageBytes| ==> IsBase64(imageBytes[k])
    ensures var r := GenerateImageFromPrompt(Answered(imageBytes));
      r.Ok? && forall k :: 0 <= k < |imageBytes| ==> PayloadOf(r.value[k]) == Some(imageBytes[k])
  {
    var r := GenerateImageFromPrompt(Answered(imageBytes));
    forall k | 0 <= k < |imageBytes| ensures PayloadOf(r.value[k]) == Some(imageBytes[k]) {
      Base64PayloadRoundTrip(JpegMime, imageBytes[k]);
    }
  }

  // ---------------------------------------------------------------------------
  // edit request
  // ---------------------------------------------------------------------------

  /** One part of the edit request: an inline image (its `data` is
      `undefined` when the data URL holds no comma) or the text prompt. */
  datatype RequestPart = InlinePart(data: Option<string>, mimeType: string) | TextPart(text: string)

  /** `images.map(image => ({ inlineData: { data, mimeType } }))`. */
  function ImageParts(images: seq<UploadedImage>): (parts: seq<RequestPart>)
    ensures |parts| == |images|
    ensures forall k :: 0 <= k < |images| ==>
              parts[k] == InlinePart(PayloadOf(images[k].dataUrl), images[k].mimeType)
    decreases |images|
  {
    if images == [] then []
    else [InlinePart(PayloadOf(images[0].dataUrl), images[0].mimeType)] + ImageParts(images[1..])
  }

  /** `[...imageParts, textPart]`: the image parts in attachment order, then
      one trailing text part carrying the prompt. */
  function EditRequestParts(prompt: string, images: seq<UploadedImage>): (parts: seq<RequestPart>)
    ensures |parts| == |images| + 1
    ensures forall k :: 0 <= k < |images| ==> parts[k].InlinePart? && parts[k].mimeType == images[k].mimeType
    ensures forall k :: 0 <= k < |images| ==> parts[k].data == PayloadOf(images[k].dataUrl)
    ensures parts[|images|] == TextPart(prompt)
  {
    ImageParts(images) + [TextPart(prompt)]
  }

  /** When every attachment's data URL is `data:<mimeType>;base64,<payload>`
      with a base64 payload, the request carries exactly those payloads. */
  lemma EditRequestCarriesPayloads(prompt: string, images: seq<UploadedImage>, payloads: seq<string>)
    requires |payloads| == |images|
    requires forall k :: 0 <= k < |images| ==>
               && images[k].dataUrl == DataUri(images[k].mimeType, payloads[k])
               && ',' !in images[k].mimeType
               && IsBase64(payloads[k])
    ensures forall k :: 0 <= k < |images| ==>
              EditRequestParts(prompt, images)[k] == InlinePart(Some(payloads[k]), images[k].mimeType)
  {
    var parts := EditRequestParts(prompt, images);
    forall k | 0 <= k < |images|
      ensures parts[k] == InlinePart(Some(payloads[k]), images[k].mimeType)
    {
      Base64PayloadRoundTrip(images[k].mimeType, payloads[k]);
      assert parts[k] == ImageParts(images)[k];
    }
  }

  // ---------------------------------------------------------------------------
  // edit response
  // ---------------------------------------------------------------------------

  datatype Blob = Blob(mimeType: string, data: string)

  /** A content part of a candidate; only its inline data matters here. */
  datatype ResponsePart = ResponsePart(inlineData: Option<Blob>)

  datatype Candidate = Candidate(parts: seq<ResponsePart>)

  function BlobUri(b: Blob): string {
    DataUri(b.mimeType, b.data)
  }

  /** The URIs the extraction loop has pushed after visiting `parts`. */
  function InlineImageUris(parts: seq<ResponsePart>): seq<string>
    decreases |parts|
  {
    if parts == [] then []
    else
      var last := parts[|parts| - 1];
      InlineImageUris(parts[..|parts| - 1])
        + (if last.inlineData.Some? then [BlobUri(last.inlineData.value)] else [])
  }

  /** The positions of the parts carrying inline data, in increasing order. */
  function InlinePositions(parts: seq<ResponsePart>): (ps: seq<nat>)
    ensures forall j :: 0 <= j < |ps| ==> ps[j] < |parts| && parts[ps[j]].inlineData.Some?
    ensures forall i, j :: 0 <= i < j < |ps| ==> ps[i] < ps[j]
    ensures forall k :: 0 <= k < |parts| && parts[k].inlineData.Some? ==> k in ps
    decreases |parts|
  {
    if parts == [] then []
    else
      var n := |parts| - 1;
      var front := InlinePositions(parts[..n]);
      assert forall j :: 0 <= j < |front| ==> parts[front[j]] == parts[..n][front[j]];
      front + (if parts[n].inlineData.Some? then [n] else [])
  }

  /** The extraction yields, in order, exactly the parts that carry inline
      data, each as `data:<mimeType>;base64,<data>`. */
  lemma {:induction false} InlineImageUrisSpec(parts: seq<ResponsePart>)
    ensures |InlineImageUris(parts)| == |InlinePositions(parts)|
    ensures forall j :: 0 <= j < |InlinePositions(parts)| ==>
              InlineImageUris(parts)[j] == BlobUri(parts[InlinePositions(parts)[j]].inlineData.value)
    decreases |parts|
  {
    if parts != [] {
      var n := |parts| - 1;
      InlineImageUrisSpec(parts[..n]);
      var front := InlinePositions(parts[..n]);
      forall j | 0 <= j < |front|
        ensures parts[front[j]] == parts[..n][front[j]]
      {
      }
    }
  }

  /** The extraction finds nothing exactly when no part carries inline data. */
  lemma InlineImageUrisEmpty(parts: seq<ResponsePart>)
    ensures InlineImageUris(parts) == [] <==> forall k :: 0 <= k < |parts| ==> parts[k].inlineData.None?
  {
  }

  /** The `for ... of` loop over the first candidate's parts that pushes one
      URI per part carrying inline data. */
  method CollectInlineImages(parts: seq<ResponsePart>) returns (generatedImages: seq<string>)
    ensures generatedImages == InlineImageUris(parts)
  {
    generatedImages := [];
    var i := 0;
    while i < |parts|
      invariant 0 <= i <= |parts|
      invariant generatedImages == InlineImageUris(parts[..i])
    {
      var part := parts[i];
      if part.inlineData.Some? {
        var imageUrl := DataUri(part.inlineData.value.mimeType, part.inlineData.value.data);
        generatedImages := generatedImages + [imageUrl];
      }
      assert parts[..i + 1][..i] == parts[..i];
      i := i + 1;
    }
    assert parts[..|parts|] == parts;
  }

  // ---------------------------------------------------------------------------
  // edit with text and images
  // ---------------------------------------------------------------------------

  /** Why the body of the `try` failed, before the `catch` erases it. */
  datatype EditFault =
    | ProviderThrew    // the SDK call rejected
    | NoCandidate      // `response.candidates[0]` is undefined
    | NoImageReturned  // the explicit throw of `NoImageMessage`

  /** `editImageWithPrompt`, given the provider's reply (its candidates): the
      request that is sent, if any, and the settled result. */
  method EditImageWithPrompt(prompt: string, images: seq<UploadedImage>, reply: Reply<seq<Candidate>>)
    returns (request: Option<seq<RequestPart>>, r: Result<seq<string>>)
    ensures request.None? <==> |images| == 0
    ensures |images| == 0 ==> r == Err(NeedImageMessage)
    ensures request.Some? ==> request.value == EditRequestParts(prompt, images)
    ensures r.Ok? <==> && |images| > 0 && reply.Answered? && |reply.response| > 0
                       && InlineImageUris(reply.response[0].parts) != []
    ensures r.Ok? ==> r.value == InlineImageUris(reply.response[0].parts)
    ensures |images| > 0 && r.Err? ==> r.message == EditFailedMessage
    ensures r != Err(NoImageMessage)
  {
    if |images| == 0 {
      return None, Err(NeedImageMessage);
    }
    // try
    request := Some(EditRequestParts(prompt, images));
    var fault: Option<EditFault> := None;
    var generatedImages: seq<string> := [];
    match reply {
      case Threw =>
        fault := Some(ProviderThrew);
      case Answered(candidates) =>
        if |candidates| == 0 {
          fault := Some(NoCandidate);
        } else {
          generatedImages := CollectInlineImages(candidates[0].parts);
          if |generatedImages| == 0 {
            fault := Some(NoImageReturned);
          }
        }
    }
    // catch
    if fault.Some? {
      r := Err(EditFailedMessage);
    } else {
      r := Ok(generatedImages);
    }
  }
}
