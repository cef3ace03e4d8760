/** `App.tsx`: the download filename derived from the prompt, and the request
    controller that holds the page state and drives one generation request
    through a start step and a settle step. */
module App {
  import opened Outcomes
  import opened JsStrings
  import opened DataUrls
  import opened ImageUpload
  import opened GeminiService

  // ---------------------------------------------------------------------------
  // download filename
  // ---------------------------------------------------------------------------

  const PromptPrefixLength := 30
  const FilenamePrefix := "genioaipk_"
  const FilenameSuffix := ".jpeg"

  /** A character that may appear in the sanitised prompt: `[a-z0-9_]`. */
  predicate IsSafeChar(c: char) {
    IsAsciiLower(c) || IsDigit(c) || c == '_'
  }

  /** `s.replace(/[^a-z0-9]/gi, '_')`: every character outside the ASCII
      letters and digits becomes one underscore. */
  function ReplaceNonAlnum(s: string): (r: string)
    ensures |r| == |s|
    ensures forall k :: 0 <= k < |s| ==> r[k] == (if IsAsciiAlnum(s[k]) then s[k] else '_')
    ensures IsAscii(r)
    decreases |s|
  {
    if s == [] then []
    else [if IsAsciiAlnum(s[0]) then s[0] else '_'] + ReplaceNonAlnum(s[1..])
  }

  /** `prompt.substring(0, 30).replace(/[^a-z0-9]/gi, '_').toLowerCase()`:
      of the first 30 characters, an ASCII letter or digit is
      lower-cased and anything else becomes `_`. */
  function SafePrompt(prompt: string): (safe: string)
    ensures |safe| == if |prompt| < PromptPrefixLength then |prompt| else PromptPrefixLength
    ensures forall k :: 0 <= k < |safe| ==> IsSafeChar(safe[k])
    ensures forall k :: 0 <= k < |safe| ==>
              safe[k] == (if IsAsciiAlnum(prompt[k]) then LowerChar(prompt[k]) else '_')
  {
    AsciiLowerCase(ReplaceNonAlnum(Substring(prompt, 0, PromptPrefixLength)))
  }

  /** `genioaipk_${safePrompt}_${index + 1}.jpeg`. */
  function DownloadFilename(prompt: string, index: nat): string {
    FilenamePrefix + SafePrompt(prompt) + "_" + DecimalString(index + 1) + FilenameSuffix
  }

  /** Reads a download filename back: the sanitised prompt (everything
      between the prefix and the last underscore) and the image number. */
  function ParseDownloadFilename(f: string): Option<(string, nat)> {
    var p := |FilenamePrefix|;
    var q := |FilenameSuffix|;
    if |f| < p + q || f[..p] != FilenamePrefix || f[|f| - q..] != FilenameSuffix then None
    else ParseStem(f[p..|f| - q])
  }

  /** Splits `<safe>_<digits>` at its last underscore. */
  function ParseStem(stem: string): Option<(string, nat)> {
    match LastIndexOf(stem, '_')
    case None => None
    case Some(u) =>
      var digits := stem[u + 1..];
      if digits != [] && forall k :: 0 <= k < |digits| ==> IsDigit(digits[k])
      then Some((stem[..u], ParseDecimal(digits)))
      else None
  }

  lemma StripFrame(stem: string)
    ensures ParseDownloadFilename(FilenamePrefix + stem + FilenameSuffix) == ParseStem(stem)
  {
    var f := FilenamePrefix + stem + FilenameSuffix;
    var p := |FilenamePrefix|;
    var q := |FilenameSuffix|;
    assert f[..p] == FilenamePrefix;
    assert f[|f| - q..] == FilenameSuffix;
    assert f[p..|f| - q] == stem;
  }

  lemma ParseStemJoin(safe: string, n: nat)
    ensures ParseStem(safe + "_" + DecimalString(n)) == Some((safe, n))
  {
    var digits := DecimalString(n);
    var stem := safe + "_" + digits;
    assert '_' !in digits by {
      forall k | 0 <= k < |digits| ensures digits[k] != '_' {
        assert IsDigit(digits[k]);
      }
    }
    LastIndexOfJoin(safe, '_', digits);
    assert stem[|safe| + 1..] == digits;
    assert stem[..|safe|] == safe;
    ParseDecimalString(n);
  }

  /** The filename determines the sanitised prompt and the image number it
      was built from, and that number is the 1-based position `index + 1`. */
  lemma DownloadFilenameRoundTrip(prompt: string, index: nat)
    ensures ParseDownloadFilename(DownloadFilename(prompt, index)) == Some((SafePrompt(prompt), index + 1))
  {
    var stem := SafePrompt(prompt) + "_" + DecimalString(index + 1);
    assert DownloadFilename(prompt, index) == FilenamePrefix + stem + FilenameSuffix;
    StripFrame(stem);
    ParseStemJoin(SafePrompt(prompt), index + 1);
  }

  /** Different images of one gallery are saved under different names. */
  lemma DownloadFilenamesDistinct(prompt: string, i: nat, j: nat)
    requires i != j
    ensures DownloadFilename(prompt, i) != DownloadFilename(prompt, j)
  {
    DownloadFilenameRoundTrip(prompt, i);
    DownloadFilenameRoundTrip(prompt, j);
  }

  // ---------------------------------------------------------------------------
  // request controller
  // ---------------------------------------------------------------------------

  const EmptyPromptMessage := "Please enter a prompt to generate an image."
  const UnknownErrorMessage := "An unknown error occurred."

  /** `err.message || 'An unknown error occurred.'`. */
  function ErrorText(message: string): (text: string)
    ensures text != ""
    ensures message != "" ==> text == message
    ensures message == "" ==> text == UnknownErrorMessage
  {
    if message == "" then UnknownErrorMessage else message
  }

  /** The service call the start step issues, with the values it captured. */
  datatype ServiceCall =
    | GenerateCall(prompt: string)
    | EditCall(prompt: string, images: seq<UploadedImage>)

  /** The page state held by `App` and the handlers that change it. */
  class RequestController {
    var prompt: string
    var uploadedImages: seq<UploadedImage>
    var generatedImages: seq<string>
    var isLoading: bool
    var error: Option<string>
    /** Service calls started and not yet settled (awaits in progress). */
    var pending: nat

    /** The spinner is never shown while no call is outstanding. */
    ghost predicate Valid()
      reads this
    {
      pending == 0 ==> !isLoading
    }

    /** The initial `useState` values. */
    constructor ()
      ensures Valid()
      ensures prompt == "" && uploadedImages == [] && generatedImages == []
      ensures !isLoading && error == None && pending == 0
    {
      prompt := "";
      uploadedImages := [];
      generatedImages := [];
      isLoading := false;
      error := None;
      pending := 0;
    }

    /** The prompt text area's `onChange`. */
    method SetPrompt(text: string)
      requires Valid()
      modifies this
      ensures Valid()
      ensures prompt == text
      ensures uploadedImages == old(uploadedImages) && generatedImages == old(generatedImages)
      ensures isLoading == old(isLoading) && error == old(error) && pending == old(pending)
    {
      prompt := text;
    }

    /** The file picker's `change` handler, once its reads have settled. */
    method AddFiles(selection: Option<seq<SelectedFile>>)
      requires Valid()
      modifies this
      ensures Valid()
      ensures uploadedImages == AddSelectedFiles(old(uploadedImages), selection)
      ensures prompt == old(prompt) && generatedImages == old(generatedImages)
      ensures isLoading == old(isLoading) && error == old(error) && pending == old(pending)
    {
      uploadedImages := AddSelectedFiles(uploadedImages, selection);
    }

    /** A thumbnail's remove button. */
    method RemoveAttachment(index: int)
      requires Valid()
      modifies this
      ensures Valid()
      ensures uploadedImages == RemoveImage(old(uploadedImages), index)
      ensures prompt == old(prompt) && generatedImages == old(generatedImages)
      ensures isLoading == old(isLoading) && error == old(error) && pending == old(pending)
    {
      uploadedImages := RemoveImage(uploadedImages, index);
    }

    /** `handleGenerate` up to its `await`: a blank prompt only sets the
        validation error; otherwise loading starts, the error and the previous
        results are cleared, and the edit call is chosen exactly when images
        are attached. The controller itself does not refuse a second start
        while a call is pending; only the disabled button does. */
    method HandleGenerate() returns (call: Option<ServiceCall>)
      requires Valid()
      modifies this
      ensures Valid()
      ensures prompt == old(prompt) && uploadedImages == old(uploadedImages)
      ensures call.None? <==> IsBlank(prompt)
      ensures IsBlank(prompt) ==>
                && error == Some(EmptyPromptMessage)
                && isLoading == old(isLoading) && generatedImages == old(generatedImages)
                && pending == old(pending)
      ensures !IsBlank(prompt) ==>
                && isLoading && error == None && generatedImages == []
                && pending == old(pending) + 1
                && call == Some(if |uploadedImages| > 0 then EditCall(prompt, uploadedImages)
                                else GenerateCall(prompt))
    {
      TrimEmptyIffBlank(prompt);
      if Trim(prompt) == "" {
        error := Some(EmptyPromptMessage);
        return None;
      }
      isLoading := true;
      error := None;
      generatedImages := [];
      pending := pending + 1;
      if |uploadedImages| > 0 {
        call := Some(EditCall(prompt, uploadedImages));
      } else {
        call := Some(GenerateCall(prompt));
      }
    }

    /** `handleGenerate` after its `await`: the service's outcome fixes the
        results or the error, and `finally` clears the loading flag. */
    method Resolve(outcome: Result<seq<string>>)
      requires Valid() && pending > 0
      modifies this
      ensures Valid()
      ensures prompt == old(prompt) && uploadedImages == old(uploadedImages)
      ensures !isLoading && pending == old(pending) - 1
      ensures outcome.Ok? ==> generatedImages == outcome.value && error == old(error)
      ensures outcome.Err? ==> error == Some(ErrorText(outcome.message))
                               && generatedImages == old(generatedImages)
    {
      match outcome {
        case Ok(result) =>
          generatedImages := result;
        case Err(message) =>
          error := Some(ErrorText(message));
      }
      isLoading := false;
      pending := pending - 1;
    }
  }

  /** Runs the call the start step issued against the provider's replies. */
  method Dispatch(call: ServiceCall, generateReply: Reply<seq<string>>, editReply: Reply<seq<Candidate>>)
    returns (outcome: Result<seq<string>>)
    ensures call.GenerateCall? ==> outcome == GenerateImageFromPrompt(generateReply)
    ensures call.EditCall? && |call.images| > 0 ==> outcome != Err(NeedImageMessage)
    ensures call.EditCall? && |call.images| > 0 ==>
              (outcome.Ok? <==> editReply.Answered? && |editReply.response| > 0
                                && InlineImageUris(editReply.response[0].parts) != [])
    ensures call.EditCall? && outcome.Ok? ==>
              && editReply.Answered? && |editReply.response| > 0
              && outcome.value == InlineImageUris(editReply.response[0].parts)
  {
    match call {
      case GenerateCall(_) =>
        outcome := GenerateImageFromPrompt(generateReply);
      case EditCall(text, images) =>
        var _, r := EditImageWithPrompt(text, images, editReply);
        outcome := r;
    }
  }

  /** A prompt of text with no attachments: the generate call is issued and
      its two images become the results. */
  method GenerateScenario() returns (c: RequestController)
    ensures c.generatedImages == ["data:image/jpeg;base64,A", "data:image/jpeg;base64,B"]
    ensures c.error == None && !c.isLoading
  {
    c := new RequestController();
    c.SetPrompt("a red cube");
    assert !IsJsWhitespace(c.prompt[0]);
    var call := c.HandleGenerate();
    assert call == Some(GenerateCall("a red cube"));
    var outcome := Dispatch(call.value, Answered(["A", "B"]), Threw);
    assert DataUri(JpegMime, "A") == "data:image/jpeg;base64,A";
    assert DataUri(JpegMime, "B") == "data:image/jpeg;base64,B";
    c.Resolve(outcome);
  }

  /** An empty prompt: no call, only the validation error. */
  method EmptyPromptScenario() returns (c: RequestController, call: Option<ServiceCall>)
    ensures call.None?
    ensures c.error == Some(EmptyPromptMessage) && c.generatedImages == [] && !c.isLoading
  {
    c := new RequestController();
    call := c.HandleGenerate();
  }

  /** One attachment: the edit call is issued and the single inline part of
      the first candidate becomes the result. */
  method EditScenario(image: UploadedImage) returns (c: RequestController)
    ensures c.generatedImages == ["data:image/png;base64,Z"]
    ensures c.error == None && !c.isLoading && c.uploadedImages == [image]
  {
    c := new RequestController();
    c.SetPrompt("make it blue");
    c.AddFiles(Some([SelectedFile(image.name, image.mimeType, Loaded(image.dataUrl))]));
    assert c.uploadedImages == [image];
    assert !IsJsWhitespace(c.prompt[0]);
    var call := c.HandleGenerate();
    var parts := [ResponsePart(Some(Blob("image/png", "Z")))];
    assert InlineImageUris(parts) == ["data:image/png;base64,Z"] by {
      assert parts[..0] == [];
      assert BlobUri(Blob("image/png", "Z")) == "data:image/png;base64,Z";
    }
    var outcome := Dispatch(call.value, Threw, Answered([Candidate(parts)]));
    c.Resolve(outcome);
  }

  /** Two starts before the first call settles: when the first one settles
      the loading flag is already cleared although a call is still pending. */
  method DoubleSubmitScenario() returns (c: RequestController)
    ensures !c.isLoading && c.pending == 1
  {
    c := new RequestController();
    c.SetPrompt("x");
    assert !IsJsWhitespace(c.prompt[0]);
    var first := c.HandleGenerate();
    var second := c.HandleGenerate();
    c.Resolve(Ok([]));
  }
}
