# genioAIPK — a Dafny model of the request logic

genioAIPK is a browser front end. The user types a prompt, optionally
attaches reference images, and gets generated or edited images from a
remote image-generation service. This project models the logic behind that
page and proves properties of the model:

- **Request controller** (`App.tsx`). This is the state behind
  `handleGenerate`: prompt, attachments, results, loading flag and error.
  It is the class `App.RequestController`. The `await` is split into a
  start step (`HandleGenerate`, which returns the service call it would
  issue) and a settle step (`Resolve`, which takes the service's outcome).
- **Download filename** (`App.tsx`). The sanitised 30-character prompt
  prefix and `genioaipk_<safe>_<n>.jpeg`, with a parser proving that the
  name gives back the prefix and the 1-based image number.
- **Attachment list** (`components/ImageUpload.tsx`). The record built per
  file, the all-or-nothing batch append of `Promise.all`, and removal by
  position.
- **Generation client** (`services/geminiService.ts`). Data URIs in the
  form of section 3 of RFC 2397, and recovery of the payload with
  `split(',')[1]`. This round-trips because the base64 alphabet of
  section 4 of RFC 4648 has no comma. Also the multi-part edit request,
  extraction of the inline images from the first candidate (a loop, as in
  the source), and the normalisation of failures into one fixed message
  per operation.

Modules: `Outcomes` (Option, Result, Reply), `JsStrings` (the JavaScript
string built-ins the application uses: `trim`, `split`, `substring`, number
to string, the ASCII classes of its regular expression; plus `join` and
`lastIndexOf`, which the application never calls and which serve only the
split round-trip lemmas and the model's filename parser), `DataUrls`,
`ImageUpload`, `GeminiService`, `App`. A Dafny `char` is a Unicode scalar
value. It matches one JavaScript UTF-16 code unit only for text inside the
Basic Multilingual Plane, so only such text is modelled (see "## Left out").

The remote SDK and the browser's FileReader are not modelled. Their results
are parameters instead: a `Reply` (`Answered(response)` or `Threw`) for each
SDK call, and a `ReadOutcome` (`Loaded(dataUrl)` or `ReadError`) for each
file read.

Behaviour of the code worth noting:
- A file that fails to read aborts the whole batch. It is not dropped on
  its own.
- The generate path returns an empty result list, without error, when the
  provider returns no images. So "results are non-empty on success" holds
  only on the edit path.
- A rejection's message is shown as is, and an empty message becomes
  "An unknown error occurred.".
- The controller does not guard against a second start while a call is
  pending. Only the button's `disabled={isLoading || !prompt}` does, and it
  tests `!prompt`, not `!prompt.trim()`, so a whitespace-only prompt
  enables the button. `DoubleSubmitScenario` shows the loading flag being
  cleared by the first settlement while a second call is still pending.
- The gallery builds download names from the *current* prompt
  (App.tsx:125), not from the prompt that produced the images.

## Model

| member | source | states |
|---|---|---|
| JsStrings.TrimEmptyIffBlank | App.tsx:53 | `prompt.trim()` is empty exactly when every character of the prompt is ECMAScript whitespace or a line terminator |
| JsStrings.Split | services/geminiService.ts:54 | `split` always yields at least one piece, and no piece contains the separator |
| JsStrings.JoinSplit | services/geminiService.ts:54 | joining the pieces of `split` with the separator gives the original string back |
| JsStrings.SplitJoin | services/geminiService.ts:54 | splitting a join of separator-free pieces gives exactly those pieces back |
| JsStrings.SecondPiece | services/geminiService.ts:54 | `split(',')[1]` is defined exactly when the string contains a comma |
| JsStrings.AsciiLowerCase | App.tsx:13 | `toLowerCase` on ASCII text keeps the length, maps each character through ASCII lower-casing, and leaves no upper-case letter |
| JsStrings.DecimalString | App.tsx:14 | `${n}` is a non-empty run of decimal digits with no leading zero for positive n |
| JsStrings.ParseDecimalString | App.tsx:14 | the decimal text of n reads back as n |
| DataUrls.DataUri | services/geminiService.ts:78 | a data URI is the header `data:<mime>;base64,` followed by exactly the payload |
| DataUrls.PayloadOf | services/geminiService.ts:54 | the extracted image data is defined exactly when the data URL contains a comma |
| DataUrls.PayloadOfDataUri | services/geminiService.ts:54 | for a comma-free media type and payload, `split(',')[1]` of the data URI gives the payload |
| DataUrls.Base64PayloadRoundTrip | services/geminiService.ts:54 | a base64 payload under a comma-free media type always survives `split(',')[1]` |
| ImageUpload.FileToDataUrl | components/ImageUpload.tsx:11-24 | the read resolves exactly when the file read succeeds, and the record copies the file's name, its type as `mimeType`, and the data URL read |
| ImageUpload.ReadAll | components/ImageUpload.tsx:31-33 | `Promise.all` gives a result exactly when every read succeeds: one record per file, in selection order |
| ImageUpload.AddSelectedFilesSpec | components/ImageUpload.tsx:28-39 | a successful batch keeps the old list as an unchanged prefix followed by one record per file in selection order; a batch with any failed read leaves the list unchanged |
| ImageUpload.RemoveImageSpec | components/ImageUpload.tsx:41-43 | removing a valid position gives `prev[..i] + prev[i+1..]`, of length n-1; an index outside the list leaves it unchanged |
| GeminiService.JpegUris | services/geminiService.ts:36-39 | one URI per provider image, in provider order, each `data:image/jpeg;base64,` + its bytes |
| GeminiService.GenerateImageFromPrompt | services/geminiService.ts:24-44 | fails exactly when the provider call fails, and then only with "Failed to generate image. Please check your prompt or API key."; otherwise one JPEG data URI per provider image, in order |
| GeminiService.GeneratedUrisCarryPayloads | services/geminiService.ts:36-39 | each generated URI gives its base64 bytes back through `split(',')[1]`, so results can be attached and sent to the edit operation |
| GeminiService.ImageParts | services/geminiService.ts:52-57 | one inline part per attachment, in order, carrying `split(',')[1]` of its data URL and its MIME type |
| GeminiService.EditRequestParts | services/geminiService.ts:52-67 | the edit request has one part more than there are attachments: part k is an inline part carrying `split(',')[1]` of attachment k's data URL and its MIME type, then one trailing text part with the prompt |
| GeminiService.EditRequestCarriesPayloads | services/geminiService.ts:52-57 | when each attachment's data URL is `data:<mimeType>;base64,<payload>`, part k carries exactly payload k |
| GeminiService.InlinePositions | services/geminiService.ts:75-76 | the positions of the parts carrying inline data: strictly increasing, in range, and containing every such part |
| GeminiService.InlineImageUrisSpec | services/geminiService.ts:74-81 | the extraction yields, in order, exactly the parts with inline data, each as `data:<mimeType>;base64,<data>` |
| GeminiService.InlineImageUrisEmpty | services/geminiService.ts:74-85 | the extraction is empty exactly when no part carries inline data |
| GeminiService.CollectInlineImages | services/geminiService.ts:74-81 | the loop pushes exactly the extraction's URIs |
| GeminiService.EditImageWithPrompt | services/geminiService.ts:46-93 | with no attachments it fails with "At least one image is required for editing." and sends no request; otherwise it sends the multi-part request and succeeds exactly when the first candidate has inline images, returning them; every other failure, the no-image throw at :84 included, surfaces only as "Failed to edit image. The model might not support the request." |
| App.ReplaceNonAlnum | App.tsx:13 | every character outside ASCII letters and digits becomes one `_`, the others are kept, and the length is unchanged |
| App.SafePrompt | App.tsx:13 | the sanitised prompt has length min(30, length of the prompt), contains only `[a-z0-9_]`, and position k is the lower-cased prompt letter or digit, or `_` |
| App.DownloadFilenameRoundTrip | App.tsx:13-14 | the filename `genioaipk_<safe>_<index+1>.jpeg` parses back into the sanitised prompt and the number index+1, which is at least 1 |
| App.DownloadFilenamesDistinct | App.tsx:14 | different gallery positions get different filenames |
| App.ErrorText | App.tsx:70 | the displayed error is never empty: it is the rejection's message when that message is non-empty, and "An unknown error occurred." when it is empty |
| App.Dispatch | App.tsx:61-67 | the generate call gives the generate service's result; an edit call carrying attachments never yields the missing-attachments error, and succeeds exactly when the first candidate has inline images |
| App.RequestController.constructor | App.tsx:46-50 | the initial state: empty prompt, no attachments, no results, not loading, no error |
| App.RequestController.SetPrompt | App.tsx:94 | the prompt becomes the typed text and nothing else changes |
| App.RequestController.AddFiles | components/ImageUpload.tsx:28-39 | the attachment list becomes the batch update of the old list and nothing else changes |
| App.RequestController.RemoveAttachment | components/ImageUpload.tsx:41-43 | the attachment list becomes the old list without that position and nothing else changes |
| App.RequestController.HandleGenerate | App.tsx:52-67 | a blank prompt sets "Please enter a prompt to generate an image." and issues no call, leaving loading and results as they were; otherwise loading is set, error and results are cleared, and the edit call is chosen exactly when attachments exist; prompt and attachments never change |
| App.RequestController.Resolve | App.tsx:68-73 | on success the results become the returned list and the error is untouched; on failure the error becomes the message (or the unknown-error text) and the results stay as they were; loading is cleared either way; prompt and attachments never change |
| App.GenerateScenario | App.tsx:52-74 | prompt "a red cube" with no attachments and provider payloads A, B ends with the two JPEG data URIs as results and no error |
| App.EmptyPromptScenario | App.tsx:53-56 | an empty prompt issues no service call and ends with the empty-prompt error, no results, not loading |
| App.EditScenario | App.tsx:52-74 | prompt "make it blue" with one attachment and one PNG inline part Z ends with `data:image/png;base64,Z` as the only result, and the attachment is kept |
| App.DoubleSubmitScenario | App.tsx:52-74 | two starts and one settlement leave loading cleared while one call is still pending |

## Left out

- Presentation: all JSX, styling and conditional rendering (App.tsx:76-141, components/ImageUpload.tsx:45-78), and components/Header.tsx, which is static markup.
- The DOM side of `downloadImage`: creating, clicking and removing the anchor (App.tsx:11-12, 15-17). Only the filename is modelled.
- FileReader and the browser's base64 encoding of file bytes (components/ImageUpload.tsx:12-23) are browser I/O. A read is an abstract outcome. The `abort` case, where `onloadend` would resolve with a null result, is not modelled.
- That FileReader writes the file's own type into the data URL is not modelled. `GeminiService.EditRequestCarriesPayloads` takes that agreement, and a comma-free media type, as hypotheses.
- The unused `fileToBase64` helper (services/geminiService.ts:11-22) is dead code.
- The `GoogleGenAI` SDK calls, the model identifiers, the request configuration (two images, JPEG, 1:1, image-only response) and the vendor response shape (services/geminiService.ts:9, 26-34, 61-72) are foreign calls. A reply is `Answered` or `Threw`. Missing fields fall into two kinds. A missing `generatedImages`, `image`, `candidates` (or its first element's `content`) or `parts` throws inside the `try` (services/geminiService.ts:36-37, 74-75) and so counts as `Threw`; an empty candidate list is modelled on its own. A missing `image.imageBytes` (:37-38), `inlineData.data` or `inlineData.mimeType` (:77-78) does not throw: the template literal writes `undefined` into the URI (for example `data:image/jpeg;base64,undefined`) and that URI is returned as a success. The model's `Blob` fields and its `seq<string>` of image bytes are always present, so it does not represent this second kind.
- The `API_KEY` check at module load (services/geminiService.ts:5-7) reads the process environment.
- `console.error` logging.
- Event-loop interleaving. Settlements are applied one at a time by `Resolve`, in whatever order the caller chooses. Which settlement belongs to which call, and the React closure capture, are kept only in the `ServiceCall` the start step returns.
- `types.ts` is not part of this model. The `UploadedImage` shape is the record built at components/ImageUpload.tsx:15-19.
- JsStrings.AsciiLowerCase: models `toLowerCase` only on ASCII text. That is its only input here, since the replacement before it leaves only ASCII.
- JsStrings.DecimalString: models `${n}` only for non-negative integers below 10^21. Gallery indices are always in that range.
- App.SafePrompt: models prompts inside the Basic Multilingual Plane only. A Dafny `char` is a Unicode scalar value, but JavaScript counts a character outside that plane (an emoji, say) as two UTF-16 code units. Such a character counts two toward the 30 of `substring(0, 30)`, which can also split it, and each of its two units becomes its own `_`. The model gives one `_` for it and counts it once. The same holds for `JsStrings.Substring` and `JsStrings.TrimEmptyIffBlank`.
