/** Base64 data URIs as the application builds and takes apart: the form
    `data:<mediatype>;base64,<data>` of section 3 of RFC 2397, with the
    payload in the base64 alphabet of section 4 of RFC 4648. */
module DataUrls {
  import opened Outcomes
  import opened JsStrings

  /** A character of the base64 alphabet (section 4 of RFC 4648), the pad
      character `=` included. */
  predicate IsBase64Char(c: char) {
    IsAsciiUpper(c) || IsAsciiLower(c) || IsDigit(c) || c == '+' || c == '/' || c == '='
  }

  predicate IsBase64(payload: string) {
    forall k :: 0 <= k < |payload| ==> IsBase64Char(payload[k])
  }

  /** The text before the payload: `data:<mime>;base64,`. */
  function Header(mime: string): string {
    "data:" + mime + ";base64,"
  }

  /** `data:${mime};base64,${payload}`. */
  function DataUri(mime: string, payload: string): (u: string)
    ensures |u| == |Header(mime)| + |payload|
    ensures u[..|Header(mime)|] == Header(mime) && u[|Header(mime)|..] == payload
  {
    Header(mime) + payload
  }

  /** `dataUrl.split(',')[1]`: what the edit request sends as image data. */
  function PayloadOf(dataUrl: string): (r: Option<string>)
    ensures r.Some? <==> ',' in dataUrl
  {
    SecondPiece(dataUrl, ',')
  }

  /** The payload of a data URI survives `split(',')[1]` whenever neither the
      media type nor the payload holds a comma. */
  lemma PayloadOfDataUri(mime: string, payload: string)
    requires ',' !in mime && ',' !in payload
    ensures PayloadOf(DataUri(mime, payload)) == Some(payload)
  {
    var head := "data:" + mime + ";base64";
    assert ',' !in head by {
      assert head == "data:" + mime + ";base64";
      forall k | 0 <= k < |head| ensures head[k] != ',' {
        if k < 5 {
          assert head[k] == "data:"[k];
        } else if k < 5 + |mime| {
          assert head[k] == mime[k - 5];
        } else {
          assert head[k] == ";base64"[k - 5 - |mime|];
        }
      }
    }
    assert DataUri(mime, payload) == Join([head, payload], ',');
    SplitJoin([head, payload], ',');
  }

  /** A base64 payload never holds a comma, so a data URI built from one
      gives it back through `split(',')[1]` (the media type being comma-free). */
  lemma Base64PayloadRoundTrip(mime: string, payload: string)
    requires ',' !in mime && IsBase64(payload)
    ensures PayloadOf(DataUri(mime, payload)) == Some(payload)
  {
    PayloadOfDataUri(mime, payload);
  }
}
