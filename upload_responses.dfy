/** What the upload field reads out of the transport's responses: the body
    built by XHRUpload's `getResponseData` hook, the URL chosen by the
    `upload-success` handler, and the URL a removed file carries. */
module UploadResponses {
  import opened Wrappers
  import opened JsValues

  /** The response Uppy hands to `upload-success` and stores on the file. */
  datatype UploadResponse = UploadResponse(body: JsVal, uploadURL: JsVal)

  /** An Uppy file as the `file-removed` handler sees it: `response` is
      absent until the file has finished uploading. */
  datatype UppyFile = UppyFile(response: Option<UploadResponse>)

  /** The `getResponseData` hook: an object whose `url` is `data.url` for the
      parsed body, or the raw text when anything inside the `try` throws.
      `parsed` is what `JSON.parse(responseText)` gives, `None` when it throws. */
  function GetResponseData(responseText: string, parsed: Option<JsVal>): (body: JsVal)
    ensures body.Obj?
    // parse error, or `null.url` throwing: fall back to the raw text
    ensures parsed.None? || parsed == Some(Null) ==> body.url == Str(responseText)
    // a parsed object contributes its own `url` property, whatever it holds
    ensures parsed.Some? && parsed.value.Obj? ==> body.url == parsed.value.url
    // a parsed primitive has no `url`: the body's url is undefined
    ensures parsed.Some? && !parsed.value.Obj? && !parsed.value.Null? && !parsed.value.Undefined?
      ==> body.url == Undefined
  {
    var data := match parsed
      case None => None
      case Some(d) => GetUrl(d);
    match data
    case None => Obj(Str(responseText))
    case Some(u) => Obj(u)
  }

  /** `response.body?.url || response.uploadURL`, kept only when it is a
      truthy string; `None` means the event is ignored. */
  function UploadedUrl(response: UploadResponse): (r: Option<string>)
    ensures r.Some? ==> r.value != ""
    ensures r.Some? ==> OptionalUrl(response.body) == Str(r.value) || response.uploadURL == Str(r.value)
  {
    var uploadedUrl := Or(OptionalUrl(response.body), response.uploadURL);
    if Truthy(uploadedUrl) && TypeOf(uploadedUrl) == "string" then Some(uploadedUrl.s) else None
  }

  /** `file.response?.body?.url`: the URL recorded on a file, `Undefined` when
      the file never completed. */
  function RecordedUrl(file: UppyFile): (r: JsVal)
    ensures file.response.None? ==> r == Undefined
    ensures file.response.Some? && file.response.value.body.Obj? ==> r == file.response.value.body.url
    ensures file.response.Some? && !file.response.value.body.Obj? ==> r == Undefined
  {
    match file.response
    case None => Undefined
    case Some(response) => OptionalUrl(response.body)
  }

  /** The URL chosen by `upload-success`, case by case: the body's url when it
      is truthy, the transport's upload URL when it is not; a non-empty string
      either way. */
  lemma UploadedUrlCases(response: UploadResponse, u: string)
    ensures UploadedUrl(response) == Some(u) <==>
      u != "" &&
      (OptionalUrl(response.body) == Str(u) ||
       (!Truthy(OptionalUrl(response.body)) && response.uploadURL == Str(u)))
  {
    TruthyStringIsNonEmpty(Or(OptionalUrl(response.body), response.uploadURL));
  }

  /** A truthy body url that is not a string shadows the upload URL: `||`
      picks it, `typeof` rejects it, and the event is ignored. */
  lemma TruthyNonStringBodyUrlIgnored(response: UploadResponse)
    requires Truthy(OptionalUrl(response.body)) && !OptionalUrl(response.body).Str?
    ensures UploadedUrl(response).None?
  {
    TruthyStringIsNonEmpty(OptionalUrl(response.body));
  }

  /** A response with neither a usable body url nor an upload URL is ignored. */
  lemma NoUrlIgnored(response: UploadResponse)
    requires !Truthy(OptionalUrl(response.body)) && !Truthy(response.uploadURL)
    ensures UploadedUrl(response).None?
  {
  }

  /** Through `getResponseData`: a JSON body `{"url": u}` yields u, and a body
      that is not JSON yields the raw response text itself. */
  lemma UrlFromResponseText(responseText: string, parsed: Option<JsVal>, uploadURL: JsVal)
    ensures var response := UploadResponse(GetResponseData(responseText, parsed), uploadURL);
      (parsed.Some? && parsed.value.Obj? && parsed.value.url.Str? && parsed.value.url.s != "" ==>
         UploadedUrl(response) == Some(parsed.value.url.s)) &&
      (parsed.None? && responseText != "" ==> UploadedUrl(response) == Some(responseText))
  {
    var response := UploadResponse(GetResponseData(responseText, parsed), uploadURL);
    if parsed.Some? && parsed.value.Obj? && parsed.value.url.Str? && parsed.value.url.s != "" {
      UploadedUrlCases(response, parsed.value.url.s);
    }
    if parsed.None? && responseText != "" {
      UploadedUrlCases(response, responseText);
    }
  }
}
