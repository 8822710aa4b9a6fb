/** Configuration derivation: the restrictions handed to the Uppy instance
    and the upload endpoint, from the field's configuration and account. */
module FieldConfig {
  import opened Wrappers
  import opened JsValues
  import Decimal

  /** The field's configuration object; every member is optional. Numbers are
      integers. `placeholder`, `disabled` and `allowedTypes` are never read. */
  datatype FileUploadConfig = FileUploadConfig(
    placeholder: Option<string>,
    helpText: Option<string>,
    disabled: Option<bool>,
    accept: Option<seq<string>>,
    maxFiles: Option<int>,
    maxSizeMB: Option<int>,
    allowedTypes: Option<seq<string>>)

  /** The `restrictions` option of the Uppy instance; `allowedFileTypes` is
      `None` when no type restriction applies. */
  datatype Restrictions = Restrictions(
    maxNumberOfFiles: int,
    maxFileSize: int,
    allowedFileTypes: Option<seq<string>>)

  const DEFAULT_MAX_FILES: int := 10
  const DEFAULT_MAX_SIZE_MB: int := 1024 * 1024
  const DEFAULT_ACCEPT: seq<string> := ["image/*", "video/*", ".pdf", ".doc", ".docx"]
  const BYTES_PER_MB: int := 1024 * 1024
  const UPLOAD_PATH: string := "/api/upload"
  const ACCOUNT_QUERY: string := "?account="

  /** An optional number prop as a JavaScript value. */
  function NumberProp(n: Option<int>): JsVal {
    match n
    case None => Undefined
    case Some(k) => Num(k)
  }

  /** `n || fallback` for an optional number prop. */
  function NumberOr(n: Option<int>, fallback: int): (r: int)
    ensures n.Some? && n.value != 0 ==> r == n.value
    ensures n.None? || n == Some(0) ==> r == fallback
  {
    match Or(NumberProp(n), Num(fallback))
    case Num(k) => k
    case _ => fallback
  }

  /** `config.maxFiles || 10`. */
  function MaxFiles(config: FileUploadConfig): (r: int)
    ensures r != 0
    ensures config.maxFiles.Some? && config.maxFiles.value != 0 ==> r == config.maxFiles.value
    ensures config.maxFiles.None? || config.maxFiles == Some(0) ==> r == DEFAULT_MAX_FILES
  {
    NumberOr(config.maxFiles, DEFAULT_MAX_FILES)
  }

  /** `config.maxSizeMB || 1024 * 1024`. */
  function MaxSizeMB(config: FileUploadConfig): (r: int)
    ensures r != 0
    ensures config.maxSizeMB.Some? && config.maxSizeMB.value != 0 ==> r == config.maxSizeMB.value
    ensures config.maxSizeMB.None? || config.maxSizeMB == Some(0) ==> r == DEFAULT_MAX_SIZE_MB
  {
    NumberOr(config.maxSizeMB, DEFAULT_MAX_SIZE_MB)
  }

  /** `config.accept || [...]`: an array is truthy even when empty, so only
      an absent `accept` takes the default list. */
  function AcceptedTypes(config: FileUploadConfig): (r: seq<string>)
    ensures config.accept.None? ==> r == DEFAULT_ACCEPT
    ensures config.accept.Some? ==> r == config.accept.value
    ensures |r| == 0 <==> config.accept == Some([])
  {
    match config.accept
    case None => DEFAULT_ACCEPT
    case Some(types) => types
  }

  /** The restrictions the Uppy instance is created with. */
  function UppyRestrictions(config: FileUploadConfig): (r: Restrictions)
    ensures r.maxNumberOfFiles != 0 && r.maxFileSize != 0
    ensures r.maxFileSize % BYTES_PER_MB == 0
    ensures config.maxFiles.Some? && config.maxFiles.value != 0 ==> r.maxNumberOfFiles == config.maxFiles.value
    ensures config.maxFiles.None? || config.maxFiles == Some(0) ==> r.maxNumberOfFiles == DEFAULT_MAX_FILES
    ensures config.maxSizeMB.None? || config.maxSizeMB == Some(0) ==>
      r.maxFileSize == DEFAULT_MAX_SIZE_MB * BYTES_PER_MB
    ensures config.maxSizeMB.Some? && config.maxSizeMB.value != 0 ==>
      r.maxFileSize == config.maxSizeMB.value * BYTES_PER_MB
    ensures r.allowedFileTypes.None? <==> config.accept == Some([])
    ensures r.allowedFileTypes.Some? ==>
      |r.allowedFileTypes.value| > 0 &&
      r.allowedFileTypes.value == (if config.accept.None? then DEFAULT_ACCEPT else config.accept.value)
  {
    var acceptedTypes := AcceptedTypes(config);
    Restrictions(
      MaxFiles(config),
      MaxSizeMB(config) * BYTES_PER_MB,
      if |acceptedTypes| > 0 then Some(acceptedTypes) else None)
  }

  /** Absent and zero limits both take the defaults: ten files, and a size of
      2^20 megabytes, that is 2^40 bytes (1024 GiB). */
  lemma DefaultRestrictions(config: FileUploadConfig)
    requires config.maxFiles.None? || config.maxFiles == Some(0)
    requires config.maxSizeMB.None? || config.maxSizeMB == Some(0)
    requires config.accept.None?
    ensures UppyRestrictions(config) == Restrictions(10, 0x100_0000_0000, Some(DEFAULT_ACCEPT))
    ensures UppyRestrictions(config).maxFileSize == 1024 * (1024 * 1024 * 1024)
  {
  }

  /** The endpoint of the XHR transport: the account goes into the query
      string only when it is truthy. */
  function Endpoint(account: Option<int>): (r: string)
    ensures |r| >= |UPLOAD_PATH| && r[..|UPLOAD_PATH|] == UPLOAD_PATH
    ensures r == UPLOAD_PATH <==> !Truthy(NumberProp(account))
    ensures Truthy(NumberProp(account)) ==>
      r == UPLOAD_PATH + ACCOUNT_QUERY + Decimal.IntToString(account.value)
  {
    if Truthy(NumberProp(account))
    then UPLOAD_PATH + ACCOUNT_QUERY + Decimal.IntToString(account.value)
    else UPLOAD_PATH
  }

  /** Reads the account back out of an endpoint: `None` for the bare path. */
  function EndpointAccount(endpoint: string): Option<int> {
    var prefix := UPLOAD_PATH + ACCOUNT_QUERY;
    if |endpoint| > |prefix| && endpoint[..|prefix|] == prefix then
      var text := endpoint[|prefix|..];
      if text[0] == '-' && Decimal.AllDigits(text[1..]) then Some(Decimal.ParseInt(text))
      else if text[0] != '-' && Decimal.AllDigits(text) then Some(Decimal.ParseInt(text))
      else None
    else None
  }

  /** The endpoint carries exactly the truthy account: reading it back gives
      the account, and no account at all for an absent or zero one. */
  lemma EndpointRoundTrip(account: Option<int>)
    ensures EndpointAccount(Endpoint(account)) ==
      if Truthy(NumberProp(account)) then account else None
  {
    var prefix := UPLOAD_PATH + ACCOUNT_QUERY;
    if Truthy(NumberProp(account)) {
      var text := Decimal.IntToString(account.value);
      var endpoint := Endpoint(account);
      assert endpoint == prefix + text;
      assert endpoint[..|prefix|] == prefix && endpoint[|prefix|..] == text;
      Decimal.IntToStringRoundTrip(account.value);
    }
  }
}
