/**
 * The API-key check every protected route runs: a decision over the key the
 * service is configured with and the `X-API-Key` header of the request.
 */
module Auth {
  import opened Wrappers

  const Unauthorized: nat := 401
  const MissingKeyDetail: string := "Missing API Key. Include X-API-Key header."
  const InvalidKeyDetail: string := "Invalid API Key"

  /**
   * What `verify_api_key` does: let the request through, returning nothing
   * or the header, or raise an HTTP error with a status and a detail.
   */
  datatype Verdict =
    | Open                                 // no key configured: `return None`
    | Accepted(key: string)                // `return api_key`
    | Rejected(status: nat, detail: string)

  /** `verify_api_key`, with `configured` the `API_KEY` environment variable and `header` the request header. */
  function VerifyApiKey(configured: Option<string>, header: Option<string>): (v: Verdict)
    ensures !Given(configured) ==> v == Open
    ensures Given(configured) && !Given(header) ==> v == Rejected(Unauthorized, MissingKeyDetail)
    ensures Given(configured) && Given(header) && header.value != configured.value ==> v == Rejected(Unauthorized, InvalidKeyDetail)
    ensures Given(configured) && Given(header) && header.value == configured.value ==> v == Accepted(configured.value)
  {
    if !Given(configured) then Open
    else if !Given(header) then Rejected(Unauthorized, MissingKeyDetail)
    else if header.value != configured.value then Rejected(Unauthorized, InvalidKeyDetail)
    else Accepted(header.value)
  }

  /**
   * With a key configured, a request gets through exactly when its header
   * equals the key, and then the header is what is returned; every refusal
   * is a 401.
   */
  lemma AcceptedExactly(configured: Option<string>, header: Option<string>)
    requires Given(configured)
    ensures VerifyApiKey(configured, header).Accepted? <==> header == configured
    ensures VerifyApiKey(configured, header).Accepted? ==> VerifyApiKey(configured, header).key == header.value
    ensures !VerifyApiKey(configured, header).Accepted? ==>
      VerifyApiKey(configured, header).Rejected? && VerifyApiKey(configured, header).status == Unauthorized
  {
  }

  /** Without a configured key the header is never looked at. */
  lemma OpenWithoutKey(configured: Option<string>, h1: Option<string>, h2: Option<string>)
    requires !Given(configured)
    ensures VerifyApiKey(configured, h1) == VerifyApiKey(configured, h2) == Open
  {
  }
}
