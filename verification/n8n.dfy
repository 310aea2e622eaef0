/**
 * The browser-side automation helpers: `signForN8N`, the client's
 * `verifyAutomationSignature`, the endpoint table and the feature-flagged
 * webhook stubs.
 */
module N8n {
  import opened Wrappers
  import Hex
  import Signature

  /** `createHmac('sha256', secret).update(body).digest('hex')`: the same spelling the server gate expects. */
  function SignForN8N(body: string, secret: string, mac: Signature.Mac): (sig: string)
    ensures |sig| == 64
    ensures Hex.Decode(sig) == Some(mac(secret, body))
  {
    Signature.Expected(body, secret, mac)
  }

  /**
   * Client-side check: rejects a null or empty header, otherwise accepts iff
   * it equals the signature computed for `body`. Unlike the server gate it
   * takes the secret as an argument and does not reject an empty secret.
   */
  function VerifyAutomationSignature(body: string, signature: Option<string>, secret: string, mac: Signature.Mac): (ok: bool)
    ensures !Truthy(signature) ==> !ok
    ensures ok ==> Hex.Decode(signature.value) == Some(mac(secret, body))
  {
    if !Truthy(signature) then false
    else signature.value == SignForN8N(body, secret, mac)
  }

  /** Round trip: a body signed with a secret verifies under that secret. */
  lemma SignThenVerify(body: string, secret: string, mac: Signature.Mac)
    ensures VerifyAutomationSignature(body, Some(SignForN8N(body, secret, mac)), secret, mac)
  {
  }

  /** Any header other than the computed signature is rejected. */
  lemma OtherSignaturesRejected(body: string, secret: string, mac: Signature.Mac, sig: string)
    requires sig != SignForN8N(body, secret, mac)
    ensures !VerifyAutomationSignature(body, Some(sig), secret, mac)
  {
  }

  /** With a configured secret, the client check and the server gate agree on every request. */
  lemma AgreesWithServerGate(body: string, signature: Option<string>, secret: string, mac: Signature.Mac)
    requires secret != ""
    ensures VerifyAutomationSignature(body, signature, secret, mac)
        == Signature.VerifyAutomationSignature(body, signature, Some(secret), mac)
  {
  }

  /** Client configuration read from the build environment. */
  datatype Config = Config(base: string, secret: string, enabled: bool)

  /** Unset variables become `''`; the flag is on only for the exact text `true`. */
  function ReadConfig(baseVar: Option<string>, secretVar: Option<string>, flagVar: Option<string>): (c: Config)
    ensures c.enabled <==> flagVar == Some("true")
    ensures Truthy(baseVar) ==> c.base == baseVar.value
    ensures !Truthy(baseVar) ==> c.base == ""
    ensures Truthy(secretVar) ==> c.secret == secretVar.value
    ensures !Truthy(secretVar) ==> c.secret == ""
  {
    Config(
      if Truthy(baseVar) then baseVar.value else "",
      if Truthy(secretVar) then secretVar.value else "",
      flagVar == Some("true"))
  }

  /** The webhook operations the client prepares for. */
  datatype Operation = GenerateCaption | RequestEdit | SchedulePost | AnalyzeStyle

  /** The path segment naming each operation's webhook. */
  function PathName(op: Operation): string {
    match op
    case GenerateCaption => "generate-caption"
    case RequestEdit => "request-edit"
    case SchedulePost => "schedule-post"
    case AnalyzeStyle => "analyze-style"
  }

  /** `n8nEndpoints[op]`: the base URL, a slash, then the operation's name. */
  function Endpoint(base: string, op: Operation): (url: string)
    ensures |url| == |base| + 1 + |PathName(op)|
    ensures url[..|base|] == base && url[|base|] == '/' && url[|base| + 1..] == PathName(op)
  {
    base + "/" + PathName(op)
  }

  /** Distinct operations get distinct endpoint URLs, whatever the base. */
  lemma EndpointsDistinct(base: string, a: Operation, b: Operation)
    requires a != b
    ensures Endpoint(base, a) != Endpoint(base, b)
  {
    assert Endpoint(base, a)[|base| + 1..] == PathName(a);
    assert Endpoint(base, b)[|base| + 1..] == PathName(b);
  }

  /** A call of one of the `n8nWebhooks` stubs. */
  datatype Call =
    | CallGenerateCaption(draftId: string)
    | CallRequestEdit(draftId: string, preset: Option<string>)
    | CallSchedulePost(draftId: string, platforms: seq<string>, scheduledFor: string)
    | CallAnalyzeStyle(samples: string)

  datatype CallResult = Completed | Thrown(message: string)

  const NotEnabled: string := "N8N integration not enabled"

  /** Every stub throws when the flag is off and otherwise only logs. */
  function Invoke(cfg: Config, call: Call): (r: CallResult)
    ensures !cfg.enabled <==> r == Thrown(NotEnabled)
    ensures cfg.enabled <==> r == Completed
  {
    if !cfg.enabled then Thrown(NotEnabled) else Completed
  }

  /**
   * Whatever the base URL and secret, a stub call completes exactly when the
   * flag variable reads `true`; an unset flag, or any other text, makes it throw.
   */
  lemma FlagDecidesStubs(baseVar: Option<string>, secretVar: Option<string>, flagVar: Option<string>, call: Call)
    ensures Invoke(ReadConfig(baseVar, secretVar, flagVar), call) == Completed <==> flagVar == Some("true")
    ensures flagVar.None? ==> Invoke(ReadConfig(baseVar, secretVar, flagVar), call) == Thrown(NotEnabled)
  {
  }
}
