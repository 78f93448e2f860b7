/**
 * The values the registration ceremony works on: the stored registration
 * record (`Fido2RegistrationData`), the credential creation options handed to
 * the browser, the finish request and its reply, and the result of the
 * attestation verifier. JSON trees become typed records; a Java null becomes
 * `None`.
 */
module Fido2Model {
  import opened Wrappers

  /** Opaque JSON text, echoed without interpretation. */
  type JsonText = string

  datatype RegistrationStatus = Pending | Registered

  /** `AttestationConveyancePreference`: none, indirect or direct. */
  datatype ConveyancePreference = PreferNone | PreferIndirect | PreferDirect

  /** The `response` object of a finish request. */
  datatype AttestationResponse = AttestationResponse(clientDataJSON: string, attestationObject: string)

  /** What the attestation verifier returns (`CredAndCounterData`); `credId` may be null. */
  datatype CredAndCounter = CredAndCounter(credId: Option<string>, uncompressedEcPoint: string, signatureAlgorithm: int, counter: int)

  /** The decoded client data that the finish step reads. */
  datatype ClientData = ClientData(ceremonyType: string, challenge: string, origin: string)

  datatype RpEntity = RpEntity(name: string, id: string)
  datatype UserEntity = UserEntity(id: string, name: string, displayName: string)

  /** One `pubKeyCredParams` element: filled, or left as an empty object. */
  datatype CredParam = CredParam(credType: string, alg: int) | EmptyParam

  /** A `PublicKeyCredentialDescriptor`; both parts are null for a record never verified. */
  datatype CredentialDescriptor = CredentialDescriptor(credType: Option<string>, id: Option<string>)

  /** The credential creation options returned by the begin step and kept on the new record. */
  datatype CreationOptions = CreationOptions(
    challenge: string,
    rp: RpEntity,
    user: UserEntity,
    attestation: ConveyancePreference,
    pubKeyCredParams: seq<CredParam>,
    authenticatorSelection: Option<JsonText>,
    excludeCredentials: seq<CredentialDescriptor>,
    status: string,
    errorMessage: string)

  /** A stored registration record; every field left unset by the code is `None`. */
  datatype Registration = Registration(
    username: string,
    userId: string,
    challenge: string,
    domain: string,
    creationOptions: Option<CreationOptions>,
    conveyance: Option<ConveyancePreference>,
    status: Option<RegistrationStatus>,
    publicKeyId: Option<string>,
    credType: Option<string>,
    uncompressedEcPoint: Option<string>,
    signatureAlgorithm: Option<int>,
    counter: Option<int>,
    attestationResponse: Option<AttestationResponse>)

  /** The parameters of a begin (options) request; absent or null members are `None`. */
  datatype BeginRequest = BeginRequest(
    username: string,
    displayName: string,
    documentDomain: Option<string>,
    authenticatorSelection: Option<JsonText>,
    attestation: Option<string>,
    credentialType: Option<string>)

  /** The parameters of a finish request. */
  datatype FinishRequest = FinishRequest(credType: string, id: string, response: AttestationResponse)

  /** The finish reply: the request echoed with `status` and `errorMessage` added. */
  datatype FinishReply = FinishReply(request: FinishRequest, status: string, errorMessage: string)

  /** The exclusion descriptor of a stored record: its type and its public key id. */
  function Describe(e: Registration): CredentialDescriptor
  {
    CredentialDescriptor(e.credType, e.publicKeyId)
  }
}
