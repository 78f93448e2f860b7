/**
 * The registration ceremony of `AttestationService`: `CreateNewRegistration`
 * (the options, or begin, step) and `Verify` (the finish step) over the
 * registration table. Every collaborator the service calls but does not
 * define (the payload verifiers, the domain verifier, the attestation
 * verifier, the JSON parser, URL host parsing and the configured issuer) is
 * a field of `Collaborators`; the random challenge and the random user
 * handle are parameters of the begin step.
 */
module Attestation {
  import opened Wrappers
  import opened Base64Url
  import opened Fido2Model
  import opened RegistrationStore

  /** The external collaborators; an `Option` result or a false verdict stands for a thrown exception. */
  datatype Collaborators = Collaborators(
    issuer: string,
    verifyBasicPayload: FinishRequest -> bool,
    verifyBase64UrlString: string -> Option<string>,
    parseClientData: seq<byte> -> Option<ClientData>,
    verifyClientJSON: ClientData -> bool,
    verifyClientJSONTypeIsCreate: ClientData -> bool,
    verifyDomain: (string, string) -> bool,
    verifyAttestation: (AttestationResponse, Registration) -> Option<CredAndCounter>,
    verifyOptions: BeginRequest -> bool,
    verifyAttestationConveyanceType: BeginRequest -> Option<ConveyancePreference>,
    urlHost: string -> Option<string>)

  /** Why a step aborts; each aborts before anything is saved. */
  datatype Error =
    | PayloadRejected
    | NotBase64Url
    | MalformedBase64
    | ClientDataRejected
    | NotCreateCeremony
    | RequestNotFound(message: string)
    | DomainMismatch
    | AttestationRejected
    | OptionsRejected
    | ConveyanceRejected

  const NoMatchingRequestMessage := "Can't find request with matching challenge and domain"
  const RpName := "Mastercard RP"
  const PublicKey := "public-key"
  const Fido := "FIDO"
  /** COSE algorithm -7, ECDSA with SHA-256. */
  const Es256 := -7

  // ---------------------------------------------------------------------------
  // Finish step

  /** What the finish step learns from the request before it consults the table. */
  datatype ClientView = ClientView(clientData: ClientData, keyId: string, lookupKey: string)

  /** The matched record's position and its new value. */
  datatype Completion = Completion(index: nat, entry: Registration)

  /** The checks on the request and its client data, in the order the service runs them. */
  function ReadClientData(env: Collaborators, req: FinishRequest): Result<ClientView, Error>
  {
    if !env.verifyBasicPayload(req) then Failure(PayloadRejected)
    else if env.verifyBase64UrlString(req.credType).None? then Failure(NotBase64Url)
    else
      match Decode(req.response.clientDataJSON)
      case None => Failure(MalformedBase64)
      case Some(bytes) =>
        match env.parseClientData(bytes)
        case None => Failure(ClientDataRejected)
        case Some(cd) =>
          if !env.verifyClientJSON(cd) then Failure(ClientDataRejected)
          else if !env.verifyClientJSONTypeIsCreate(cd) then Failure(NotCreateCeremony)
          else
            match env.verifyBase64UrlString(req.id)
            case None => Failure(NotBase64Url)
            case Some(keyId) =>
              match Canonicalize(cd.challenge)
              case None => Failure(MalformedBase64)
              case Some(key) => Success(ClientView(cd, keyId, key))
  }

  /** The matched record after a successful attestation. */
  function Complete(e: Registration, response: AttestationResponse, keyId: string, cred: CredAndCounter): Registration
  {
    e.(uncompressedEcPoint := Some(cred.uncompressedEcPoint),
       status := Some(Registered),
       attestationResponse := Some(response),
       signatureAlgorithm := Some(cred.signatureAlgorithm),
       counter := Some(cred.counter),
       publicKeyId := Some(if cred.credId.Some? then cred.credId.value else keyId),
       credType := Some(PublicKey))
  }

  /**
   * The finish step over the table `entries`. `pick` stands for the choice
   * `findAny` makes among the matching records: the one at position `pick`
   * of the matches is used (the first when `pick` is past the end).
   */
  function Finish(env: Collaborators, entries: seq<Registration>, req: FinishRequest, pick: nat): (r: Result<Completion, Error>)
    ensures r.Success? ==> r.value.index < |entries|
  {
    var view :- ReadClientData(env, req);
    var found := IndicesWithChallenge(entries, view.lookupKey);
    if |found| == 0 then Failure(RequestNotFound(NoMatchingRequestMessage))
    else
      var i := if pick < |found| then found[pick] else found[0];
      var e := entries[i];
      if !env.verifyDomain(e.domain, view.clientData.origin) then Failure(DomainMismatch)
      else
        match env.verifyAttestation(req.response, e)
        case None => Failure(AttestationRejected)
        case Some(cred) => Success(Completion(i, Complete(e, req.response, view.keyId, cred)))
  }

  // ---------------------------------------------------------------------------
  // Begin step

  /** `documentDomain` when the request has a non-null one, the configured issuer otherwise. */
  function DocumentDomain(env: Collaborators, req: BeginRequest): string
  {
    req.documentDomain.GetOr(env.issuer)
  }

  /** The host of a URL, or the text itself when it is not a well-formed URL. */
  function HostOf(env: Collaborators, documentDomain: string): string
  {
    env.urlHost(documentDomain).GetOr(documentDomain)
  }

  /** The requested credential type, "public-key" by default. */
  function CredentialType(req: BeginRequest): string
  {
    req.credentialType.GetOr(PublicKey)
  }

  /** The one `pubKeyCredParams` element: filled for "public-key" and "FIDO", empty for any other type. */
  function PubKeyCredParams(credentialType: string): (r: seq<CredParam>)
    ensures |r| == 1
    ensures r[0].CredParam? <==> credentialType == PublicKey || credentialType == Fido
    ensures r[0].CredParam? ==> r[0] == CredParam(credentialType, Es256)
  {
    var param :=
      if credentialType == PublicKey then CredParam(PublicKey, Es256)
      else if credentialType == Fido then CredParam(Fido, Es256)
      else EmptyParam;
    [param]
  }

  /** A freshly built record: only the fields the begin step sets are present. */
  function NewEntry(username: string, userId: string, challenge: string, domain: string,
                    options: CreationOptions, conveyance: ConveyancePreference): Registration
  {
    Registration(username, userId, challenge, domain, Some(options), Some(conveyance),
                 None, None, None, None, None, None, None)
  }

  /**
   * The begin step over the table `entries`, given the generated challenge
   * and the random bytes of the user handle: the options returned and the
   * record saved.
   */
  function NewRegistration(env: Collaborators, req: BeginRequest, entries: seq<Registration>,
                           challenge: string, randomBytes: seq<byte>): Result<(CreationOptions, Registration), Error>
  {
    if !env.verifyOptions(req) then Failure(OptionsRejected)
    else
      var documentDomain := DocumentDomain(env, req);
      var host := HostOf(env, documentDomain);
      match env.verifyAttestationConveyanceType(req)
      case None => Failure(ConveyanceRejected)
      case Some(conveyance) =>
        var userId := EncodePadded(randomBytes);
        var options := CreationOptions(
          challenge, RpEntity(RpName, documentDomain), UserEntity(userId, req.username, req.displayName),
          conveyance, PubKeyCredParams(CredentialType(req)), req.authenticatorSelection,
          ExcludeCredentials(entries, req.username), "ok", "");
        Success((options, NewEntry(req.username, userId, challenge, host, options, conveyance)))
  }

  // ---------------------------------------------------------------------------
  // Properties of the finish step

  /** No stored record carries the canonical client challenge: the step fails with the not-found message. */
  lemma FinishRejectsUnknownChallenge(env: Collaborators, entries: seq<Registration>, req: FinishRequest, pick: nat)
    requires ReadClientData(env, req).Success?
    requires forall i :: 0 <= i < |entries| ==> entries[i].challenge != ReadClientData(env, req).value.lookupKey
    ensures Finish(env, entries, req, pick) == Failure(RequestNotFound(NoMatchingRequestMessage))
  {
  }

  /** The lookup key is the client's challenge decoded and re-encoded without padding. */
  lemma LookupKeyIsCanonical(env: Collaborators, req: FinishRequest)
    requires ReadClientData(env, req).Success?
    ensures var view := ReadClientData(env, req).value;
      && Canonicalize(view.clientData.challenge) == Some(view.lookupKey)
      && IsCanonical(view.lookupKey)
      && Canonicalize(view.lookupKey) == Some(view.lookupKey)
  {
    var view := ReadClientData(env, req).value;
    var b := Decode(view.clientData.challenge).value;
    assert Encode(b) == view.lookupKey;
    CanonicalFixedPoint(b);
  }

  /** A challenge issued as the unpadded encoding of some bytes is found whether the client sends it with or without padding. */
  lemma IssuedChallengeIsFound(env: Collaborators, entries: seq<Registration>, req: FinishRequest, pick: nat, b: seq<byte>)
    requires ReadClientData(env, req).Success?
    requires ReadClientData(env, req).value.clientData.challenge == Encode(b)
          || ReadClientData(env, req).value.clientData.challenge == EncodePadded(b)
    requires exists i :: 0 <= i < |entries| && entries[i].challenge == Encode(b)
    ensures ReadClientData(env, req).value.lookupKey == Encode(b)
    ensures Finish(env, entries, req, pick) != Failure(RequestNotFound(NoMatchingRequestMessage))
  {
    var view := ReadClientData(env, req).value;
    LookupKeyIsCanonical(env, req);
    CanonicalFixedPoint(b);
    assert view.lookupKey == Encode(b);
    var i :| 0 <= i < |entries| && entries[i].challenge == Encode(b);
    assert i in IndicesWithChallenge(entries, view.lookupKey);
  }

  /** A success means the matched record carries the lookup key, the domain check passed and the verifier accepted. */
  lemma FinishSuccessConditions(env: Collaborators, entries: seq<Registration>, req: FinishRequest, pick: nat)
    requires Finish(env, entries, req, pick).Success?
    ensures ReadClientData(env, req).Success?
    ensures var c := Finish(env, entries, req, pick).value;
            var view := ReadClientData(env, req).value;
      && c.index < |entries|
      && entries[c.index].challenge == view.lookupKey
      && env.verifyDomain(entries[c.index].domain, view.clientData.origin)
      && env.verifyAttestation(req.response, entries[c.index]).Some?
  {
  }

  /** Conversely, when every record with the lookup key passes both checks, the step succeeds. */
  lemma FinishSucceedsWhenChecksPass(env: Collaborators, entries: seq<Registration>, req: FinishRequest, pick: nat)
    requires ReadClientData(env, req).Success?
    requires exists i :: 0 <= i < |entries| && entries[i].challenge == ReadClientData(env, req).value.lookupKey
    requires forall i :: 0 <= i < |entries| && entries[i].challenge == ReadClientData(env, req).value.lookupKey ==>
               env.verifyDomain(entries[i].domain, ReadClientData(env, req).value.clientData.origin)
               && env.verifyAttestation(req.response, entries[i]).Some?
    ensures Finish(env, entries, req, pick).Success?
  {
    var i :| 0 <= i < |entries| && entries[i].challenge == ReadClientData(env, req).value.lookupKey;
    assert i in IndicesWithChallenge(entries, ReadClientData(env, req).value.lookupKey);
  }

  /** A domain rejection happens whatever the attestation verifier would have answered. */
  lemma DomainCheckedBeforeAttestation(env: Collaborators, entries: seq<Registration>, req: FinishRequest, pick: nat,
                                       other: (AttestationResponse, Registration) -> Option<CredAndCounter>)
    requires Finish(env, entries, req, pick) == Failure(DomainMismatch)
    ensures Finish(env.(verifyAttestation := other), entries, req, pick) == Failure(DomainMismatch)
  {
    assert ReadClientData(env.(verifyAttestation := other), req) == ReadClientData(env, req);
  }

  /**
   * The completed record: REGISTERED, type "public-key", the verifier's
   * point, algorithm and counter, the verbatim response, the verifier's
   * credential id or else the client's id; challenge, user, domain, options
   * and conveyance as they were.
   */
  lemma FinishCompletesEntry(env: Collaborators, entries: seq<Registration>, req: FinishRequest, pick: nat)
    requires Finish(env, entries, req, pick).Success?
    ensures ReadClientData(env, req).Success?
    ensures var c := Finish(env, entries, req, pick).value;
            var before := entries[c.index];
            var cred := env.verifyAttestation(req.response, before).value;
      && c.entry.status == Some(Registered)
      && c.entry.credType == Some(PublicKey)
      && c.entry.uncompressedEcPoint == Some(cred.uncompressedEcPoint)
      && c.entry.signatureAlgorithm == Some(cred.signatureAlgorithm)
      && c.entry.counter == Some(cred.counter)
      && c.entry.attestationResponse == Some(req.response)
      && (cred.credId.Some? ==> c.entry.publicKeyId == cred.credId)
      && (cred.credId.None? ==> c.entry.publicKeyId == Some(ReadClientData(env, req).value.keyId))
      && (cred.credId.None? && env.verifyBase64UrlString(req.id) == Some(req.id) ==> c.entry.publicKeyId == Some(req.id))
      && c.entry.challenge == before.challenge
      && c.entry.username == before.username
      && c.entry.userId == before.userId
      && c.entry.domain == before.domain
      && c.entry.creationOptions == before.creationOptions
      && c.entry.conveyance == before.conveyance
  {
    FinishSuccessConditions(env, entries, req, pick);
  }

  /**
   * The lookup does not filter by status: after a success the completed
   * record still carries the challenge, so the same request finds it again.
   */
  lemma CompletedEntryStillMatches(env: Collaborators, entries: seq<Registration>, req: FinishRequest, pick: nat, again: nat)
    requires Finish(env, entries, req, pick).Success?
    ensures var c := Finish(env, entries, req, pick).value;
      Finish(env, entries[c.index := c.entry], req, again) != Failure(RequestNotFound(NoMatchingRequestMessage))
  {
    FinishCompletesEntry(env, entries, req, pick);
    var c := Finish(env, entries, req, pick).value;
    var after := entries[c.index := c.entry];
    var key := ReadClientData(env, req).value.lookupKey;
    assert after[c.index].challenge == key;
    assert c.index in IndicesWithChallenge(after, key);
  }

  // ---------------------------------------------------------------------------
  // Properties of the begin step

  /** The begin step fails exactly when the options payload or the conveyance preference is refused. */
  lemma NewRegistrationFailsExactlyWhen(env: Collaborators, req: BeginRequest, entries: seq<Registration>,
                                        challenge: string, randomBytes: seq<byte>)
    ensures !env.verifyOptions(req) ==> NewRegistration(env, req, entries, challenge, randomBytes) == Failure(OptionsRejected)
    ensures env.verifyOptions(req) && env.verifyAttestationConveyanceType(req).None? ==>
              NewRegistration(env, req, entries, challenge, randomBytes) == Failure(ConveyanceRejected)
    ensures NewRegistration(env, req, entries, challenge, randomBytes).Success? <==>
              env.verifyOptions(req) && env.verifyAttestationConveyanceType(req).Some?
  {
  }

  /** The options returned and the record saved share the challenge, the user and the conveyance; the record starts with no status and no credential. */
  lemma NewEntryBoundToOptions(env: Collaborators, req: BeginRequest, entries: seq<Registration>,
                               challenge: string, randomBytes: seq<byte>)
    requires NewRegistration(env, req, entries, challenge, randomBytes).Success?
    ensures var (o, e) := NewRegistration(env, req, entries, challenge, randomBytes).value;
      && o.challenge == challenge && e.challenge == challenge
      && e.userId == o.user.id
      && e.username == req.username && o.user.name == req.username && o.user.displayName == req.displayName
      && e.creationOptions == Some(o)
      && e.conveyance == Some(o.attestation) && env.verifyAttestationConveyanceType(req) == Some(o.attestation)
      && o.authenticatorSelection == req.authenticatorSelection
      && o.status == "ok" && o.errorMessage == ""
      && e.status.None? && e.publicKeyId.None? && e.credType.None?
      && e.uncompressedEcPoint.None? && e.signatureAlgorithm.None? && e.counter.None?
      && e.attestationResponse.None?
  {
  }

  /** `rp.id` is the document domain (the issuer when the request has none); the stored domain is its URL host, or the text itself. */
  lemma DomainResolution(env: Collaborators, req: BeginRequest, entries: seq<Registration>,
                         challenge: string, randomBytes: seq<byte>)
    requires NewRegistration(env, req, entries, challenge, randomBytes).Success?
    ensures var (o, e) := NewRegistration(env, req, entries, challenge, randomBytes).value;
      && o.rp.name == RpName
      && (req.documentDomain.None? ==> o.rp.id == env.issuer)
      && (req.documentDomain.Some? ==> o.rp.id == req.documentDomain.value)
      && (env.urlHost(o.rp.id).Some? ==> e.domain == env.urlHost(o.rp.id).value)
      && (env.urlHost(o.rp.id).None? ==> e.domain == o.rp.id)
  {
  }

  /** Exactly one algorithm entry: ES256 for "public-key" (the default) and "FIDO", an empty object otherwise. */
  lemma SinglePubKeyCredParam(env: Collaborators, req: BeginRequest, entries: seq<Registration>,
                              challenge: string, randomBytes: seq<byte>)
    requires NewRegistration(env, req, entries, challenge, randomBytes).Success?
    ensures var o := NewRegistration(env, req, entries, challenge, randomBytes).value.0;
      && |o.pubKeyCredParams| == 1
      && (req.credentialType.None? ==> o.pubKeyCredParams == [CredParam(PublicKey, Es256)])
      && (req.credentialType == Some(PublicKey) ==> o.pubKeyCredParams == [CredParam(PublicKey, Es256)])
      && (req.credentialType == Some(Fido) ==> o.pubKeyCredParams == [CredParam(Fido, Es256)])
      && (req.credentialType.Some? && req.credentialType.value != PublicKey && req.credentialType.value != Fido ==>
            o.pubKeyCredParams == [EmptyParam])
  {
  }

  /** The exclusion list offers a descriptor exactly when a record already stored for the user has it, whatever its status. */
  lemma ExclusionListOfBegin(env: Collaborators, req: BeginRequest, entries: seq<Registration>,
                             challenge: string, randomBytes: seq<byte>, d: CredentialDescriptor)
    requires NewRegistration(env, req, entries, challenge, randomBytes).Success?
    ensures var o := NewRegistration(env, req, entries, challenge, randomBytes).value.0;
      d in o.excludeCredentials <==>
      exists i :: 0 <= i < |entries| && entries[i].username == req.username && Describe(entries[i]) == d
  {
    ExclusionListDescribesUserEntries(entries, req.username, d);
  }

  /** The user handle is the padded encoding of the 32 random bytes: 44 characters that decode back to them. */
  lemma UserIdEncodesRandomBytes(env: Collaborators, req: BeginRequest, entries: seq<Registration>,
                                 challenge: string, randomBytes: seq<byte>)
    requires |randomBytes| == 32
    requires NewRegistration(env, req, entries, challenge, randomBytes).Success?
    ensures var e := NewRegistration(env, req, entries, challenge, randomBytes).value.1;
      |e.userId| == 44 && e.userId[43] == '=' && Decode(e.userId) == Some(randomBytes)
  {
    DecodeEncodePadded(randomBytes);
    var e := NewRegistration(env, req, entries, challenge, randomBytes).value.1;
    assert e.userId == Encode(randomBytes) + "=";
  }

  /** Begin then finish: a finish whose client challenge is the issued one, padded or not, finds a record. */
  lemma BeginThenFinishFindsEntry(env: Collaborators, begin: BeginRequest, entries: seq<Registration>,
                                  b: seq<byte>, randomBytes: seq<byte>, finish: FinishRequest, pick: nat)
    requires NewRegistration(env, begin, entries, Encode(b), randomBytes).Success?
    requires ReadClientData(env, finish).Success?
    requires ReadClientData(env, finish).value.clientData.challenge == Encode(b)
          || ReadClientData(env, finish).value.clientData.challenge == EncodePadded(b)
    ensures var e := NewRegistration(env, begin, entries, Encode(b), randomBytes).value.1;
      Finish(env, entries + [e], finish, pick) != Failure(RequestNotFound(NoMatchingRequestMessage))
  {
    var e := NewRegistration(env, begin, entries, Encode(b), randomBytes).value.1;
    var after := entries + [e];
    assert after[|entries|].challenge == Encode(b);
    IssuedChallengeIsFound(env, after, finish, pick, b);
  }

  // ---------------------------------------------------------------------------
  // The service

  class AttestationService {
    const registrations: RegistrationRepository
    const env: Collaborators

    constructor (registrations: RegistrationRepository, env: Collaborators)
      ensures this.registrations == registrations
      ensures this.env == env
    {
      this.registrations := registrations;
      this.env := env;
    }

    /** `options`: delegates to the begin step. */
    method Options(req: BeginRequest, challenge: string, randomBytes: seq<byte>) returns (r: Result<CreationOptions, Error>)
      requires |randomBytes| == 32
      modifies registrations
      ensures var outcome := NewRegistration(env, req, old(registrations.entries), challenge, randomBytes);
        && (outcome.Failure? ==>
              r == Failure(outcome.error)
              && registrations.entries == old(registrations.entries)
              && registrations.saveLog == old(registrations.saveLog))
        && (outcome.Success? ==>
              r == Success(outcome.value.0)
              && registrations.entries == old(registrations.entries) + [outcome.value.1]
              && registrations.saveLog == old(registrations.saveLog) + [outcome.value.1])
    {
      r := CreateNewRegistration(req, challenge, randomBytes);
    }

    /**
     * `createNewRegistration`: builds the credential creation options, saves
     * one new record and returns the options. `challenge` is what the
     * challenge generator returned and `randomBytes` the 32 bytes the secure
     * random source filled in.
     */
    method CreateNewRegistration(req: BeginRequest, challenge: string, randomBytes: seq<byte>) returns (r: Result<CreationOptions, Error>)
      requires |randomBytes| == 32
      modifies registrations
      ensures var outcome := NewRegistration(env, req, old(registrations.entries), challenge, randomBytes);
        && (outcome.Failure? ==>
              r == Failure(outcome.error)
              && registrations.entries == old(registrations.entries)
              && registrations.saveLog == old(registrations.saveLog))
        && (outcome.Success? ==>
              r == Success(outcome.value.0)
              && registrations.entries == old(registrations.entries) + [outcome.value.1]
              && registrations.saveLog == old(registrations.saveLog) + [outcome.value.1])
    {
      if !env.verifyOptions(req) {
        r := Failure(OptionsRejected);
        return;
      }
      var username := req.username;
      var displayName := req.displayName;

      var documentDomain: string;
      if req.documentDomain.Some? {
        documentDomain := req.documentDomain.value;
      } else {
        documentDomain := env.issuer;
      }
      var host: string;
      var url := env.urlHost(documentDomain);
      if url.Some? {
        host := url.value;
      } else {
        host := documentDomain;
      }

      var conveyanceCheck := env.verifyAttestationConveyanceType(req);
      if conveyanceCheck.None? {
        r := Failure(ConveyanceRejected);
        return;
      }
      var conveyance := conveyanceCheck.value;
      var credentialType := if req.credentialType.Some? then req.credentialType.value else PublicKey;

      var rp := RpEntity(RpName, documentDomain);
      var userId := EncodePadded(randomBytes);
      var user := UserEntity(userId, username, displayName);
      var param := EmptyParam;
      if credentialType == PublicKey {
        param := CredParam(PublicKey, Es256);
      }
      if credentialType == Fido {
        param := CredParam(Fido, Es256);
      }
      var excludedKeys := ExcludeCredentials(registrations.entries, username);
      var options := CreationOptions(challenge, rp, user, conveyance, [param], req.authenticatorSelection,
                                     excludedKeys, "ok", "");

      var entity := NewEntry(username, userId, challenge, host, options, conveyance);
      registrations.SaveNew(entity);
      r := Success(options);
    }

    /**
     * `verify`: resolves the finish request to a stored record by its
     * challenge, checks the domain, has the attestation verified, completes
     * the record and saves it. `pick` is the position, among the matching
     * records, of the one `findAny` returned.
     */
    method Verify(req: FinishRequest) returns (r: Result<FinishReply, Error>, ghost pick: nat)
      modifies registrations
      ensures var outcome := Finish(env, old(registrations.entries), req, pick);
        && (outcome.Failure? ==>
              r == Failure(outcome.error)
              && registrations.entries == old(registrations.entries)
              && registrations.saveLog == old(registrations.saveLog))
        && (outcome.Success? ==>
              r == Success(FinishReply(req, "ok", ""))
              && registrations.entries == old(registrations.entries)[outcome.value.index := outcome.value.entry]
              && registrations.saveLog == old(registrations.saveLog) + [outcome.value.entry])
    {
      pick := 0;
      if !env.verifyBasicPayload(req) {
        r := Failure(PayloadRejected);
        assert ReadClientData(env, req) == Failure(PayloadRejected);
        return;
      }
      if env.verifyBase64UrlString(req.credType).None? {
        r := Failure(NotBase64Url);
        assert ReadClientData(env, req) == Failure(NotBase64Url);
        return;
      }
      var response := req.response;
      var clientDataBytes := Decode(response.clientDataJSON);
      if clientDataBytes.None? {
        r := Failure(MalformedBase64);
        assert ReadClientData(env, req) == Failure(MalformedBase64);
        return;
      }
      var clientDataJSONNode := env.parseClientData(clientDataBytes.value);
      if clientDataJSONNode.None? || !env.verifyClientJSON(clientDataJSONNode.value) {
        r := Failure(ClientDataRejected);
        assert ReadClientData(env, req) == Failure(ClientDataRejected);
        return;
      }
      var clientData := clientDataJSONNode.value;
      if !env.verifyClientJSONTypeIsCreate(clientData) {
        r := Failure(NotCreateCeremony);
        assert ReadClientData(env, req) == Failure(NotCreateCeremony);
        return;
      }
      var keyIdCheck := env.verifyBase64UrlString(req.id);
      if keyIdCheck.None? {
        r := Failure(NotBase64Url);
        assert ReadClientData(env, req) == Failure(NotBase64Url);
        return;
      }
      var keyId := keyIdCheck.value;

      var challengeBytes := Decode(clientData.challenge);
      if challengeBytes.None? {
        r := Failure(MalformedBase64);
        assert ReadClientData(env, req) == Failure(MalformedBase64);
        return;
      }
      var clientDataChallenge := Encode(challengeBytes.value);
      ghost var view := ClientView(clientData, keyId, clientDataChallenge);
      assert ReadClientData(env, req) == Success(view);

      var registrationEntries := IndicesWithChallenge(registrations.entries, clientDataChallenge);
      if |registrationEntries| == 0 {
        r := Failure(RequestNotFound(NoMatchingRequestMessage));
        return;
      }
      var k :| 0 <= k < |registrationEntries|;
      pick := k;
      var i := registrationEntries[k];
      var credentialFound := registrations.entries[i];

      if !env.verifyDomain(credentialFound.domain, clientData.origin) {
        r := Failure(DomainMismatch);
        return;
      }
      var attestationData := env.verifyAttestation(response, credentialFound);
      if attestationData.None? {
        r := Failure(AttestationRejected);
        return;
      }
      var cred := attestationData.value;

      credentialFound := credentialFound.(uncompressedEcPoint := Some(cred.uncompressedEcPoint));
      credentialFound := credentialFound.(status := Some(Registered));
      credentialFound := credentialFound.(attestationResponse := Some(response));
      credentialFound := credentialFound.(signatureAlgorithm := Some(cred.signatureAlgorithm));
      credentialFound := credentialFound.(counter := Some(cred.counter));
      if cred.credId.Some? {
        credentialFound := credentialFound.(publicKeyId := Some(cred.credId.value));
      } else {
        credentialFound := credentialFound.(publicKeyId := Some(keyId));
      }
      credentialFound := credentialFound.(credType := Some(PublicKey));
      assert credentialFound == Complete(registrations.entries[i], response, keyId, cred);
      assert Finish(env, registrations.entries, req, pick) == Success(Completion(i, credentialFound));
      registrations.SaveAt(i, credentialFound);

      r := Success(FinishReply(req, "ok", ""));
    }
  }
}
