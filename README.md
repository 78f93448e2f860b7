# FIDO2 registration ceremony (AttestationService) in Dafny

This project models the registration orchestrator of the oxAuth FIDO2 server,
`AttestationService`. It is a two-step state machine over the table of stored
registration records (`Fido2RegistrationData`).

- **Begin** (`options` → `createNewRegistration`):
  - Resolves the document domain and its URL host.
  - Builds the credential creation options: relying party, user handle, conveyance preference, one `pubKeyCredParams` element, the echoed `authenticatorSelection` and the `excludeCredentials` list.
  - Saves exactly one new record.
- **Finish** (`verify`):
  - Runs the payload checks.
  - Decodes the client data.
  - Re-encodes the client challenge as unpadded base64url (section 5 of RFC 4648).
  - Looks up a record by that challenge.
  - Checks the domain, then has the attestation verified.
  - Completes the matched record and saves it once.

Files:

- `wrappers.dfy`: `Option` and `Result`.
- `base64url.dfy`: the URL-safe base64 encoder and decoder the service uses, written as pure functions. Round trips are proved for both the unpadded and the padded encoding. Canonicalisation is proved idempotent, and proved to leave a string unchanged exactly when the string is canonical.
- `fido2_model.dfy`: typed records that replace the JSON trees. A Java null becomes `None`.
- `registration_store.dfy`:
  - the two queries the service makes (`findAllByChallenge`, `findAllByUsername`);
  - the stream `map` that builds the exclusion list;
  - a repository class. It holds the table as a `seq` and logs every `save` call.
- `attestation_service.dfy`:
  - `Collaborators`: every external collaborator as an abstract function;
  - the specification functions `Finish` and `NewRegistration`;
  - the class `AttestationService`, whose methods `Verify`, `CreateNewRegistration` and `Options` change the table step by step, as the Java code does;
  - lemmas about the two steps.

A relying party might be expected to behave differently from what this code does in several places. The model follows the code:

- The finish lookup does not filter by status. A completed record still matches its challenge, so the same request finds it again (`CompletedEntryStillMatches`). The model does not claim replay protection.
- The exclusion list describes every record stored for the user, whatever its status. A record never verified contributes a descriptor whose type and id are both null.
- The begin step never sets the new record's status. It is `None`, not PENDING.
- `rp.id` is the document domain itself. Only the stored record's domain is the URL host.
- The user handle is encoded with padding: 44 characters for 32 bytes.
- Nothing in the begin step checks that a challenge is unique in the table.
- A client-data parse failure aborts the step. The source constructs an exception there and discards it, and the step then fails when it dereferences the missing node.

## Model

| member | source | states |
|---|---|---|
| `Base64Url.Encode` | fido2-server/src/main/java/org/gluu/oxauth/fido2/attestation/AttestationService.java:109-110 | unpadded encoding: 4n <= 3·length <= 4n + 2, so the length is ceil(4n/3) |
| `Base64Url.EncodeNoPadChar` | fido2-server/src/main/java/org/gluu/oxauth/fido2/attestation/AttestationService.java:109-110 | the unpadded encoding contains no '=' anywhere |
| `Base64Url.DecodeUnpadded` | fido2-server/src/main/java/org/gluu/oxauth/fido2/attestation/AttestationService.java:98-99 | unpadded decoding; no contract of its own: it inverts `Encode` (`DecodeUnpaddedEncode`), rejects a dangling character (`DecodeUnpaddedRejectsDangling`) and accepts no '=' (`DecodeUnpaddedRejectsPadChar`) |
| `Base64Url.DecodeUnpaddedRejectsDangling` | fido2-server/src/main/java/org/gluu/oxauth/fido2/attestation/AttestationService.java:98-99 | a text with one character left over after its groups of four is rejected |
| `Base64Url.DecodeUnpaddedRejectsPadChar` | fido2-server/src/main/java/org/gluu/oxauth/fido2/attestation/AttestationService.java:98-99 | a text accepted without padding contains no '=' |
| `Base64Url.Decode` | fido2-server/src/main/java/org/gluu/oxauth/fido2/attestation/AttestationService.java:98-110 | the URL decoder used at lines 99 and 110; no contract of its own: `DecodePaddingRules` gives its padding rules, `DecodeEncode` and `DecodeEncodePadded` make it the inverse of both encoders, and `LookupKeyMalleable` shows it ignores the unused low bits |
| `Base64Url.DecodePaddingRules` | fido2-server/src/main/java/org/gluu/oxauth/fido2/attestation/AttestationService.java:98-99 | accepted text has no dangling single character, '=' only in its last two positions, a '=' in the next-to-last position only as part of "==", and any padding completes a group of four, so "==" follows two characters of a group and "=" three |
| `Base64Url.EncodePadded` | fido2-server/src/main/java/org/gluu/oxauth/fido2/attestation/AttestationService.java:184 | padded encoding: length is 4 * ceil(n/3) |
| `Base64Url.DecodeUnpaddedEncode` | fido2-server/src/main/java/org/gluu/oxauth/fido2/attestation/AttestationService.java:109-110 | decoding unpadded text gives back the encoded bytes, for every byte sequence |
| `Base64Url.DecodeEncode` | fido2-server/src/main/java/org/gluu/oxauth/fido2/attestation/AttestationService.java:109-110 | the padding-tolerant decoder inverts the unpadded encoder |
| `Base64Url.DecodeEncodePadded` | fido2-server/src/main/java/org/gluu/oxauth/fido2/attestation/AttestationService.java:184 | the decoder inverts the padded encoder |
| `Base64Url.Canonicalize` | fido2-server/src/main/java/org/gluu/oxauth/fido2/attestation/AttestationService.java:109-110 | the lookup form exists exactly when the text decodes, and it decodes to the same bytes |
| `Base64Url.CanonicalFixedPoint` | fido2-server/src/main/java/org/gluu/oxauth/fido2/attestation/AttestationService.java:109-110 | canonicalising canonical text, padded or unpadded, gives the unpadded text |
| `Base64Url.CanonicalIff` | fido2-server/src/main/java/org/gluu/oxauth/fido2/attestation/AttestationService.java:109-110 | canonicalisation leaves a string unchanged if and only if the string is the unpadded encoding of some bytes |
| `Base64Url.CanonicalizeIdempotent` | fido2-server/src/main/java/org/gluu/oxauth/fido2/attestation/AttestationService.java:109-110 | canonicalising the lookup key again leaves it unchanged |
| `Base64Url.TrailingBitDecodes` | fido2-server/src/main/java/org/gluu/oxauth/fido2/attestation/AttestationService.java:109-110 | for bytes ending in a partial group, the unpadded text with one unused low bit set decodes to the same bytes and differs from the canonical text |
| `Base64Url.LookupKeyMalleable` | fido2-server/src/main/java/org/gluu/oxauth/fido2/attestation/AttestationService.java:109-110 | for every byte sequence whose length is not a multiple of 3, some text other than the canonical one canonicalises to the same lookup key |
| `Base64Url.TrailingBitsDropped` | fido2-server/src/main/java/org/gluu/oxauth/fido2/attestation/AttestationService.java:109-110 | the non-canonical "AB" and the canonical "AA" give the same lookup key |
| `RegistrationStore.IndicesWithChallenge` | fido2-server/src/main/java/org/gluu/oxauth/fido2/attestation/AttestationService.java:114 | every returned position holds the challenge, and every position holding it is returned |
| `RegistrationStore.EntriesOf` | fido2-server/src/main/java/org/gluu/oxauth/fido2/attestation/AttestationService.java:201 | a record is returned exactly when it is stored and belongs to the user, with no status filter |
| `RegistrationStore.Describes` | fido2-server/src/main/java/org/gluu/oxauth/fido2/attestation/AttestationService.java:202-204 | one descriptor `{type, publicKeyId}` per record, position by position |
| `RegistrationStore.ExcludeCredentials` | fido2-server/src/main/java/org/gluu/oxauth/fido2/attestation/AttestationService.java:201-204 | the exclusion list; no contract of its own: `ExclusionListDescribesUserEntries` and `ExclusionListAfterSave` state it |
| `Fido2Model.Describe` | fido2-server/src/main/java/org/gluu/oxauth/fido2/attestation/AttestationService.java:203 | the descriptor of a record: its type and publicKeyId, each null when unset; no contract of its own |
| `RegistrationStore.EntriesOfAppend` | fido2-server/src/main/java/org/gluu/oxauth/fido2/attestation/AttestationService.java:201 | the user's records in a table extended at the end are the old ones followed by the new ones, so store order is kept |
| `RegistrationStore.ExclusionListDescribesUserEntries` | fido2-server/src/main/java/org/gluu/oxauth/fido2/attestation/AttestationService.java:201-207 | a descriptor is offered if and only if a stored record of the user has it, PENDING or REGISTERED |
| `RegistrationStore.ExclusionListAfterSave` | fido2-server/src/main/java/org/gluu/oxauth/fido2/attestation/AttestationService.java:201-217 | after a new record is saved for the user, the user's next exclusion list is the previous one plus that record's descriptor |
| `RegistrationStore.RegistrationRepository.SaveAt` | fido2-server/src/main/java/org/gluu/oxauth/fido2/attestation/AttestationService.java:132 | saving a record read from position i replaces only position i and logs one save |
| `RegistrationStore.RegistrationRepository.SaveNew` | fido2-server/src/main/java/org/gluu/oxauth/fido2/attestation/AttestationService.java:217 | saving a new record appends it and logs one save |
| `Attestation.ReadClientData` | fido2-server/src/main/java/org/gluu/oxauth/fido2/attestation/AttestationService.java:93-110 | the checks on the request and the client data, in source order, and the lookup key; no contract of its own: `LookupKeyIsCanonical` and `FinishSuccessConditions` state it |
| `Attestation.Complete` | fido2-server/src/main/java/org/gluu/oxauth/fido2/attestation/AttestationService.java:121-131 | the completed record; no contract of its own: `FinishCompletesEntry` states every field |
| `Attestation.Finish` | fido2-server/src/main/java/org/gluu/oxauth/fido2/attestation/AttestationService.java:89-138 | the finish step as a function of the table; a success names a stored position (its meaning is in the lemmas below) |
| `Attestation.PubKeyCredParams` | fido2-server/src/main/java/org/gluu/oxauth/fido2/attestation/AttestationService.java:189-198 | exactly one element; it is filled, with algorithm -7, if and only if the type is "public-key" or "FIDO" |
| `Attestation.FinishRejectsUnknownChallenge` | fido2-server/src/main/java/org/gluu/oxauth/fido2/attestation/AttestationService.java:114-116 | when no record carries the canonical client challenge, the step fails with "Can't find request with matching challenge and domain" |
| `Attestation.LookupKeyIsCanonical` | fido2-server/src/main/java/org/gluu/oxauth/fido2/attestation/AttestationService.java:109-110 | the lookup key is the canonical form of the client challenge and is itself canonical |
| `Attestation.IssuedChallengeIsFound` | fido2-server/src/main/java/org/gluu/oxauth/fido2/attestation/AttestationService.java:109-116 | a challenge stored as unpadded base64url is found when the client sends it unpadded or padded |
| `Attestation.FinishSuccessConditions` | fido2-server/src/main/java/org/gluu/oxauth/fido2/attestation/AttestationService.java:114-119 | a success means the client data was accepted, the matched record holds the lookup key, the domain check passed and the verifier returned a result |
| `Attestation.FinishSucceedsWhenChecksPass` | fido2-server/src/main/java/org/gluu/oxauth/fido2/attestation/AttestationService.java:114-132 | conversely, if the client data is accepted, some record matches, and every match passes the domain and attestation checks, the step succeeds |
| `Attestation.DomainCheckedBeforeAttestation` | fido2-server/src/main/java/org/gluu/oxauth/fido2/attestation/AttestationService.java:118-119 | a domain rejection does not depend on what the attestation verifier would answer |
| `Attestation.FinishCompletesEntry` | fido2-server/src/main/java/org/gluu/oxauth/fido2/attestation/AttestationService.java:121-131 | the completed record is REGISTERED with type "public-key" and takes the verifier's point, algorithm and counter and the verbatim response; its publicKeyId is the verifier's credId if present, else the result of the base64url check applied to the client's `id` (which is the `id` itself when that check returns its input); challenge, username, userId, domain, options and conveyance are unchanged |
| `Attestation.CompletedEntryStillMatches` | fido2-server/src/main/java/org/gluu/oxauth/fido2/attestation/AttestationService.java:114-115 | after a success, the same request still finds a record, because the lookup does not filter by status |
| `Attestation.NewRegistration` | fido2-server/src/main/java/org/gluu/oxauth/fido2/attestation/AttestationService.java:141-218 | the begin step as a function of the table; no contract of its own: the lemmas below state it |
| `Attestation.DocumentDomain` | fido2-server/src/main/java/org/gluu/oxauth/fido2/attestation/AttestationService.java:148-152 | documentDomain, or the issuer when absent; no contract of its own: `DomainResolution` states it |
| `Attestation.HostOf` | fido2-server/src/main/java/org/gluu/oxauth/fido2/attestation/AttestationService.java:154-159 | the URL host, or the text itself when it is not a URL; no contract of its own: `DomainResolution` states it |
| `Attestation.CredentialType` | fido2-server/src/main/java/org/gluu/oxauth/fido2/attestation/AttestationService.java:171 | credentialType, "public-key" when absent; no contract of its own: `SinglePubKeyCredParam` states it |
| `Attestation.NewEntry` | fido2-server/src/main/java/org/gluu/oxauth/fido2/attestation/AttestationService.java:210-216 | the new record; no contract of its own: `NewEntryBoundToOptions` and `DomainResolution` state it |
| `Attestation.NewRegistrationFailsExactlyWhen` | fido2-server/src/main/java/org/gluu/oxauth/fido2/attestation/AttestationService.java:142-169 | the begin step fails if and only if the options check or the conveyance check refuses, with the matching error |
| `Attestation.NewEntryBoundToOptions` | fido2-server/src/main/java/org/gluu/oxauth/fido2/attestation/AttestationService.java:172-217 | the options and the saved record share the challenge, user handle, username and conveyance; the record keeps the options; status is "ok" with an empty error message; the record has no status, publicKeyId, type, point, algorithm, counter or attestation response |
| `Attestation.DomainResolution` | fido2-server/src/main/java/org/gluu/oxauth/fido2/attestation/AttestationService.java:146-214 | rp.id is documentDomain, or the issuer when that is absent; the stored domain is the URL host of rp.id, or rp.id itself when it is not a URL |
| `Attestation.SinglePubKeyCredParam` | fido2-server/src/main/java/org/gluu/oxauth/fido2/attestation/AttestationService.java:171-198 | exactly one entry: {public-key, -7} by default and for "public-key", {FIDO, -7} for "FIDO", an empty object otherwise |
| `Attestation.ExclusionListOfBegin` | fido2-server/src/main/java/org/gluu/oxauth/fido2/attestation/AttestationService.java:201-207 | excludeCredentials offers a descriptor if and only if a record already stored for the username has it, whatever its status |
| `Attestation.UserIdEncodesRandomBytes` | fido2-server/src/main/java/org/gluu/oxauth/fido2/attestation/AttestationService.java:182-185 | the user handle has 44 characters, ends in '=' and decodes to the 32 random bytes |
| `Attestation.BeginThenFinishFindsEntry` | fido2-server/src/main/java/org/gluu/oxauth/fido2/attestation/AttestationService.java:109-116 | after a begin step with a canonical challenge, a finish that presents that challenge, padded or not, finds a record |
| `Attestation.AttestationService.constructor` | fido2-server/src/main/java/org/gluu/oxauth/fido2/attestation/AttestationService.java:58-79 | the service keeps exactly the repository and the collaborators it is given |
| `Attestation.AttestationService.Verify` | fido2-server/src/main/java/org/gluu/oxauth/fido2/attestation/AttestationService.java:89-138 | on failure the table and the save log are unchanged; on success only the matched position changes, exactly one save is logged and the reply is status "ok" with an empty errorMessage |
| `Attestation.AttestationService.CreateNewRegistration` | fido2-server/src/main/java/org/gluu/oxauth/fido2/attestation/AttestationService.java:141-219 | on failure nothing is saved and the error is returned; on success the options of the begin step are returned, and exactly its new record is appended and logged, with no existing record changed |
| `Attestation.AttestationService.Options` | fido2-server/src/main/java/org/gluu/oxauth/fido2/attestation/AttestationService.java:84-87 | the same effect as the begin step it delegates to |

## Left out

- Cryptographic attestation verification (`AuthenticatorAttestationVerifier`) is abstract: `verifyAttestation` returns an optional `CredAndCounter`. Its internals are outside this model. The Java passes the mutable record to the verifier (line 119) and then saves that same object (line 132). The model's verifier is a pure function of the record, so `FinishCompletesEntry`'s claim that challenge, username, userId, domain, options and conveyance stay unchanged assumes the verifier does not modify the record it is given.
- `CommonVerifiers` and `DomainVerifier` are abstract predicates and partial functions. `verifyBase64UrlString` is an unconstrained partial function, so the fallback publicKeyId is its result for the client's `id`. `FinishCompletesEntry` states that this is `id` itself only when the function returns its input.
- Parsing of the decoded client data (UTF-8 text, then a JSON tree) is one abstract partial function. A parse failure aborts as `ClientDataRejected`.
- The discarded exception at lines 100-102 is not reproduced.
- Missing JSON members (null dereferences) are not modelled separately. Typed records always carry their fields, and absence is left to the payload verifiers.
- `java.net.URL` host extraction is an abstract partial function. `None` stands for `MalformedURLException`.
- The injected `base64UrlEncoder` and `base64UrlDecoder` beans (lines 75-79) are assumed to be the JDK's padding URL-safe encoder and its URL-safe decoder. The code that produces them is not part of this model, though the `.withoutPadding()` call at line 109 fits that reading. `UserIdEncodesRandomBytes` (44 characters, ending in '=') rests on this assumption.
- The challenge generator and `SecureRandom` are parameters of the begin step: the challenge string and the 32 random bytes.
- The persistence engine is a `seq` of records. A record is identified by its position, and `save` of a record read from position i writes position i. How the real store keys its records is not modelled.
- `findAny` picks an arbitrary match. The model takes the choice as the ghost out-parameter `pick`.
- Jackson trees, logging and dependency injection are not modelled. The options and the response are stored as values, not as their JSON text.
- The unused `authenticationsRepository` and `challengeVerifier`, and the dead local `authenticatorSelection` string (lines 161-166), are omitted.
- Exceptions become `Error` values. Only the not-found failure carries its message text, because the other messages belong to collaborators not shown. The reply a failed step produces is built by callers outside this model.
- `parallelStream` and concurrent calls (two finishes racing on one challenge) are not modelled. The model is sequential.
- Expiry of records, and uniqueness of challenges across the table, are not modelled, because the code has neither.
- Attestation.Finish: its own contract states only that a success names a stored position. Its behaviour is stated by the lemmas `FinishRejectsUnknownChallenge`, `FinishSuccessConditions`, `FinishSucceedsWhenChecksPass`, `DomainCheckedBeforeAttestation`, `FinishCompletesEntry` and `CompletedEntryStillMatches`.
- Base64Url.DecodeUnpadded: no contract of its own. It is stated by `DecodeUnpaddedEncode`, `DecodeUnpaddedRejectsDangling` and `DecodeUnpaddedRejectsPadChar`.
- Base64Url.Decode: no contract of its own. It is stated by `DecodePaddingRules`, `DecodeEncode`, `DecodeEncodePadded` and `LookupKeyMalleable`. `DecodePaddingRules` gives only the necessary conditions for acceptance; acceptance of every correctly padded text is shown only for encoder output.
- RegistrationStore.ExcludeCredentials: no contract of its own. It is stated by `ExclusionListDescribesUserEntries` and `ExclusionListAfterSave`.
- Fido2Model.Describe: no contract of its own. It copies two fields.
- Attestation.ReadClientData: no contract of its own. It is stated by `LookupKeyIsCanonical`, `FinishSuccessConditions` and `FinishSucceedsWhenChecksPass`.
- Attestation.Complete: no contract of its own. It is stated by `FinishCompletesEntry`.
- Attestation.NewRegistration: no contract of its own. It is stated by `NewRegistrationFailsExactlyWhen`, `NewEntryBoundToOptions`, `DomainResolution`, `SinglePubKeyCredParam`, `ExclusionListOfBegin`, `UserIdEncodesRandomBytes` and `BeginThenFinishFindsEntry`.
- Attestation.DocumentDomain: no contract of its own. It is stated by `DomainResolution`.
- Attestation.HostOf: no contract of its own. It is stated by `DomainResolution`.
- Attestation.CredentialType: no contract of its own. It is stated by `SinglePubKeyCredParam`.
- Attestation.NewEntry: no contract of its own. It is stated by `NewEntryBoundToOptions` and `DomainResolution`.
