# edocviewer core, modelled in Dafny

edocviewer shows the contents of ASiC-E / Latvian eDoc signature containers
in the browser and checks their signatures. The container parsing and the
cryptography are done by the external `edockit` library. This project models
what the repository decides around that library, and proves properties of it:

- **Signature-verification orchestration** (`parser.dfy`, module `Parser`).
  Document coverage, the quick stage's per-signature result (status mapping,
  signer information, date layout, error text, absorbed failures), the full
  stage's reconciliation of the crypto status with the revocation outcome,
  and the memo of the library import. The library's `verifySignature` is an
  oracle function from a signature and the options to a returned result or a
  thrown error.
- **The revocation CORS proxy** (`cors_proxy.dfy`, module `CorsProxy`). The
  origin allow-list and the preview-origin pattern, the three destination
  patterns written as string predicates and proved equal to readable
  decompositions of the URL, and the handler's chain of early returns. The
  upstream `fetch` is an oracle.
- **Localization state** (`i18n.dfy`, `localization.dfy`,
  `locale_integration.dfy`). `I18nManager` as a class (nested-key `translate`
  with its two loops, `{{name}}` interpolation, the subscriber list),
  `setAppLocale`, the saved-preference check, the locale loader with its
  Latvian fallback, and `LocaleIntegrationHelper` with its selector set.
  Browser language, storage contents and the runtime's `setLocale` outcome
  are parameters.
- **String and path helpers** (`download.dfy`, `dropzone.dfy`,
  `file_list.dfy`). `deriveFilename`, the dropzone's option default and file
  type check, and the file list's extension, display-name and viewability
  helpers.
- **UI state** (`file_preview.dfy`, `offline_notice.dfy`,
  `install_button.dfy`). The preview dialog's view dispatch and open/close
  state, the offline notice and the PWA install button, each a class whose
  methods update the component's fields.

`wrappers.dfy` holds `Option`, `Outcome` (returned value or thrown error) and
JavaScript truthiness of optional strings. `text.dfy` holds the `String`
operations the source uses (`split`, `join`, `pop`, `toLowerCase`,
`startsWith`, `endsWith`, `includes`, a global literal `replace`) with their
laws.

In the quick stage `valid` is computed from the library's `status` (VALID
and full coverage), while `originalVerificationValid` is the library's
separate `isValid` flag (src/core/parser.ts:172-207). So `valid` implies
`originalVerificationValid` only when the library keeps the two consistent;
`Parser.QuickValidInvariant` proves it under exactly that assumption. In the
full stage the status is decided by the revocation's `status` while `valid`
needs its separate `isValid` (src/core/parser.ts:305-354), so `valid` and
`verified` agree only when the library keeps `isValid` and the status "good"
in step; `Parser.FullValidMeansVerified` proves it under that assumption,
and `Parser.EdgeGoodButInvalid` and `Parser.EdgeRevokedButValid` show what
the code does when they disagree.

## Model

| member | source | states |
|---|---|---|
| Parser.EdockitLoader.Load | src/core/parser.ts:66-72 | the first call keeps the import's outcome; every later call returns that same outcome, a failed one included |
| Parser.EveryIncluded | src/core/parser.ts:394 | true exactly when every document path occurs among the signed files |
| Parser.CheckAllDocumentsSigned | src/core/parser.ts:382-395 | true for no documents, false for documents but no signed files, otherwise true exactly when every document is signed |
| Parser.UnsignedFilesMeaning | src/core/parser.ts:156-165 | the unsigned files are exactly the documents missing from the signed files, no longer than the document list, and empty exactly when coverage is complete |
| Parser.UnsignedFilesAppend | src/core/parser.ts:163-165 | the filter keeps document order: it distributes over concatenation |
| Parser.UnsignedFiles | src/core/parser.ts:162-165 | defines the document list filtered to the paths not among the signed files; its meaning is the contract of `UnsignedFilesMeaning` and `UnsignedFilesAppend` |
| Parser.NatToString | src/core/parser.ts:139-145 | `String(n)` of a natural number is a non-empty run of decimal digits |
| Parser.NatToStringValue | src/core/parser.ts:139-145 | the digits of `String(n)` read back as `n` |
| Parser.PadTwoValue | src/core/parser.ts:140-145 | `padStart(2, "0")` of a number below 100 is two digits that read back as the number |
| Parser.FourDigits | src/core/parser.ts:139 | a year from 1000 to 9999 prints as four digits |
| Parser.SignatureDateLayout | src/core/parser.ts:133-153 | for a four-digit year and in-range fields the date text is 16 characters with separators at 4, 7, 10, 13 and each field reading back as its number (month one-based) |
| Parser.DateShape | src/core/parser.ts:148 | where each field of `yyyy-mm-dd HH:mm` lands in the template |
| Parser.FormatSignatureDate | src/core/parser.ts:136-148 | defines the `yyyy-mm-dd HH:mm` text of the local date parts, "NaN" in every field for an Invalid Date; its layout and read-back are the contracts of `SignatureDateLayout` and `SignerDateReadsBack` |
| Parser.SignerInfoOf | src/core/parser.ts:114-153 | no subject fields give an empty name and id; with subject fields the name is "givenName surname" when both are present and the common name otherwise, and the id is the serial number; without a signing time the date is empty, with one it is the formatted local date |
| Parser.SignerNameEmpty | src/core/parser.ts:119-130 | the name equals "given surname" when both are present and the common name otherwise, so it is empty exactly when the full name and the common name are both missing; the full name starts with the given name and a space and ends with the surname |
| Parser.SignerNameSplits | src/core/parser.ts:123-124 | a full name built from space-free fields splits back at the space into the given name and the surname |
| Parser.SignerDateReadsBack | src/core/parser.ts:132-149 | with a signing time whose local fields are in range, the signer's date is 16 characters whose fields read back as year, one-based month, day, hours and minutes |
| Parser.VerifierErrorText | src/core/parser.ts:191-200 | errors always give a text; without errors there is a text exactly when a status message is present and the status is not VALID |
| Parser.QuickErrorText | src/core/parser.ts:190-205 | defines the quick error: the verifier's text, with the coverage notice appended after "; " when documents are unsigned; stated by `QuickCoverageMessage` and tied to the result by `QuickStatusMapping` |
| Parser.QuickStatus | src/core/parser.ts:167-188 | defines the quick status of a library status and the coverage; stated case by case by `QuickStatusMapping` |
| Parser.ErrorTextPrecedence | src/core/parser.ts:192-197 | the joined errors give way only to a status message strictly longer in UTF-16 code units, JavaScript's `length` |
| Parser.AstralStatusMessageWins | src/core/parser.ts:194-197 | example: three U+1F600 faces (length 6, three characters) win over the error "abcd" |
| Parser.QuickCoverageMessage | src/core/parser.ts:202-205 | incomplete coverage always ends the error with "Not all document files are signed", after the verifier's text and "; " when there is one; full coverage, VALID and no errors give no error |
| Parser.QuickResultFor | src/core/parser.ts:209-242 | each per-signature result carries its own index, on the success and the failure path |
| Parser.VerifyQuick | src/core/parser.ts:98-252 | a library that fails to load fails the stage with the prefixed message; otherwise one result per signature, result i tagged with index i |
| Parser.QuickResultAt | src/core/parser.ts:105-112 | result i comes from asking the verifier about signature i with the no-network options |
| Parser.QuickThrowAbsorbed | src/core/parser.ts:226-243 | a throwing verification becomes a failed result: signer "Unknown", not valid, thrown message as error, no signed files, every document unsigned |
| Parser.QuickStatusMapping | src/core/parser.ts:155-220 | VALID is pending iff covered and failed otherwise; INVALID failed; INDETERMINATE unknown; UNSUPPORTED unsupported; other codes pending iff `isValid` and covered; `valid` iff VALID and covered; never verified; the signer information, the error text, the signed files (`references` or none) and the unsigned files are those of `SignerInfoOf`, `QuickErrorText` and `UnsignedFiles`; status message and limitations come from the library, revocation and timestamp are absent |
| Parser.QuickValidInvariant | src/core/parser.ts:207-220 | a valid quick result is covered and pending, and has `originalVerificationValid` when the library's VALID implies its `isValid` |
| Parser.FullStatus | src/core/parser.ts:303-333 | defines the full status of a library status and the revocation outcome; stated case by case by `FullReconciliation` |
| Parser.FullErrorText | src/core/parser.ts:335-352 | defines the full error: the verifier's text, else "Certificate revoked" for a revoked certificate, else the quick error; stated by `FullErrorFallback` |
| Parser.Reconcile | src/core/parser.ts:354-365 | defines the overlay of a returned full verification on the quick result; stated by `FullReconciliation`, `FullErrorFallback` and `VerifyFull` |
| Parser.VerifyFull | src/core/parser.ts:262-374 | the full result keeps the quick result's signer, coverage, file lists, original verdict and index |
| Parser.FullShortCircuit | src/core/parser.ts:267-270 | a failed or unsupported quick result is returned unchanged, whatever the verifier would say |
| Parser.FullThrowDegrades | src/core/parser.ts:366-373 | a throw while loading or verifying gives the quick result marked failed, with the quick error if any, else the thrown message, and nothing else changed |
| Parser.FullReconciliation | src/core/parser.ts:303-365 | VALID and revoked fails, VALID and missing/unknown/error revocation is unknown, other VALID is verified; INVALID/INDETERMINATE/UNSUPPORTED map as in the quick stage; any other code is verified iff `isValid` and a positive revocation `isValid`, and failed otherwise; `valid` iff VALID, revocation `isValid` and quick coverage; never pending |
| Parser.FullRevokedMessage | src/core/parser.ts:345-347 | a revoked certificate with no verifier error fails with "Certificate revoked" |
| Parser.FullErrorFallback | src/core/parser.ts:335-365 | the verifier's own text wins; without it a revoked certificate gives "Certificate revoked"; with neither the quick error is kept, and with no quick error either there is no error text; a verifier status message replaces the quick one, and verifier limitations replace the quick ones |
| Parser.FullValidMeansVerified | src/core/parser.ts:306-354 | with revocation `isValid` and status "good" in step, valid implies verified, and VALID, verified and covered imply valid |
| Parser.FullIdempotent | src/core/parser.ts:262-374 | running the full stage again on its own result with the same inputs changes nothing |
| Parser.EdgeGoodButInvalid | src/core/parser.ts:306-320 | revocation `{isValid: false, status: good}` is shown verified but is not valid |
| Parser.EdgeRevokedButValid | src/core/parser.ts:306-320 | revocation `{isValid: true, status: revoked}` is not treated as revoked: verified and valid |
| Parser.ScenarioValidThenVerified | src/core/parser.ts:172-174 | one covering VALID signature is pending and valid after the quick stage, verified and valid after a good full check |
| Parser.ScenarioInvalidShortCircuits | src/core/parser.ts:268-270 | one INVALID signature is failed after the quick stage and the full stage returns it untouched |
| CorsProxy.PreviewOriginShape | worker/src/index.ts:13 | `https://<sub>.edocviewer.pages.dev` is a preview origin exactly when `sub` is non-empty lower-case alphanumeric |
| CorsProxy.PreviewOriginParts | worker/src/index.ts:13 | every preview origin is the prefix, its sub-domain and the suffix |
| CorsProxy.IsPreviewOrigin | worker/src/index.ts:13 | defines the preview-origin pattern as a string predicate; its meaning is the contract of `PreviewOriginShape` and `PreviewOriginParts` |
| CorsProxy.IsAllowedOrigin | worker/src/index.ts:22-27 | defines the origin check: a present, non-empty origin that is in the fixed list or a preview origin; its effect on the handler is stated by `ForbiddenOrigin` and `FetchOnlyWhenAllowed` |
| CorsProxy.AfterScheme | worker/src/index.ts:17-19 | defined exactly for URLs starting `https://` or `http://`, and is what follows the scheme |
| CorsProxy.UpTo | worker/src/index.ts:17-19 | the longest slash-free prefix, followed by the slash when shorter than the text |
| CorsProxy.UpToAt | worker/src/index.ts:17-19 | the first slash ends the host |
| CorsProxy.FindExtension | worker/src/index.ts:19 | a found extension is at a real position |
| CorsProxy.FindExtensionComplete | worker/src/index.ts:19 | every extension position is found |
| CorsProxy.SkEeSound | worker/src/index.ts:17 | a match of the SK pattern has a slash-free run ending in `.sk.ee/` |
| CorsProxy.SkEeAt | worker/src/index.ts:17 | where `.sk.ee/` sits when the host ends in `.sk.ee` |
| CorsProxy.SkEeSuffixAt | worker/src/index.ts:17 | `.sk.ee` followed by the slash reads `.sk.ee/` |
| CorsProxy.SkEeComplete | worker/src/index.ts:17 | every such run is matched |
| CorsProxy.SkEeMeaning | worker/src/index.ts:17 | the SK pattern matches exactly the URLs of that shape |
| CorsProxy.MatchesSkEe | worker/src/index.ts:17 | defines the SK pattern as a string predicate; its meaning is the contract of `SkEeMeaning` |
| CorsProxy.OcspRestMeaning | worker/src/index.ts:18 | the OCSP rest matches exactly `ocsp.`, a non-empty slash-free host part and a slash |
| CorsProxy.OcspMeaning | worker/src/index.ts:18 | the OCSP pattern matches exactly the URLs of that shape |
| CorsProxy.MatchesOcsp | worker/src/index.ts:18 | defines the OCSP pattern as a string predicate; its meaning is the contract of `OcspMeaning` |
| CorsProxy.CertFileSound | worker/src/index.ts:19 | a certificate-file match has a non-empty host, a slash and a line-terminator-free tail ending in a certificate extension and optional query |
| CorsProxy.CertFileComplete | worker/src/index.ts:19 | every text of that shape matches |
| CorsProxy.CertFileAt | worker/src/index.ts:19 | a host ending at a slash with such a tail matches |
| CorsProxy.CertFileMeaning | worker/src/index.ts:19 | the case-insensitive certificate-file pattern matches exactly the URLs whose lower-cased rest has that shape |
| CorsProxy.MatchesCertFile | worker/src/index.ts:19 | defines the case-insensitive certificate-file pattern as a predicate on the lower-cased URL; its meaning is the contract of `CertFileMeaning` |
| CorsProxy.IsAllowedDestination | worker/src/index.ts:16-31 | defines the destination check as "some of the three patterns matches"; its effect on the handler is stated by `FetchOnlyWhenAllowed` and `BadDestination` |
| CorsProxy.Handle | worker/src/index.ts:34-90 | defines the handler's chain of early returns and the upstream fetch; its behaviour is the contract of `FetchOnlyWhenAllowed`, `ForbiddenOrigin`, `Preflight`, `MethodNotAllowed`, `BadDestination`, `ProxiedResponse` and `ProxyError` |
| CorsProxy.FetchOnlyWhenAllowed | worker/src/index.ts:34-90 | the handler fetches, and fetches exactly the requested URL with the `User-Agent: edocviewer-cors-proxy/1.0` header, iff origin allowed, method GET, url present and destination allowed |
| CorsProxy.ForbiddenOrigin | worker/src/index.ts:38-40 | a disallowed origin gets 403 "Forbidden" and nothing is fetched, whatever the method and URL |
| CorsProxy.Preflight | worker/src/index.ts:43-51 | an allowed preflight gets 200 with the origin, `GET` and `86400` headers, independent of the URL |
| CorsProxy.MethodNotAllowed | worker/src/index.ts:54-56 | any other method than GET and OPTIONS gets 405 |
| CorsProxy.BadDestination | worker/src/index.ts:59-66 | a missing url gets 400 "Missing url parameter", a disallowed one 400 "Destination not allowed", neither fetched |
| CorsProxy.ProxiedResponse | worker/src/index.ts:68-85 | the upstream status and body pass through with the caller's origin, the upstream Content-Type or `application/octet-stream`, and an hour's Cache-Control |
| CorsProxy.ProxyError | worker/src/index.ts:86-90 | a throwing fetch gives 502 "Proxy error: " and the message |
| CorsProxy.BareSkEeNotAllowed | worker/src/index.ts:17 | example: `https://sk.ee/` is not an SK destination |
| CorsProxy.OcspWithoutPathNotAllowed | worker/src/index.ts:18 | example: an OCSP host without a slash after it is not allowed by the OCSP pattern |
| I18n.ParseLanguage | src/utils/i18n.ts:110-113 | an accepted saved value is the code of the language it yields |
| I18n.ParseCode | src/utils/i18n.ts:110-114 | every language's code is accepted back as that language |
| I18n.DetectLatvian | src/utils/i18n.ts:23-32 | Latvian is detected exactly when the browser language starts with `l`/`L` then `v`/`V` |
| I18n.DetectBrowserLanguage | src/utils/i18n.ts:23-32 | defines the detected language: Latvian when the lower-cased browser language starts with "lv", English otherwise; stated by `DetectLatvian` |
| I18n.Resolve | src/utils/i18n.ts:66-73 | a concrete language is kept; `auto` becomes the detected one |
| I18n.LookupAppend | src/utils/i18n.ts:41-48 | walking a split key is walking its parts one after the other, stopping at the first missing entry |
| I18n.Lookup | src/utils/i18n.ts:41-50 | defines the walk of the key segments through the table, stopping at the first missing entry; stated by `LookupAppend`, `TranslateMissing` and `LookupExamples` |
| I18n.Placeholder | src/utils/i18n.ts:56 | a placeholder is the name and four brace characters |
| I18n.TranslateMissing | src/utils/i18n.ts:45-51 | a key that leads nowhere translates to itself |
| I18n.TranslateFound | src/utils/i18n.ts:51-59 | a found text without placeholders is returned unchanged |
| I18n.InterpolateAbsent | src/utils/i18n.ts:54-57 | parameters whose placeholders do not occur change nothing |
| I18n.InterpolateOne | src/utils/i18n.ts:54-57 | a placeholder occurring once is replaced by the value and the rest is kept |
| I18n.Interpolate | src/utils/i18n.ts:54-57 | defines the parameters applied in order, each replacing every occurrence of its placeholder; stated by `InterpolateAbsent` and `InterpolateOne` |
| I18n.TranslateIn | src/utils/i18n.ts:40-60 | defines `translate` against one table: the key when the walk fails, else the interpolated text; stated by `TranslateMissing` and `TranslateFound`, and the loops of `I18nManager.Translate` are proved to compute it |
| I18n.WithoutMembers | src/utils/i18n.ts:128-130 | unsubscribing removes every occurrence of the callback and keeps every other callback |
| I18n.WithoutAbsent | src/utils/i18n.ts:128-130 | removing an absent callback changes nothing |
| I18n.WithoutAppend | src/utils/i18n.ts:128-130 | the kept callbacks keep their order |
| I18n.SubscribeThenUnsubscribe | src/utils/i18n.ts:126-131 | subscribing a new callback and unsubscribing it restores the list |
| I18n.WithoutIdempotent | src/utils/i18n.ts:128-130 | unsubscribing twice is unsubscribing once |
| I18n.I18nManager.constructor | src/utils/i18n.ts:12-18 | a fresh manager is on `auto` with the detected language and no subscribers |
| I18n.I18nManager.Translate | src/utils/i18n.ts:40-60 | the loops compute the key walk through the effective table, falling back to the key, followed by interpolation in parameter order |
| I18n.I18nManager.NotifySubscribers | src/utils/i18n.ts:136-138 | every subscriber is called once, in subscription order |
| I18n.I18nManager.SetLanguage | src/utils/i18n.ts:66-84 | the setting is recorded, the effective language resolved, every subscriber notified and the setting's code stored |
| I18n.I18nManager.LoadSavedLanguage | src/utils/i18n.ts:105-119 | a saved `en`/`lv`/`auto` is applied as `setLanguage` would; anything else or a throwing storage changes nothing and notifies nobody |
| I18n.I18nManager.Subscribe | src/utils/i18n.ts:126-127 | the callback is appended |
| I18n.I18nManager.Unsubscribe | src/utils/i18n.ts:128-130 | every occurrence of the callback is removed |
| I18n.I18nManager.GetLanguage | src/utils/i18n.ts:90-92 | returns the recorded setting, `auto` included; what `SetLanguage` records is its contract |
| I18n.I18nManager.GetEffectiveLanguage | src/utils/i18n.ts:98-100 | returns the resolved language, never `auto`; what `SetLanguage` resolves is its contract |
| I18n.LookupExamples | src/i18n/en.ts:26-27 | example: `error.title` is found in both tables; a walk past a text or to a missing key fails |
| I18n.SplitTwo | src/utils/i18n.ts:41 | example: a two-segment key splits into its two segments |
| I18n.TranslateExamples | src/utils/i18n.ts:40-60 | example: `error.title` translates to "Error" and "Kļūda"; an over-long key falls back to itself |
| Localization.LoadSavedLocale | src/localization/localization.ts:156-171 | a saved `en`/`lv`/`auto` is returned; anything else, nothing saved, or a throwing storage gives `auto` |
| Localization.SavedLocaleRoundTrip | src/localization/localization.ts:183-188 | a stored preference reads back unchanged |
| Localization.SafeFallbackLoadLocale | src/localization/localization.ts:118-126 | the Latvian templates exactly for "lv", nothing for anything else |
| Localization.FallbackUnreachableAsWritten | src/localization/localization.ts:132-141 | as written, a failed import fails the load and the fallback is never returned |
| Localization.LoadLocaleAsWritten | src/localization/localization.ts:132-141 | defines the loader as written: the outcome is the import's own; stated by `FallbackUnreachableAsWritten` |
| Localization.LoadLocaleNeverFails | src/localization/localization.ts:132-141 | the loader with the fallback in reach never fails, keeps a successful import, and falls back to the Latvian templates or nothing |
| Localization.LoadLocale | src/localization/localization.ts:132-141 | defines the loader as its `catch` intends it: a failed import falls back to `safeFallbackLoadLocale`; stated by `LoadLocaleNeverFails` |
| Localization.AppLocale.constructor | src/localization/localization.ts:129-131 | the runtime starts in the source locale, English |
| Localization.AppLocale.SetAppLocale | src/localization/localization.ts:174-200 | `auto` is resolved by browser language, the requested preference is stored when storage works, the runtime switches only on a different locale, and the event with the effective locale and preference follows unless the switch throws |
| LocaleIntegration.LocaleIntegrationHelper.constructor | src/utils/locale-integration.ts:17-20 | not initialised, no selectors |
| LocaleIntegration.LocaleIntegrationHelper.Initialize | src/utils/locale-integration.ts:40-50 | only the first call installs; afterwards initialised and the selectors untouched |
| LocaleIntegration.LocaleIntegrationHelper.RegisterSelector | src/utils/locale-integration.ts:56-58 | set insertion, so registering twice keeps one entry |
| LocaleIntegration.LocaleIntegrationHelper.UnregisterSelector | src/utils/locale-integration.ts:64-66 | set deletion of that selector only |
| LocaleIntegration.LocaleIntegrationHelper.UpdateSelectors | src/utils/locale-integration.ts:88-96 | every selector with a locale property gets the locale; the others keep theirs |
| LocaleIntegration.LocaleIntegrationHelper.HandleLocaleChange | src/utils/locale-integration.ts:72-82 | after a successful `setAppLocale` every selector with a locale property shows the requested preference; a failed one is swallowed and no selector changes; the requested preference is stored whenever storage is writable, even when the switch fails, and the current locale becomes the resolved one unless the switch fails |
| LocaleIntegration.HelperSlot.GetInstance | src/utils/locale-integration.ts:25-30 | the first call creates a fresh helper; every call returns the stored one |
| Download.DeriveFilename | src/utils/download.ts:84-101 | a non-empty suggestion wins; else a non-empty URL's non-empty last segment; else the default, "document.edoc" when not given |
| Download.UrlNameIsFinalSegment | src/utils/download.ts:93-97 | a name from the URL holds no slash and ends the URL right after a slash or is the whole URL |
| Download.TrailingSlashFallsBack | src/utils/download.ts:94-100 | a URL ending in a slash falls back to the default |
| Download.NeverEmpty | src/utils/download.ts:87-100 | with a non-empty default the name is never empty |
| Dropzone.MergeFileTypes | src/components/FileDropzone.ts:20-24 | the defaults `.edoc`, `.asice` unless the options name the property; an explicit `undefined` overrides them |
| Dropzone.SomeSuffix | src/components/FileDropzone.ts:182-184 | true exactly when the lower-cased name ends with one of the types |
| Dropzone.ValidateFileType | src/components/FileDropzone.ts:174-185 | defines the type check: no types or an empty list accept everything, otherwise the lower-cased name must end with one of the types; stated by `SomeSuffix`, `UpperCaseTypeNeverMatches` and `HandleFiles` |
| Dropzone.EdocNameAnyCase | src/components/FileDropzone.ts:182-184 | example: the defaults accept a name ending `.EDOC` |
| Dropzone.AsiceNameAnyCase | src/components/FileDropzone.ts:182-184 | example: the defaults accept a name ending `.AsiCE` |
| Dropzone.UpperCaseTypeNeverMatches | src/components/FileDropzone.ts:182-184 | a type holding an upper-case letter accepts no file, because only the name is lower-cased |
| Dropzone.FileDropzone.constructor | src/components/FileDropzone.ts:20-24 | the accepted types are the merged option |
| Dropzone.FileDropzone.HandleFiles | src/components/FileDropzone.ts:155-169 | the first file is passed on exactly when it is valid; otherwise the alert lists the accepted types joined by ", " |
| FileList.FileExtension | src/components/EdocFileList.ts:133-135 | the lower-cased text after the last dot, never longer than the name |
| FileList.ExtensionWithoutDot | src/components/EdocFileList.ts:133-135 | a name without a dot is its own extension; a trailing dot gives none |
| FileList.ExtensionAfterLastDot | src/components/EdocFileList.ts:133-135 | `stem.ext` has extension `ext` lower-cased |
| FileList.DisplayName | src/components/EdocFileList.ts:137-140 | the last path segment when not empty, else the whole name; it always ends the name |
| FileList.CanViewFile | src/components/EdocFileList.ts:142-145 | defines viewability as the extension being exactly "pdf"; stated by `PdfViewableAnyCase` |
| FileList.RenderFileItem | src/components/EdocFileList.ts:79-82 | defines one item as the file name, its display name and its viewability; `Render` states one item per file |
| FileList.PdfViewableAnyCase | src/components/EdocFileList.ts:142-145 | a PDF is viewable whatever the case of its extension |
| FileList.Render | src/components/EdocFileList.ts:69-82 | the empty message exactly for no files, else one item per file in order |
| FilePreview.IPhoneIsMobile | src/components/EdocFilePreview.ts:283-286 | example: a user agent containing `iPhone` anywhere is mobile |
| FilePreview.IsMobileAgent | src/components/EdocFilePreview.ts:283-286 | defines mobile detection as the lower-cased user agent containing one of the mobile tokens; `IPhoneIsMobile` is an example |
| FilePreview.ViewForGroups | src/components/EdocFilePreview.ts:409-445 | no data first; then image, PDF (the mobile message on mobile), DOCX, and unsupported, each exactly for its extensions |
| FilePreview.ViewFor | src/components/EdocFilePreview.ts:409-445 | defines the view dispatch; stated by `ViewForGroups` and `ObjectUrlViews`, and `RenderContent` follows it |
| FilePreview.ObjectUrlViews | src/components/EdocFilePreview.ts:421-425 | an object URL is created exactly for the views that show one, and they show it |
| FilePreview.OpenInNewTabViews | src/components/EdocFilePreview.ts:521-523 | "Open in New Tab" appears exactly on desktop for files shown neither as PDF nor as DOCX |
| FilePreview.OpenInNewTab | src/components/EdocFilePreview.ts:522-523 | defines the "Open in New Tab" rule: desktop, and an extension other than "pdf" and "docx"; stated by `OpenInNewTabViews` |
| FilePreview.FilePreviewDialog.ShowOpenInNewTab | src/components/EdocFilePreview.ts:520-523 | applies `OpenInNewTab` to the dialog's mobile flag and the extension of its file |
| FilePreview.FilePreviewDialog.constructor | src/components/EdocFilePreview.ts:280-287 | mobile detection from the user agent; closed, empty, not loading |
| FilePreview.FilePreviewDialog.Show | src/components/EdocFilePreview.ts:296-307 | opens; a DOCX file also starts loading and schedules its rendering |
| FilePreview.FilePreviewDialog.CleanupUrl | src/components/EdocFilePreview.ts:323-328 | revokes the held URL if any and forgets it |
| FilePreview.FilePreviewDialog.Hide | src/components/EdocFilePreview.ts:312-318 | closed, URL revoked and forgotten |
| FilePreview.FilePreviewDialog.HandleAfterHide | src/components/EdocFilePreview.ts:333-336 | closed, URL revoked and forgotten |
| FilePreview.FilePreviewDialog.CleanupTwice | src/components/EdocFilePreview.ts:323-328 | cleanup is idempotent: a second call revokes nothing, and the dialog's other fields are kept |
| FilePreview.FilePreviewDialog.RenderDocxContent | src/components/EdocFilePreview.ts:365-404 | with data it always ends not loading, showing the error message exactly when the container exists and rendering fails; without data it changes nothing |
| FilePreview.FilePreviewDialog.RenderContent | src/components/EdocFilePreview.ts:409-445 | the view follows the dispatch, and images and PDFs replace the held object URL with the new one |
| OfflineNotice.NoticeShown | src/components/EdocOfflineNotice.ts:57-62 | defines `render`'s test: shown while offline and not dismissed; the methods of `OfflineNotice` state when it holds |
| OfflineNotice.OfflineNotice.constructor | src/components/EdocOfflineNotice.ts:32-36 | online, not dismissed, hidden |
| OfflineNotice.OfflineNotice.ConnectedCallback | src/components/EdocOfflineNotice.ts:38-47 | takes the connection state and keeps a dismissal |
| OfflineNotice.OfflineNotice.HandleNetworkChange | src/components/EdocOfflineNotice.ts:78-85 | takes the connection state; going offline clears the dismissal, so the notice shows exactly when offline, while coming back online keeps a dismissal as it was |
| OfflineNotice.OfflineNotice.HandleDismiss | src/components/EdocOfflineNotice.ts:87-89 | dismissed, connection state kept, hidden |
| InstallButton.InstalledIn | src/components/EdocInstallButton.ts:79-91 | defines the installed test as the disjunction of the six display situations; stated by `BrowserTabNotInstalled`, `AndroidReferrerInstalled` and `CheckInstallationStatus` |
| InstallButton.ButtonShown | src/components/EdocInstallButton.ts:110-114 | the button shows exactly when the app is not installed and a prompt is held |
| InstallButton.BrowserTabNotInstalled | src/components/EdocInstallButton.ts:79-91 | with no installed display mode and an ordinary referrer the app is not installed |
| InstallButton.AndroidReferrerInstalled | src/components/EdocInstallButton.ts:87 | an `android-app://` referrer alone counts as installed |
| InstallButton.InstallButton.constructor | src/components/EdocInstallButton.ts:26-27 | no prompt, not installed, hidden |
| InstallButton.InstallButton.CheckInstallationStatus | src/components/EdocInstallButton.ts:79-91 | installed is the disjunction of the six conditions; the prompt is kept |
| InstallButton.InstallButton.CaptureInstallPrompt | src/components/EdocInstallButton.ts:98-102 | the event is kept; the button shows exactly when not installed |
| InstallButton.InstallButton.HandleAppInstalled | src/components/EdocInstallButton.ts:104-108 | installed, prompt dropped, button hidden |
| InstallButton.InstallButton.InstallApp | src/components/EdocInstallButton.ts:130-155 | no prompt or a throw changes nothing; an answer uses up the prompt and "accepted" marks the app installed |
| Text.Lower | src/utils/i18n.ts:24 | lower-casing keeps the length and maps each character |
| Text.Utf16Length | src/core/parser.ts:195 | `length` counts UTF-16 code units: between the number of characters and twice it, and equal to it exactly when no character lies beyond U+FFFF |
| Text.Split | src/utils/i18n.ts:41 | a split is never empty and no part holds the separator |
| Text.JoinSplit | src/utils/i18n.ts:41 | joining a split with the separator gives back the text |
| Text.SplitJoin | src/utils/i18n.ts:41 | splitting a join of separator-free parts gives back the parts |
| Text.SplitFree | src/utils/i18n.ts:41 | a text without the separator splits into itself |
| Text.SplitAppendFree | src/utils/i18n.ts:41 | a separator and separator-free tail add one part |
| Text.AfterLast | src/utils/download.ts:94 | the text after the last separator holds none, ends the text, and follows a separator or starts it |
| Text.LastOfSplit | src/utils/download.ts:94 | `split(sep).pop()` is the text after the last separator |
| Text.ReplaceAllAbsent | src/utils/i18n.ts:56 | replacing an absent pattern changes nothing |
| Text.ReplaceAllSelf | src/utils/i18n.ts:56 | replacing a pattern by itself changes nothing |
| Text.ReplaceAllFirst | src/utils/i18n.ts:56 | the first occurrence is replaced, the text before it kept, and scanning resumes after it |

## Left out

- The `edockit` library (`parseEdoc`, `verifySignature`, ASiC-E and XAdES parsing, OCSP and CRL checks) is an oracle; `parseEdocFile` (src/core/parser.ts:79-90) only wraps it and is not modelled.
- `Promise.all`, `await` and dynamic `import()` are not modelled: the quick stage is a map over the signatures, and each awaited step is an input outcome.
- Parser.FormatSignatureDate: JavaScript `Date` parsing and the local time zone are not modelled; the local date parts are an input, and an unparsable time gives the `NaN` fields. The `catch` around the formatting cannot be reached.
- Parser.VerifyFull: the full stage reads the revocation from `result.certificate.revocation` (src/core/parser.ts:286). A result without `certificate` makes that access throw a TypeError, which the `catch` turns into a failed result. The model holds the revocation as a direct field, so that case appears only as the verifier throwing (`FullThrowDegrades`).
- Parser.VerifyQuick: a container whose `signatures` is not an array, and the `|| []` defaults for missing lists, are not modelled.
- The real `fetch`, response body streaming and the JavaScript regular-expression engine are not modelled; the patterns are hand-written predicates, and the upstream body is passed on unread.
- CorsProxy.Handle: the method is compared as given; the platform's method normalisation and the default Content-Type of text responses are not modelled.
- I18n.I18nManager.Translate: JavaScript property access on a text (`"abc".length`, index keys) and `Object.prototype` keys are not modelled; stepping into a text always fails.
- I18n.Interpolate: parameter names are taken literally, so names that form regular-expression syntax with the surrounding braces are not modelled: metacharacters, or digits, which make `{n}` a quantifier (`{{0}}` would then replace every `}` and leave the placeholder). `$` patterns in values are not modelled either. No caller in the source passes parameters.
- I18n.DetectBrowserLanguage, FileList.FileExtension, Dropzone.ValidateFileType: lower-case ASCII letters only. That is exact for every comparison the source makes with the built-in types and extensions, but a caller-supplied file type containing `k` or `i` could match a name that full Unicode lower-casing turns into those letters.
- A subscriber or the runtime `setLocale` throwing inside `setLanguage` is not modelled.
- `localStorage`, `navigator.language`, `navigator.onLine`, `navigator.userAgent`, `matchMedia`, the referrer, `URL.createObjectURL` and the DOCX renderer are parameters; window events, listeners and `exposeDebugFunctions` are not modelled.
- InstallButton.InstallButton.InstallApp: the state changes made by other events while the prompt is awaited are not modelled; the call is taken as one step.
- FilePreview.FilePreviewDialog.RenderContent: each render creates a new object URL and drops the previous one without revoking it; the model records the replacement only.
- Lit rendering, CSS, Shoelace components, `downloadFile`, `LocaleAwareMixin`, the DOCX adapters, the PWA service worker, the browser-extension code and the build files are not modelled.
- The English `en` templates object of src/localization/localization.ts is not modelled because the runtime never loads it.

## Findings

| source | as written | input that shows it | evidently intended | confidence | as-written member | corrected member |
|---|---|---|---|---|---|---|
| src/localization/localization.ts:132-141 | the async `loadLocale` returns `import(...)` inside `try` without `await`, so a rejected import settles the returned promise and the `catch` never runs | locale "lv" with a failing import of the generated locale module | the `catch` falls back to `safeFallbackLoadLocale`, giving the hard-coded Latvian templates | not executed | Localization.FallbackUnreachableAsWritten | Localization.LoadLocaleNeverFails |
