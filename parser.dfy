/**
 * Signature-verification orchestration of src/core/parser.ts.
 *
 * Parsing the ASiC-E container and the XAdES cryptography belong to the
 * `edockit` library; here its `verifySignature` is an oracle `Verifier`
 * and its outcome (a result or a thrown error) is an input. What the
 * repository decides itself is modelled: document coverage, the quick
 * stage's status mapping and error text, the full stage's short cut,
 * revocation reconciliation and spread-merge, and the failure handling
 * that turns a thrown error into a `failed` result.
 */
module Parser {
  import opened Wrappers
  import opened Text

  // ----- Data model -------------------------------------------------------

  /**
   * The status code `verifySignature` reports. `OtherStatus` is any other
   * value, as from older library versions; its code is never one of
   * "VALID", "INVALID", "INDETERMINATE" or "UNSUPPORTED", which have their
   * own constructors.
   */
  datatype EdockitStatus = VALID | INVALID | INDETERMINATE | UNSUPPORTED | OtherStatus(code: string)

  /** The status shown in the user interface. */
  datatype VerificationStatus = Pending | Verified | Failed | Unknown | Unsupported

  datatype RevocationStatus = Good | Revoked | RevocationUnknown | RevocationError
  datatype RevocationMethod = Ocsp | Crl
  datatype RevocationInfo = RevocationInfo(isValid: bool, status: RevocationStatus, checkMethod: Option<RevocationMethod>)
  datatype TimestampInfo = TimestampInfo(time: string, valid: bool)
  datatype Limitation = Limitation(code: string, description: string, platform: Option<string>)
  datatype SignerInfo = SignerInfo(signerName: string, personalId: string, signatureDate: string)

  /** Subject fields of the signing certificate; "" stands for a missing field (both are falsy). */
  datatype SubjectFields = SubjectFields(givenName: string, surname: string, commonName: string, serialNumber: string)

  /**
   * The local calendar fields that `new Date(signingTime)` yields;
   * `monthIndex` is `getMonth()`, counted from 0.
   */
  datatype DateParts = DateParts(year: int, monthIndex: nat, day: nat, hours: nat, minutes: nat)

  /**
   * A signature as the library parses it. `localTime` is what the
   * JavaScript `Date` makes of `signingTime` in the local time zone;
   * `None` is an Invalid Date, whose getters all give NaN.
   */
  datatype RawSignature = RawSignature(
    signerInfo: Option<SubjectFields>,
    signingTime: string,
    localTime: Option<DateParts>,
    references: Option<seq<string>>)

  /** The parsed container; its file map is only ever handed to the verifier, so the verifier closes over it. */
  datatype Container = Container(
    documentFileList: seq<string>,
    metadataFileList: seq<string>,
    signedFileList: seq<string>,
    signatures: seq<RawSignature>)

  datatype VerifyOptions = VerifyOptions(checkRevocation: bool, verifyTimestamps: bool, proxyUrl: Option<string>)

  /** Options of the quick stage: no revocation and no timestamp checks, so no network. */
  const QuickOptions := VerifyOptions(false, false, None)
  const ProxyUrl := "https://cors-proxy.edocviewer.app/?url="
  /** Options of the full stage: revocation and timestamps, through the revocation proxy. */
  const FullOptions := VerifyOptions(true, true, Some(ProxyUrl))

  /** What `verifySignature` returns; a missing `errors` array is the empty one. */
  datatype VerifierResult = VerifierResult(
    isValid: bool,
    status: EdockitStatus,
    errors: seq<string>,
    statusMessage: Option<string>,
    limitations: Option<seq<Limitation>>,
    revocation: Option<RevocationInfo>,
    timestamp: Option<TimestampInfo>)

  /** The library's `verifySignature` as an oracle; `None` is the `undefined` of an index out of range. */
  type Verifier = (Option<RawSignature>, VerifyOptions) -> Outcome<VerifierResult>

  /** The module object that the dynamic import of the library resolves to. */
  datatype EdockitApi = EdockitApi

  datatype SignatureValidationResult = SignatureValidationResult(
    signerInfo: SignerInfo,
    valid: bool,
    error: Option<string>,
    allDocumentsSigned: bool,
    signedFiles: seq<string>,
    unsignedFiles: seq<string>,
    originalVerificationValid: bool,
    revocation: Option<RevocationInfo>,
    timestamp: Option<TimestampInfo>,
    verificationStatus: VerificationStatus,
    statusMessage: Option<string>,
    limitations: Option<seq<Limitation>>,
    signatureIndex: int)

  // ----- Loading the library once ------------------------------------------

  /** The module-level memo of the dynamic import. */
  class EdockitLoader {
    var loading: Option<Outcome<EdockitApi>>

    constructor ()
      ensures loading == None
    {
      loading := None;
    }

    /**
     * `loadEdockit`: the first call starts the import and keeps its
     * promise; every later call gets that same promise back, a rejected
     * one included.
     */
    method Load(importOutcome: Outcome<EdockitApi>) returns (r: Outcome<EdockitApi>)
      modifies this
      ensures old(loading).None? ==> loading == Some(importOutcome) && r == importOutcome
      ensures old(loading).Some? ==> loading == old(loading) && r == old(loading).value
    {
      if loading.None? {
        loading := Some(importOutcome);
      }
      r := loading.value;
    }
  }

  // ----- Document coverage -------------------------------------------------

  /** `documentFileList.every(doc => signedFiles.includes(doc))`. */
  function EveryIncluded(docs: seq<string>, signedFiles: seq<string>): (r: bool)
    ensures r <==> forall d :: d in docs ==> d in signedFiles
  {
    |docs| == 0 || (docs[0] in signedFiles && EveryIncluded(docs[1..], signedFiles))
  }

  /** `checkAllDocumentsSigned`: true exactly when every document path is among the signed files. */
  function CheckAllDocumentsSigned(documentFileList: seq<string>, signedFiles: seq<string>): (r: bool)
    ensures |documentFileList| == 0 ==> r
    ensures |documentFileList| > 0 && |signedFiles| == 0 ==> !r
    ensures r <==> forall d :: d in documentFileList ==> d in signedFiles
  {
    if |documentFileList| == 0 then true
    else if |signedFiles| == 0 then
      assert documentFileList[0] in documentFileList && documentFileList[0] !in signedFiles;
      false
    else EveryIncluded(documentFileList, signedFiles)
  }

  /** The `documentFileList.filter(file => !signedFiles.includes(file))` of the quick stage. */
  function UnsignedFiles(documentFileList: seq<string>, signedFiles: seq<string>): seq<string> {
    if documentFileList == [] then []
    else
      (if documentFileList[0] in signedFiles then [] else [documentFileList[0]])
      + UnsignedFiles(documentFileList[1..], signedFiles)
  }

  /**
   * The unsigned files are the documents missing from the signed files,
   * no more; there are none exactly when coverage is complete.
   */
  lemma {:induction false} UnsignedFilesMeaning(documentFileList: seq<string>, signedFiles: seq<string>)
    ensures |UnsignedFiles(documentFileList, signedFiles)| <= |documentFileList|
    ensures forall f :: f in UnsignedFiles(documentFileList, signedFiles) <==> f in documentFileList && f !in signedFiles
    ensures UnsignedFiles(documentFileList, signedFiles) == [] <==> CheckAllDocumentsSigned(documentFileList, signedFiles)
  {
    if documentFileList != [] {
      UnsignedFilesMeaning(documentFileList[1..], signedFiles);
      assert documentFileList == [documentFileList[0]] + documentFileList[1..];
      if documentFileList[0] !in signedFiles {
        assert documentFileList[0] in UnsignedFiles(documentFileList, signedFiles);
      }
    }
  }

  /** The filter keeps the order of the document list: it distributes over concatenation. */
  lemma {:induction false} UnsignedFilesAppend(a: seq<string>, b: seq<string>, signedFiles: seq<string>)
    ensures UnsignedFiles(a + b, signedFiles) == UnsignedFiles(a, signedFiles) + UnsignedFiles(b, signedFiles)
  {
    if a != [] {
      var head := if a[0] in signedFiles then [] else [a[0]];
      assert (a + b)[0] == a[0];
      assert (a + b)[1..] == a[1..] + b;
      UnsignedFilesAppend(a[1..], b, signedFiles);
      calc {
        UnsignedFiles(a + b, signedFiles);
        head + UnsignedFiles(a[1..] + b, signedFiles);
        head + (UnsignedFiles(a[1..], signedFiles) + UnsignedFiles(b, signedFiles));
        (head + UnsignedFiles(a[1..], signedFiles)) + UnsignedFiles(b, signedFiles);
        UnsignedFiles(a, signedFiles) + UnsignedFiles(b, signedFiles);
      }
    } else {
      assert a + b == b;
    }
  }

  // ----- Signer information ------------------------------------------------

  /** The decimal digits of `n`, as `String(n)` writes them. */
  function NatToString(n: nat): (s: string)
    ensures |s| >= 1
    ensures forall i :: 0 <= i < |s| ==> '0' <= s[i] <= '9'
  {
    if n < 10 then [('0' as int + n) as char]
    else NatToString(n / 10) + [('0' as int + n % 10) as char]
  }

  /** `String(n)` for an integer, with a leading minus sign when negative. */
  function IntToString(n: int): string {
    if n < 0 then "-" + NatToString(-n) else NatToString(n)
  }

  /** The value of a string of decimal digits. */
  function DigitsValue(s: string): nat
    requires forall i :: 0 <= i < |s| ==> '0' <= s[i] <= '9'
  {
    if s == [] then 0 else DigitsValue(s[..|s| - 1]) * 10 + (s[|s| - 1] as int - '0' as int)
  }

  /** Reading the digits back gives the number. */
  lemma {:induction false} NatToStringValue(n: nat)
    ensures DigitsValue(NatToString(n)) == n
  {
    if n >= 10 {
      NatToStringValue(n / 10);
      var s := NatToString(n);
      assert s[..|s| - 1] == NatToString(n / 10);
    }
  }

  /** `String(n).padStart(2, "0")`. */
  function PadTwo(n: nat): string {
    var s := NatToString(n);
    if |s| >= 2 then s else "0" + s
  }

  lemma {:induction false} PadTwoValue(n: nat)
    requires n < 100
    ensures |PadTwo(n)| == 2
    ensures forall i :: 0 <= i < 2 ==> '0' <= PadTwo(n)[i] <= '9'
    ensures DigitsValue(PadTwo(n)) == n
  {
    NatToStringValue(n);
    if n >= 10 {
      assert NatToString(n) == NatToString(n / 10) + [('0' as int + n % 10) as char];
    } else {
      var p := PadTwo(n);
      assert p[..1] == "0";
    }
  }

  lemma {:induction false} FourDigits(n: nat)
    requires 1000 <= n <= 9999
    ensures |NatToString(n)| == 4
  {
    assert n / 10 / 10 / 10 == n / 1000;
    assert 1 <= n / 1000 < 10;
    assert |NatToString(n / 10 / 10 / 10)| == 1;
    assert |NatToString(n / 10 / 10)| == 2;
    assert |NatToString(n / 10)| == 3;
  }

  /** The `yyyy-mm-dd HH:mm` display string; an Invalid Date gives NaN in every field. */
  function FormatSignatureDate(local: Option<DateParts>): string {
    match local
    case None => "NaN-NaN-NaN NaN:NaN"
    case Some(p) =>
      IntToString(p.year) + "-" + PadTwo(p.monthIndex + 1) + "-" + PadTwo(p.day)
      + " " + PadTwo(p.hours) + ":" + PadTwo(p.minutes)
  }

  /** `r[lo..hi]` is a run of decimal digits that reads as `v`. */
  predicate DigitField(r: string, lo: int, hi: int, v: int) {
    0 <= lo <= hi <= |r|
    && (forall i :: 0 <= i < hi - lo ==> '0' <= r[lo..hi][i] <= '9')
    && DigitsValue(r[lo..hi]) == v
  }

  /**
   * For a four-digit year and in-range fields the display string has the
   * fixed `yyyy-mm-dd HH:mm` shape, and every field reads back as the
   * number it came from.
   */
  lemma SignatureDateLayout(p: DateParts)
    requires 1000 <= p.year <= 9999 && p.monthIndex < 12 && p.day < 100 && p.hours < 24 && p.minutes < 60
    ensures var r := FormatSignatureDate(Some(p));
      && |r| == 16
      && r[4] == '-' && r[7] == '-' && r[10] == ' ' && r[13] == ':'
      && DigitField(r, 0, 4, p.year)
      && DigitField(r, 5, 7, p.monthIndex + 1)
      && DigitField(r, 8, 10, p.day)
      && DigitField(r, 11, 13, p.hours)
      && DigitField(r, 14, 16, p.minutes)
  {
    FourDigits(p.year);
    NatToStringValue(p.year);
    PadTwoValue(p.monthIndex + 1);
    PadTwoValue(p.day);
    PadTwoValue(p.hours);
    PadTwoValue(p.minutes);
    DateShape(NatToString(p.year), PadTwo(p.monthIndex + 1), PadTwo(p.day), PadTwo(p.hours), PadTwo(p.minutes));
  }

  /** Where each field lands in `y-mo-d h:mi` when the year has four characters and the others two. */
  lemma DateShape(y: string, mo: string, d: string, h: string, mi: string)
    requires |y| == 4 && |mo| == 2 && |d| == 2 && |h| == 2 && |mi| == 2
    ensures var r := y + "-" + mo + "-" + d + " " + h + ":" + mi;
      && |r| == 16
      && r[4] == '-' && r[7] == '-' && r[10] == ' ' && r[13] == ':'
      && r[0..4] == y && r[5..7] == mo && r[8..10] == d && r[11..13] == h && r[14..16] == mi
  {
    var p1 := y + "-";
    var p2 := p1 + mo + "-";
    var p3 := p2 + d + " ";
    var p4 := p3 + h + ":";
    var r := p4 + mi;
    assert r == y + "-" + mo + "-" + d + " " + h + ":" + mi;
    assert r[..14] == p4 && r[14..16] == mi;
    assert p4[..11] == p3 && p4[11..13] == h && p4[13] == ':';
    assert p3[..8] == p2 && p3[8..10] == d && p3[10] == ' ';
    assert p2[..5] == p1 && p2[5..7] == mo && p2[7] == '-';
    assert p1[..4] == y && p1[4] == '-';
  }

  /**
   * Signer name, personal id and signature date of one signature: the
   * name is "givenName surname" when both are present, else the common
   * name; the id is the serial number; the date is formatted only when a
   * signing time is present.
   */
  function SignerInfoOf(sig: RawSignature): (info: SignerInfo)
    ensures sig.signerInfo.None? ==> info.signerName == "" && info.personalId == ""
    ensures sig.signerInfo.Some? && sig.signerInfo.value.givenName != "" && sig.signerInfo.value.surname != "" ==>
      info.signerName == sig.signerInfo.value.givenName + " " + sig.signerInfo.value.surname
    ensures sig.signerInfo.Some? && (sig.signerInfo.value.givenName == "" || sig.signerInfo.value.surname == "") ==>
      info.signerName == sig.signerInfo.value.commonName
    ensures sig.signerInfo.Some? ==> info.personalId == sig.signerInfo.value.serialNumber
    ensures sig.signingTime == "" ==> info.signatureDate == ""
    ensures sig.signingTime != "" ==> info.signatureDate == FormatSignatureDate(sig.localTime)
  {
    var name :=
      match sig.signerInfo
      case None => ""
      case Some(s) =>
        if s.givenName != "" && s.surname != "" then s.givenName + " " + s.surname
        else if s.commonName != "" then s.commonName
        else "";
    var id := match sig.signerInfo case None => "" case Some(s) => s.serialNumber;
    var date := if sig.signingTime != "" then FormatSignatureDate(sig.localTime) else "";
    SignerInfo(name, id, date)
  }

  /**
   * The name is "givenName surname" when both are present and the common
   * name otherwise, so it is empty exactly when neither is available; the
   * full name starts with the given name and a space and ends with the
   * surname.
   */
  lemma SignerNameEmpty(sig: RawSignature, s: SubjectFields)
    requires sig.signerInfo == Some(s)
    ensures s.givenName != "" && s.surname != "" ==> SignerInfoOf(sig).signerName == s.givenName + " " + s.surname
    ensures s.givenName == "" || s.surname == "" ==> SignerInfoOf(sig).signerName == s.commonName
    ensures SignerInfoOf(sig).signerName == "" <==> (s.givenName == "" || s.surname == "") && s.commonName == ""
    ensures s.givenName != "" && s.surname != "" ==>
      StartsWith(SignerInfoOf(sig).signerName, s.givenName + " ")
      && EndsWith(SignerInfoOf(sig).signerName, s.surname)
  {
    var n := SignerInfoOf(sig).signerName;
    if s.givenName != "" && s.surname != "" {
      assert n == s.givenName + " " + s.surname;
      assert n[..|s.givenName + " "|] == s.givenName + " ";
      assert n[|n| - |s.surname|..] == s.surname;
    }
  }

  /**
   * The full name reads back: when neither subject field holds a space,
   * splitting the displayed name at spaces gives back the given name and
   * the surname.
   */
  lemma SignerNameSplits(sig: RawSignature, s: SubjectFields)
    requires sig.signerInfo == Some(s)
    requires s.givenName != "" && s.surname != "" && ' ' !in s.givenName && ' ' !in s.surname
    ensures Split(SignerInfoOf(sig).signerName, ' ') == [s.givenName, s.surname]
  {
    SplitFree(s.givenName, ' ');
    SplitAppendFree(s.givenName, ' ', s.surname);
    assert SignerInfoOf(sig).signerName == s.givenName + [' '] + s.surname;
  }

  /**
   * With a signing time whose local fields are in range, the signer's date
   * is the 16-character `yyyy-mm-dd HH:mm` text whose fields read back as
   * the year, the one-based month, the day, the hours and the minutes.
   */
  lemma SignerDateReadsBack(sig: RawSignature, p: DateParts)
    requires sig.signingTime != "" && sig.localTime == Some(p)
    requires 1000 <= p.year <= 9999 && p.monthIndex < 12 && p.day < 100 && p.hours < 24 && p.minutes < 60
    ensures var r := SignerInfoOf(sig).signatureDate;
      && |r| == 16
      && DigitField(r, 0, 4, p.year)
      && DigitField(r, 5, 7, p.monthIndex + 1)
      && DigitField(r, 8, 10, p.day)
      && DigitField(r, 11, 13, p.hours)
      && DigitField(r, 14, 16, p.minutes)
  {
    SignatureDateLayout(p);
  }

  // ----- Error text ----------------------------------------------------------

  const ErrorSeparator := "; "
  const NotAllSignedMessage := "Not all document files are signed"
  const CertificateRevokedMessage := "Certificate revoked"

  /**
   * The verifier's own error text, shared by both stages: the errors
   * joined with "; ", replaced by the status message when that is strictly
   * longer in UTF-16 code units (JavaScript's `length`); without errors, the status message of a non-VALID status.
   */
  function VerifierErrorText(result: VerifierResult): (e: Option<string>)
    ensures |result.errors| > 0 ==> e.Some?
    ensures |result.errors| == 0 ==> (e.Some? <==> Truthy(result.statusMessage) && result.status != VALID)
  {
    if |result.errors| > 0 then
      var allErrors := Join(result.errors, ErrorSeparator);
      if Truthy(result.statusMessage) && Utf16Length(result.statusMessage.value) > Utf16Length(allErrors) then result.statusMessage
      else Some(allErrors)
    else if Truthy(result.statusMessage) && result.status != VALID then result.statusMessage
    else None
  }

  /** The quick stage's error: the verifier's text, then the coverage notice when documents are unsigned. */
  function QuickErrorText(result: VerifierResult, allDocumentsSigned: bool): Option<string> {
    var e := VerifierErrorText(result);
    if !allDocumentsSigned then
      Some(if Truthy(e) then e.value + ErrorSeparator + NotAllSignedMessage else NotAllSignedMessage)
    else e
  }

  /** The full stage's error: the verifier's text, then the revoked-certificate notice, then the quick error. */
  function FullErrorText(result: VerifierResult, revoked: bool, quickError: Option<string>): Option<string> {
    var e := VerifierErrorText(result);
    var e' := if e.None? && revoked then Some(CertificateRevokedMessage) else e;
    if !Truthy(e') && Truthy(quickError) then quickError else e'
  }

  // ----- Quick stage ---------------------------------------------------------

  /** The quick stage's status for a library status and the document coverage. */
  function QuickStatus(result: VerifierResult, allDocumentsSigned: bool): VerificationStatus {
    match result.status
    case VALID => if allDocumentsSigned then Pending else Failed
    case INVALID => Failed
    case INDETERMINATE => Unknown
    case UNSUPPORTED => Unsupported
    case OtherStatus(_) => if result.isValid && allDocumentsSigned then Pending else Failed
  }

  /** One signature's quick result: the mapped status, or the failed result that absorbs a thrown error. */
  function QuickResultFor(container: Container, index: int, sig: RawSignature, outcome: Outcome<VerifierResult>)
    : (r: SignatureValidationResult)
    ensures r.signatureIndex == index
  {
    match outcome
    case Threw(message) =>
      SignatureValidationResult(
        SignerInfo("Unknown", "", ""), false, Some(message), false, [], container.documentFileList,
        false, None, None, Failed, None, None, index)
    case Returned(result) =>
      var signedFiles := sig.references.GetOr([]);
      var allSigned := CheckAllDocumentsSigned(container.documentFileList, signedFiles);
      SignatureValidationResult(
        SignerInfoOf(sig),
        result.status == VALID && allSigned,
        QuickErrorText(result, allSigned),
        allSigned,
        signedFiles,
        UnsignedFiles(container.documentFileList, signedFiles),
        result.isValid,
        None,
        None,
        QuickStatus(result, allSigned),
        result.statusMessage,
        result.limitations,
        index)
  }

  /**
   * `verifyEdocSignaturesQuick`: one result per signature, in order, each
   * tagged with its index; only a library that fails to load makes the
   * whole stage fail.
   */
  function VerifyQuick(container: Container, library: Outcome<EdockitApi>, verify: Verifier)
    : (r: Outcome<seq<SignatureValidationResult>>)
    ensures library.Threw? ==> r == Threw("Failed to verify signatures: " + library.message)
    ensures library.Returned? ==>
      && r.Returned?
      && |r.value| == |container.signatures|
      && (forall i :: 0 <= i < |r.value| ==> r.value[i].signatureIndex == i)
  {
    match library
    case Threw(message) => Threw("Failed to verify signatures: " + message)
    case Returned(_) =>
      var sigs := container.signatures;
      var results := seq(|sigs|, i requires 0 <= i < |sigs| =>
        QuickResultFor(container, i, sigs[i], verify(Some(sigs[i]), QuickOptions)));
      forall i | 0 <= i < |results|
        ensures results[i].signatureIndex == i
      {
        var r := QuickResultFor(container, i, sigs[i], verify(Some(sigs[i]), QuickOptions));
        assert results[i] == r;
      }
      Returned(results)
  }

  /** The quick stage asks the verifier for signature i, with the no-network options, to build result i. */
  lemma QuickResultAt(container: Container, library: Outcome<EdockitApi>, verify: Verifier, i: int)
    requires library.Returned? && 0 <= i < |container.signatures|
    ensures VerifyQuick(container, library, verify).value[i]
         == QuickResultFor(container, i, container.signatures[i], verify(Some(container.signatures[i]), QuickOptions))
  {
  }

  /**
   * A signature whose verification throws does not abort the batch: it
   * becomes a failed result with the thrown message, signer "Unknown", no
   * signed files and every document unsigned.
   */
  lemma QuickThrowAbsorbed(container: Container, index: int, sig: RawSignature, message: string)
    ensures var r := QuickResultFor(container, index, sig, Threw(message));
      && r.verificationStatus == Failed && !r.valid && r.error == Some(message)
      && r.signerInfo.signerName == "Unknown"
      && !r.allDocumentsSigned && r.signedFiles == [] && r.unsignedFiles == container.documentFileList
      && !r.originalVerificationValid && r.signatureIndex == index
  {
  }

  /**
   * How a returned verification is displayed: a VALID status is pending
   * with full coverage and failed without it; INVALID fails,
   * INDETERMINATE is unknown and UNSUPPORTED unsupported whatever the
   * coverage; any other code is pending only when `isValid` and covered.
   * `valid` holds exactly for VALID with full coverage, and then the
   * result is pending; the quick stage never reports `verified`.
   */
  lemma QuickStatusMapping(container: Container, index: int, sig: RawSignature, result: VerifierResult)
    ensures var r := QuickResultFor(container, index, sig, Returned(result));
      var covered := CheckAllDocumentsSigned(container.documentFileList, sig.references.GetOr([]));
      && r.allDocumentsSigned == covered
      && (result.status == VALID ==> (r.verificationStatus == Pending <==> covered))
      && (result.status == VALID ==> (r.verificationStatus == Failed <==> !covered))
      && (result.status == INVALID ==> r.verificationStatus == Failed)
      && (result.status == INDETERMINATE ==> r.verificationStatus == Unknown)
      && (result.status == UNSUPPORTED ==> r.verificationStatus == Unsupported)
      && (result.status.OtherStatus? ==> (r.verificationStatus == Pending <==> result.isValid && covered))
      && (result.status.OtherStatus? ==> (r.verificationStatus == Failed <==> !(result.isValid && covered)))
      && (r.valid <==> result.status == VALID && covered)
      && (r.valid ==> r.verificationStatus == Pending)
      && r.verificationStatus != Verified
      && r.originalVerificationValid == result.isValid
      && r.signerInfo == SignerInfoOf(sig)
      && r.error == QuickErrorText(result, covered)
      && r.signedFiles == sig.references.GetOr([])
      && r.unsignedFiles == UnsignedFiles(container.documentFileList, sig.references.GetOr([]))
      && r.statusMessage == result.statusMessage && r.limitations == result.limitations
      && r.revocation.None? && r.timestamp.None?
  {
  }

  /**
   * Incomplete coverage is always reported: the error ends with the notice
   * (after "; " when the verifier had text of its own). With full coverage
   * and a VALID status without errors there is no error at all.
   */
  lemma QuickCoverageMessage(result: VerifierResult, allDocumentsSigned: bool)
    ensures !allDocumentsSigned ==>
      var e := QuickErrorText(result, allDocumentsSigned);
      e.Some? && EndsWith(e.value, NotAllSignedMessage)
      && (Truthy(VerifierErrorText(result)) ==> StartsWith(e.value, VerifierErrorText(result).value + ErrorSeparator))
    ensures allDocumentsSigned && result.status == VALID && |result.errors| == 0 ==>
      QuickErrorText(result, allDocumentsSigned) == None
  {
    if !allDocumentsSigned {
      var e := QuickErrorText(result, allDocumentsSigned).value;
      var v := VerifierErrorText(result);
      if Truthy(v) {
        assert e == (v.value + ErrorSeparator) + NotAllSignedMessage;
        assert e[|e| - |NotAllSignedMessage|..] == NotAllSignedMessage;
        assert e[..|v.value + ErrorSeparator|] == v.value + ErrorSeparator;
      } else {
        assert e == NotAllSignedMessage;
        assert e[|e| - |NotAllSignedMessage|..] == e;
      }
    }
  }

  /**
   * The joined errors give way to the status message only when it is
   * strictly longer, so the text never gets shorter than the joined errors.
   * Lengths are JavaScript's, in UTF-16 code units.
   */
  lemma ErrorTextPrecedence(result: VerifierResult)
    requires |result.errors| > 0
    ensures var e := VerifierErrorText(result).value;
      var joined := Join(result.errors, ErrorSeparator);
      && Utf16Length(e) >= Utf16Length(joined)
      && (e == joined || (Some(e) == result.statusMessage && Utf16Length(e) > Utf16Length(joined)))
  {
  }

  /**
   * Lengths are compared in UTF-16 code units: three U+1F600 faces have
   * length 6 and so outweigh the single error "abcd", although they are
   * only three characters.
   */
  lemma AstralStatusMessageWins(result: VerifierResult)
    requires result.errors == ["abcd"] && result.statusMessage == Some("\U{1F600}\U{1F600}\U{1F600}")
    ensures VerifierErrorText(result) == result.statusMessage
    ensures |result.statusMessage.value| < |Join(result.errors, ErrorSeparator)|
  {
    var m := result.statusMessage.value;
    assert m[..2] == "\U{1F600}\U{1F600}" && m[..2][..1] == "\U{1F600}";
    assert Utf16Length(m) == 6;
    assert Join(result.errors, ErrorSeparator) == "abcd";
  }

  /**
   * The quick verdict `valid` needs a VALID status and full coverage; it
   * implies the library's own `isValid` only when the library keeps its
   * status and `isValid` consistent (VALID implies `isValid`).
   */
  lemma QuickValidInvariant(container: Container, index: int, sig: RawSignature, outcome: Outcome<VerifierResult>)
    requires outcome.Returned? ==> (outcome.value.status == VALID ==> outcome.value.isValid)
    ensures var r := QuickResultFor(container, index, sig, outcome);
      r.valid ==> r.allDocumentsSigned && r.originalVerificationValid && r.verificationStatus == Pending
  {
  }

  // ----- Full stage ----------------------------------------------------------

  /** The `container.signatures[signatureIndex]` lookup, `undefined` out of range. */
  function SignatureAt(container: Container, signatureIndex: int): Option<RawSignature> {
    if 0 <= signatureIndex < |container.signatures| then Some(container.signatures[signatureIndex]) else None
  }

  predicate RevocationValid(revocation: Option<RevocationInfo>) {
    revocation.Some? && revocation.value.isValid
  }

  predicate RevocationUnknownOrMissing(revocation: Option<RevocationInfo>) {
    revocation.None? || revocation.value.status == RevocationUnknown || revocation.value.status == RevocationError
  }

  /** Revoked needs both a negative `isValid` and the status "revoked". */
  predicate RevocationRevoked(revocation: Option<RevocationInfo>) {
    revocation.Some? && !revocation.value.isValid && revocation.value.status == Revoked
  }

  /** The full stage's status for a library status and the revocation outcome. */
  function FullStatus(result: VerifierResult): VerificationStatus {
    match result.status
    case VALID =>
      if RevocationRevoked(result.revocation) then Failed
      else if RevocationUnknownOrMissing(result.revocation) then Unknown
      else Verified
    case INVALID => Failed
    case INDETERMINATE => Unknown
    case UNSUPPORTED => Unsupported
    case OtherStatus(_) => if result.isValid && RevocationValid(result.revocation) then Verified else Failed
  }

  /** The `{...quickResult, ...}` overlay of a returned full verification. */
  function Reconcile(quick: SignatureValidationResult, result: VerifierResult): SignatureValidationResult {
    quick.(
      valid := result.status == VALID && RevocationValid(result.revocation) && quick.allDocumentsSigned,
      error := FullErrorText(result, RevocationRevoked(result.revocation), quick.error),
      revocation := result.revocation,
      timestamp := result.timestamp,
      verificationStatus := FullStatus(result),
      statusMessage := OrElse(result.statusMessage, quick.statusMessage),
      limitations := if result.limitations.Some? then result.limitations else quick.limitations)
  }

  /**
   * `verifyEdocSignatureFull`: a failed or unsupported quick result is
   * returned as it is; otherwise the library is asked again with the
   * revocation options, and a thrown error (loading or verifying)
   * degrades the quick result to failed instead of escaping.
   */
  function VerifyFull(container: Container, signatureIndex: int, quick: SignatureValidationResult,
                      library: Outcome<EdockitApi>, verify: Verifier): (r: SignatureValidationResult)
    ensures r.signerInfo == quick.signerInfo
    ensures r.allDocumentsSigned == quick.allDocumentsSigned
    ensures r.signedFiles == quick.signedFiles && r.unsignedFiles == quick.unsignedFiles
    ensures r.originalVerificationValid == quick.originalVerificationValid
    ensures r.signatureIndex == quick.signatureIndex
  {
    if quick.verificationStatus == Failed || quick.verificationStatus == Unsupported then quick
    else
      var outcome :=
        match library
        case Threw(message) => Threw(message)
        case Returned(_) => verify(SignatureAt(container, signatureIndex), FullOptions);
      match outcome
      case Threw(message) => quick.(verificationStatus := Failed, error := OrElse(quick.error, Some(message)))
      case Returned(result) => Reconcile(quick, result)
  }

  /** A quick result already failed or unsupported comes back unchanged, whatever the verifier would say. */
  lemma FullShortCircuit(container: Container, signatureIndex: int, quick: SignatureValidationResult,
                         library: Outcome<EdockitApi>, verify: Verifier, other: Verifier)
    requires quick.verificationStatus == Failed || quick.verificationStatus == Unsupported
    ensures VerifyFull(container, signatureIndex, quick, library, verify) == quick
    ensures VerifyFull(container, signatureIndex, quick, library, verify)
         == VerifyFull(container, signatureIndex, quick, library, other)
  {
  }

  /**
   * A thrown error, from loading the library or from the verifier, gives
   * the quick result marked failed, keeping the quick error when it has
   * one and taking the thrown message otherwise.
   */
  lemma FullThrowDegrades(container: Container, signatureIndex: int, quick: SignatureValidationResult,
                          library: Outcome<EdockitApi>, verify: Verifier, message: string)
    requires quick.verificationStatus != Failed && quick.verificationStatus != Unsupported
    requires library == Threw(message)
          || (library.Returned? && verify(SignatureAt(container, signatureIndex), FullOptions) == Threw(message))
    ensures var r := VerifyFull(container, signatureIndex, quick, library, verify);
      && r.verificationStatus == Failed
      && r.error == (if Truthy(quick.error) then quick.error else Some(message))
      && r == quick.(verificationStatus := Failed, error := r.error)
  {
  }

  /**
   * Reconciling a VALID crypto status with revocation: revoked (a negative
   * `isValid` with status "revoked") fails, missing/unknown/error revocation
   * is unknown, and anything else is verified. The final verdict `valid` is
   * VALID and a positive revocation `isValid` and full quick coverage.
   */
  lemma FullReconciliation(quick: SignatureValidationResult, result: VerifierResult)
    ensures var r := Reconcile(quick, result);
      && (result.status == VALID && RevocationRevoked(result.revocation) ==> r.verificationStatus == Failed)
      && ((result.status == VALID && !RevocationRevoked(result.revocation)
           && RevocationUnknownOrMissing(result.revocation)) ==> r.verificationStatus == Unknown)
      && ((result.status == VALID && !RevocationRevoked(result.revocation)
           && !RevocationUnknownOrMissing(result.revocation)) ==> r.verificationStatus == Verified)
      && (result.status == INVALID ==> r.verificationStatus == Failed)
      && (result.status == INDETERMINATE ==> r.verificationStatus == Unknown)
      && (result.status == UNSUPPORTED ==> r.verificationStatus == Unsupported)
      && (result.status.OtherStatus? ==>
            (r.verificationStatus == Verified <==> result.isValid && RevocationValid(result.revocation)))
      && (result.status.OtherStatus? ==>
            (r.verificationStatus == Failed <==> !(result.isValid && RevocationValid(result.revocation))))
      && (r.valid <==> result.status == VALID && RevocationValid(result.revocation) && quick.allDocumentsSigned)
      && r.revocation == result.revocation && r.timestamp == result.timestamp
      && r.verificationStatus != Pending
  {
  }

  /**
   * The full stage's error text: the verifier's own text when it has any;
   * without it, "Certificate revoked" for a revoked certificate; and when
   * neither gives a text, the quick result's error is kept. A message
   * from the verifier replaces the quick one, and limitations are kept
   * from the quick stage unless the verifier reports its own.
   */
  lemma FullErrorFallback(quick: SignatureValidationResult, result: VerifierResult)
    ensures var r := Reconcile(quick, result);
      var e := VerifierErrorText(result);
      && (Truthy(e) ==> r.error == e)
      && (e.None? && RevocationRevoked(result.revocation) ==> r.error == Some(CertificateRevokedMessage))
      && (!Truthy(e) && !(e.None? && RevocationRevoked(result.revocation)) && Truthy(quick.error) ==>
            r.error == quick.error)
      && (!Truthy(e) && !(e.None? && RevocationRevoked(result.revocation)) && !Truthy(quick.error) ==>
            !Truthy(r.error))
      && (Truthy(result.statusMessage) ==> r.statusMessage == result.statusMessage)
      && (!Truthy(result.statusMessage) ==> r.statusMessage == quick.statusMessage)
      && (result.limitations.Some? ==> r.limitations == result.limitations)
      && (result.limitations.None? ==> r.limitations == quick.limitations)
  {
  }

  /**
   * A VALID signature whose certificate is reported revoked fails with
   * "Certificate revoked" when the verifier gave no error of its own.
   */
  lemma FullRevokedMessage(quick: SignatureValidationResult, result: VerifierResult)
    requires result.status == VALID && RevocationRevoked(result.revocation) && |result.errors| == 0
    ensures var r := Reconcile(quick, result);
      r.verificationStatus == Failed && !r.valid && r.error == Some(CertificateRevokedMessage)
  {
  }

  /**
   * When the library keeps revocation `isValid` and status "good" in step,
   * a valid final verdict means verified, and verified with full coverage
   * means valid.
   */
  lemma FullValidMeansVerified(quick: SignatureValidationResult, result: VerifierResult)
    requires result.revocation.Some? ==> (result.revocation.value.isValid <==> result.revocation.value.status == Good)
    ensures var r := Reconcile(quick, result);
      && (r.valid ==> r.verificationStatus == Verified)
      && (result.status == VALID && r.verificationStatus == Verified && quick.allDocumentsSigned ==> r.valid)
  {
  }

  /** Running the full stage again on its own result, with the same inputs, changes nothing. */
  lemma FullIdempotent(container: Container, signatureIndex: int, quick: SignatureValidationResult,
                       library: Outcome<EdockitApi>, verify: Verifier)
    ensures var once := VerifyFull(container, signatureIndex, quick, library, verify);
      VerifyFull(container, signatureIndex, once, library, verify) == once
  {
    var once := VerifyFull(container, signatureIndex, quick, library, verify);
    if quick.verificationStatus != Failed && quick.verificationStatus != Unsupported
       && library.Returned? && verify(SignatureAt(container, signatureIndex), FullOptions).Returned?
    {
      var result := verify(SignatureAt(container, signatureIndex), FullOptions).value;
      if once.verificationStatus != Failed && once.verificationStatus != Unsupported {
        assert VerifyFull(container, signatureIndex, once, library, verify) == Reconcile(once, result);
        assert once == Reconcile(quick, result);
      }
    }
  }

  // ----- Edge cases kept as written --------------------------------------

  /** A revocation with `isValid` false but status "good" is shown verified, yet `valid` is false. */
  lemma EdgeGoodButInvalid(quick: SignatureValidationResult, result: VerifierResult)
    requires result.status == VALID && result.revocation == Some(RevocationInfo(false, Good, None))
    ensures Reconcile(quick, result).verificationStatus == Verified
    ensures !Reconcile(quick, result).valid
  {
  }

  /** A revocation with status "revoked" but `isValid` true is not treated as revoked. */
  lemma EdgeRevokedButValid(quick: SignatureValidationResult, result: VerifierResult)
    requires result.status == VALID && result.revocation == Some(RevocationInfo(true, Revoked, None))
    requires quick.allDocumentsSigned
    ensures Reconcile(quick, result).verificationStatus == Verified
    ensures Reconcile(quick, result).valid
  {
  }

  // ----- Scenarios -------------------------------------------------------

  /**
   * One signature, VALID, covering every document: the quick stage shows
   * it pending and valid, and a full stage with a good revocation shows it
   * verified and valid.
   */
  lemma ScenarioValidThenVerified(container: Container, library: Outcome<EdockitApi>, verify: Verifier,
                                  quickResult: VerifierResult, fullResult: VerifierResult)
    requires library.Returned? && |container.signatures| == 1
    requires container.signatures[0].references == Some(container.documentFileList)
    requires verify(Some(container.signatures[0]), QuickOptions) == Returned(quickResult)
    requires quickResult.status == VALID
    requires verify(Some(container.signatures[0]), FullOptions) == Returned(fullResult)
    requires fullResult.status == VALID && fullResult.revocation == Some(RevocationInfo(true, Good, Some(Ocsp)))
    ensures var q := VerifyQuick(container, library, verify).value[0];
      && q.valid && q.verificationStatus == Pending && q.allDocumentsSigned
      && var f := VerifyFull(container, 0, q, library, verify);
      f.valid && f.verificationStatus == Verified
  {
    QuickResultAt(container, library, verify, 0);
  }

  /** One signature, INVALID: the quick stage fails it and the full stage does not consult the verifier. */
  lemma ScenarioInvalidShortCircuits(container: Container, library: Outcome<EdockitApi>, verify: Verifier,
                                     other: Verifier, quickResult: VerifierResult)
    requires library.Returned? && |container.signatures| == 1
    requires verify(Some(container.signatures[0]), QuickOptions) == Returned(quickResult)
    requires quickResult.status == INVALID
    ensures var q := VerifyQuick(container, library, verify).value[0];
      && !q.valid && q.verificationStatus == Failed
      && VerifyFull(container, 0, q, library, other) == q
  {
    QuickResultAt(container, library, verify, 0);
  }
}
