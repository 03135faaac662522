/**
 * `EdocFilePreview` (src/components/EdocFilePreview.ts): the preview
 * dialog's state, the choice of view by file extension, and the rule for
 * the "Open in New Tab" button.
 *
 * Object URLs are handed in by the caller (`URL.createObjectURL`) and
 * handed back when revoked; the DOCX renderer's outcome is an input.
 */
module FilePreview {
  import opened Wrappers
  import opened Text
  import opened FileList

  /** The alternatives of `/Android|webOS|iPhone|iPad|iPod|BlackBerry|IEMobile|Opera Mini/i`, lower-cased. */
  const MobileTokens: seq<string> := ["android", "webos", "iphone", "ipad", "ipod", "blackberry", "iemobile", "opera mini"]

  /**
   * The user-agent test: some token occurs anywhere, ignoring case. With
   * the `i` flag no character outside ASCII matches a token letter, so
   * lower-casing the ASCII letters is exact here.
   */
  predicate IsMobileAgent(userAgent: string) {
    exists i :: 0 <= i < |MobileTokens| && Contains(Lower(userAgent), MobileTokens[i])
  }

  /** Example: an iPhone user agent is mobile wherever the token appears. */
  lemma IPhoneIsMobile(before: string, after: string)
    ensures IsMobileAgent(before + "iPhone" + after)
  {
    var ua := before + "iPhone" + after;
    var low := Lower(ua);
    var p := |before|;
    forall k | 0 <= k < 6
      ensures low[p..][..6][k] == "iphone"[k]
    {
      assert ua[p + k] == "iPhone"[k];
    }
    assert low[p..][..6] == "iphone";
    assert StartsWith(low[p..], MobileTokens[2]);
  }

  const ImageExtensions: seq<string> := ["jpg", "jpeg", "png", "gif", "svg"]

  /** What the dialog body shows. */
  datatype View =
    | NoData
    | ImageView(url: string)
    | PdfView(url: string)
    | PdfMobileView(url: string)
    | DocxView(loading: bool)
    | UnsupportedView

  /**
   * The dispatch of `renderContent`: missing data first, then images,
   * PDFs (a message with an "Open PDF" button on mobile), DOCX, and
   * everything else unsupported.
   */
  function ViewFor(hasData: bool, extension: string, isMobile: bool, url: string, loading: bool): View {
    if !hasData then NoData
    else if extension in ImageExtensions then ImageView(url)
    else if extension == "pdf" then (if isMobile then PdfMobileView(url) else PdfView(url))
    else if extension == "docx" then DocxView(loading)
    else UnsupportedView
  }

  /** The view is decided by data presence first and by the extension's group second, each way round. */
  lemma ViewForGroups(hasData: bool, extension: string, isMobile: bool, url: string, loading: bool)
    ensures var v := ViewFor(hasData, extension, isMobile, url, loading);
      && (v.NoData? <==> !hasData)
      && (v.ImageView? <==> hasData && extension in ImageExtensions)
      && ((v.PdfView? || v.PdfMobileView?) <==> hasData && extension == "pdf")
      && (v.PdfMobileView? <==> hasData && extension == "pdf" && isMobile)
      && (v.DocxView? <==> hasData && extension == "docx")
      && (v.UnsupportedView? <==> hasData && extension !in ImageExtensions && extension != "pdf" && extension != "docx")
  {
  }

  /** The files `renderContent` creates an object URL for: images and PDFs. */
  predicate MakesObjectUrl(extension: string) {
    extension in ImageExtensions || extension == "pdf"
  }

  /** An object URL is created exactly for the views that display one. */
  lemma ObjectUrlViews(extension: string, isMobile: bool, url: string, loading: bool)
    ensures MakesObjectUrl(extension) <==>
      var v := ViewFor(true, extension, isMobile, url, loading);
      v.ImageView? || v.PdfView? || v.PdfMobileView?
    ensures MakesObjectUrl(extension) ==> ViewFor(true, extension, isMobile, url, loading).url == url
  {
  }

  /** The `showOpenInNewTab` rule. */
  predicate OpenInNewTab(isMobile: bool, extension: string) {
    !isMobile && extension != "pdf" && extension != "docx"
  }

  /**
   * "Open in New Tab" is offered on desktop exactly for the files whose
   * view is neither the PDF frame nor the DOCX renderer.
   */
  lemma OpenInNewTabViews(isMobile: bool, extension: string, url: string, loading: bool)
    ensures OpenInNewTab(isMobile, extension) <==>
      !isMobile && !(ViewFor(true, extension, isMobile, url, loading).PdfView?
                     || ViewFor(true, extension, isMobile, url, loading).DocxView?)
  {
  }

  class FilePreviewDialog {
    var fileData: Option<seq<bv8>>
    var fileName: string
    var isOpen: bool
    var objectUrl: string
    var isLoading: bool
    const isMobile: bool

    /** A closed dialog with no file; mobile detection from the user agent. */
    constructor (userAgent: string)
      ensures isMobile == IsMobileAgent(userAgent)
      ensures fileData == None && fileName == "" && !isOpen && objectUrl == "" && !isLoading
    {
      isMobile := IsMobileAgent(userAgent);
      fileData := None;
      fileName := "";
      isOpen := false;
      objectUrl := "";
      isLoading := false;
    }

    /** `render`'s `showOpenInNewTab`. */
    predicate ShowOpenInNewTab()
      reads this
    {
      OpenInNewTab(isMobile, FileExtension(fileName))
    }

    /** `show`: open; a DOCX file also starts loading and schedules its rendering. */
    method Show() returns (docxRenderScheduled: bool)
      modifies this
      ensures isOpen
      ensures docxRenderScheduled <==> FileExtension(fileName) == "docx"
      ensures isLoading == (docxRenderScheduled || old(isLoading))
      ensures fileData == old(fileData) && fileName == old(fileName) && objectUrl == old(objectUrl)
    {
      isOpen := true;
      docxRenderScheduled := FileExtension(fileName) == "docx";
      if docxRenderScheduled {
        isLoading := true;
      }
    }

    /** `cleanupUrl`: revoke and forget the object URL, if there is one. */
    method CleanupUrl() returns (revoked: Option<string>)
      modifies this
      ensures objectUrl == ""
      ensures old(objectUrl) != "" ==> revoked == Some(old(objectUrl))
      ensures old(objectUrl) == "" ==> revoked == None
      ensures isOpen == old(isOpen) && isLoading == old(isLoading)
      ensures fileData == old(fileData) && fileName == old(fileName)
    {
      revoked := None;
      if objectUrl != "" {
        revoked := Some(objectUrl);
        objectUrl := "";
      }
    }

    /** `hide`: close and clean up. */
    method Hide() returns (revoked: Option<string>)
      modifies this
      ensures !isOpen && objectUrl == ""
      ensures old(objectUrl) != "" ==> revoked == Some(old(objectUrl))
      ensures old(objectUrl) == "" ==> revoked == None
      ensures isLoading == old(isLoading) && fileData == old(fileData) && fileName == old(fileName)
    {
      isOpen := false;
      revoked := CleanupUrl();
    }

    /** `handleAfterHide`: the dialog closed itself; the same end state as `hide`. */
    method HandleAfterHide() returns (revoked: Option<string>)
      modifies this
      ensures !isOpen && objectUrl == ""
      ensures old(objectUrl) != "" ==> revoked == Some(old(objectUrl))
      ensures old(objectUrl) == "" ==> revoked == None
      ensures isLoading == old(isLoading) && fileData == old(fileData) && fileName == old(fileName)
    {
      isOpen := false;
      revoked := CleanupUrl();
    }

    /** Cleaning up twice revokes at most once: the second call finds nothing. */
    method CleanupTwice() returns (first: Option<string>, second: Option<string>)
      modifies this
      ensures second == None && objectUrl == ""
      ensures first == (if old(objectUrl) != "" then Some(old(objectUrl)) else None)
      ensures isOpen == old(isOpen) && isLoading == old(isLoading)
      ensures fileData == old(fileData) && fileName == old(fileName)
    {
      first := CleanupUrl();
      second := CleanupUrl();
    }

    /**
     * `renderDocxContent`: without data it returns at once; otherwise it
     * loads, shows an error message in the container when the container
     * exists and rendering fails, and in every case ends not loading.
     */
    method RenderDocxContent(containerFound: bool, renderOutcome: Outcome<()>) returns (showedError: bool)
      modifies this
      ensures old(fileData).None? ==> isLoading == old(isLoading)
      ensures old(fileData).Some? ==> !isLoading
      ensures showedError <==> old(fileData).Some? && containerFound && renderOutcome.Threw?
      ensures fileData == old(fileData) && fileName == old(fileName)
      ensures isOpen == old(isOpen) && objectUrl == old(objectUrl)
    {
      showedError := false;
      if fileData.None? {
        return;
      }
      isLoading := true;
      if containerFound && renderOutcome.Threw? {
        showedError := true;
      }
      isLoading := false;
    }

    /**
     * `renderContent`: the view for the current file; images and PDFs
     * get a fresh object URL first (`newUrl`), which replaces the one held.
     */
    method RenderContent(newUrl: string) returns (view: View)
      modifies this
      ensures view == ViewFor(fileData.Some?, FileExtension(fileName), isMobile, newUrl, isLoading)
      ensures objectUrl == if fileData.Some? && MakesObjectUrl(FileExtension(fileName)) then newUrl else old(objectUrl)
      ensures fileData == old(fileData) && fileName == old(fileName)
      ensures isOpen == old(isOpen) && isLoading == old(isLoading)
    {
      if fileData.None? {
        return NoData;
      }
      var extension := FileExtension(fileName);
      if MakesObjectUrl(extension) {
        objectUrl := newUrl;
      }
      view := ViewFor(true, extension, isMobile, newUrl, isLoading);
    }
  }
}
