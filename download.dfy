/**
 * `deriveFilename` of src/utils/download.ts: the name a downloaded
 * container is saved under.
 */
module Download {
  import opened Wrappers
  import opened Text

  const DefaultFilename := "document.edoc"

  /**
   * A non-empty suggested name wins; otherwise the last `/`-separated
   * segment of a non-empty URL, when that segment is not empty; otherwise
   * the default name, which is "document.edoc" when the caller leaves it
   * out (`None`).
   */
  function DeriveFilename(originalUrl: Option<string>, suggestedFilename: Option<string>, defaultName: Option<string>)
    : (r: string)
    ensures Truthy(suggestedFilename) ==> r == suggestedFilename.value
    ensures !Truthy(suggestedFilename) && Truthy(originalUrl) && AfterLast(originalUrl.value, '/') != "" ==>
      r == AfterLast(originalUrl.value, '/')
    ensures !Truthy(suggestedFilename) && !(Truthy(originalUrl) && AfterLast(originalUrl.value, '/') != "") ==>
      r == defaultName.GetOr(DefaultFilename)
  {
    if Truthy(suggestedFilename) then suggestedFilename.value
    else if Truthy(originalUrl) then
      LastOfSplit(originalUrl.value, '/');
      var urlFilename := Last(Split(originalUrl.value, '/'));
      if urlFilename != "" then urlFilename else defaultName.GetOr(DefaultFilename)
    else defaultName.GetOr(DefaultFilename)
  }

  /** A name taken from the URL is its final path segment: it holds no `/` and ends the URL after a `/` or at its start. */
  lemma UrlNameIsFinalSegment(url: string, defaultName: Option<string>)
    requires url != "" && AfterLast(url, '/') != ""
    ensures var r := DeriveFilename(Some(url), None, defaultName);
      && '/' !in r && EndsWith(url, r)
      && (|r| == |url| || url[|url| - |r| - 1] == '/')
  {
  }

  /** A URL ending in `/` has an empty last segment, so the default name is used. */
  lemma TrailingSlashFallsBack(url: string, suggestedFilename: Option<string>, defaultName: Option<string>)
    requires |url| > 0 && url[|url| - 1] == '/' && !Truthy(suggestedFilename)
    ensures DeriveFilename(Some(url), suggestedFilename, defaultName) == defaultName.GetOr(DefaultFilename)
  {
    assert AfterLast(url, '/') == "";
  }

  /** With a non-empty default the derived name is never empty. */
  lemma NeverEmpty(originalUrl: Option<string>, suggestedFilename: Option<string>, defaultName: Option<string>)
    requires defaultName.GetOr(DefaultFilename) != ""
    ensures DeriveFilename(originalUrl, suggestedFilename, defaultName) != ""
  {
  }
}
