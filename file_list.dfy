/**
 * The helpers of `EdocFileList` (src/components/EdocFileList.ts): a file's
 * extension, the name shown for a path, which files can be viewed, and
 * the list rendering.
 */
module FileList {
  import opened Text

  /**
   * `filename.split(".").pop()?.toLowerCase() || ""`. Lower-casing the
   * ASCII letters decides every comparison made with the result: no other
   * character lower-cases to a letter of "pdf", "docx", "jpg", "jpeg",
   * "png", "gif" or "svg".
   */
  function FileExtension(filename: string): (r: string)
    ensures |r| <= |filename|
    ensures r == Lower(AfterLast(filename, '.'))
  {
    LastOfSplit(filename, '.');
    Lower(Last(Split(filename, '.')))
  }

  /** A name without a dot is its own extension, lower-cased; a dot at the end gives none. */
  lemma ExtensionWithoutDot(filename: string)
    ensures '.' !in filename ==> FileExtension(filename) == Lower(filename)
    ensures |filename| > 0 && filename[|filename| - 1] == '.' ==> FileExtension(filename) == ""
  {
    if '.' !in filename {
      SplitFree(filename, '.');
    }
  }

  /** The extension is what follows the last dot. */
  lemma ExtensionAfterLastDot(stem: string, ext: string)
    requires '.' !in ext
    ensures FileExtension(stem + "." + ext) == Lower(ext)
  {
    SplitAppendFree(stem, '.', ext);
    assert stem + "." + ext == stem + ['.'] + ext;
  }

  /** `filename.split("/").pop() || filename`: the last path segment, or the whole name when that is empty. */
  function DisplayName(filename: string): (r: string)
    ensures AfterLast(filename, '/') != "" ==> r == AfterLast(filename, '/') && '/' !in r
    ensures AfterLast(filename, '/') == "" ==> r == filename
    ensures EndsWith(filename, r)
  {
    LastOfSplit(filename, '/');
    var last := Last(Split(filename, '/'));
    if last != "" then last else filename
  }

  /** `canViewFile`: only PDFs can be viewed. */
  predicate CanViewFile(extension: string) {
    extension == "pdf"
  }

  /** A PDF is viewable whatever the case of its extension. */
  lemma PdfViewableAnyCase(stem: string, ext: string)
    requires '.' !in ext && Lower(ext) == "pdf"
    ensures CanViewFile(FileExtension(stem + "." + ext))
  {
    ExtensionAfterLastDot(stem, ext);
  }

  datatype FileItem = FileItem(filename: string, displayName: string, canView: bool)

  datatype RenderedList = EmptyMessage(message: string) | Items(items: seq<FileItem>)

  function RenderFileItem(filename: string): FileItem {
    FileItem(filename, DisplayName(filename), CanViewFile(FileExtension(filename)))
  }

  /** `render`: the empty message for no files, else one item per file, in order. */
  function Render(files: seq<string>, emptyMessage: string): (r: RenderedList)
    ensures r.EmptyMessage? <==> files == []
    ensures r.EmptyMessage? ==> r.message == emptyMessage
    ensures r.Items? ==> |r.items| == |files|
    ensures r.Items? ==> forall i :: 0 <= i < |files| ==> r.items[i] == RenderFileItem(files[i])
  {
    if |files| == 0 then EmptyMessage(emptyMessage)
    else Items(seq(|files|, i requires 0 <= i < |files| => RenderFileItem(files[i])))
  }
}
