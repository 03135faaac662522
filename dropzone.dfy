/**
 * `FileDropzone` of src/components/FileDropzone.ts: option defaulting,
 * the file-type check, and what happens to the first chosen file.
 *
 * The element wiring, drag highlighting and translated labels are DOM
 * work; the `alert` and the `onFileSelected` callback are returned as a
 * value.
 */
module Dropzone {
  import opened Wrappers
  import opened Text

  /**
   * An optional property of the caller's options object: left out, given
   * explicitly as `undefined`, or given. The spread in the constructor
   * tells the first two apart.
   */
  datatype OptionalField<T> = Omitted | ExplicitUndefined | Given(value: T)

  datatype DropzoneOptions = DropzoneOptions(acceptedFileTypes: OptionalField<seq<string>>)

  datatype File = File(name: string)

  /** What handling the chosen files does: pass one file to `onFileSelected`, or alert. */
  datatype Handling = Selected(file: File) | Alerted(message: string)

  const DefaultFileTypes: seq<string> := [".edoc", ".asice"]

  /** `{ acceptedFileTypes: [".edoc", ".asice"], ...options }` for the one property that has a default. */
  function MergeFileTypes(given: OptionalField<seq<string>>): (r: Option<seq<string>>)
    ensures given.Omitted? ==> r == Some(DefaultFileTypes)
    ensures given.ExplicitUndefined? ==> r == None
    ensures given.Given? ==> r == Some(given.value)
  {
    match given
    case Omitted => Some(DefaultFileTypes)
    case ExplicitUndefined => None
    case Given(types) => Some(types)
  }

  /** `types.some(type => lowerName.endsWith(type))`, scanning from the front. */
  function SomeSuffix(types: seq<string>, lowerName: string): (r: bool)
    ensures r <==> exists i :: 0 <= i < |types| && EndsWith(lowerName, types[i])
  {
    if types == [] then false
    else EndsWith(lowerName, types[0]) || SomeSuffix(types[1..], lowerName)
  }

  /**
   * `validateFileType`: no list or an empty one accepts everything;
   * otherwise the lower-cased file name must end with one of the types,
   * which are compared as they are.
   */
  function ValidateFileType(acceptedFileTypes: Option<seq<string>>, file: File): bool {
    acceptedFileTypes.None? || |acceptedFileTypes.value| == 0 || SomeSuffix(acceptedFileTypes.value, Lower(file.name))
  }

  /** The default types accept `.edoc` files whatever the case of the name. */
  lemma EdocNameAnyCase(stem: string)
    ensures ValidateFileType(Some(DefaultFileTypes), File(stem + ".EDOC"))
  {
    LowerWord(".EDOC", ".edoc");
    LowerSuffix(stem, ".EDOC", ".edoc");
    assert EndsWith(Lower(stem + ".EDOC"), DefaultFileTypes[0]);
  }

  /** The default types accept `.asice` files whatever the case of the name. */
  lemma AsiceNameAnyCase(stem: string)
    ensures ValidateFileType(Some(DefaultFileTypes), File(stem + ".AsiCE"))
  {
    LowerWord(".AsiCE", ".asice");
    LowerSuffix(stem, ".AsiCE", ".asice");
    assert EndsWith(Lower(stem + ".AsiCE"), DefaultFileTypes[1]);
  }

  /** A type with an upper-case ASCII letter never matches, since only the name is lower-cased. */
  lemma UpperCaseTypeNeverMatches(t: string, name: string)
    requires exists j :: 0 <= j < |t| && 'A' <= t[j] <= 'Z'
    ensures !ValidateFileType(Some([t]), File(name))
  {
    var j :| 0 <= j < |t| && 'A' <= t[j] <= 'Z';
    var low := Lower(name);
    assert !EndsWith(low, t) by {
      if |t| <= |low| {
        var k := |low| - |t| + j;
        assert low[|low| - |t|..][j] == low[k];
        assert !('A' <= low[k] <= 'Z');
      }
    }
    assert [t][0] == t;
  }

  /** Lower-casing character by character gives `lowered`. */
  lemma LowerWord(word: string, lowered: string)
    requires |word| == |lowered|
    requires forall i :: 0 <= i < |word| ==> LowerChar(word[i]) == lowered[i]
    ensures Lower(word) == lowered
  {
  }

  /** A name ending in `suffix` lower-cases to one ending in the lower-cased suffix. */
  lemma LowerSuffix(stem: string, suffix: string, lowered: string)
    requires Lower(suffix) == lowered
    ensures EndsWith(Lower(stem + suffix), lowered)
  {
    var low := Lower(stem + suffix);
    assert low[|stem|..] == lowered;
  }

  class FileDropzone {
    const acceptedFileTypes: Option<seq<string>>

    /** The constructor keeps the caller's file types when given (even `undefined`), else the defaults. */
    constructor (options: DropzoneOptions)
      ensures acceptedFileTypes == MergeFileTypes(options.acceptedFileTypes)
    {
      acceptedFileTypes := MergeFileTypes(options.acceptedFileTypes);
    }

    /**
     * `handleFiles`: only the first file counts. A valid one goes to
     * `onFileSelected`; an invalid one is refused with an alert listing
     * the accepted types. The listeners call it with at least one file.
     */
    method HandleFiles(files: seq<File>) returns (r: Handling)
      requires |files| > 0
      ensures r.Selected? <==> ValidateFileType(acceptedFileTypes, files[0])
      ensures r.Selected? ==> r.file == files[0]
      ensures r.Alerted? ==> (
        && acceptedFileTypes.Some?
        && r.message == "Please select a valid file type (" + Join(acceptedFileTypes.value, ", ") + ")")
    {
      var file := files[0];
      if !ValidateFileType(acceptedFileTypes, file) {
        return Alerted("Please select a valid file type (" + Join(acceptedFileTypes.value, ", ") + ")");
      }
      r := Selected(file);
    }
  }
}
