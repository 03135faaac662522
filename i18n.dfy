/**
 * The `I18nManager` of src/utils/i18n.ts: a language setting, the
 * language it resolves to, nested translation tables looked up by dotted
 * keys with `{{name}}` interpolation, and a list of change subscribers.
 *
 * The browser language and the storage contents are parameters; the
 * storage write is returned as a value.
 */
module I18n {
  import opened Wrappers
  import opened Text

  // ----- Languages ----------------------------------------------------------

  datatype SupportedLanguage = En | Lv | Auto

  /** The language translations are taken from: never `Auto`. */
  type EffectiveLanguage = l: SupportedLanguage | l != Auto witness En

  /** The code a language is stored and compared under. */
  function Code(l: SupportedLanguage): string {
    match l
    case En => "en"
    case Lv => "lv"
    case Auto => "auto"
  }

  /** The saved-value check: only the three codes are accepted. */
  function ParseLanguage(s: string): (r: Option<SupportedLanguage>)
    ensures r.Some? ==> Code(r.value) == s
  {
    if s == "en" then Some(En)
    else if s == "lv" then Some(Lv)
    else if s == "auto" then Some(Auto)
    else None
  }

  /** Every language survives being stored and read back. */
  lemma ParseCode(l: SupportedLanguage)
    ensures ParseLanguage(Code(l)) == Some(l)
  {
  }

  /**
   * `detectBrowserLanguage`: Latvian when the lower-cased browser language
   * starts with "lv", English otherwise. Lower-casing the ASCII letters
   * suffices: no other character lower-cases to `l` or `v`.
   */
  function DetectBrowserLanguage(browserLanguage: string): EffectiveLanguage {
    if StartsWith(Lower(browserLanguage), "lv") then Lv else En
  }

  /** Latvian is detected exactly for a browser language that begins with `l`/`L` then `v`/`V`. */
  lemma DetectLatvian(browserLanguage: string)
    ensures DetectBrowserLanguage(browserLanguage) == Lv <==>
      |browserLanguage| >= 2
      && (browserLanguage[0] == 'l' || browserLanguage[0] == 'L')
      && (browserLanguage[1] == 'v' || browserLanguage[1] == 'V')
  {
    var low := Lower(browserLanguage);
    if |browserLanguage| >= 2 {
      assert low[..2] == [low[0], low[1]];
    }
  }

  /** What `setLanguage` makes the effective language. */
  function Resolve(lang: SupportedLanguage, browserLanguage: string): (r: EffectiveLanguage)
    ensures lang != Auto ==> r == lang
    ensures lang == Auto ==> r == DetectBrowserLanguage(browserLanguage)
  {
    if lang == Auto then DetectBrowserLanguage(browserLanguage) else lang
  }

  // ----- Translation tables ------------------------------------------------

  /** A translation table: a text, or an object of named entries. */
  datatype Node = Leaf(text: string) | Branch(children: map<string, Node>)

  /** `value[k]`: an entry of an object; indexing a text yields `undefined` here. */
  function Child(n: Node, k: string): Option<Node> {
    match n
    case Leaf(_) => None
    case Branch(children) => if k in children then Some(children[k]) else None
  }

  /** The walk of the key segments from the table, stopping at the first missing entry. */
  function Lookup(n: Node, path: seq<string>): Option<Node>
    decreases |path|
  {
    if path == [] then Some(n)
    else
      match Child(n, path[0])
      case None => None
      case Some(c) => Lookup(c, path[1..])
  }

  /** Walking `p + q` is walking `p` and then walking `q` from where `p` led. */
  lemma {:induction false} LookupAppend(n: Node, p: seq<string>, q: seq<string>)
    ensures Lookup(n, p + q) == match Lookup(n, p) case None => None case Some(m) => Lookup(m, q)
    decreases |p|
  {
    if p == [] {
      assert p + q == q;
    } else {
      assert (p + q)[0] == p[0] && (p + q)[1..] == p[1..] + q;
      match Child(n, p[0])
      case None =>
      case Some(c) => LookupAppend(c, p[1..], q);
    }
  }

  /** `String(value)`: a text is itself, an object prints as `[object Object]`. */
  function Render(n: Node): string {
    match n
    case Leaf(t) => t
    case Branch(_) => "[object Object]"
  }

  type Param = (string, string)

  function Placeholder(name: string): (p: string)
    ensures |p| == |name| + 4
  {
    "{{" + name + "}}"
  }

  /** The parameters applied in iteration order, each replacing every occurrence of its placeholder. */
  function Interpolate(text: string, params: seq<Param>): string {
    if params == [] then text
    else
      var last := params[|params| - 1];
      ReplaceAll(Interpolate(text, params[..|params| - 1]), Placeholder(last.0), last.1)
  }

  /** `translate` against one table: the key itself when the walk fails, else the interpolated text. */
  function TranslateIn(table: Node, key: string, params: seq<Param>): string {
    match Lookup(table, Split(key, '.'))
    case None => key
    case Some(n) => Interpolate(Render(n), params)
  }

  /** A key that leads nowhere translates to itself, whatever the parameters. */
  lemma TranslateMissing(table: Node, key: string, params: seq<Param>)
    requires Lookup(table, Split(key, '.')).None?
    ensures TranslateIn(table, key, params) == key
  {
  }

  /** A text reached by the key is returned as it is when it has no placeholders. */
  lemma {:induction false} TranslateFound(table: Node, key: string, params: seq<Param>, text: string)
    requires Lookup(table, Split(key, '.')) == Some(Leaf(text))
    requires forall i :: 0 <= i < |params| ==> !Contains(text, Placeholder(params[i].0))
    ensures TranslateIn(table, key, params) == text
  {
    InterpolateAbsent(text, params);
  }

  /** Parameters whose placeholders do not occur change nothing. */
  lemma {:induction false} InterpolateAbsent(text: string, params: seq<Param>)
    requires forall i :: 0 <= i < |params| ==> !Contains(text, Placeholder(params[i].0))
    ensures Interpolate(text, params) == text
    decreases |params|
  {
    if params != [] {
      var init := params[..|params| - 1];
      assert forall i :: 0 <= i < |init| ==> init[i] == params[i];
      InterpolateAbsent(text, init);
      ReplaceAllAbsent(text, Placeholder(params[|params| - 1].0), params[|params| - 1].1);
    }
  }

  /**
   * One parameter whose placeholder occurs once: the text around it is
   * kept and the placeholder becomes the value.
   */
  lemma InterpolateOne(before: string, name: string, after: string, value: string)
    requires NoneBefore(before + Placeholder(name) + after, Placeholder(name), |before|)
    requires !Contains(after, Placeholder(name))
    ensures Interpolate(before + Placeholder(name) + after, [(name, value)]) == before + value + after
  {
    var params := [(name, value)];
    assert params[..0] == [];
    ReplaceAllFirst(before, Placeholder(name), after, value);
    ReplaceAllAbsent(after, Placeholder(name), value);
  }

  const EnTable: Node := Branch(map[
    "appName" := Leaf("eDoc Viewer"),
    "appDescription" := Leaf("View and verify EU standard ASiC-E and Latvian eDoc files"),
    "language" := Branch(map[
      "label" := Leaf("Language:"),
      "auto" := Leaf("Auto (Browser)"),
      "en" := Leaf("English"),
      "lv" := Leaf("Latvian")]),
    "dropzone" := Branch(map[
      "title" := Leaf("Drop your eDoc file here"),
      "description" := Leaf("or click to browse files"),
      "selectFile" := Leaf("Select File"),
      "suggestedFileLabel" := Leaf("Suggested file:")]),
    "buttons" := Branch(map[
      "back" := Leaf("Back"),
      "downloadOriginal" := Leaf("Download Original")]),
    "loading" := Leaf("Loading..."),
    "error" := Branch(map[
      "title" := Leaf("Error"),
      "fileNotFound" := Leaf("File not found"),
      "invalidFile" := Leaf("Invalid file format"),
      "processingError" := Leaf("Error processing file"),
      "downloadError" := Leaf("Error downloading file")]),
    "signatures" := Branch(map[
      "title" := Leaf("Signatures"),
      "valid" := Leaf("Valid"),
      "invalid" := Leaf("INVALID"),
      "signedBy" := Leaf("Signed by:"),
      "signatureStatus" := Leaf("Signature Status:"),
      "referencedFiles" := Leaf("Referenced files in signature"),
      "unsignedFiles" := Leaf("Unsigned files"),
      "noSignatures" := Leaf("No signatures found")]),
    "documents" := Branch(map[
      "title" := Leaf("Document Files"),
      "noDocuments" := Leaf("No document files found")]),
    "metadata" := Branch(map[
      "title" := Leaf("Metadata Files (Advanced)"),
      "noMetadata" := Leaf("No metadata files found")]),
    "file" := Branch(map[
      "view" := Leaf("View"),
      "download" := Leaf("Download")])])

  const LvTable: Node := Branch(map[
    "appName" := Leaf("eDoc Skatītājs"),
    "appDescription" := Leaf("Aplūko un pārbaudi ES standarta ASiC-E un Latvijas eDoc failus"),
    "language" := Branch(map[
      "label" := Leaf("Valoda:"),
      "auto" := Leaf("Automātiski (Pārlūks)"),
      "en" := Leaf("Angļu"),
      "lv" := Leaf("Latviešu")]),
    "dropzone" := Branch(map[
      "title" := Leaf("Ievelc eDoc failu šeit"),
      "description" := Leaf("vai noklikšķini, lai pārlūkotu failus"),
      "selectFile" := Leaf("Izvēlēties Failu"),
      "suggestedFileLabel" := Leaf("Ieteiktais fails:")]),
    "buttons" := Branch(map[
      "back" := Leaf("Atpakaļ"),
      "downloadOriginal" := Leaf("Lejupielādēt Oriģinālu")]),
    "loading" := Leaf("Ielāde..."),
    "error" := Branch(map[
      "title" := Leaf("Kļūda"),
      "fileNotFound" := Leaf("Fails nav atrasts"),
      "invalidFile" := Leaf("Nederīgs faila formāts"),
      "processingError" := Leaf("Kļūda apstrādājot failu"),
      "downloadError" := Leaf("Kļūda lejupielādējot failu")]),
    "signatures" := Branch(map[
      "title" := Leaf("Paraksti"),
      "valid" := Leaf("Derīgs"),
      "invalid" := Leaf("NEDERĪGS"),
      "signedBy" := Leaf("Parakstījis:"),
      "signatureStatus" := Leaf("Paraksta Statuss:"),
      "referencedFiles" := Leaf("Parakstā iekļautie faili"),
      "unsignedFiles" := Leaf("Neparakstītie faili"),
      "noSignatures" := Leaf("Nav atrasti paraksti")]),
    "documents" := Branch(map[
      "title" := Leaf("Dokumentu Faili"),
      "noDocuments" := Leaf("Nav atrasti dokumentu faili")]),
    "metadata" := Branch(map[
      "title" := Leaf("Metadatu Faili (Paplašināti)"),
      "noMetadata" := Leaf("Nav atrasti metadatu faili")]),
    "file" := Branch(map[
      "view" := Leaf("Skatīt"),
      "download" := Leaf("Lejupielādēt")])])

  function Table(l: EffectiveLanguage): Node {
    if l == Lv then LvTable else EnTable
  }

  // ----- The manager ---------------------------------------------------------

  /** A subscriber callback, identified by the function object it is. */
  type Callback = nat

  /** The `localStorage.setItem` the manager attempts; a throwing store is ignored. */
  datatype StorageWrite = StorageWrite(key: string, value: string)

  /** What `localStorage.getItem` does: return an item (or null), or throw. */
  datatype StorageRead = Item(item: Option<string>) | ReadThrows

  const StorageKey := "edoc-viewer-lang"

  /** `subscribers.filter(cb => cb !== callback)`. */
  function Without(subscribers: seq<Callback>, callback: Callback): seq<Callback> {
    if subscribers == [] then []
    else (if subscribers[0] == callback then [] else [subscribers[0]]) + Without(subscribers[1..], callback)
  }

  /** Removing a callback removes all of its occurrences and keeps every other one. */
  lemma {:induction false} WithoutMembers(subscribers: seq<Callback>, callback: Callback)
    ensures callback !in Without(subscribers, callback)
    ensures forall c :: c != callback ==> (c in Without(subscribers, callback) <==> c in subscribers)
    ensures |Without(subscribers, callback)| <= |subscribers|
  {
    if subscribers != [] {
      WithoutMembers(subscribers[1..], callback);
      assert subscribers == [subscribers[0]] + subscribers[1..];
    }
  }

  /** Removing an absent callback changes nothing. */
  lemma {:induction false} WithoutAbsent(subscribers: seq<Callback>, callback: Callback)
    requires callback !in subscribers
    ensures Without(subscribers, callback) == subscribers
  {
    if subscribers != [] {
      assert subscribers[1..] == subscribers[1..];
      WithoutAbsent(subscribers[1..], callback);
      assert [subscribers[0]] + subscribers[1..] == subscribers;
    }
  }

  /** The order of the kept callbacks: removal distributes over concatenation. */
  lemma {:induction false} WithoutAppend(a: seq<Callback>, b: seq<Callback>, callback: Callback)
    ensures Without(a + b, callback) == Without(a, callback) + Without(b, callback)
  {
    if a == [] {
      assert a + b == b;
    } else {
      assert (a + b)[0] == a[0] && (a + b)[1..] == a[1..] + b;
      WithoutAppend(a[1..], b, callback);
    }
  }

  /** Subscribing a new callback and calling its unsubscribe gives back the list as it was. */
  lemma SubscribeThenUnsubscribe(subscribers: seq<Callback>, callback: Callback)
    requires callback !in subscribers
    ensures Without(subscribers + [callback], callback) == subscribers
  {
    WithoutAppend(subscribers, [callback], callback);
    WithoutAbsent(subscribers, callback);
    assert Without([callback], callback) == [] by {
      assert [callback][1..] == [];
    }
  }

  /** Removing twice is removing once. */
  lemma WithoutIdempotent(subscribers: seq<Callback>, callback: Callback)
    ensures Without(Without(subscribers, callback), callback) == Without(subscribers, callback)
  {
    WithoutMembers(subscribers, callback);
    WithoutAbsent(Without(subscribers, callback), callback);
  }

  class I18nManager {
    var currentLanguage: SupportedLanguage
    var effectiveLanguage: EffectiveLanguage
    var subscribers: seq<Callback>

    /** A fresh manager follows the browser: setting `auto`, language detected. */
    constructor (browserLanguage: string)
      ensures currentLanguage == Auto
      ensures effectiveLanguage == DetectBrowserLanguage(browserLanguage)
      ensures subscribers == []
    {
      currentLanguage := Auto;
      effectiveLanguage := DetectBrowserLanguage(browserLanguage);
      subscribers := [];
    }

    function GetLanguage(): SupportedLanguage
      reads this
    {
      currentLanguage
    }

    function GetEffectiveLanguage(): EffectiveLanguage
      reads this
    {
      effectiveLanguage
    }

    /**
     * `translate`: walk the key's segments through the effective
     * language's table, giving up with the key at the first missing
     * entry, then apply the parameters one after the other.
     */
    method Translate(key: string, params: seq<Param>) returns (r: string)
      ensures r == TranslateIn(Table(effectiveLanguage), key, params)
    {
      var table := Table(effectiveLanguage);
      var keys := Split(key, '.');
      var value := Some(table);
      var i := 0;
      while i < |keys|
        invariant 0 <= i <= |keys|
        invariant value == Lookup(table, keys[..i])
      {
        if value.None? {
          LookupAppend(table, keys[..i], keys[i..]);
          assert keys[..i] + keys[i..] == keys;
          return key;
        }
        LookupAppend(table, keys[..i], [keys[i]]);
        assert keys[..i + 1] == keys[..i] + [keys[i]];
        assert Lookup(value.value, [keys[i]]) == Child(value.value, keys[i]);
        value := Child(value.value, keys[i]);
        i := i + 1;
      }
      assert keys[..i] == keys;
      if value.None? {
        return key;
      }
      var text := Render(value.value);
      r := text;
      var j := 0;
      while j < |params|
        invariant 0 <= j <= |params|
        invariant r == Interpolate(text, params[..j])
      {
        assert params[..j + 1][..j] == params[..j];
        r := ReplaceAll(r, Placeholder(params[j].0), params[j].1);
        j := j + 1;
      }
      assert params[..j] == params;
    }

    /** `notifySubscribers`: every subscriber is called once, in subscription order. */
    method NotifySubscribers() returns (calls: seq<Callback>)
      ensures calls == subscribers
    {
      calls := [];
      var i := 0;
      while i < |subscribers|
        invariant 0 <= i <= |subscribers|
        invariant calls == subscribers[..i]
      {
        calls := calls + [subscribers[i]];
        i := i + 1;
      }
    }

    /**
     * `setLanguage`: record the setting, resolve it, notify every
     * subscriber, and try to store the setting's code.
     */
    method SetLanguage(lang: SupportedLanguage, browserLanguage: string)
      returns (calls: seq<Callback>, saved: StorageWrite)
      modifies this
      ensures currentLanguage == lang
      ensures effectiveLanguage == Resolve(lang, browserLanguage)
      ensures subscribers == old(subscribers)
      ensures calls == old(subscribers)
      ensures saved == StorageWrite(StorageKey, Code(lang))
    {
      currentLanguage := lang;
      if lang == Auto {
        effectiveLanguage := DetectBrowserLanguage(browserLanguage);
      } else {
        effectiveLanguage := lang;
      }
      calls := NotifySubscribers();
      saved := StorageWrite(StorageKey, Code(lang));
    }

    /**
     * `loadSavedLanguage`: a stored "en", "lv" or "auto" is applied with
     * `setLanguage`; anything else, or a storage that throws, changes
     * nothing and notifies nobody.
     */
    method LoadSavedLanguage(read: StorageRead, browserLanguage: string)
      returns (calls: seq<Callback>, saved: Option<StorageWrite>)
      modifies this
      ensures read.Item? && read.item.Some? && ParseLanguage(read.item.value).Some? ==>
        var lang := ParseLanguage(read.item.value).value;
        && currentLanguage == lang && effectiveLanguage == Resolve(lang, browserLanguage)
        && calls == old(subscribers) && saved == Some(StorageWrite(StorageKey, read.item.value))
      ensures !(read.Item? && read.item.Some? && ParseLanguage(read.item.value).Some?) ==>
        && currentLanguage == old(currentLanguage) && effectiveLanguage == old(effectiveLanguage)
        && calls == [] && saved == None
      ensures subscribers == old(subscribers)
    {
      calls, saved := [], None;
      if read.Item? && read.item.Some? {
        var lang := ParseLanguage(read.item.value);
        if lang.Some? {
          var write;
          calls, write := SetLanguage(lang.value, browserLanguage);
          saved := Some(write);
        }
      }
    }

    /** `subscribe`: the callback goes to the end of the list. */
    method Subscribe(callback: Callback)
      modifies this
      ensures subscribers == old(subscribers) + [callback]
      ensures currentLanguage == old(currentLanguage) && effectiveLanguage == old(effectiveLanguage)
    {
      subscribers := subscribers + [callback];
    }

    /** The function `subscribe` returns: drop every occurrence of the callback. */
    method Unsubscribe(callback: Callback)
      modifies this
      ensures subscribers == Without(old(subscribers), callback)
      ensures currentLanguage == old(currentLanguage) && effectiveLanguage == old(effectiveLanguage)
    {
      subscribers := Without(subscribers, callback);
    }
  }

  /** Examples: a nested entry in each table, a walk that stops at a text, and a missing top-level key. */
  lemma LookupExamples()
    ensures Lookup(EnTable, ["error", "title"]) == Some(Leaf("Error"))
    ensures Lookup(LvTable, ["error", "title"]) == Some(Leaf("Kļūda"))
    ensures Lookup(EnTable, ["loading", "title"]) == None
    ensures Lookup(LvTable, ["nosuch"]) == None
  {
    var p := ["error", "title"];
    assert p[1..] == ["title"];
    var q := ["loading", "title"];
    assert q[1..] == ["title"];
  }

  /** Splitting a two-segment key. */
  lemma SplitTwo(a: string, b: string)
    requires '.' !in a && '.' !in b
    ensures Split(a + "." + b, '.') == [a, b]
  {
    SplitFree(a, '.');
    SplitAppendFree(a, '.', b);
  }

  /** Example: a dotted key translates through both levels; an over-long key falls back to itself. */
  lemma TranslateExamples()
    ensures TranslateIn(EnTable, "error.title", []) == "Error"
    ensures TranslateIn(LvTable, "error.title", []) == "Kļūda"
    ensures TranslateIn(EnTable, "loading.title", [("x", "y")]) == "loading.title"
  {
    SplitTwo("error", "title");
    assert "error" + "." + "title" == "error.title";
    SplitTwo("loading", "title");
    assert "loading" + "." + "title" == "loading.title";
    LookupExamples();
  }
}
