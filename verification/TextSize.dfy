/** The text-size setting: the mapping from a size to the CSS class the
    editor uses, the rule that picks the size when the provider starts,
    and the provider that stores a newly chosen size. Browser storage is
    modelled as a map from keys to strings. */
module TextSize {
  import opened Options

  /** The provider's default `defaultSize` and `storageKey`. */
  const DefaultSize := "md"
  const DefaultStorageKey := "ui-text-size"

  /** `getTextSizeClass`. The size is a string: a stored value is used
      without checking that it is one of the three sizes. */
  function TextSizeClass(size: string): string
  {
    if size == "sm" then "text-xs"
    else if size == "md" then "text-sm"
    else if size == "lg" then "text-base"
    else "text-sm"
  }

  /** The class is one of three; the small and large classes belong to
      exactly one size each, and every other string, recognised or not,
      gets the medium class. */
  lemma TextSizeClassSpec(size: string)
    ensures TextSizeClass(size) in {"text-xs", "text-sm", "text-base"}
    ensures TextSizeClass(size) == "text-xs" <==> size == "sm"
    ensures TextSizeClass(size) == "text-base" <==> size == "lg"
    ensures TextSizeClass(size) == "text-sm" <==> size != "sm" && size != "lg"
  {
  }

  /** The value the context holds outside any provider: size `md` and its
      class, which is `text-sm`. */
  lemma ContextDefault()
    ensures TextSizeClass(DefaultSize) == "text-sm"
  {
  }

  /** `localStorage.getItem(key)`: the stored string, or nothing. */
  function StoredValue(storage: map<string, string>, key: string): (r: Option<string>)
    ensures r.Some? <==> key in storage
    ensures r.Some? ==> r.value == storage[key]
  {
    if key in storage then Some(storage[key]) else None
  }

  /** `getItem(storageKey) || defaultSize`: a missing or empty stored value
      falls back to the default; any other stored string is taken as is. */
  function InitialSize(stored: Option<string>, defaultSize: string): string
  {
    match stored
    case Some(v) => if v != "" then v else defaultSize
    case None => defaultSize
  }

  /** A size that was stored is the size the next provider starts with;
      storing the empty string would make it start with the default. */
  lemma StoredSizeSurvivesReload(storage: map<string, string>, key: string, size: string, defaultSize: string)
    ensures InitialSize(StoredValue(storage[key := size], key), defaultSize)
      == if size != "" then size else defaultSize
  {
  }

  /** A provider mounted with the default props reads the key
      `ui-text-size`: an empty storage, or an empty stored value, gives
      `md` and class `text-sm`; a stored non-empty size is used as is. */
  lemma DefaultProviderStart(storage: map<string, string>)
    ensures DefaultStorageKey !in storage ==>
      InitialSize(StoredValue(storage, DefaultStorageKey), DefaultSize) == "md"
    ensures DefaultStorageKey in storage && storage[DefaultStorageKey] != "" ==>
      InitialSize(StoredValue(storage, DefaultStorageKey), DefaultSize) == storage[DefaultStorageKey]
    ensures DefaultStorageKey in storage && storage[DefaultStorageKey] == "" ==>
      && InitialSize(StoredValue(storage, DefaultStorageKey), DefaultSize) == "md"
      && TextSizeClass(InitialSize(StoredValue(storage, DefaultStorageKey), DefaultSize)) == "text-sm"
  {
  }

  /** Storing under another key does not change the size a provider
      starts with. */
  lemma OtherKeysIgnored(storage: map<string, string>, key: string, other: string, v: string, defaultSize: string)
    requires other != key
    ensures InitialSize(StoredValue(storage[other := v], key), defaultSize)
      == InitialSize(StoredValue(storage, key), defaultSize)
  {
  }

  /** `TextSizeProvider`: the current size, with the browser storage it
      reads at start and writes on every change. */
  class TextSizeProvider {
    var storage: map<string, string>
    const storageKey: string
    var textSize: string

    /** Mounting the provider: the size comes from storage, or from the
        default. Storage is not written. */
    constructor (storage: map<string, string>, defaultSize: string, storageKey: string)
      ensures this.storage == storage && this.storageKey == storageKey
      ensures textSize == InitialSize(StoredValue(storage, storageKey), defaultSize)
    {
      this.storage := storage;
      this.storageKey := storageKey;
      textSize := InitialSize(StoredValue(storage, storageKey), defaultSize);
    }

    /** The `textSizeClass` the context exposes: always the class of the
        current size. */
    function TextSizeClassOf(): string
      reads this
    {
      TextSizeClass(textSize)
    }

    /** `handleSetTextSize`: write the size to storage under the provider's
        key, then make it the current size. */
    method SetTextSize(size: string)
      modifies this
      ensures storage == old(storage)[storageKey := size]
      ensures textSize == size
      ensures TextSizeClassOf() == TextSizeClass(size)
    {
      storage := storage[storageKey := size];
      textSize := size;
    }
  }
}
