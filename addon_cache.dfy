/** The addon-name cache that the name scripts read and write: a JSON
    object from Workshop id to an entry, kept in insertion order. */
module AddonCache {
  import opened Common

  /** The cache file, in the user's home directory. */
  const CACHE_FILE_NAME: string := ".l4d2_addon_names_cache.json"

  /** One addon's entry: the fields the scripts read or write, and every
      other field as it was stored. */
  datatype Entry = Entry(
    name: Option<string>,
    status: Option<string>,
    originalName: Option<string>,
    timestamp: Option<int>,
    extra: map<string, string>)

  /** The ids in the order the JSON object lists them, with their entries. */
  datatype Cache = Cache(ids: seq<string>, entries: map<string, Entry>)

  /** Every listed id has an entry. */
  predicate Listed(c: Cache) {
    forall id :: id in c.ids ==> id in c.entries
  }

  /** A decoded JSON object: each key once, every key listed. */
  ghost predicate Wellformed(c: Cache) {
    Listed(c) &&
    (forall i, j :: 0 <= i < j < |c.ids| ==> c.ids[i] != c.ids[j]) &&
    (forall id :: id in c.entries ==> id in c.ids)
  }

  /** The cache file as a script finds it. */
  datatype CacheFile = Missing | Unreadable | Stored(cache: Cache)

}
