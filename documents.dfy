/** What the program gets back from loading its YAML files: an empty file loads
    as `None`, any other file as a mapping from keys to values. Python's
    truthiness of such a document (`if not doc`) and the states a file can be
    in (`path.isfile` false, `open` raising IOError, or readable). */
module Documents {
  import opened Common

  datatype Doc<V> = Null | Dict(entries: map<string, V>)

  /** `bool(doc)`: `None` and the empty mapping are false, a mapping with a
      key is true. */
  function Truthy<V>(d: Doc<V>): (b: bool)
    ensures b <==> d.Dict? && exists k :: k in d.entries
  {
    if d.Dict? && d.entries.Keys != {} then
      var k :| k in d.entries.Keys;
      true
    else
      false
  }

  /** What `doc[key]` raises when it cannot answer. */
  datatype LookupError = NoneIsNotSubscriptable | KeyError(key: string)

  /** `doc[key]`. */
  function Lookup<V>(doc: Doc<V>, key: string): (r: Result<V, LookupError>)
    ensures r.Ok? <==> doc.Dict? && key in doc.entries
    ensures r.Ok? ==> r.value == doc.entries[key]
  {
    match doc
    case Null => Err(NoneIsNotSubscriptable)
    case Dict(entries) => if key in entries then Ok(entries[key]) else Err(KeyError(key))
  }

  datatype File<V> = Absent | Unreadable | Readable(doc: Doc<V>)

  /** The state of the file at `path`; a path the map does not mention does not exist. */
  function FileAt<V>(files: map<string, File<V>>, path: string): File<V>
  {
    if path in files then files[path] else Absent
  }
}
