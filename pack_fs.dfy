/** The abstract file system shared by the extraction and the reconciliation
    engines: a directory is a finite map from entry names to entries, and the
    only thing either engine ever looks at inside a pack folder is its
    `manifest.json`. */
module PackFs {

  datatype Option<+T> = None | Some(value: T)

  /** What reading `<folder>/manifest.json` gives. `Malformed` covers both a
      JSON syntax error and any other failure to read the file. `Parsed` is a
      JSON object; `uuid` and `version` are `header.uuid` and
      `header.version`, `None` when the key (or the whole header) is absent. */
  datatype ManifestState =
    | Missing
    | Malformed
    | Parsed(uuid: Option<string>, version: Option<seq<nat>>)

  /** An entry of a directory: a plain file, or a folder summarised by the
      state of its manifest. */
  datatype Entry = File | Dir(manifest: ManifestState)

  /** A directory's contents, keyed by entry name. */
  type Listing = map<string, Entry>
}
