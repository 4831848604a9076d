/** The archive codec the pipeline uses (JSZip), reduced to what the
    pipeline relies on: reading the members of an archive and building an
    archive from members. Compression itself is not modelled. */
module Archives {
  import opened Strings
  import opened Files

  /** One member of an archive: its name, whether it is a folder entry, and
      its bytes. */
  datatype Entry = Entry(name: Name, isDir: bool, data: Bytes)

  /** `JSZip.loadAsync(bytes)` listing `zip.files` in order (`read`), and a
      fresh `JSZip` filled with `zip.file(name, data)` and serialised by
      `generateAsync` (`build`). */
  datatype Codec = Codec(read: Bytes -> seq<Entry>, build: seq<Entry> -> Bytes)

  /** Members as `zipFilesGroupByShapefile` adds them: files only, with
      names from `u` that hold no separator, each name once. JSZip keeps
      one member per name and turns a name with a separator into folder
      entries, so only such member lists read back as they were built. */
  predicate Plain(es: seq<Entry>, u: set<Name>) {
    && (forall e | e in es :: !e.isDir && e.name in u && Sep !in e.name)
    && (forall i, j | 0 <= i < j < |es| :: es[i].name != es[j].name)
  }

  /** Reading back an archive built from plain members yields exactly
      those members, in order. */
  ghost predicate RoundTrips(c: Codec, u: set<Name>) {
    forall es | Plain(es, u) :: c.read(c.build(es)) == es
  }

  /** The names of the file (not folder) members of `es`. */
  function FileNames(es: seq<Entry>): set<Name> {
    set e | e in es && !e.isDir :: e.name
  }
}
