/** The processor interface of src/file-processors/FileProcessor.js: six
    hooks, each of which throws in the base class, and the values the
    processors share (schema entries, the options object). */
module FileProcessor {
  import opened Wrappers
  import opened Strings

  /** The six hooks of the base class. */
  datatype Hook = Process | Open | GetSchemaFields | GetGeographicInfo | GetFileType | ShouldZip

  /** One entry of a derived schema: a name, a type, and a length that only
      some entries carry (`None` is an absent key or `undefined`). */
  datatype SchemaField = SchemaField(name: string, fieldType: Option<string>, length: Option<int>)

  /** The options object handed to `process`. Each key may be absent
      (`None`, which also stands for `undefined` and `null`). */
  datatype Options = Options(
    encoding: Option<string>,
    schema: Option<bool>,
    geographicInfo: Option<bool>,
    outputPath: Option<string>)

  function HookName(h: Hook): string {
    match h
    case Process => "process"
    case Open => "open"
    case GetSchemaFields => "getSchemaFields"
    case GetGeographicInfo => "getGeographicInfo"
    case GetFileType => "getFileType"
    case ShouldZip => "shouldZip"
  }

  /** Lines 1-25: every hook of the base class throws an error naming
      itself. */
  function BaseHook(h: Hook): (r: Result<()>)
    ensures r.Err? && StartsWith(r.message, HookName(h))
  {
    Err(HookName(h) + " method must be implemented")
  }

  /** The six errors are told apart by their messages. */
  lemma BaseHookMessagesDiffer()
    ensures forall g: Hook, h: Hook | g != h :: BaseHook(g).message != BaseHook(h).message
  {
    forall g: Hook, h: Hook | g != h
      ensures HookName(g) + " method must be implemented" != HookName(h) + " method must be implemented"
    {
      var a, b := HookName(g) + " method must be implemented", HookName(h) + " method must be implemented";
      if |HookName(g)| == |HookName(h)| {
        assert a[..|HookName(g)|] == HookName(g) && b[..|HookName(h)|] == HookName(h);
      } else {
        assert |a| != |b|;
      }
    }
  }
}
