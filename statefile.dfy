/** `get_json_state` / `write_json_state` over a directory of files, the
    directory being a map from file name to file content and `json` the
    encoder/decoder pair. */
module StateFile {
  import opened Util
  import opened Json

  /** The state a read returns and the files left behind. */
  datatype ReadResult = ReadResult(state: Option<Json>, files: map<string, string>)

  /** Reading state: a missing file gives no state and changes nothing; a
      file that does not parse gives no state and is removed; a file that
      parses gives its value and stays. */
  function ReadState(files: map<string, string>, name: string, loads: string -> Option<Json>): (r: ReadResult)
    ensures r.state.Some? <==> name in files && loads(files[name]).Some?
    ensures r.state.Some? ==> r.state == loads(files[name])
    ensures name in r.files <==> r.state.Some?
    ensures r.files == if r.state.Some? then files else files - {name}
  {
    if name !in files then
      assert files - {name} == files;
      ReadResult(None, files)
    else
      match loads(files[name])
      case None => ReadResult(None, files - {name})
      case Some(v) => ReadResult(Some(v), files)
  }

  /** A second read finds what the first one left: the same state and the
      same files. */
  lemma ReadIsIdempotent(files: map<string, string>, name: string, loads: string -> Option<Json>)
    ensures ReadState(ReadState(files, name, loads).files, name, loads) == ReadState(files, name, loads)
  {
  }

  /** What was written is read back, provided the decoder undoes the
      encoder on that value. */
  lemma ReadAfterWrite(files: map<string, string>, name: string, v: Json, json: Codec)
    requires json.loads(json.dumps(v)) == Some(v)
    ensures ReadState(files[name := json.dumps(v)], name, json.loads)
         == ReadResult(Some(v), files[name := json.dumps(v)])
  {
  }

  /** The directory the job keeps its cursor in. */
  class StateDir {
    var files: map<string, string>

    constructor (files: map<string, string>)
      ensures this.files == files
    {
      this.files := files;
    }

    /** `get_json_state`. */
    method GetJsonState(name: string, json: Codec) returns (state: Option<Json>)
      modifies this
      ensures ReadResult(state, files) == ReadState(old(files), name, json.loads)
    {
      if name !in files {
        return None;
      }
      var content := files[name];
      match json.loads(content)
      case Some(v) =>
        state := Some(v);
      case None =>
        files := files - {name};
        state := None;
    }

    /** `write_json_state`: the file is created or overwritten with the
        encoded value; no other file changes. */
    method WriteJsonState(dct: Json, name: string, json: Codec)
      modifies this
      ensures files == old(files)[name := json.dumps(dct)]
    {
      files := files[name := json.dumps(dct)];
    }
  }
}
