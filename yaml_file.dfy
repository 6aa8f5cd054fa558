/**
 * The file-level entry points of pkg/yaml/updater.go: `UpdateYAMLPath` (read, decode,
 * update, encode, write) and `GetValueAtPath` (read, decode, walk). The file system is
 * an object holding the contents of every file; `yaml.Unmarshal` and `yaml.Marshal`
 * are functions supplied by the caller.
 */
module YamlFile {
  import opened Wrappers
  import opened YamlPath
  import opened YamlTree

  type Bytes = seq<bv8>

  /** `yaml.Unmarshal` and `yaml.Marshal`; either may fail. */
  datatype Codec = Codec(decode: Bytes -> Option<Node>, encode: Node -> Option<Bytes>)

  /** Encoding a document and decoding the bytes gives the document back. */
  predicate RoundTrips(codec: Codec, doc: Node)
  {
    codec.encode(doc).Some? ==> codec.decode(codec.encode(doc).value) == Some(doc)
  }

  /** The errors of the two entry points, each naming the file as the Go messages do. */
  datatype FileError =
    | ReadFailed(file: string)                                   // failed to read file %s
    | ParseFailed(file: string)                                  // failed to parse YAML in file %s
    | UpdateFailed(yamlPath: string, file: string, cause: PathError)  // failed to update YAML path %s in file %s
    | MarshalFailed(file: string)                                // failed to marshal updated YAML for file %s
    | WriteFailed(file: string)                                  // failed to write updated YAML to file %s
    | WalkFailed(cause: PathError)                               // failed to navigate to path part '%s'

  /** The file system as the updater sees it: file contents, and the files it may not write. */
  class FileStore {
    var files: map<string, Bytes>
    var readOnly: set<string>

    /** `os.ReadFile`: a missing file is an error. */
    method ReadFile(name: string) returns (data: Option<Bytes>)
      ensures data.Some? <==> name in files
      ensures data.Some? ==> data.value == files[name]
    {
      if name in files {
        data := Some(files[name]);
      } else {
        data := None;
      }
    }

    /** `os.WriteFile`: replaces or creates the file unless it is read-only. */
    method WriteFile(name: string, data: Bytes) returns (ok: bool)
      modifies this`files
      ensures ok <==> name !in readOnly
      ensures files == if ok then old(files)[name := data] else old(files)
    {
      if name in readOnly {
        ok := false;
      } else {
        files := files[name := data];
        ok := true;
      }
    }
  }

  /**
   * The bytes `UpdateYAMLPath` writes, or the error that stops it before writing:
   * read, decode, update the document at the path, encode.
   */
  function UpdatedBytes(files: map<string, Bytes>, codec: Codec, filePath: string, yamlPath: string,
                        newValue: string, imageTagOnly: bool): Result<Bytes, FileError>
  {
    if filePath !in files then Failure(ReadFailed(filePath))
    else
      match codec.decode(files[filePath])
      case None => Failure(ParseFailed(filePath))
      case Some(doc) =>
        ParsePathShape(yamlPath);
        match UpdateAt(doc, ParsePath(yamlPath), newValue, imageTagOnly)
        case Failure(e) => Failure(UpdateFailed(yamlPath, filePath, e))
        case Success(updated) =>
          match codec.encode(updated)
          case None => Failure(MarshalFailed(filePath))
          case Some(bytes) => Success(bytes)
  }

  /** What `GetValueAtPath` returns: the node at the path of the decoded file. */
  function ValueAtPath(files: map<string, Bytes>, codec: Codec, filePath: string, yamlPath: string): Result<Node, FileError>
  {
    if filePath !in files then Failure(ReadFailed(filePath))
    else
      match codec.decode(files[filePath])
      case None => Failure(ParseFailed(filePath))
      case Some(doc) =>
        match Navigate(doc, ParsePath(yamlPath))
        case Failure(e) => Failure(WalkFailed(e))
        case Success(node) => Success(node)
  }

  /**
   * `UpdateYAMLPath`: the file is written only once reading, decoding, updating and
   * encoding have all succeeded; otherwise, or when the write fails, it is untouched.
   */
  method UpdateYAMLPath(store: FileStore, codec: Codec, filePath: string, yamlPath: string,
                        newValue: string, imageTagOnly: bool) returns (err: Option<FileError>)
    modifies store`files
    ensures match UpdatedBytes(old(store.files), codec, filePath, yamlPath, newValue, imageTagOnly)
            case Failure(e) => err == Some(e) && store.files == old(store.files)
            case Success(bytes) =>
              if filePath in store.readOnly then err == Some(WriteFailed(filePath)) && store.files == old(store.files)
              else err == None && store.files == old(store.files)[filePath := bytes]
  {
    var data := store.ReadFile(filePath);
    if data.None? {
      return Some(ReadFailed(filePath));
    }
    var doc := codec.decode(data.value);
    if doc.None? {
      return Some(ParseFailed(filePath));
    }
    var updated := UpdateValueAtPath(doc.value, yamlPath, newValue, imageTagOnly);
    if updated.Failure? {
      return Some(UpdateFailed(yamlPath, filePath, updated.error));
    }
    var bytes := codec.encode(updated.value);
    if bytes.None? {
      return Some(MarshalFailed(filePath));
    }
    var ok := store.WriteFile(filePath, bytes.value);
    if !ok {
      return Some(WriteFailed(filePath));
    }
    return None;
  }

  /**
   * `GetValueAtPath`: read and decode the file, then walk every part of the path
   * with getValue, stopping at the first that fails.
   */
  method GetValueAtPath(store: FileStore, codec: Codec, filePath: string, yamlPath: string)
    returns (r: Result<Node, FileError>)
    ensures r == ValueAtPath(store.files, codec, filePath, yamlPath)
  {
    var data := store.ReadFile(filePath);
    if data.None? {
      return Failure(ReadFailed(filePath));
    }
    var doc := codec.decode(data.value);
    if doc.None? {
      return Failure(ParseFailed(filePath));
    }
    var parts := ParsePath(yamlPath);
    var current := doc.value;
    var i := 0;
    while i < |parts|
      invariant 0 <= i <= |parts|
      invariant Navigate(doc.value, parts) == Navigate(current, parts[i..])
      decreases |parts| - i
    {
      var part := parts[i];
      var next := GetValue(current, part);
      if next.Failure? {
        return Failure(WalkFailed(AtPart(part, next.error)));
      }
      assert parts[i..][1..] == parts[i + 1..];
      current := next.value;
      i := i + 1;
    }
    return Success(current);
  }

  /** Nothing changes in the file store unless every step before the write succeeded. */
  lemma WriteOnlyAfterSuccess(files: map<string, Bytes>, codec: Codec, filePath: string, yamlPath: string,
                              newValue: string, imageTagOnly: bool)
    requires UpdatedBytes(files, codec, filePath, yamlPath, newValue, imageTagOnly).Success?
    ensures filePath in files
    ensures codec.decode(files[filePath]).Some?
    ensures UpdateAt(codec.decode(files[filePath]).value, ParsePath(yamlPath), newValue, imageTagOnly).Success?
  {
    ParsePathShape(yamlPath);
  }

  /**
   * With a codec that round-trips the updated document, reading the path back from
   * the written file yields the new value, as the updater's tests check.
   */
  lemma UpdateThenGetValueAtPath(files: map<string, Bytes>, codec: Codec, filePath: string, yamlPath: string,
                                 newValue: string)
    requires UpdatedBytes(files, codec, filePath, yamlPath, newValue, false).Success?
    requires forall doc :: RoundTrips(codec, doc)
    ensures ValueAtPath(files[filePath := UpdatedBytes(files, codec, filePath, yamlPath, newValue, false).value],
                        codec, filePath, yamlPath)
         == Success(Str(newValue))
  {
    ParsePathShape(yamlPath);
    var doc := codec.decode(files[filePath]).value;
    var updated := UpdateAt(doc, ParsePath(yamlPath), newValue, false).value;
    assert RoundTrips(codec, updated);
    UpdateThenNavigatePlain(doc, ParsePath(yamlPath), newValue);
  }
}
