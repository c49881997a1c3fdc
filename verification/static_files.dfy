/**
 The runtime static-asset handler: the wildcard part of a request under the
 `/static/` route is stripped of its leading slashes, looked up in the
 immutable table of files embedded at build time, and answered with the stored bytes (200) or
 an empty not-found answer (404). Files whose key ends in `.wasm` are always
 labelled `application/wasm`; every other file carries its stored MIME type.
 */
module StaticFiles {
  import opened Wrappers
  import opened Text

  newtype byte = x: int | 0 <= x < 256

  /** One embedded file: its bytes and the MIME type recorded with it. */
  datatype Record = Record(content: seq<byte>, mime: string)

  /** The embedded table, keyed by the file's public name. It is a value:
      nothing in the handler can change it. */
  type Registry = map<string, Record>

  const StatusOk: nat := 200
  const StatusNotFound: nat := 404
  const WasmSuffix: string := ".wasm"
  const WasmMime: string := "application/wasm"

  /** The parts of an HTTP response the handler decides. */
  datatype Response = Response(status: nat, contentType: Option<string>, body: seq<byte>)

  /** The only two shapes of answer: a found file with a Content-Type, or a
      bare 404 with no header and no body. */
  predicate WellFormed(r: Response) {
    || (r.status == StatusOk && r.contentType.Some?)
    || (r.status == StatusNotFound && r.contentType == None && r.body == [])
  }

  /** The key a request path is looked up under. */
  function LookupKey(path: string): (key: string)
    ensures IsTrimStartOf(path, '/', key)
  {
    TrimStartMatches(path, '/')
  }

  /** The answer to a request for `path` against `reg`. */
  function Serve(reg: Registry, path: string): (r: Response)
    ensures WellFormed(r)
    ensures r.status == StatusOk <==> LookupKey(path) in reg
    ensures LookupKey(path) in reg ==> r.body == reg[LookupKey(path)].content
  {
    var key := LookupKey(path);
    if key in reg then
      if EndsWith(key, WasmSuffix) then
        Response(StatusOk, Some(WasmMime), reg[key].content)
      else
        Response(StatusOk, Some(reg[key].mime), reg[key].content)
    else
      Response(StatusNotFound, None, [])
  }

  /** The handler's answer, characterised through any string satisfying the
      independent description of the trimmed path, with the `.wasm` test
      made on the raw request path. */
  lemma ServeSpec(reg: Registry, path: string, key: string)
    requires IsTrimStartOf(path, '/', key)
    ensures key in reg <==> Serve(reg, path).status == StatusOk
    ensures key in reg && EndsWith(path, WasmSuffix) ==>
      Serve(reg, path) == Response(StatusOk, Some(WasmMime), reg[key].content)
    ensures key in reg && !EndsWith(path, WasmSuffix) ==>
      Serve(reg, path) == Response(StatusOk, Some(reg[key].mime), reg[key].content)
    ensures key !in reg ==> Serve(reg, path) == Response(StatusNotFound, None, [])
  {
    TrimStartUnique(path, '/', key, LookupKey(path));
    TrimStartKeepsSuffix(path, '/', WasmSuffix);
  }

  /** The lookup key never begins with a slash, and trimming it again changes
      nothing. */
  lemma LookupKeyNormal(path: string)
    ensures LookupKey(path) == [] || LookupKey(path)[0] != '/'
    ensures LookupKey(LookupKey(path)) == LookupKey(path)
    ensures EndsWith(path, LookupKey(path))
  {
  }

  /** The Content-Type of a found file, decided on the lookup key as the
      handler decides it: `application/wasm` for a key ending in `.wasm`,
      the stored type for any other key. */
  lemma ServeContentType(reg: Registry, path: string)
    requires LookupKey(path) in reg
    ensures EndsWith(LookupKey(path), WasmSuffix) ==>
      Serve(reg, path).contentType == Some(WasmMime)
    ensures !EndsWith(LookupKey(path), WasmSuffix) ==>
      Serve(reg, path).contentType == Some(reg[LookupKey(path)].mime)
  {
  }

  /** Any number of extra leading slashes gives the same answer. */
  lemma ServeIgnoresLeadingSlashes(reg: Registry, path: string, n: nat)
    ensures Serve(reg, Repeat('/', n) + path) == Serve(reg, path)
  {
    TrimStartAbsorbsPrefix(path, '/', n);
  }

  /** "x", "/x" and "//x" are the same request. */
  lemma SlashVariantsAgree(reg: Registry, x: string)
    ensures Serve(reg, "/" + x) == Serve(reg, x)
    ensures Serve(reg, "//" + x) == Serve(reg, x)
  {
    assert Repeat('/', 1) == "/";
    ServeIgnoresLeadingSlashes(reg, x, 1);
    assert Repeat('/', 2) == "//";
    ServeIgnoresLeadingSlashes(reg, x, 2);
  }

  /** Every embedded file whose key does not begin with a slash is served
      byte for byte, whatever number of slashes precedes its name. */
  lemma ServeRoundTrip(reg: Registry, key: string, n: nat)
    requires key in reg
    requires key == [] || key[0] != '/'
    ensures Serve(reg, Repeat('/', n) + key).status == StatusOk
    ensures Serve(reg, Repeat('/', n) + key).body == reg[key].content
  {
    ServeIgnoresLeadingSlashes(reg, key, n);
    TrimStartIdempotent(key, '/');
  }

  /** A key that begins with a slash can never be reached. */
  lemma SlashKeyUnreachable(key: string, path: string)
    requires key != [] && key[0] == '/'
    ensures LookupKey(path) != key
  {
  }

  /** The answer depends on the registry only through the record at the
      lookup key: two registries that agree there answer alike. */
  lemma ServeDependsOnlyOnKey(reg1: Registry, reg2: Registry, path: string)
    requires LookupKey(path) in reg1 <==> LookupKey(path) in reg2
    requires LookupKey(path) in reg1 ==> reg1[LookupKey(path)] == reg2[LookupKey(path)]
    ensures Serve(reg1, path) == Serve(reg2, path)
  {
  }

  /** The module built from the front-end crate is labelled
      `application/wasm` even if the table recorded something else. */
  lemma WasmOverridesStoredMime(content: seq<byte>)
    ensures var reg := map["components_bg.wasm" := Record(content, "application/octet-stream")];
      Serve(reg, "/components_bg.wasm") == Response(StatusOk, Some("application/wasm"), content)
  {
  }

  /** The suffix test is case-sensitive: `.WASM` keeps the stored type. */
  lemma UpperCaseWasmKeepsStoredMime(content: seq<byte>, mime: string)
    ensures var reg := map["m.WASM" := Record(content, mime)];
      Serve(reg, "m.WASM") == Response(StatusOk, Some(mime), content)
  {
  }

  /** A name missing from the table is answered 404 with nothing else. */
  lemma MissIsEmptyNotFound(reg: Registry, path: string)
    requires LookupKey(path) !in reg
    ensures Serve(reg, path).status == StatusNotFound
    ensures Serve(reg, path).contentType == None
    ensures Serve(reg, path).body == []
  {
  }
}
