# Static-asset handler of fullstack-axum-dioxus, in Dafny

The server answers `GET /static/*path` with files that the build embedded
into the binary: the image directory, the front-end WebAssembly module
(`components_bg.wasm`) and its JavaScript loader (`components.js`). The
handler `static_path` takes the captured wildcard string, removes every
leading `/`, looks the result up in the generated table of embedded files,
and answers

- 200 with the stored bytes and a Content-Type header when the name is in
  the table. The header is `application/wasm` when the name ends in `.wasm`
  (case-sensitive) and the stored MIME type otherwise;
- 404 with an empty body and no Content-Type otherwise.

This project models that handler as a pure, total function
`StaticFiles.Serve(reg, path)`. The embedded table is an immutable
`map<string, Record>`, where a `Record` holds the content bytes and the
MIME string. It stands for the generated `StaticFile::get`. Since the table is a
value and `Serve` a function, the handler cannot change the table.

Modules:

- `Text` (`text.dfy`): `str::ends_with` and `str::trim_start_matches` with a
  `char` pattern, over `seq<char>`. `IsTrimStartOf` is an independent
  description of trimming: a suffix with only `c` in front of it that does
  not itself begin with `c`. The slice after the counted run of leading
  `c` and a character scan are both proved to meet it, and it has at most one solution.
- `StaticFiles` (`static_files.dfy`): the registry, the response and the
  handler, with its lemmas.
- `Wrappers` (`wrappers.dfy`): `Option`, used for the Content-Type header.

The handler does not strip the `/static/` mount prefix. The router does that when it
captures `*path` (server/src/main.rs:23). The model's input is therefore the
captured wildcard string.

## Model

| member | source | states |
|---|---|---|
| Text.EndsWithIffConcat | server/src/static_files.rs:11 | The case-sensitive suffix test `EndsWith(s, t)` holds exactly when `s` is some string followed by `t`, in both directions. |
| Text.LeadingCount | server/src/static_files.rs:8 | The count covers only copies of the trimmed character, and the character after them is different or the string has ended. |
| Text.TrimStartMatches | server/src/static_files.rs:8 | The result is a suffix of the input. Everything removed in front of it is the trimmed character, and the result does not start with that character. Interior and trailing occurrences are kept. |
| Text.TrimStartMatchesScan | server/src/static_files.rs:8 | A left-to-right scan over the characters meets the same description of trimming and returns the same string as `TrimStartMatches`. |
| Text.TrimStartUnique | server/src/static_files.rs:8 | At most one string meets the description of trimming, so the description fixes the lookup key. |
| Text.TrimStartIdempotent | server/src/static_files.rs:8 | Trimming an already trimmed string leaves it unchanged. |
| Text.TrimStartAbsorbsPrefix | server/src/static_files.rs:8 | Putting any number of extra copies of the character in front does not change the result. |
| Text.TrimStartKeepsSuffix | server/src/static_files.rs:8-11 | For a suffix whose first character is not the trimmed one, trimming keeps whether the string ends with it, in both directions. So the `.wasm` test on the trimmed key agrees with the test on the raw path. |
| StaticFiles.LookupKey | server/src/static_files.rs:8 | The lookup key meets the description of trimming the request path of `/`, so it never begins with `/`. |
| StaticFiles.LookupKeyNormal | server/src/static_files.rs:8 | The lookup key is its own lookup key and is a suffix of the request path. |
| StaticFiles.Serve | server/src/static_files.rs:7-36 | The answer is either 200 with a Content-Type or a bare 404 with neither header nor body. The status is 200 exactly when the lookup key is in the table, and then the body is that record's bytes. |
| StaticFiles.ServeSpec | server/src/static_files.rs:10-35 | For any key meeting the description of trimming, the full answer is: 200 iff the key is present. If present and the path ends in `.wasm`, the answer is 200 with `application/wasm` and the record's bytes. If present otherwise, it is 200 with the stored MIME type and the bytes. If absent, it is 404 with no header and an empty body. |
| StaticFiles.ServeContentType | server/src/static_files.rs:11-25 | For a found file, the Content-Type is `application/wasm` when the lookup key ends in `.wasm` and the stored MIME type otherwise, with the test made on the key as the handler makes it. |
| StaticFiles.ServeIgnoresLeadingSlashes | server/src/static_files.rs:8-10 | Any number of extra leading slashes gives the same answer. |
| StaticFiles.SlashVariantsAgree | server/src/static_files.rs:8-10 | `x`, `/x` and `//x` get the same answer. |
| StaticFiles.ServeRoundTrip | server/src/static_files.rs:10-28 | Every stored key that does not begin with `/` is served, with any number of slashes in front, as 200 with exactly the stored bytes. |
| StaticFiles.SlashKeyUnreachable | server/src/static_files.rs:8-10 | A table key that begins with `/` is never the lookup key of any request. |
| StaticFiles.ServeDependsOnlyOnKey | server/src/static_files.rs:10 | The answer reads the table only at the lookup key. Two tables that agree there give the same answer. |
| StaticFiles.WasmOverridesStoredMime | server/src/static_files.rs:11-19 | `/components_bg.wasm` stored with `application/octet-stream` is served as `application/wasm` with its bytes. |
| StaticFiles.UpperCaseWasmKeepsStoredMime | server/src/static_files.rs:11-28 | The `.wasm` test is case-sensitive: `m.WASM` keeps its stored MIME type. |
| StaticFiles.MissIsEmptyNotFound | server/src/static_files.rs:30-34 | A name missing from the table gets status 404, no Content-Type and an empty body. |

## Left out

- How `StaticFile::get` names files: hash-suffixed names from `add_files`, fixed names from `add_file_as` (assets/build.rs:6-12). This code is generated by the `ructe` library and is not part of this model. The table is an arbitrary immutable map.
- The build step in assets/build.rs. It only calls into `ructe`, and the directory scan, filtering, fingerprinting and MIME table belong to that library. There is no walker, classifier or duplicate-key check in the repository to model.
- Construction of the axum `Response` and `HeaderValue`, including the `.unwrap()` calls. The stored MIME string is assumed to be a valid header value, so the possible panic is not modelled.
- The `async` execution and the sharing of the table between concurrent requests. Only the value computed is modelled.
- The `/static/` mount prefix. The axum router removes it (server/src/main.rs:23), not the handler.
- db/build.rs, db/src/lib.rs, the server bootstrap and the sample users in server/src/main.rs, and pages/src/users.rs. All of them are I/O, database or page-rendering code over external crates.
