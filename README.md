# Sonic CI helper: artifact upload decisions

A Dafny model of the decision logic inside `HttpUtils` of the Sonic Jenkins
plugin. This build step finds the newest mobile package (`.ipa` / `.apk`)
in a scan directory and uploads it to the Sonic platform. It then records the
package's metadata (name, URL, platform tag, project, branch, build URL)
with a second request.

The model covers four pieces of that logic:

- **Artifact selection** (`findFile`). The scanned files are sorted newest first
  with a stable sort and the head is taken. The sort appears twice: as a function
  on sequences (`ArtifactSelection.SortNewestFirst`) and as an in-place insertion
  sort on an array (`ArtifactSelection.SortInPlace`). `ArtifactSelection.FirstNewest`
  is the reference rule: the newest file, and among equally new files the first
  one scanned. The lemmas prove the sort is a permutation, is ordered newest
  first, and is stable. They also prove it is the only stable sort, so
  `Collections.sort` gives the same list, and that its head is the file
  `FirstNewest` picks.
- **Platform tag** (`platform`). The extension is the suffix from the last dot,
  dot included. A name with no dot makes the Java code throw, so that is the
  function's precondition. A lemma shows the `"unknown"` branch can never be taken.
- **Placeholder fallback** (`getBranch`, `getBuildUrl`). When expansion hands back
  the literal `${GIT_BRANCH}` or `${BUILD_URL}`, the value becomes `"unknown"`.
- **Orchestration** (public `upload`). `ParamBean` is a class. `upload` first
  expands its `host`, `apiKey` and `scanDir` fields in place. It then runs a chain
  of early returns. Each run gives an `Outcome` (returned `true`/`false`, or a
  runtime exception that escapes) and the observable effects of the run, in
  order: the upload POST, the publication of the `appURL` build variable (a
  change to the build record, inside the process) and the package-info PUT.

The CI host and the outside world are abstract inputs:

- environment expansion is a function `string -> string`;
- the file system and the Ant scanner form a `FileSystem` record of functions;
- the platform's answer to the upload is an `UploadResponse`;
- `Integer.parseInt` is a function `string -> Option<int>`, where `None` means it throws.

The model follows the code in three places where the code does not do what
the step is meant to do:

- **The `"unknown"` platform is dead code.** The extension keeps its dot, so
  `hasText(ext)` is always true. A name with no dot throws
  `StringIndexOutOfBoundsException` (from `substring(-1)`) instead of getting
  the tag `"unknown"`. A name ending in a dot, such as `app.`, is tagged
  `Android`. See `PlatformNeverUnknown` and `PlatformOfTrailingDot`.
- **The `ipa` test is a substring test.** It looks only at the real extension, but
  it is not an exact match: `foo.zipa` is tagged `iOS` and `ipa.apk` is tagged
  `Android`.
- **Success can still end in an exception.** The step commits to success once the
  upload URL is known. The result can still be an exception instead of `true`:
  `platform` throws when the file name has no dot, and `Integer.parseInt` throws
  on a project id that is not a number. Checking that the id has text does not
  rule this out. On a reading of line 206 (the scanner is not modelled), the
  include patterns `ipa` and `apk` carry no wildcard, so they match only files
  named exactly `ipa` or `apk` directly inside the scan directory. Such a name
  has no dot (`BaseNameOfChild`), so every run that gets an upload URL would end
  in `StringIndexOutOfBoundsException` at line 232.

## Model

| member | source | states |
|---|---|---|
| `JavaStrings.IsWhitespace` | src/main/java/io/jenkins/plugins/sonic/utils/HttpUtils.java:234 | the character set of `Character.isWhitespace` (Unicode space, line and paragraph separators other than the non-breaking ones, and the controls 9-13 and 28-31); its use is stated by `ExtensionHasText` |
| `JavaStrings.HasText` | src/main/java/io/jenkins/plugins/sonic/utils/HttpUtils.java:60 | `StringUtils.hasText`: some character is not whitespace; `ExtensionHasText` shows it holds of every extension, and `Publish` uses it for the project-id and path checks |
| `JavaStrings.LastIndexOf` | src/main/java/io/jenkins/plugins/sonic/utils/HttpUtils.java:232 | `lastIndexOf(".")` is -1 exactly when the character is absent; otherwise the index holds that character and no later index does |
| `JavaStrings.Contains` | src/main/java/io/jenkins/plugins/sonic/utils/HttpUtils.java:237 | `ext.contains("ipa")` holds exactly when the substring occurs at some position |
| `ArtifactSelection.FirstNewest` | src/main/java/io/jenkins/plugins/sonic/utils/HttpUtils.java:218-224 | the selected index holds a candidate at least as new as every other, and every candidate scanned before it is strictly older |
| `ArtifactSelection.FirstNewestUnique` | src/main/java/io/jenkins/plugins/sonic/utils/HttpUtils.java:218-224 | at most one index is "first among the newest", so the selection is determined by the scan |
| `ArtifactSelection.SortNewestFirst` | src/main/java/io/jenkins/plugins/sonic/utils/HttpUtils.java:219-223 | `Collections.sort` with the descending comparator; what it computes is stated by `SortPermutes`, `SortSorted`, `SortStable`, `StableSortUnique` and `SortHead` |
| `ArtifactSelection.SortPermutes` | src/main/java/io/jenkins/plugins/sonic/utils/HttpUtils.java:218-223 | the sorted list is a permutation of the scanned list (same multiset, same length) |
| `ArtifactSelection.SortSorted` | src/main/java/io/jenkins/plugins/sonic/utils/HttpUtils.java:219-223 | the sorted list is non-increasing in `lastModified`, as the comparator `Long.compare(file2, file1)` asks |
| `ArtifactSelection.SortStable` | src/main/java/io/jenkins/plugins/sonic/utils/HttpUtils.java:219-223 | for every timestamp, the candidates with that timestamp keep their scan order (stability of `Collections.sort`) |
| `ArtifactSelection.StableSortUnique` | src/main/java/io/jenkins/plugins/sonic/utils/HttpUtils.java:219-223 | any list that is ordered newest first and stable with respect to the scan is exactly the modelled sort, so the choice of stable algorithm does not matter |
| `ArtifactSelection.SortHead` | src/main/java/io/jenkins/plugins/sonic/utils/HttpUtils.java:218-224 | the head of the sorted list (`strings.get(0)`) is the candidate picked by the first-newest rule |
| `ArtifactSelection.InsertInPlace` | src/main/java/io/jenkins/plugins/sonic/utils/HttpUtils.java:219-223 | one step of the in-place sort: the first `i + 1` cells become the newest-first insertion of cell `i` into the first `i`, and the cells after them are unchanged |
| `ArtifactSelection.SortInPlace` | src/main/java/io/jenkins/plugins/sonic/utils/HttpUtils.java:218-223 | sorting the array in place leaves exactly the stable newest-first sort of its old contents |
| `HttpUtils.Fallback` | src/main/java/io/jenkins/plugins/sonic/utils/HttpUtils.java:87-103 | the result is `"unknown"` exactly when the expansion returned the placeholder itself (or literally `"unknown"`); otherwise it is the expansion unchanged; it is never the placeholder token |
| `HttpUtils.GetBranch` | src/main/java/io/jenkins/plugins/sonic/utils/HttpUtils.java:87-94 | an unexpanded `${GIT_BRANCH}` becomes `"unknown"`, any other expansion is passed through, and the token itself never comes out |
| `HttpUtils.GetBuildUrl` | src/main/java/io/jenkins/plugins/sonic/utils/HttpUtils.java:96-103 | the same for `${BUILD_URL}` |
| `HttpUtils.Extension` | src/main/java/io/jenkins/plugins/sonic/utils/HttpUtils.java:232 | for a name with a dot, the extension is a suffix of the name that starts with `.` and contains no other dot |
| `HttpUtils.Platform` | src/main/java/io/jenkins/plugins/sonic/utils/HttpUtils.java:231-241 | `platform(fileName)` for a name with a dot; `PlatformNeverUnknown` and `PlatformOfSplit` state its result for every such name |
| `HttpUtils.ExtensionHasText` | src/main/java/io/jenkins/plugins/sonic/utils/HttpUtils.java:232-236 | the extension always has text (its leading dot), so the `hasText` guard never fails |
| `HttpUtils.PlatformNeverUnknown` | src/main/java/io/jenkins/plugins/sonic/utils/HttpUtils.java:231-241 | `platform` returns `iOS` or `Android` and never `unknown` |
| `HttpUtils.PlatformOfSplit` | src/main/java/io/jenkins/plugins/sonic/utils/HttpUtils.java:231-241 | for `stem.e` with no dot in `e`, the tag is `iOS` exactly when `e` contains `ipa`, and `Android` exactly when it does not |
| `HttpUtils.PlatformOfIpa` | src/main/java/io/jenkins/plugins/sonic/utils/HttpUtils.java:237-238 | `app-release.ipa` is tagged `iOS` |
| `HttpUtils.PlatformOfApk` | src/main/java/io/jenkins/plugins/sonic/utils/HttpUtils.java:237-240 | `app-release.apk` is tagged `Android` |
| `HttpUtils.PlatformOfIpaStem` | src/main/java/io/jenkins/plugins/sonic/utils/HttpUtils.java:232-240 | `ipa.apk` is tagged `Android`: only the text after the last dot is inspected |
| `HttpUtils.PlatformOfZipa` | src/main/java/io/jenkins/plugins/sonic/utils/HttpUtils.java:237-238 | `foo.zipa` is tagged `iOS`: the test is containment, not equality |
| `HttpUtils.PlatformOfTrailingDot` | src/main/java/io/jenkins/plugins/sonic/utils/HttpUtils.java:232-240 | `app.` (empty extension) is tagged `Android`, not `unknown` |
| `HttpUtils.Candidates` | src/main/java/io/jenkins/plugins/sonic/utils/HttpUtils.java:219-223 | one candidate per scanned name, in scan order, each carrying the `lastModified` of its absolute path (the comparator's key) |
| `HttpUtils.SelectArtifact` | src/main/java/io/jenkins/plugins/sonic/utils/HttpUtils.java:211-224 | no artifact exactly when the directory is missing or the scan is empty; otherwise the absolute path of a scanned name that is first among the newest |
| `HttpUtils.FindFile` | src/main/java/io/jenkins/plugins/sonic/utils/HttpUtils.java:196-228 | no path when the scan dir is not an existing directory or the scan finds nothing; the single candidate joined to the dir when there is one; otherwise the candidate that is newest and scanned first among equally new ones, joined to the dir |
| `HttpUtils.BaseName` | src/main/java/io/jenkins/plugins/sonic/utils/HttpUtils.java:83 | `uploadFile.getName()` is the longest suffix of the path with no `/`: a suffix free of `/` that is either the whole path or preceded by `/` |
| `HttpUtils.BaseNameOfChild` | src/main/java/io/jenkins/plugins/sonic/utils/HttpUtils.java:83 | the name of a file directly inside a directory is the file's own name |
| `HttpUtils.UploadedUrl` | src/main/java/io/jenkins/plugins/sonic/utils/HttpUtils.java:116-132 | the private `upload` returns the payload of a successful answer and `null` otherwise |
| `HttpUtils.Publish` | src/main/java/io/jenkins/plugins/sonic/utils/HttpUtils.java:60-84 | nothing is sent and false is returned when the project id lacks text, the found path lacks text, or no regular file is there; otherwise exactly one upload of the selected file is sent; false exactly when it yields no URL; true exactly when in addition the name has a dot and the id parses, with one package-info request sent carrying name, URL, platform, id, branch and build URL; otherwise the exception that escapes |
| `HttpUtils.Upload` | src/main/java/io/jenkins/plugins/sonic/utils/HttpUtils.java:54-85 | `host`, `apiKey` and `scanDir` of the bean are replaced by their expansions, `projectId` is unchanged, and the run on the expanded values has the outcome and requests described for `Publish` |
| `HttpUtils.UploadOutcomeDeterministic` | src/main/java/io/jenkins/plugins/sonic/utils/HttpUtils.java:54-85 | the contract of a run determines its outcome and its request list completely |

## Left out

- HTTP transport (okhttps), multipart encoding, progress callbacks every 5%, the `onException` hook and `stepRate(0.05)` (lines 105-115, 146-149, 172-175): network I/O and callbacks. The upload is reduced to one `UploadResponse` (success flag plus decoded payload). A transport failure is assumed to show up as an unsuccessful response.
- Gson/`TypeRef` decoding of `HttpResult` (lines 117-122, 153-158, 186-191): a foreign library. The decoded `data` field is an input, and a decoding failure is not modelled.
- The answer to the package-info PUT (lines 146-167): it reaches only the log, so it is not an input. The result of a run therefore cannot depend on it. Exceptions raised while sending or decoding that request are not modelled.
- `listProject` (lines 177-193): a global-configuration lookup and a GET, with no logic beyond the null check that throws.
- Ant `DirectoryScanner` matching (lines 204-209): its output for a base directory is an input (`FileSystem.scan`). A `null` result is merged with the empty one, since both give no path. The include patterns `"ipa"` and `"apk"` have no wildcard, and their real matching is not modelled.
- `File.exists`/`isDirectory`/`isFile`/`lastModified`/`getAbsolutePath`: inputs of `FileSystem`. The timestamps are read once, as a snapshot. The Java comparator rereads them on every comparison, and changes during the sort are not modelled.
- `Collections.sort` (TimSort) is modelled by an insertion sort. `StableSortUnique` shows that every stable sort newest first gives the same list.
- `lastModified` is a Java `long`; the model uses unbounded `int`. Only comparisons are made on it, so no overflow can arise.
- Jenkins `getEnvironment().expand` is a total function parameter. Its `IOException`/`InterruptedException` are not modelled. `Secret` is treated as a plain string. `addAction(PublishEnvVarAction)` is recorded as the `PublishAppUrl` request. `Logging` and `Messages` are left out.
- `null` values of `host`, `apiKey` and `scanDir` are not modelled; only `projectId` may be absent.
- `Integer.parseInt(projectId)` (line 142) is a foreign call and is an input `string -> Option<int>`.
- `StringUtils.hasText` uses `Character.isWhitespace`, which works on UTF-16 units. The model applies the same character set to Dafny characters (Unicode scalar values).
- `File.getName` is modelled with `/` as the only separator.
