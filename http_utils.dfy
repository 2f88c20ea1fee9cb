/**
 The decision logic of the publishing step's HttpUtils: the choice of the
 artifact in the scan directory, the platform tag derived from its file name,
 the fallback for build variables that are not set, and the chain of early
 returns of the public upload entry point. The CI host, the file system and
 the remote testing platform are abstract inputs; the requests the step would
 send are returned as a trace.
 */
module HttpUtils {
  import opened Wrappers
  import opened JavaStrings
  import opened ArtifactSelection

  /** Placeholder tokens expanded against the build's environment (lines 46-47). */
  const BRANCH: string := "${GIT_BRANCH}"
  const BUILD_URL: string := "${BUILD_URL}"
  const UNKNOWN: string := "unknown"

  // ---------------------------------------------------------------------
  // Placeholder fallback: getBranch / getBuildUrl

  /** The value used for a build variable: "unknown" when expanding the
      placeholder gave back the placeholder itself, the expansion otherwise. */
  function Fallback(placeholder: string, expanded: string): (r: string)
    ensures r == UNKNOWN <==> (expanded == placeholder || expanded == UNKNOWN)
    ensures r != UNKNOWN ==> r == expanded
    ensures placeholder != UNKNOWN ==> r != placeholder
  {
    if expanded == placeholder then UNKNOWN else expanded
  }

  /** getBranch: the expansion of ${GIT_BRANCH}, never the unexpanded token. */
  function GetBranch(expand: string -> string): (r: string)
    ensures r != BRANCH
    ensures expand(BRANCH) != BRANCH ==> r == expand(BRANCH)
    ensures expand(BRANCH) == BRANCH ==> r == UNKNOWN
  {
    Fallback(BRANCH, expand(BRANCH))
  }

  /** getBuildUrl: the expansion of ${BUILD_URL}, never the unexpanded token. */
  function GetBuildUrl(expand: string -> string): (r: string)
    ensures r != BUILD_URL
    ensures expand(BUILD_URL) != BUILD_URL ==> r == expand(BUILD_URL)
    ensures expand(BUILD_URL) == BUILD_URL ==> r == UNKNOWN
  {
    Fallback(BUILD_URL, expand(BUILD_URL))
  }

  // ---------------------------------------------------------------------
  // Platform tag

  /** The extension platform looks at: the suffix of the name from its last
      dot, the dot included. Without a dot the Java code throws, hence the requires. */
  function Extension(fileName: string): (ext: string)
    requires '.' in fileName
    ensures 1 <= |ext| <= |fileName| && ext[0] == '.' && '.' !in ext[1..]
    ensures fileName == fileName[..|fileName| - |ext|] + ext
  {
    var dot := LastIndexOf(fileName, '.');
    var ext := fileName[dot..];
    assert forall k :: 0 <= k < |ext| - 1 ==> ext[1..][k] == fileName[dot + 1 + k];
    assert fileName[..dot] + ext == fileName;
    ext
  }

  /** platform(fileName), branch for branch. */
  function Platform(fileName: string): string
    requires '.' in fileName
  {
    var ext := Extension(fileName);
    if !HasText(ext) then UNKNOWN
    else if Contains(ext, "ipa") then "iOS"
    else "Android"
  }

  /** The extension always starts with a dot, which is not whitespace. */
  lemma ExtensionHasText(fileName: string)
    requires '.' in fileName
    ensures HasText(Extension(fileName))
  {
  }

  /** The "unknown" branch of platform is dead: a name with a dot is tagged
      iOS or Android, and a name without one makes the Java code throw. */
  lemma PlatformNeverUnknown(fileName: string)
    requires '.' in fileName
    ensures Platform(fileName) == "iOS" || Platform(fileName) == "Android"
    ensures Platform(fileName) != UNKNOWN
  {
  }

  /** A leading dot never takes part in an occurrence of "ipa". */
  lemma ContainsIpaAfterDot(e: string)
    ensures Contains("." + e, "ipa") == Contains(e, "ipa")
  {
    assert ("." + e)[1..] == e;
    assert |"." + e| >= 3 ==> ("." + e)[..3] != "ipa" by {
      if |"." + e| >= 3 {
        assert ("." + e)[..3][0] == '.';
      }
    }
  }

  /** For a name stem.e whose last dot is the one before e, the tag is iOS
      exactly when e contains "ipa" (a substring test, not a suffix test). */
  lemma PlatformOfSplit(stem: string, e: string)
    requires '.' !in e
    ensures '.' in stem + "." + e
    ensures Platform(stem + "." + e) == "iOS" <==> Contains(e, "ipa")
    ensures Platform(stem + "." + e) == "Android" <==> !Contains(e, "ipa")
  {
    var name := stem + "." + e;
    assert name[|stem|] == '.';
    assert forall k :: |stem| < k < |name| ==> name[k] == e[k - |stem| - 1];
    var dot := LastIndexOf(name, '.');
    assert dot == |stem|;
    assert Extension(name) == "." + e;
    ExtensionHasText(name);
    ContainsIpaAfterDot(e);
  }

  /** The tags the step gives to a few typical and borderline names. */
  lemma PlatformOfIpa()
    ensures Platform("app-release.ipa") == "iOS"
  {
    assert "app-release.ipa" == "app-release" + "." + "ipa";
    PlatformOfSplit("app-release", "ipa");
    assert OccursAt("ipa", "ipa", 0);
  }

  lemma NoIpaInApk()
    ensures !Contains("apk", "ipa")
  {
    assert "apk"[..3] != "ipa" by {
      assert "apk"[..3][0] == 'a';
    }
    assert !Contains("apk"[1..], "ipa");
  }

  lemma PlatformOfApk()
    ensures Platform("app-release.apk") == "Android"
  {
    assert "app-release.apk" == "app-release" + "." + "apk";
    PlatformOfSplit("app-release", "apk");
    NoIpaInApk();
  }

  /** Only the true extension is inspected: "ipa" in the stem does not count. */
  lemma PlatformOfIpaStem()
    ensures Platform("ipa.apk") == "Android"
  {
    assert "ipa.apk" == "ipa" + "." + "apk";
    PlatformOfSplit("ipa", "apk");
    NoIpaInApk();
  }

  /** A substring test, not an exact match: ".zipa" is tagged iOS. */
  lemma PlatformOfZipa()
    ensures Platform("foo.zipa") == "iOS"
  {
    assert "foo.zipa" == "foo" + "." + "zipa";
    PlatformOfSplit("foo", "zipa");
    assert OccursAt("zipa", "ipa", 1);
  }

  /** An empty extension is still text (the dot), so it is tagged Android, not unknown. */
  lemma PlatformOfTrailingDot()
    ensures Platform("app.") == "Android"
  {
    assert "app." == "app" + "." + "";
    PlatformOfSplit("app", "");
  }

  // ---------------------------------------------------------------------
  // Artifact discovery: findFile

  /** What findFile asks of the file system and of the Ant scanner. */
  datatype FileSystem = FileSystem(
    isDirectory: string -> bool,              // new File(p).exists() && isDirectory()
    isFile: string -> bool,                   // new File(p).exists() && isFile()
    scan: string -> seq<string>,              // DirectoryScanner.getIncludedFiles() under a base dir
    absolutePath: (string, string) -> string, // new File(dir, name).getAbsolutePath()
    lastModified: string -> int               // File.lastModified() of a path
  )

  /** The scanned names of dir, each with its modification time. */
  function Candidates(fs: FileSystem, dir: string): (cs: seq<Candidate>)
    ensures |cs| == |fs.scan(dir)|
    ensures forall i :: 0 <= i < |cs| ==>
      cs[i].name == fs.scan(dir)[i] && cs[i].lastModified == fs.lastModified(fs.absolutePath(dir, fs.scan(dir)[i]))
  {
    var names := fs.scan(dir);
    seq(|names|, i requires 0 <= i < |names| => Candidate(names[i], fs.lastModified(fs.absolutePath(dir, names[i]))))
  }

  /** The reference rule for the artifact: none unless dir is a directory
      holding candidates; otherwise the first of the newest ones. */
  function SelectArtifact(fs: FileSystem, dir: string): (r: Option<string>)
    ensures r.None? <==> !fs.isDirectory(dir) || |fs.scan(dir)| == 0
    ensures r.Some? ==>
      exists i :: IsFirstNewest(Candidates(fs, dir), i) && r.value == fs.absolutePath(dir, fs.scan(dir)[i])
  {
    if !fs.isDirectory(dir) || |fs.scan(dir)| == 0 then None
    else Some(fs.absolutePath(dir, fs.scan(dir)[FirstNewest(Candidates(fs, dir))]))
  }

  /** findFile(scandir): the path of the artifact to upload, or null. */
  method FindFile(fs: FileSystem, scanDir: string) returns (path: Option<string>)
    ensures path == SelectArtifact(fs, scanDir)
    ensures !fs.isDirectory(scanDir) ==> path == None
    ensures fs.isDirectory(scanDir) && |fs.scan(scanDir)| == 0 ==> path == None
    ensures fs.isDirectory(scanDir) && |fs.scan(scanDir)| == 1 ==>
      path == Some(fs.absolutePath(scanDir, fs.scan(scanDir)[0]))
    ensures fs.isDirectory(scanDir) && |fs.scan(scanDir)| > 1 ==>
      exists i :: IsFirstNewest(Candidates(fs, scanDir), i) && path == Some(fs.absolutePath(scanDir, fs.scan(scanDir)[i]))
  {
    if !fs.isDirectory(scanDir) {
      return None;
    }
    var uploadFiles := fs.scan(scanDir);
    if |uploadFiles| == 0 {
      return None;
    }
    if |uploadFiles| == 1 {
      return Some(fs.absolutePath(scanDir, uploadFiles[0]));
    }
    var cs := Candidates(fs, scanDir);
    var strings := new Candidate[|cs|](i requires 0 <= i < |cs| => cs[i]);
    assert strings[..] == cs;
    SortInPlace(strings);
    SortHead(cs);
    path := Some(fs.absolutePath(scanDir, strings[0].name));
  }

  // ---------------------------------------------------------------------
  // The upload entry point

  /** The parameters of the build step; upload rewrites the first three in place. */
  class ParamBean {
    var host: string
    var apiKey: string
    var scanDir: string
    var projectId: Option<string>

    constructor (host: string, apiKey: string, scanDir: string, projectId: Option<string>)
      ensures this.host == host && this.apiKey == apiKey
      ensures this.scanDir == scanDir && this.projectId == projectId
    {
      this.host := host;
      this.apiKey := apiKey;
      this.scanDir := scanDir;
      this.projectId := projectId;
    }
  }

  /** The body of the metadata request (PackageBean). */
  datatype PackageInfo = PackageInfo(
    pkgName: string, url: string, platform: string, projectId: int, branch: string, buildUrl: string)

  /** What the remote platform answered to the multipart upload. */
  datatype UploadResponse = UploadResponse(successful: bool, data: Option<string>)

  /** The observable effects of a run, in order. */
  datatype Request =
    | UploadRequest(host: string, token: string, file: string)      // POST <host>/server/api/folder/upload
    | PublishAppUrl(appUrl: Option<string>)                         // the build variable appURL is published
    | SavePackageRequest(host: string, token: string, pkg: PackageInfo) // PUT <host>/server/api/controller/packages

  /** Runtime exceptions that escape upload. */
  datatype JavaException =
    | StringIndexOutOfBounds  // platform() on a name without a dot
    | NumberFormat            // Integer.parseInt on the project id

  datatype Outcome = Returned(success: bool) | Threw(exception: JavaException)

  /** File.getName(): the part of a path after its last separator, or the whole
      path when it has none (the longest suffix free of separators). */
  function BaseName(path: string): (name: string)
    ensures '/' !in name
    ensures |name| <= |path| && path == path[..|path| - |name|] + name
    ensures |name| < |path| ==> path[|path| - |name| - 1] == '/'
  {
    var start := LastIndexOf(path, '/') + 1;
    var name := path[start..];
    assert |name| == |path| - start;
    assert start > 0 ==> path[start - 1] == '/';
    assert forall k :: 0 <= k < |name| ==> name[k] == path[start + k] && name[k] != '/';
    assert path[..start] + name == path;
    name
  }

  /** The name of a file directly inside dir is the file's own name. */
  lemma BaseNameOfChild(dir: string, n: string)
    requires '/' !in n
    ensures BaseName(dir + "/" + n) == n
  {
    var path := dir + "/" + n;
    assert path[|dir|] == '/';
    assert forall k :: |dir| < k < |path| ==> path[k] == n[k - |dir| - 1];
    assert LastIndexOf(path, '/') == |dir|;
    assert path[|dir| + 1..] == n;
  }

  /** The URL the private upload returns: the payload of a successful answer, null otherwise. */
  function UploadedUrl(response: UploadResponse): Option<string>
  {
    if response.successful then response.data else None
  }

  /** The step's parameters after expansion, as upload reads them from ParamBean. */
  datatype Params = Params(host: string, apiKey: string, scanDir: string, projectId: Option<string>)

  /** The three checks of lines 60-74 pass: a project id with text, an artifact
      path with text, and a regular file at that path. */
  predicate ReadyToUpload(p: Params, fs: FileSystem)
  {
    && HasTextOrNull(p.projectId)
    && HasTextOrNull(SelectArtifact(fs, p.scanDir))
    && fs.isFile(SelectArtifact(fs, p.scanDir).value)
  }

  /** What a run of upload on the expanded parameters p returns and sends;
      branch and buildUrl are the values of getBranch and getBuildUrl. */
  predicate UploadOutcome(p: Params, branch: string, buildUrl: string, fs: FileSystem, response: UploadResponse,
                          parseInt: string -> Option<int>, outcome: Outcome, requests: seq<Request>)
  {
    var ready := ReadyToUpload(p, fs);
    var found := SelectArtifact(fs, p.scanDir);
    var file := if found.Some? then found.value else "";
    var name := BaseName(file);
    var url := UploadedUrl(response);
    var id := if p.projectId.Some? then parseInt(p.projectId.value) else None;
    var uploaded := [UploadRequest(p.host, p.apiKey, file)]
                    + (if response.successful then [PublishAppUrl(response.data)] else []);
    // a failed check stops the run before anything is sent
    && (!ready ==> outcome == Returned(false) && requests == [])
    // after the checks, false is returned exactly when the upload gave no URL
    && (ready ==> (outcome == Returned(false) <==> url == None))
    && (ready && url == None ==> requests == uploaded)
    // with a URL the run ends in true unless platform or parseInt throws
    && (outcome == Returned(true) <==> ready && url.Some? && '.' in name && id.Some?)
    && (ready && url.Some? && '.' in name && id.Some? ==>
          requests == uploaded + [SavePackageRequest(p.host, p.apiKey,
            PackageInfo(name, url.value, Platform(name), id.value, branch, buildUrl))])
    && (outcome.Threw? ==> ready && url.Some? && requests == uploaded
                           && (outcome.exception == StringIndexOutOfBounds <==> '.' !in name))
  }

  /** Lines 60-84 of upload, once the parameters are expanded. */
  method Publish(p: Params, expand: string -> string, fs: FileSystem,
                 response: UploadResponse, parseInt: string -> Option<int>)
    returns (outcome: Outcome, requests: seq<Request>)
    ensures UploadOutcome(p, GetBranch(expand), GetBuildUrl(expand), fs, response, parseInt, outcome, requests)
  {
    if !HasTextOrNull(p.projectId) {
      return Returned(false), [];
    }
    var path := FindFile(fs, p.scanDir);
    if !HasTextOrNull(path) {
      return Returned(false), [];
    }
    var uploadFile := path.value;
    if !fs.isFile(uploadFile) {
      return Returned(false), [];
    }

    // the private upload (lines 105-133)
    requests := [UploadRequest(p.host, p.apiKey, uploadFile)];
    var url: Option<string> := None;
    if response.successful {
      requests := requests + [PublishAppUrl(response.data)];
      url := response.data;
    }
    if url == None {
      return Returned(false), requests;
    }

    var branch := GetBranch(expand);
    var buildUrl := GetBuildUrl(expand);
    var name := BaseName(uploadFile);
    if '.' !in name {
      return Threw(StringIndexOutOfBounds), requests;
    }
    var platform := Platform(name);
    // savePackageInfo (lines 135-170); the answer to its request is only logged
    var projectId := parseInt(p.projectId.value);
    if projectId == None {
      return Threw(NumberFormat), requests;
    }
    var pkg := PackageInfo(name, url.value, platform, projectId.value, branch, buildUrl);
    requests := requests + [SavePackageRequest(p.host, p.apiKey, pkg)];
    outcome := Returned(true);
  }

  /** upload(build, listener, paramBean): expand host, apiKey and scanDir in
      place, then check, upload and record. expand is the build environment,
      fs the file system, response the platform's answer to the upload and
      parseInt Integer.parseInt (None where it throws). */
  method Upload(paramBean: ParamBean, expand: string -> string, fs: FileSystem,
                response: UploadResponse, parseInt: string -> Option<int>)
    returns (outcome: Outcome, requests: seq<Request>)
    modifies paramBean
    ensures paramBean.host == expand(old(paramBean.host))
    ensures paramBean.apiKey == expand(old(paramBean.apiKey))
    ensures paramBean.scanDir == expand(old(paramBean.scanDir))
    ensures paramBean.projectId == old(paramBean.projectId)
    ensures UploadOutcome(Params(paramBean.host, paramBean.apiKey, paramBean.scanDir, paramBean.projectId),
                          GetBranch(expand), GetBuildUrl(expand), fs, response, parseInt, outcome, requests)
  {
    paramBean.host := expand(paramBean.host);
    paramBean.apiKey := expand(paramBean.apiKey);
    paramBean.scanDir := expand(paramBean.scanDir);
    outcome, requests := Publish(Params(paramBean.host, paramBean.apiKey, paramBean.scanDir, paramBean.projectId),
                                 expand, fs, response, parseInt);
  }

  /** UploadOutcome leaves no freedom: it fixes both the result and the requests of a run. */
  lemma UploadOutcomeDeterministic(p: Params, branch: string, buildUrl: string, fs: FileSystem,
                                   response: UploadResponse, parseInt: string -> Option<int>,
                                   o1: Outcome, r1: seq<Request>, o2: Outcome, r2: seq<Request>)
    requires UploadOutcome(p, branch, buildUrl, fs, response, parseInt, o1, r1)
    requires UploadOutcome(p, branch, buildUrl, fs, response, parseInt, o2, r2)
    ensures o1 == o2 && r1 == r2
  {
  }
}
