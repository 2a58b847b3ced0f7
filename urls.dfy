/** Where a gallery image is loaded from: the raw-content URL builder and the
    resolver that picks between an explicit `src`, a repository file and a
    bare file name. */
module Urls {
  import opened Wrappers
  import opened Text

  /** The repository coordinates; `branch` and `basePath` may be left undefined. */
  datatype GitHubConfig = GitHubConfig(
    owner: string,
    repo: string,
    branch: Option<string>,
    basePath: Option<string>)

  /** The configuration the gallery ships with. */
  const Config := GitHubConfig("mokumus", "3D-Projects", Some("main"), Some(""))

  /** Destructuring defaults: they apply only when the field is undefined. */
  function Branch(cfg: GitHubConfig): string { cfg.branch.GetOr("main") }
  function BasePath(cfg: GitHubConfig): string { cfg.basePath.GetOr("") }

  const RawHost := "https://raw.githubusercontent.com/"

  /** Everything before the path: host, owner, repository and branch, each followed by `/`. */
  function RawPrefix(cfg: GitHubConfig): string {
    RawHost + cfg.owner + "/" + cfg.repo + "/" + Branch(cfg) + "/"
  }

  /** `parts.filter(Boolean)` on strings: drops the empty ones, keeps the order. */
  function NonEmpty(parts: seq<string>): (r: seq<string>)
    ensures forall k :: 0 <= k < |r| ==> r[k] != ""
    ensures forall p :: p in r <==> p in parts && p != ""
    ensures |r| <= |parts|
  {
    if |parts| == 0 then []
    else if parts[0] == "" then NonEmpty(parts[1..])
    else [parts[0]] + NonEmpty(parts[1..])
  }

  /** `filter(Boolean)` keeps order and duplicates: it distributes over concatenation. */
  lemma {:induction false} NonEmptyConcat(a: seq<string>, b: seq<string>)
    ensures NonEmpty(a + b) == NonEmpty(a) + NonEmpty(b)
  {
    if |a| > 0 {
      NonEmptyConcat(a[1..], b);
      assert (a + b)[1..] == a[1..] + b;
    } else {
      assert a + b == b;
    }
  }

  /** The three path components the URL is made of, before filtering. */
  function PathParts(cfg: GitHubConfig, folder: string, filename: string): seq<string> {
    [BasePath(cfg), folder, filename]
  }

  /** `buildGitHubUrl`, with the module-level configuration passed as `cfg`. */
  function BuildGitHubUrl(cfg: GitHubConfig, folder: string, filename: string): string {
    RawPrefix(cfg) + Join(NonEmpty(PathParts(cfg, folder, filename)), "/")
  }

  /** The URL is the raw prefix followed by a path whose `/`-separated
      segments are exactly the non-empty components, in order: an empty base
      path or folder leaves no empty segment (no `//`). */
  lemma UrlSegments(cfg: GitHubConfig, folder: string, filename: string)
    requires filename != ""
    requires '/' !in BasePath(cfg) && '/' !in folder && '/' !in filename
    ensures var url := BuildGitHubUrl(cfg, folder, filename);
      && StartsWith(url, RawPrefix(cfg))
      && Split(url[|RawPrefix(cfg)|..], '/') == NonEmpty(PathParts(cfg, folder, filename))
      && forall seg :: seg in Split(url[|RawPrefix(cfg)|..], '/') ==> seg != ""
  {
    var parts := NonEmpty(PathParts(cfg, folder, filename));
    assert filename in parts;
    var url := BuildGitHubUrl(cfg, folder, filename);
    assert url[|RawPrefix(cfg)|..] == Join(parts, "/");
    assert forall k :: 0 <= k < |parts| ==> parts[k] in PathParts(cfg, folder, filename);
    SplitJoin(parts, '/');
  }

  /** With the shipped configuration (empty base path), the URL is
      prefix/folder/filename, or prefix/filename for the root folder. */
  lemma ShippedUrl(folder: string, filename: string)
    requires filename != ""
    ensures folder != "" ==>
      BuildGitHubUrl(Config, folder, filename)
        == "https://raw.githubusercontent.com/mokumus/3D-Projects/main/" + folder + "/" + filename
    ensures folder == "" ==>
      BuildGitHubUrl(Config, folder, filename)
        == "https://raw.githubusercontent.com/mokumus/3D-Projects/main/" + filename
  {
    var parts := PathParts(Config, folder, filename);
    assert parts == ["", folder, filename];
    assert parts[1..] == [folder, filename];
    assert parts[1..][1..] == [filename];
    assert NonEmpty([filename]) == [filename];
    ShippedPrefix();
    if folder == "" {
      assert NonEmpty(parts) == [filename];
    } else {
      assert NonEmpty(parts) == [folder] + [filename];
      assert Join([folder, filename], "/") == folder + "/" + filename;
    }
  }

  /** A non-empty base path always leads the URL's path, also for the root
      folder `""`; the directory listings the gallery is built from do not
      include it. */
  lemma BasePathInUrl(cfg: GitHubConfig, filename: string)
    requires BasePath(cfg) != "" && filename != ""
    ensures BuildGitHubUrl(cfg, "", filename) == RawPrefix(cfg) + BasePath(cfg) + "/" + filename
  {
    var parts := PathParts(cfg, "", filename);
    assert parts == [BasePath(cfg)] + ([""] + [filename]);
    NonEmptyConcat([BasePath(cfg)], [""] + [filename]);
    NonEmptyConcat([""], [filename]);
    assert NonEmpty([BasePath(cfg)]) == [BasePath(cfg)];
    assert NonEmpty([""]) == [];
    assert NonEmpty([filename]) == [filename];
    assert NonEmpty(parts) == [BasePath(cfg), filename];
    assert Join([BasePath(cfg), filename], "/") == BasePath(cfg) + "/" + filename;
  }

  lemma ShippedPrefix()
    ensures RawPrefix(Config) == "https://raw.githubusercontent.com/mokumus/3D-Projects/main/"
  {
  }

  /** An image record: either an explicit `src`, or a `filename` resolved
      against the folder of the project it belongs to. */
  datatype Image = Image(
    src: Option<string>,
    title: Option<string>,
    description: Option<string>,
    filename: Option<string>)

  /** JavaScript truthiness of an optional string: present and non-empty. */
  predicate Truthy(o: Option<string>) { o.Some? && o.value != "" }

  predicate IsAbsoluteUrl(s: string) {
    StartsWith(s, "http://") || StartsWith(s, "https://")
  }

  /** `buildImageSrc`: the first of five cases that applies decides the result. */
  function BuildImageSrc(cfg: GitHubConfig, image: Image, projectFolder: Option<string>): string {
    if Truthy(image.src) then
      var src := image.src.value;
      if IsAbsoluteUrl(src) then src
      else if StartsWith(src, "/") then src
      else "/" + src
    else if Truthy(image.filename) && projectFolder.Some? then
      BuildGitHubUrl(cfg, projectFolder.value, image.filename.value)
    else if Truthy(image.filename) then
      image.filename.value
    else
      ""
  }

  /** A non-empty `src` decides alone: neither the file name nor the folder
      is looked at. An absolute URL comes back unchanged; anything else comes
      back as a root-relative path, `src` with a `/` added in front when it
      had none. */
  lemma SrcDecides(cfg: GitHubConfig, image: Image, folder: Option<string>,
                   otherFilename: Option<string>, otherFolder: Option<string>)
    requires Truthy(image.src)
    ensures BuildImageSrc(cfg, image, folder)
      == BuildImageSrc(cfg, image.(filename := otherFilename), otherFolder)
    ensures var r := BuildImageSrc(cfg, image, folder);
      && (IsAbsoluteUrl(image.src.value) ==> r == image.src.value)
      && (!IsAbsoluteUrl(image.src.value) ==>
            StartsWith(r, "/") && (if StartsWith(image.src.value, "/") then r == image.src.value
                                   else r == "/" + image.src.value))
  {
  }

  /** Resolving is idempotent: feeding a resolved `src` back in returns it unchanged. */
  lemma SrcResolutionIdempotent(cfg: GitHubConfig, image: Image, folder: Option<string>,
                                otherFolder: Option<string>)
    requires Truthy(image.src)
    ensures var r := BuildImageSrc(cfg, image, folder);
      BuildImageSrc(cfg, image.(src := Some(r)), otherFolder) == r
  {
    var src := image.src.value;
    var r := BuildImageSrc(cfg, image, folder);
    if !IsAbsoluteUrl(src) && !StartsWith(src, "/") {
      assert r == "/" + src && r[0] == '/';
      assert !StartsWith(r, "http://") && !StartsWith(r, "https://");
    }
  }

  /** Without a `src`, a non-empty file name is resolved against the folder
      when one is given (the root folder `""` included), and returned as it
      is otherwise. */
  lemma FilenameResolution(cfg: GitHubConfig, image: Image, folder: Option<string>)
    requires !Truthy(image.src) && Truthy(image.filename)
    ensures folder.Some? ==>
      BuildImageSrc(cfg, image, folder) == BuildGitHubUrl(cfg, folder.value, image.filename.value)
    ensures folder.None? ==> BuildImageSrc(cfg, image, folder) == image.filename.value
  {
  }

  /** The result is empty exactly when the record has neither a `src` nor a file name. */
  lemma UnresolvedIffNoAddress(cfg: GitHubConfig, image: Image, folder: Option<string>)
    ensures BuildImageSrc(cfg, image, folder) == "" <==> !Truthy(image.src) && !Truthy(image.filename)
  {
    if Truthy(image.src) {
      var src := image.src.value;
      if !IsAbsoluteUrl(src) && !StartsWith(src, "/") {
        assert |"/" + src| > 0;
      }
    } else if Truthy(image.filename) && folder.Some? {
      assert |RawPrefix(cfg)| > 0;
    }
  }
}
