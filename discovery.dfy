/** Project discovery: the repository root is listed, its images become the
    "Root Images" project, and every directory with at least one image
    becomes a project of its own. The HTTP listing call is abstracted as an
    oracle from path to listing or error message. */
module Discovery {
  import opened Wrappers
  import opened Urls
  import opened Names

  datatype ItemKind = File | Dir | OtherKind(kind: string)

  /** One entry of a directory listing. */
  datatype ContentItem = ContentItem(
    name: string,
    path: string,
    kind: ItemKind,
    downloadUrl: Option<string>,
    url: string)

  /** A gallery project: a repository folder (`""` for the root) and its images. */
  datatype Project = Project(
    folder: string,
    title: string,
    description: Option<string>,
    images: seq<Image>)

  /** The directory-listing request for a path (`""` is the root): the
      entries in the order the service returns them (a body that is not an
      array already reads as no entries), or the message of the error the
      request threw. */
  type Listing = string -> Result<seq<ContentItem>, string>

  /** `Array.prototype.filter`. */
  function Filter(items: seq<ContentItem>, keep: ContentItem -> bool): (r: seq<ContentItem>)
    ensures |r| <= |items|
    ensures forall x :: x in r <==> x in items && keep(x)
  {
    if |items| == 0 then []
    else (if keep(items[0]) then [items[0]] else []) + Filter(items[1..], keep)
  }

  /** Filtering keeps the relative order: it distributes over concatenation. */
  lemma {:induction false} FilterConcat(a: seq<ContentItem>, b: seq<ContentItem>, keep: ContentItem -> bool)
    ensures Filter(a + b, keep) == Filter(a, keep) + Filter(b, keep)
  {
    if |a| > 0 {
      FilterConcat(a[1..], b, keep);
      assert (a + b)[1..] == a[1..] + b;
    } else {
      assert a + b == b;
    }
  }

  predicate IsImageEntry(item: ContentItem) {
    item.kind == File && IsImageFile(item.name)
  }

  predicate IsDirectory(item: ContentItem) {
    item.kind == Dir
  }

  /** The image record made for a listed image file. */
  function ToImage(item: ContentItem): Image {
    Image(None, Some(ImageTitle(item.name)), None, Some(item.name))
  }

  /** The images of a listing: its image files, in listing order. */
  function ImagesOf(items: seq<ContentItem>): seq<Image> {
    var entries := Filter(items, IsImageEntry);
    seq(|entries|, k requires 0 <= k < |entries| => ToImage(entries[k]))
  }

  /** The images of a listing are exactly the image records of its image
      files, and there is one exactly when the listing holds an image file. */
  lemma ImagesOfSpec(items: seq<ContentItem>)
    ensures forall im :: im in ImagesOf(items) <==> exists item :: item in items && IsImageEntry(item) && im == ToImage(item)
    ensures |ImagesOf(items)| > 0 <==> exists item :: item in items && IsImageEntry(item)
    ensures |ImagesOf(items)| <= |items|
  {
    var entries := Filter(items, IsImageEntry);
    forall im | im in ImagesOf(items)
      ensures exists item :: item in items && IsImageEntry(item) && im == ToImage(item)
    {
      var k :| 0 <= k < |entries| && ImagesOf(items)[k] == im;
      assert entries[k] in entries;
    }
    forall item | item in items && IsImageEntry(item)
      ensures ToImage(item) in ImagesOf(items)
    {
      var k :| 0 <= k < |entries| && entries[k] == item;
      assert ImagesOf(items)[k] == ToImage(item);
    }
    if exists item :: item in items && IsImageEntry(item) {
      var item :| item in items && IsImageEntry(item);
      assert ToImage(item) in ImagesOf(items);
    }
    if |ImagesOf(items)| > 0 {
      assert entries[0] in entries;
    }
  }

  /** Image order follows listing order. */
  lemma ImagesOfConcat(a: seq<ContentItem>, b: seq<ContentItem>)
    ensures ImagesOf(a + b) == ImagesOf(a) + ImagesOf(b)
  {
    FilterConcat(a, b, IsImageEntry);
  }

  lemma ImagesOfSingle(item: ContentItem)
    ensures ImagesOf([item]) == if IsImageEntry(item) then [ToImage(item)] else []
  {
    assert [item][1..] == [];
  }

  const RootTitle := "Root Images"
  const RootDescription := "Images in repository root"

  /** The root project, when the root listing holds any image. */
  function RootProjects(root: seq<ContentItem>): seq<Project> {
    var images := ImagesOf(root);
    if |images| > 0 then [Project("", RootTitle, Some(RootDescription), images)] else []
  }

  /** The project made for one root directory: none when its listing fails
      or holds no image. Listing uses the directory's path, the project's
      folder is its name. */
  function DirectoryProject(dir: ContentItem, list: Listing): Option<Project> {
    match list(dir.path)
    case Err(_) => None
    case Ok(items) =>
      var images := ImagesOf(items);
      if |images| > 0 then Some(Project(dir.name, ProjectTitle(dir.name), None, images)) else None
  }

  function AsSeq(o: Option<Project>): seq<Project> {
    match o
    case Some(p) => [p]
    case None => []
  }

  /** The directory projects, in the order of the directories. */
  function DirectoryProjects(dirs: seq<ContentItem>, list: Listing): seq<Project> {
    if |dirs| == 0 then []
    else DirectoryProjects(dirs[..|dirs| - 1], list) + AsSeq(DirectoryProject(dirs[|dirs| - 1], list))
  }

  /** `discoverProjects` as a value: a failed root listing fails the whole
      discovery with the same message; otherwise the root project (if any)
      followed by the directory projects. */
  function Discover(list: Listing): (r: Result<seq<Project>, string>)
    ensures r.Err? <==> list("").Err?
    ensures r.Err? ==> r.error == list("").error
  {
    match list("")
    case Err(msg) => Err(msg)
    case Ok(root) => Ok(RootProjects(root) + DirectoryProjects(Filter(root, IsDirectory), list))
  }

  /** `discoverProjects`: the root listing, then one listing per directory,
      one at a time, each failure of a directory listing caught and skipped. */
  method DiscoverProjects(list: Listing) returns (r: Result<seq<Project>, string>)
    ensures r == Discover(list)
  {
    var rootContents := list("");
    if rootContents.Err? {
      return Err(rootContents.error);
    }
    var root := rootContents.value;
    var projects: seq<Project> := [];
    var rootImages := ImagesOf(root);
    if |rootImages| > 0 {
      projects := projects + [Project("", RootTitle, Some(RootDescription), rootImages)];
    }
    assert projects == RootProjects(root);
    var directories := Filter(root, IsDirectory);
    projects := AddDirectoryProjects(projects, directories, list);
    r := Ok(projects);
  }

  method AddDirectoryProjects(projects0: seq<Project>, directories: seq<ContentItem>, list: Listing)
    returns (projects: seq<Project>)
    ensures projects == projects0 + DirectoryProjects(directories, list)
  {
    projects := projects0;
    for i := 0 to |directories|
      invariant projects == projects0 + DirectoryProjects(directories[..i], list)
    {
      var project := ProjectForDirectory(directories[i], list);
      if project.Some? {
        projects := projects + [project.value];
      }
      DirectoryProjectsStep(directories, i, list);
    }
    assert directories[..|directories|] == directories;
  }

  /** One pass of the loop over directories: list the directory; a failed
      listing yields nothing, and so does a listing without images. */
  method ProjectForDirectory(dir: ContentItem, list: Listing) returns (project: Option<Project>)
    ensures project == DirectoryProject(dir, list)
  {
    var folderContents := list(dir.path);
    if folderContents.Err? {
      return None;
    }
    var images := ImagesOf(folderContents.value);
    if |images| > 0 {
      project := Some(Project(dir.name, ProjectTitle(dir.name), None, images));
    } else {
      project := None;
    }
  }

  lemma DirectoryProjectsStep(dirs: seq<ContentItem>, i: int, list: Listing)
    requires 0 <= i < |dirs|
    ensures DirectoryProjects(dirs[..i + 1], list)
      == DirectoryProjects(dirs[..i], list) + AsSeq(DirectoryProject(dirs[i], list))
  {
    assert dirs[..i + 1][..i] == dirs[..i];
  }

  /** Directory projects keep directory order: they distribute over concatenation. */
  lemma {:induction false} DirectoryProjectsConcat(a: seq<ContentItem>, b: seq<ContentItem>, list: Listing)
    ensures DirectoryProjects(a + b, list) == DirectoryProjects(a, list) + DirectoryProjects(b, list)
  {
    if |b| == 0 {
      assert a + b == a;
    } else {
      var b' := b[..|b| - 1];
      DirectoryProjectsConcat(a, b', list);
      assert (a + b)[..|a + b| - 1] == a + b';
      assert (a + b)[|a + b| - 1] == b[|b| - 1];
    }
  }

  /** A project comes out of the directories exactly when one of them yields it. */
  lemma {:induction false} DirectoryProjectsMembership(dirs: seq<ContentItem>, list: Listing, p: Project)
    ensures p in DirectoryProjects(dirs, list) <==>
      exists i :: 0 <= i < |dirs| && DirectoryProject(dirs[i], list) == Some(p)
  {
    if |dirs| > 0 {
      var init := dirs[..|dirs| - 1];
      DirectoryProjectsMembership(init, list, p);
      if p in DirectoryProjects(init, list) {
        var i :| 0 <= i < |init| && DirectoryProject(init[i], list) == Some(p);
        assert dirs[i] == init[i];
      }
      if exists i :: 0 <= i < |dirs| && DirectoryProject(dirs[i], list) == Some(p) {
        var i :| 0 <= i < |dirs| && DirectoryProject(dirs[i], list) == Some(p);
        if i < |dirs| - 1 {
          assert init[i] == dirs[i];
        }
      }
    }
  }

  /** A directory that yields no project (its listing failed, or it holds no
      image) can be dropped without changing the result. */
  lemma SkippedDirectory(dirs: seq<ContentItem>, i: int, list: Listing)
    requires 0 <= i < |dirs| && DirectoryProject(dirs[i], list).None?
    ensures DirectoryProjects(dirs, list) == DirectoryProjects(dirs[..i] + dirs[i + 1..], list)
  {
    var a, d, b := dirs[..i], [dirs[i]], dirs[i + 1..];
    calc {
      DirectoryProjects(dirs, list);
      { PickApart(dirs, i); }
      DirectoryProjects((a + d) + b, list);
      { DirectoryProjectsConcat(a + d, b, list); }
      DirectoryProjects(a + d, list) + DirectoryProjects(b, list);
      { DirectoryProjectsConcat(a, d, list); DirectoryProjectsSingle(dirs[i], list); }
      DirectoryProjects(a, list) + DirectoryProjects(b, list);
      { DirectoryProjectsConcat(a, b, list); }
      DirectoryProjects(a + b, list);
    }
  }

  lemma PickApart(s: seq<ContentItem>, i: int)
    requires 0 <= i < |s|
    ensures s == (s[..i] + [s[i]]) + s[i + 1..]
  {
  }

  lemma DirectoryProjectsSingle(dir: ContentItem, list: Listing)
    ensures DirectoryProjects([dir], list) == AsSeq(DirectoryProject(dir, list))
  {
    assert [dir][..0] == [];
  }

  /** Two listings that agree on every directory's path give the same directory projects. */
  lemma {:induction false} DirectoryProjectsLocal(dirs: seq<ContentItem>, list1: Listing, list2: Listing)
    requires forall i :: 0 <= i < |dirs| ==> list1(dirs[i].path) == list2(dirs[i].path)
    ensures DirectoryProjects(dirs, list1) == DirectoryProjects(dirs, list2)
  {
    if |dirs| > 0 {
      DirectoryProjectsLocal(dirs[..|dirs| - 1], list1, list2);
    }
  }

  /** The listing `list` changed so that the request for `path` throws `msg`. */
  function FailingAt(list: Listing, path: string, msg: string): Listing {
    p => if p == path then Err(msg) else list(p)
  }

  /** When the listing of one directory fails, that directory contributes
      nothing and every other directory contributes what it did before. */
  lemma FailureIsolated(dirs: seq<ContentItem>, i: int, list: Listing, msg: string)
    requires 0 <= i < |dirs|
    requires forall j :: 0 <= j < |dirs| && j != i ==> dirs[j].path != dirs[i].path
    ensures DirectoryProjects(dirs, FailingAt(list, dirs[i].path, msg))
      == DirectoryProjects(dirs[..i], list) + DirectoryProjects(dirs[i + 1..], list)
  {
    var failing := FailingAt(list, dirs[i].path, msg);
    SkippedDirectory(dirs, i, failing);
    var rest := dirs[..i] + dirs[i + 1..];
    forall j | 0 <= j < |rest|
      ensures failing(rest[j].path) == list(rest[j].path)
    {
      if j < i {
        assert rest[j] == dirs[j];
      } else {
        assert rest[j] == dirs[j + 1];
      }
    }
    DirectoryProjectsLocal(rest, failing, list);
    DirectoryProjectsConcat(dirs[..i], dirs[i + 1..], list);
  }

  /** What a successful discovery returns: every project has at least one
      image; the root project (folder `""`, title "Root Images") comes first
      exactly when the root holds an image; every other project is the one
      made for some root directory. */
  lemma DiscoverSpec(list: Listing)
    requires Discover(list).Ok?
    ensures var ps := Discover(list).value;
      var root := list("").value;
      && (forall p :: p in ps ==> |p.images| > 0)
      && ((|ps| > 0 && ps[0].folder == "" && ps[0].title == RootTitle) <==> |ImagesOf(root)| > 0)
      && (|ImagesOf(root)| > 0 ==> ps[0].images == ImagesOf(root))
      && forall k :: 0 <= k < |ps| && (k > 0 || |ImagesOf(root)| == 0) ==>
           exists d :: d in root && IsDirectory(d) && DirectoryProject(d, list) == Some(ps[k])
  {
    var root := list("").value;
    var dirs := Filter(root, IsDirectory);
    var rootPs := RootProjects(root);
    var dirPs := DirectoryProjects(dirs, list);
    var ps := Discover(list).value;
    assert ps == rootPs + dirPs;
    forall k | 0 <= k < |ps| && (k > 0 || |ImagesOf(root)| == 0)
      ensures exists d :: d in root && IsDirectory(d) && DirectoryProject(d, list) == Some(ps[k])
      ensures |ps[k].images| > 0
    {
      var j := k - |rootPs|;
      assert 0 <= j < |dirPs| && ps[k] == dirPs[j];
      var i := DirectoryProjectAt(dirs, list, j);
      assert dirs[i] in dirs;
    }
    if |dirPs| > 0 && |rootPs| == 0 {
      var _ := DirectoryProjectAt(dirs, list, 0);
    }
  }

  /** Directory project `k` is the one made for some directory `i`, so it
      has an image and does not look like the root project. */
  lemma DirectoryProjectAt(dirs: seq<ContentItem>, list: Listing, k: int) returns (i: int)
    requires 0 <= k < |DirectoryProjects(dirs, list)|
    ensures var p := DirectoryProjects(dirs, list)[k];
      && 0 <= i < |dirs| && DirectoryProject(dirs[i], list) == Some(p)
      && p.images != [] && (p.folder == "" ==> p.title == "")
  {
    var ps := DirectoryProjects(dirs, list);
    assert ps[k] in ps;
    DirectoryProjectsMembership(dirs, list, ps[k]);
    i :| 0 <= i < |dirs| && DirectoryProject(dirs[i], list) == Some(ps[k]);
    ProjectTitleSpec(dirs[i].name);
  }

  /** Every discovered image is addressed by file name alone (no `src`), the
      file name is an image file name, and resolving it against its
      project's folder gives `BuildGitHubUrl(cfg, folder, name)`. That is the
      listed file's raw URL only when the base path is empty: the listing
      never looks at the base path (see `Urls.BasePathInUrl`). */
  lemma DiscoveredImagesResolve(cfg: GitHubConfig, list: Listing)
    requires Discover(list).Ok?
    ensures forall p, im :: p in Discover(list).value && im in p.images ==>
      && !Truthy(im.src) && Truthy(im.filename) && IsImageFile(im.filename.value)
      && BuildImageSrc(cfg, im, Some(p.folder)) == BuildGitHubUrl(cfg, p.folder, im.filename.value)
  {
    var root := list("").value;
    var dirs := Filter(root, IsDirectory);
    forall p, im | p in Discover(list).value && im in p.images
      ensures && !Truthy(im.src) && Truthy(im.filename) && IsImageFile(im.filename.value)
    {
      var items: seq<ContentItem>;
      if p in RootProjects(root) {
        items := root;
      } else {
        DirectoryProjectsMembership(dirs, list, p);
        var i :| 0 <= i < |dirs| && DirectoryProject(dirs[i], list) == Some(p);
        items := list(dirs[i].path).value;
      }
      assert p.images == ImagesOf(items);
      ImagesOfSpec(items);
      var item :| item in items && IsImageEntry(item) && im == ToImage(item);
      if item.name == "" {
        NotImageFile(item.name);
      }
    }
  }
}
