/** The state the gallery view binds to (`useImages`): the project list, the
    loading flag and the error message, the `fetchProjects` action that
    refreshes them, and the flattened image list used to step through every
    image in order. Reactive wrappers are plain fields here. */
module Gallery {
  import opened Wrappers
  import opened Urls
  import opened Names
  import opened Discovery

  /** An image of the flattened list: the image's own fields, spread, plus
      the folder and title of the project it belongs to. */
  datatype FlatImage = FlatImage(
    src: Option<string>,
    title: Option<string>,
    description: Option<string>,
    filename: Option<string>,
    projectFolder: string,
    projectTitle: string)

  function Tag(image: Image, project: Project): FlatImage {
    FlatImage(image.src, image.title, image.description, image.filename, project.folder, project.title)
  }

  /** The image record a flattened entry was made from. */
  function ImageOf(flat: FlatImage): Image {
    Image(flat.src, flat.title, flat.description, flat.filename)
  }

  /** The images of one project, each tagged with the project. */
  function Tagged(project: Project): seq<FlatImage> {
    seq(|project.images|, k requires 0 <= k < |project.images| => Tag(project.images[k], project))
  }

  /** The flattened list: every project's tagged images, in project order. */
  function Flatten(projects: seq<Project>): seq<FlatImage> {
    if |projects| == 0 then []
    else Flatten(projects[..|projects| - 1]) + Tagged(projects[|projects| - 1])
  }

  /** The total number of images over all projects. */
  function ImageCount(projects: seq<Project>): nat {
    if |projects| == 0 then 0
    else ImageCount(projects[..|projects| - 1]) + |projects[|projects| - 1].images|
  }

  /** Image `j` of project `i` sits in `flat` after all images of the
      earlier projects, with its own fields unchanged and the folder and
      title of its project. */
  predicate PlacedAt(projects: seq<Project>, flat: seq<FlatImage>, i: int, j: int)
    requires 0 <= i < |projects| && 0 <= j < |projects[i].images|
  {
    var k := ImageCount(projects[..i]) + j;
    && k < |flat|
    && ImageOf(flat[k]) == projects[i].images[j]
    && flat[k].projectFolder == projects[i].folder
    && flat[k].projectTitle == projects[i].title
  }

  /** The flattened list holds one entry per image, each in its place. */
  lemma {:induction false} FlattenSpec(projects: seq<Project>)
    ensures |Flatten(projects)| == ImageCount(projects)
    ensures forall i, j :: 0 <= i < |projects| && 0 <= j < |projects[i].images| ==>
      PlacedAt(projects, Flatten(projects), i, j)
  {
    if |projects| > 0 {
      var n := |projects| - 1;
      var init := projects[..n];
      FlattenSpec(init);
      var flat := Flatten(projects);
      assert flat == Flatten(init) + Tagged(projects[n]);
      forall i, j | 0 <= i < |projects| && 0 <= j < |projects[i].images|
        ensures PlacedAt(projects, flat, i, j)
      {
        if i < n {
          PlacedInPrefix(projects, i, j);
        } else {
          assert projects[..i] == init;
          assert flat[ImageCount(init) + j] == Tagged(projects[n])[j];
        }
      }
    }
  }

  lemma PlacedInPrefix(projects: seq<Project>, i: int, j: int)
    requires 0 <= i < |projects| - 1 && 0 <= j < |projects[i].images|
    requires |Flatten(projects[..|projects| - 1])| == ImageCount(projects[..|projects| - 1])
    requires PlacedAt(projects[..|projects| - 1], Flatten(projects[..|projects| - 1]), i, j)
    ensures PlacedAt(projects, Flatten(projects), i, j)
  {
    var init := projects[..|projects| - 1];
    assert init[..i] == projects[..i];
    assert init[i] == projects[i];
    ImageCountMonotone(init, i);
    assert Flatten(projects) == Flatten(init) + Tagged(projects[|projects| - 1]);
  }

  /** Earlier projects hold no more images than the whole list before position `i + 1`. */
  lemma {:induction false} ImageCountMonotone(projects: seq<Project>, i: int)
    requires 0 <= i < |projects|
    ensures ImageCount(projects[..i]) + |projects[i].images| <= ImageCount(projects)
  {
    var n := |projects| - 1;
    assert projects[..n][..i] == projects[..i];
    if i < n {
      ImageCountMonotone(projects[..n], i);
      assert projects[..n][i] == projects[i];
    } else {
      assert projects[..n] == projects[..i];
    }
  }

  /** When every project has an image, there are at least as many images as projects. */
  lemma {:induction false} ImageCountCoversProjects(projects: seq<Project>)
    ensures (forall p :: p in projects ==> |p.images| > 0) ==> ImageCount(projects) >= |projects|
  {
    if |projects| > 0 && forall p :: p in projects ==> |p.images| > 0 {
      var n := |projects| - 1;
      ImageCountCoversProjects(projects[..n]);
      assert forall p :: p in projects[..n] ==> p in projects;
      assert projects[n] in projects;
    }
  }

  /** The message shown for a failed fetch: the error's own message, or a
      fixed text when that is empty. */
  const FallbackMessage := "Failed to fetch projects from GitHub"

  function ErrorMessage(msg: string): (r: string)
    ensures r != ""
    ensures msg != "" ==> r == msg
    ensures msg == "" ==> r == FallbackMessage
  {
    if msg == "" then FallbackMessage else msg
  }

  /** A root with one image file and two folders, one holding two images
      and one holding none, yields exactly two projects: "Root Images" with
      the one image, and the first folder's project with its two images. */
  lemma RootAndTwoFolders(list: Listing, cover: ContentItem, full: ContentItem, empty: ContentItem,
                          x: ContentItem, y: ContentItem, others: seq<ContentItem>)
    requires list("") == Ok([cover, full, empty])
    requires IsImageEntry(cover) && IsDirectory(full) && IsDirectory(empty)
    requires list(full.path) == Ok([x, y]) && IsImageEntry(x) && IsImageEntry(y)
    requires list(empty.path) == Ok(others)
    requires forall o :: o in others ==> !IsImageEntry(o)
    ensures Discover(list) == Ok([
      Project("", RootTitle, Some(RootDescription), [ToImage(cover)]),
      Project(full.name, ProjectTitle(full.name), None, [ToImage(x), ToImage(y)])])
  {
    var root := [cover, full, empty];
    ThreeEntryRoot(cover, full, empty);
    var rootProject := Project("", RootTitle, Some(RootDescription), [ToImage(cover)]);
    var dirProject := Project(full.name, ProjectTitle(full.name), None, [ToImage(x), ToImage(y)]);
    assert RootProjects(root) == [rootProject];
    TwoFolders(list, full, empty, x, y, others);
    TwoProjects(list, root, rootProject, dirProject);
  }

  lemma TwoProjects(list: Listing, root: seq<ContentItem>, rootProject: Project, dirProject: Project)
    requires list("") == Ok(root)
    requires RootProjects(root) == [rootProject]
    requires DirectoryProjects(Filter(root, IsDirectory), list) == [dirProject]
    ensures Discover(list) == Ok([rootProject, dirProject])
  {
    assert [rootProject] + [dirProject] == [rootProject, dirProject];
  }

  lemma TwoFolders(list: Listing, full: ContentItem, empty: ContentItem,
                   x: ContentItem, y: ContentItem, others: seq<ContentItem>)
    requires list(full.path) == Ok([x, y]) && IsImageEntry(x) && IsImageEntry(y)
    requires list(empty.path) == Ok(others)
    requires forall o :: o in others ==> !IsImageEntry(o)
    ensures DirectoryProjects([full, empty], list)
      == [Project(full.name, ProjectTitle(full.name), None, [ToImage(x), ToImage(y)])]
  {
    TwoImages(x, y);
    ImagesOfSpec(others);
    assert DirectoryProject(empty, list).None?;
    assert [full, empty][..1] == [full];
    DirectoryProjectsSingle(full, list);
  }

  lemma ThreeEntryRoot(cover: ContentItem, full: ContentItem, empty: ContentItem)
    requires IsImageEntry(cover) && IsDirectory(full) && IsDirectory(empty)
    ensures ImagesOf([cover, full, empty]) == [ToImage(cover)]
    ensures Filter([cover, full, empty], IsDirectory) == [full, empty]
  {
    assert [cover, full, empty] == [cover] + ([full] + [empty]);
    ImagesOfConcat([cover], [full] + [empty]);
    ImagesOfConcat([full], [empty]);
    ImagesOfSingle(cover);
    ImagesOfSingle(full);
    ImagesOfSingle(empty);
    FilterCons(cover, [full] + [empty], IsDirectory);
    FilterCons(full, [empty], IsDirectory);
    FilterCons(empty, [], IsDirectory);
    assert [empty] + [] == [empty];
  }

  lemma TwoImages(x: ContentItem, y: ContentItem)
    requires IsImageEntry(x) && IsImageEntry(y)
    ensures ImagesOf([x, y]) == [ToImage(x), ToImage(y)]
  {
    assert [x, y] == [x] + [y];
    ImagesOfConcat([x], [y]);
    ImagesOfSingle(x);
    ImagesOfSingle(y);
  }

  lemma FilterCons(x: ContentItem, rest: seq<ContentItem>, keep: ContentItem -> bool)
    ensures Filter([x] + rest, keep) == (if keep(x) then [x] else []) + Filter(rest, keep)
  {
    assert ([x] + rest)[1..] == rest;
  }

  class ImageStore {
    var projects: seq<Project>
    var loading: bool
    var error: Option<string>

    /** Every project held has an image, and an error leaves no projects behind. */
    ghost predicate Valid()
      reads this
    {
      && (forall p :: p in projects ==> |p.images| > 0)
      && (error.Some? ==> projects == [] && error.value != "")
    }

    /** The initial state: no projects yet, loading, no error. */
    constructor ()
      ensures Valid()
      ensures projects == [] && loading && error == None
    {
      projects := [];
      loading := true;
      error := None;
    }

    /** `fetchProjects`: discovery replaces the project list wholesale; a
        failure empties it and records the message; loading always ends. */
    method FetchProjects(list: Listing)
      modifies this
      ensures Valid()
      ensures !loading
      ensures Discover(list).Ok? ==> projects == Discover(list).value && error == None
      ensures Discover(list).Err? ==>
        projects == [] && error == Some(ErrorMessage(Discover(list).error))
    {
      loading := true;
      error := None;
      var discovered := DiscoverProjects(list);
      match discovered {
        case Ok(ps) =>
          DiscoverSpec(list);
          projects := ps;
        case Err(msg) =>
          error := Some(ErrorMessage(msg));
          projects := [];
      }
      loading := false;
    }

    /** `allImages`: the projects' images pushed one by one, project by project. */
    method AllImages() returns (flat: seq<FlatImage>)
      ensures flat == Flatten(projects)
      ensures Valid() ==> |flat| >= |projects|
    {
      flat := [];
      for i := 0 to |projects|
        invariant flat == Flatten(projects[..i])
      {
        var project := projects[i];
        for j := 0 to |project.images|
          invariant flat == Flatten(projects[..i]) + Tagged(project)[..j]
        {
          flat := flat + [Tag(project.images[j], project)];
        }
        assert projects[..i + 1][..i] == projects[..i];
        assert Tagged(project)[..|project.images|] == Tagged(project);
      }
      assert projects[..|projects|] == projects;
      FlattenSpec(projects);
      ImageCountCoversProjects(projects);
    }
  }
}
