# NuxtBox gallery core, modelled in Dafny

NuxtBox is a Nuxt gallery for 3D-printing projects. All of its logic is in the
`useImages` composable. That composable lists a GitHub repository through the
contents API. Each top-level folder that holds image files becomes a
*project*, and image files at the root become a "Root Images" project. The
composable also builds the raw-content URL of each image and keeps the
reactive state the pages bind to:
- the project list;
- a loading flag;
- an error message;
- a flattened list of every image, used to step through the gallery.

This project models that composable and proves what it promises. The modules
follow its parts:

| file | module | models |
|---|---|---|
| `wrappers.dfy` | `Wrappers` | `Option` (an optional field or `undefined`) and `Result` (a value or a thrown error's message) |
| `text.dfy` | `Text` | ASCII case mapping, `startsWith`, `lastIndexOf`, `join`, and a `split` used to state what a URL path consists of |
| `urls.dfy` | `Urls` | the repository configuration, `buildGitHubUrl` and `buildImageSrc` |
| `names.dfy` | `Names` | `isImageFile`, the image title (`/\.[^/.]+$/` then `[-_]`) and the project title (`[-_]` then `\b\w` upper-cased) |
| `discovery.dfy` | `Discovery` | `discoverProjects`, over a listing oracle standing in for the contents API |
| `gallery.dfy` | `Gallery` | the state holder (`class ImageStore`): `fetchProjects`, and the `allImages` flattening |

## How the source is rendered

- **Pure parts become functions.**
  - `buildGitHubUrl`, `buildImageSrc`, `isImageFile` and the `replace` chains are functions.
  - Each has lemmas against an independent description, mostly in both directions:
    - `isImageFile` against "ends with an allowed extension, ignoring case";
    - `replace(/\.[^/.]+$/, '')` against the predicate "the pattern matches at `i`";
    - the `\b\w` scan against the pointwise "word start at `k`".
- **Where each source function lives.** Each function below is modelled by the Dafny function named, and its properties are the lemmas in the table under "## Model":
  - `buildGitHubUrl` (app/composables/useImages.ts:34-38) is `Urls.BuildGitHubUrl`;
  - `buildImageSrc` (44-66) is `Urls.BuildImageSrc`;
  - `isImageFile` (79-84) is `Names.IsImageFile`;
  - the image title (128, 161) is `Names.ImageTitle`;
  - the project title (171) is `Names.ProjectTitle`;
  - the body of one directory iteration (146-175) is specified by `Discovery.DirectoryProject`.
- **JavaScript truthiness.** An optional string is truthy when it is present and non-empty (`Urls.Truthy`).
- **The module-level configuration.** `githubConfig` is the constant `Urls.Config`. The URL functions take the configuration as a parameter.
  - `Urls.UrlSegments` holds for every configuration, folder and file name with no `/` in the base path, folder or file name and a non-empty file name (an empty one would leave an empty last segment).
  - A base path such as `a/` really does produce `//` in the URL; the shipped base path is empty.
- **The network.** `fetchGitHubContents` is the oracle `Discovery.Listing`, a function from a path to `Ok(entries)` or `Err(message)`.
  - A response that is not an array already reads as `Ok([])`.
  - A thrown error reads as `Err` with the error's message.
- **Discovery specification.** `discoverProjects` is specified by the function `Discovery.Discover`.
- **Discovery implementation.** Discovery is implemented step by step, as the source does it:
  - `Discovery.DiscoverProjects` requests the root listing and pushes the root project.
  - `Discovery.AddDirectoryProjects` is the `for … of` loop over the directories. Its invariant ties the array built so far to the specification.
  - `Discovery.ProjectForDirectory` is the body of one iteration, including the `catch` that skips a folder.
- **The state holder.** `useImages` is the class `Gallery.ImageStore`:
  - the `ref`s `projects`, `loading` and `error` become fields;
  - `fetchProjects` is the method `FetchProjects`;
  - the `computed` `allImages` is the method `AllImages`, with nested loops as in the source. It is proved equal to the function `Gallery.Flatten`, and `Gallery.FlattenSpec` says where every image lands.

## Model

| member | source | states |
|---|---|---|
| Text.ToLower | app/composables/useImages.ts:82 | lower-casing keeps the length, leaves no ASCII capital, turns each capital into the lower-case letter whose capital it is, and keeps every other character |
| Text.LastIndexOf | app/composables/useImages.ts:80 | the result is -1 or an index holding the character, and no later index holds it |
| Text.LastIndexOfUnique | app/composables/useImages.ts:80 | an occurrence with none after it is the one `lastIndexOf` finds |
| Text.SplitJoin | app/composables/useImages.ts:36-37 | joining slash-free parts with `/` and splitting at `/` gives the parts back |
| Urls.NonEmpty | app/composables/useImages.ts:36 | `filter(Boolean)` keeps exactly the non-empty parts and never lengthens the list |
| Urls.NonEmptyConcat | app/composables/useImages.ts:36 | `filter(Boolean)` keeps the parts' order and duplicates: it distributes over concatenation |
| Urls.UrlSegments | app/composables/useImages.ts:34-38 | the URL is the raw prefix followed by a path whose `/`-separated segments are exactly the non-empty ones among base path, folder and file name: no empty segment, no `//` |
| Urls.ShippedUrl | app/composables/useImages.ts:23-38 | with the shipped configuration the URL is `https://raw.githubusercontent.com/mokumus/3D-Projects/main/` then `folder/filename`, or just `filename` for the root folder |
| Urls.SrcDecides | app/composables/useImages.ts:44-52 | a non-empty `src` decides alone, whatever the file name and folder: an `http://` or `https://` URL is returned unchanged, anything else comes back starting with `/` (prefixed only when it lacked one) |
| Urls.SrcResolutionIdempotent | app/composables/useImages.ts:46-51 | a resolved `src` resolves to itself |
| Urls.FilenameResolution | app/composables/useImages.ts:54-62 | with no `src`, a non-empty file name gives the GitHub URL when a folder is given (`""` included) and the file name itself otherwise |
| Urls.UnresolvedIffNoAddress | app/composables/useImages.ts:44-66 | the result is `""` exactly when both `src` and `filename` are absent or empty |
| Names.IsImageFileIff | app/composables/useImages.ts:77-84 | `isImageFile` holds exactly when the lower-cased name ends with one of the seven allowed extensions |
| Names.NotImageFile | app/composables/useImages.ts:80-83 | a name without a dot, or ending in a dot, is not an image |
| Names.ImageFileExamples | app/composables/useImages.ts:77-84 | `photo.JPG` and `a.b.webp` are images; `file.`, `README` and `notes.txt` are not |
| Names.StripExtensionMatchesPattern | app/composables/useImages.ts:128 | the extension strip removes exactly the text `/\.[^/.]+$/` matches, and nothing when it matches nowhere |
| Names.ImageTitleSpec | app/composables/useImages.ts:161 | an image title is the name cut where the pattern matches (uncut otherwise), with every `-` and `_` made a space and every other character, case included, kept |
| Names.ImageTitleExamples | app/composables/useImages.ts:128 | `sunset-over_lake.jpg` gives `sunset over lake`, `a.b.jpg` gives `a.b`, `noext` and `x.` are unchanged |
| Names.CapitalizeFromSpec | app/composables/useImages.ts:171 | the left-to-right scan has the input's length and upper-cases exactly the word characters with no word character before them |
| Names.CapitalizeWordsSpec | app/composables/useImages.ts:171 | `replace(/\b\w/g, toUpperCase)` upper-cases exactly the positions where `\b\w` matches and keeps every other character |
| Names.ProjectTitleSpec | app/composables/useImages.ts:171 | a project title keeps the folder name's length; separators become spaces; word starts are upper-cased; all else is kept; no word of the title starts with a lower-case letter |
| Names.ProjectTitleExample | app/composables/useImages.ts:171 | `my-cool_project` gives `My Cool Project` |
| Discovery.Filter | app/composables/useImages.ts:141 | filtering keeps exactly the entries satisfying the test and never lengthens the list |
| Discovery.FilterConcat | app/composables/useImages.ts:121-122 | filtering keeps the listing's order (it distributes over concatenation) |
| Discovery.ImagesOfSpec | app/composables/useImages.ts:151-163 | a listing's images are exactly the records made from its `file` entries with image names, and there is one exactly when such an entry exists |
| Discovery.ImagesOfConcat | app/composables/useImages.ts:121-130 | images come out in listing order |
| Discovery.Discover | app/composables/useImages.ts:183-185 | discovery fails exactly when the root listing fails, with the root listing's message |
| Discovery.DiscoverProjects | app/composables/useImages.ts:112-189 | the step-by-step discovery returns exactly what the specification `Discover` gives |
| Discovery.AddDirectoryProjects | app/composables/useImages.ts:145-180 | the loop appends the directory projects, in directory order, to what was already pushed |
| Discovery.ProjectForDirectory | app/composables/useImages.ts:146-179 | the iteration computes exactly `DirectoryProject`: a project exactly when the listing requested by the directory's path succeeds and holds an image, with the directory's name as folder; the promises about it are `DirectoryProjectAt`, `DirectoryProjectsMembership`, `FailureIsolated` and `DirectoryProjectsLocal` |
| Discovery.DirectoryProjectsMembership | app/composables/useImages.ts:145-175 | a project is among the directory projects exactly when some directory yields it |
| Discovery.DirectoryProjectsConcat | app/composables/useImages.ts:141-145 | directory projects keep directory order (they distribute over concatenation) |
| Discovery.SkippedDirectory | app/composables/useImages.ts:167-179 | a folder that yields nothing can be removed without changing the result |
| Discovery.DirectoryProjectsLocal | app/composables/useImages.ts:147 | directory projects depend only on the listings of the directories' paths |
| Discovery.FailureIsolated | app/composables/useImages.ts:176-179 | when one folder's listing throws, that folder contributes nothing and every other folder contributes what it did before |
| Discovery.DirectoryProjectAt | app/composables/useImages.ts:168-174 | every directory project comes from one directory, has an image, and never carries the root's empty folder with a non-empty title |
| Discovery.DiscoverSpec | app/composables/useImages.ts:121-175 | every discovered project has an image; a project with folder `""` and title "Root Images" comes first exactly when the root holds an image, and then holds exactly the root's images; every other project is the project of some root directory |
| Discovery.DiscoveredImagesResolve | app/composables/useImages.ts:159-163 | every discovered image has no `src` and an image file name, and resolves to `buildGitHubUrl(folder, name)` with its project's folder; that is the listed file's raw URL when the base path is empty, as shipped |
| Urls.BasePathInUrl | app/composables/useImages.ts:35-37 | a non-empty base path leads the URL's path, also for a root image: `prefix + basePath + "/" + filename` |
| Gallery.RootAndTwoFolders | app/composables/useImages.ts:112-189 | a root with one image and two folders, one holding two images and one holding none, gives exactly the root project then the first folder's project |
| Gallery.ErrorMessage | app/composables/useImages.ts:207 | the shown message is the error's own message when that is non-empty, and exactly `Failed to fetch projects from GitHub` when it is empty |
| Gallery.ImageStore.constructor | app/composables/useImages.ts:193-195 | the state starts with no projects, loading, and no error |
| Gallery.ImageStore.FetchProjects | app/composables/useImages.ts:198-212 | loading always ends; success replaces the projects with the discovered list and clears the error; failure empties the projects and records the message (or the fixed fallback text); every held project has an image |
| Gallery.FlattenSpec | app/composables/useImages.ts:220-232 | the flattened list has one entry per image, and image `j` of project `i` sits after all images of earlier projects, its fields copied and tagged with its project's folder and title |
| Gallery.ImageStore.AllImages | app/composables/useImages.ts:221-231 | the nested loops build exactly the flattened list of the current projects; in a state where every project has an image, there are at least as many images as projects |
| Gallery.ImageCountCoversProjects | app/composables/useImages.ts:220-232 | when every project has an image, the total number of images is at least the number of projects |

## Left out

- `fetchGitHubContents` (app/composables/useImages.ts:86-110) is network I/O. Its HTTP request, headers, status check and JSON parsing are replaced by the listing oracle. The "not an array gives `[]`" rule is folded into the oracle, and a thrown error is an `Err` carrying its message.
- The `console.log`, `console.warn` and `console.error` calls are left out: they are logging and affect no result.
- Vue reactivity is not modelled:
  - `ref` and `computed` are plain fields and a method;
  - `onMounted` is an explicit `FetchProjects` call by the user of the class.
- Async interleaving is not modelled. That covers overlapping `fetchProjects` calls and their last-write-wins outcome, and the intermediate state (`loading` true, `error` cleared) that a view could observe while a fetch is awaited.
- Text.ToLower: maps ASCII letters only. JavaScript's `toLowerCase` also maps non-ASCII letters, and a few of them to two code units (U+0130), which could shift the index `lastIndexOf` found. A name containing such letters is outside the model.
- Strings are sequences of Unicode characters, not UTF-16 code units. Names with characters outside the Basic Multilingual Plane index differently in the source.
- Listing entries whose `type` is neither `file` nor `dir` (GitHub also returns `symlink` and `submodule`) are `OtherKind`. The source's `===` tests skip them, and so does the model.
- Discovery lists the repository root and its folders without the base path (app/composables/useImages.ts:87-91, 117, 147), while `buildGitHubUrl` puts the base path in front (lines 35-36). With a non-empty base path (line 27 suggests `images`), a listed root image `a.png` gets the URL `…/main/images/a.png` rather than `…/main/a.png` (`Urls.BasePathInUrl`). The model keeps this mismatch as the source has it and promises the file's raw URL only for an empty base path.
- `nuxt.config.ts` is static build and deploy configuration with no logic, so it is not part of this model.
