/** Which repository entries are images, and the titles the gallery derives
    from file and folder names. */
module Names {
  import opened Text

  /** The allow-list of image extensions, compared in lower case. */
  const ImageExtensions: seq<string> := [".jpg", ".jpeg", ".png", ".gif", ".webp", ".bmp", ".svg"]

  /** `isImageFile`: the lower-cased suffix from the last dot on is one of
      the allowed extensions; a name without a dot is never an image. */
  function IsImageFile(filename: string): bool {
    var lastDot := LastIndexOf(filename, '.');
    if lastDot == -1 then false
    else ToLower(filename)[lastDot..] in ImageExtensions
  }

  /** Reference definition: the name ends, ignoring ASCII case, with an allowed extension. */
  predicate HasImageExtension(filename: string) {
    exists ext :: ext in ImageExtensions && EndsWith(ToLower(filename), ext)
  }

  /** Every allowed extension is a dot followed by at least one character
      that is not a dot. */
  lemma ExtensionsShape()
    ensures forall ext :: ext in ImageExtensions ==>
      |ext| >= 2 && ext[0] == '.' && forall k :: 1 <= k < |ext| ==> ext[k] != '.'
  {
  }

  lemma LowerKeepsDots(s: string, k: int)
    requires 0 <= k < |s|
    ensures ToLower(s)[k] == '.' <==> s[k] == '.'
  {
  }

  /** `isImageFile` agrees with the suffix test, in both directions. */
  lemma IsImageFileIff(filename: string)
    ensures IsImageFile(filename) <==> HasImageExtension(filename)
  {
    if IsImageFile(filename) {
      var ext := ToLower(filename)[LastIndexOf(filename, '.')..];
      assert ext in ImageExtensions && EndsWith(ToLower(filename), ext);
    }
    if HasImageExtension(filename) {
      var ext :| ext in ImageExtensions && EndsWith(ToLower(filename), ext);
      SuffixIsImage(filename, ext);
    }
  }

  lemma SuffixIsImage(filename: string, ext: string)
    requires ext in ImageExtensions && EndsWith(ToLower(filename), ext)
    ensures IsImageFile(filename)
  {
    var lower := ToLower(filename);
    ExtensionsShape();
    var j := |filename| - |ext|;
    assert lower[j] == ext[0] == '.';
    LowerKeepsDots(filename, j);
    forall k | j < k < |filename|
      ensures filename[k] != '.'
    {
      assert lower[k] == ext[k - j];
      LowerKeepsDots(filename, k);
    }
    LastIndexOfUnique(filename, '.', j);
    assert lower[j..] == ext;
  }

  /** A name with no dot, or whose last character is a dot, is not an image. */
  lemma NotImageFile(filename: string)
    requires '.' !in filename || (|filename| > 0 && filename[|filename| - 1] == '.')
    ensures !IsImageFile(filename)
  {
    if '.' in filename {
      LastIndexOfUnique(filename, '.', |filename| - 1);
      assert ToLower(filename)[|filename| - 1..] == ".";
    }
  }

  /** The regular expression `\.[^/.]+$` matches at `i`: a dot, then one or
      more characters up to the end, none of them a dot or a slash. */
  predicate ExtensionAt(s: string, i: int) {
    0 <= i < |s| - 1 && s[i] == '.' && forall k :: i < k < |s| ==> s[k] != '.' && s[k] != '/'
  }

  /** `replace(/\.[^/.]+$/, '')`: the only dot the pattern can match is the last one. */
  function StripExtension(s: string): string {
    var i := LastIndexOf(s, '.');
    if i >= 0 && i < |s| - 1 && '/' !in s[i + 1..] then s[..i] else s
  }

  /** Stripping removes exactly the text the pattern matches, and leaves the
      name alone when the pattern matches nowhere. */
  lemma StripExtensionMatchesPattern(s: string)
    ensures forall i :: ExtensionAt(s, i) ==> StripExtension(s) == s[..i]
    ensures (forall i :: !ExtensionAt(s, i)) ==> StripExtension(s) == s
  {
    forall i | ExtensionAt(s, i)
      ensures StripExtension(s) == s[..i]
    {
      StripAtMatch(s, i);
    }
    var i := LastIndexOf(s, '.');
    if i >= 0 && i < |s| - 1 && '/' !in s[i + 1..] {
      LastDotMatches(s, i);
    }
  }

  lemma StripAtMatch(s: string, i: int)
    requires ExtensionAt(s, i)
    ensures StripExtension(s) == s[..i]
  {
    LastIndexOfUnique(s, '.', i);
  }

  lemma LastDotMatches(s: string, i: int)
    requires 0 <= i < |s| - 1 && s[i] == '.'
    requires '.' !in s[i + 1..] && '/' !in s[i + 1..]
    ensures ExtensionAt(s, i)
  {
    forall k | i < k < |s|
      ensures s[k] != '.' && s[k] != '/'
    {
      assert s[k] == s[i + 1..][k - i - 1];
    }
  }

  predicate IsSeparator(c: char) { c == '-' || c == '_' }

  /** `replace(/[-_]/g, ' ')`. */
  function SeparatorsToSpaces(s: string): string {
    seq(|s|, k requires 0 <= k < |s| => if IsSeparator(s[k]) then ' ' else s[k])
  }

  /** The title given to an image found in a listing. */
  function ImageTitle(name: string): string {
    SeparatorsToSpaces(StripExtension(name))
  }

  /** An image title is the name up to its extension (all of it when it has
      none), with every `-` and `_` turned into a space and every other
      character, letter case included, kept. */
  lemma ImageTitleSpec(name: string)
    ensures var t := ImageTitle(name);
      && (forall i :: ExtensionAt(name, i) ==> |t| == i)
      && ((forall i :: !ExtensionAt(name, i)) ==> |t| == |name|)
      && |t| <= |name|
      && forall k :: 0 <= k < |t| ==>
           !IsSeparator(t[k]) && (if IsSeparator(name[k]) then t[k] == ' ' else t[k] == name[k])
  {
    StripExtensionMatchesPattern(name);
  }

  /** JavaScript's `\w` (without the `u` flag): ASCII letters, digits and `_`. */
  predicate IsWordChar(c: char) {
    'a' <= c <= 'z' || 'A' <= c <= 'Z' || '0' <= c <= '9' || c == '_'
  }

  /** `\b\w` matches at `k`: a word character with no word character before it. */
  predicate WordStartAt(t: string, k: int)
    requires 0 <= k < |t|
  {
    IsWordChar(t[k]) && (k == 0 || !IsWordChar(t[k - 1]))
  }

  /** The left-to-right scan behind `replace(/\b\w/g, l => l.toUpperCase())`;
      `afterWord` says whether the character before `t` is a word character. */
  function CapitalizeFrom(t: string, afterWord: bool): string {
    if |t| == 0 then []
    else
      [if !afterWord && IsWordChar(t[0]) then UpperChar(t[0]) else t[0]]
      + CapitalizeFrom(t[1..], IsWordChar(t[0]))
  }

  function CapitalizeWords(t: string): string {
    CapitalizeFrom(t, false)
  }

  /** Whether the scan started with `afterWord` upper-cases position `k` of `t`. */
  predicate RaisedAt(t: string, afterWord: bool, k: int)
    requires 0 <= k < |t|
  {
    IsWordChar(t[k]) && (if k == 0 then !afterWord else !IsWordChar(t[k - 1]))
  }

  lemma {:induction false} CapitalizeFromSpec(t: string, afterWord: bool)
    ensures var r := CapitalizeFrom(t, afterWord);
      && |r| == |t|
      && forall k :: 0 <= k < |t| ==> r[k] == if RaisedAt(t, afterWord, k) then UpperChar(t[k]) else t[k]
  {
    if |t| > 0 {
      var r := CapitalizeFrom(t, afterWord);
      var rest := CapitalizeFrom(t[1..], IsWordChar(t[0]));
      CapitalizeFromSpec(t[1..], IsWordChar(t[0]));
      assert r == [r[0]] + rest;
      forall k | 0 <= k < |t|
        ensures r[k] == if RaisedAt(t, afterWord, k) then UpperChar(t[k]) else t[k]
      {
        if k > 0 {
          assert r[k] == rest[k - 1] && t[1..][k - 1] == t[k];
          assert RaisedAt(t[1..], IsWordChar(t[0]), k - 1) == RaisedAt(t, afterWord, k);
        }
      }
    }
  }

  /** The scan upper-cases exactly the characters at which `\b\w` matches. */
  lemma CapitalizeWordsSpec(t: string)
    ensures var r := CapitalizeWords(t);
      && |r| == |t|
      && forall k :: 0 <= k < |t| ==> r[k] == if WordStartAt(t, k) then UpperChar(t[k]) else t[k]
  {
    CapitalizeFromSpec(t, false);
    forall k | 0 <= k < |t|
      ensures WordStartAt(t, k) == RaisedAt(t, false, k)
    {
    }
  }

  /** The title given to a project folder. */
  function ProjectTitle(name: string): string {
    CapitalizeWords(SeparatorsToSpaces(name))
  }

  /** A project title has the folder name's length; each `-` or `_` becomes a
      space; the first character of every word is upper-cased; every other
      character is kept; and no word of the title starts with a lower-case letter. */
  lemma ProjectTitleSpec(name: string)
    ensures var r := ProjectTitle(name);
      var spaced := SeparatorsToSpaces(name);
      && |r| == |name|
      && (forall k :: 0 <= k < |name| && IsSeparator(name[k]) ==> r[k] == ' ')
      && (forall k :: 0 <= k < |name| && !IsSeparator(name[k]) ==>
            r[k] == if WordStartAt(spaced, k) then UpperChar(name[k]) else name[k])
      && (forall k :: 0 <= k < |r| ==> !IsSeparator(r[k]))
      && (forall k :: 0 <= k < |r| && WordStartAt(r, k) ==> !IsAsciiLower(r[k]))
  {
    var spaced := SeparatorsToSpaces(name);
    var r := ProjectTitle(name);
    CapitalizeWordsSpec(spaced);
    forall k | 0 <= k < |r|
      ensures IsWordChar(r[k]) == IsWordChar(spaced[k])
    {
    }
  }

  /** Worked examples: an image title keeps letter case and inner dots and
      loses only the final extension. */
  lemma ImageTitleExamples()
    ensures ImageTitle("sunset-over_lake.jpg") == "sunset over lake"
    ensures ImageTitle("a.b.jpg") == "a.b"
    ensures ImageTitle("noext") == "noext"
    ensures ImageTitle("x.") == "x."
  {
    var s1 := "sunset-over_lake.jpg";
    assert ExtensionAt(s1, 16);
    StripAtMatch(s1, 16);
    assert s1[..16] == "sunset-over_lake";
    var s2 := "a.b.jpg";
    assert ExtensionAt(s2, 3);
    StripAtMatch(s2, 3);
    assert s2[..3] == "a.b";
    assert '.' !in "noext";
    assert LastIndexOf("noext", '.') == -1;
    LastIndexOfUnique("x.", '.', 1);
  }

  /** Worked example: a folder title is capitalised word by word. */
  lemma ProjectTitleExample()
    ensures ProjectTitle("my-cool_project") == "My Cool Project"
  {
    var spaced := SeparatorsToSpaces("my-cool_project");
    assert spaced == "my cool project" by {
      SpacedExample();
    }
    var r := CapitalizeWords(spaced);
    var expected := "My Cool Project";
    CapitalizeWordsSpec(spaced);
    forall k | 0 <= k < |spaced|
      ensures r[k] == expected[k]
    {
      if k == 0 || k == 3 || k == 8 {
        assert WordStartAt(spaced, k);
      } else {
        assert !WordStartAt(spaced, k);
      }
    }
  }

  lemma SpacedExample()
    ensures SeparatorsToSpaces("my-cool_project") == "my cool project"
  {
  }

  lemma ImageFileExamples()
    ensures IsImageFile("photo.JPG") && IsImageFile("a.b.webp")
    ensures !IsImageFile("file.") && !IsImageFile("README") && !IsImageFile("notes.txt")
  {
    LastIndexOfUnique("photo.JPG", '.', 5);
    assert ToLower("photo.JPG")[5..] == ".jpg";
    LastIndexOfUnique("a.b.webp", '.', 3);
    assert ToLower("a.b.webp")[3..] == ".webp";
    NotImageFile("file.");
    NotImageFile("README");
    LastIndexOfUnique("notes.txt", '.', 5);
    assert ToLower("notes.txt")[5..] == ".txt";
  }
}
