/** The text rules of src/scripts/validateAttireAndBasesAreInGame.ts, a script that
    lists the images of each attire folder missing from the folder's attire-set file:
    the id derived from an image name, the entry emitted for it, the kebab/camel case
    conversions, and which folders are checked against which set file. Reading the
    folders and files and printing the entries are not part of this model. */
module AttireScript {
  import opened Wrappers
  import opened Strings

  // ---------------------------------------------------------------------------
  // imgToJSON

  /** The id of an image: the name lowercased, its first space replaced by '_' and its
      first ".png" removed. */
  function ImageId(name: string): string
  {
    ReplaceFirst(ReplaceFirst(ToLowerAscii(name), " ", "_"), ".png", "")
  }

  /** Replacing with something no longer and without capitals keeps a text short and
      free of capitals. */
  lemma ReplaceFirstKeepsLower(s: string, pat: string, rep: string)
    requires |rep| <= |pat|
    requires forall i :: 0 <= i < |s| ==> !IsAsciiUpper(s[i])
    requires forall i :: 0 <= i < |rep| ==> !IsAsciiUpper(rep[i])
    ensures |ReplaceFirst(s, pat, rep)| <= |s|
    ensures forall i :: 0 <= i < |ReplaceFirst(s, pat, rep)| ==> !IsAsciiUpper(ReplaceFirst(s, pat, rep)[i])
  {
    match IndexOf(s, pat)
    case None =>
    case Some(k) =>
      var r := s[..k] + rep + s[k + |pat|..];
      forall i | 0 <= i < |r|
        ensures !IsAsciiUpper(r[i])
      {
        if i < k {
          assert r[i] == s[i];
        } else if i < k + |rep| {
          assert r[i] == rep[i - k];
        } else {
          assert r[i] == s[i - k - |rep| + k + |pat|];
        }
      }
  }

  /** An id is never longer than its name and holds no capital letters. */
  lemma ImageIdIsLowercase(name: string)
    ensures |ImageId(name)| <= |name|
    ensures forall i :: 0 <= i < |ImageId(name)| ==> !IsAsciiUpper(ImageId(name)[i])
  {
    var lower := ToLowerAscii(name);
    ReplaceFirstKeepsLower(lower, " ", "_");
    ReplaceFirstKeepsLower(ReplaceFirst(lower, " ", "_"), ".png", "");
  }

  /** The entry the script prints for an image; `href` is the path given to
      `require`. */
  datatype AttireEntry = AttireEntry(id: string, description: string, fit: string, base: string,
                                     href: string, free: bool)

  /** `imgToJSON(name, folder, base)` as written: the base field tests the module-level
      `bases` array, which is always truthy, so it is "true" for every image. */
  function ImgToJSON(name: string, folder: string, base: bool): (e: AttireEntry)
    ensures e.base == "true"
  {
    AttireEntry(Basename(folder) + "-" + ImageId(name), "TBD", "tight", "true", "../../" + folder + "/" + name, false)
  }

  /** The entry the script evidently means to print: the base field follows `base`. */
  function IntendedImgToJSON(name: string, folder: string, base: bool): (e: AttireEntry)
    ensures e.base == "true" <==> base
    ensures e == ImgToJSON(name, folder, base).(base := e.base)
  {
    AttireEntry(Basename(folder) + "-" + ImageId(name), "TBD", "tight", if base then "true" else "false",
                "../../" + folder + "/" + name, false)
  }

  /** A clothing image (outside the bases folder) is still emitted as a base. */
  lemma ClothingEmittedAsBase(name: string, folder: string)
    ensures ImgToJSON(name, folder, false).base == "true"
    ensures IntendedImgToJSON(name, folder, false).base == "false"
  {
  }

  lemma NoUpperLowersToItself(s: string)
    requires forall i :: 0 <= i < |s| ==> !IsAsciiUpper(s[i])
    ensures ToLowerAscii(s) == s
  {
  }

  /** The first occurrence of a pattern is at k when the pattern occurs there and its
      first character occurs nowhere before k. */
  lemma IndexOfAt(s: string, pat: string, k: nat)
    requires |pat| >= 1 && OccursAt(s, pat, k)
    requires forall j :: 0 <= j < k ==> s[j] != pat[0]
    ensures IndexOf(s, pat) == Some(k)
  {
    var r := IndexOf(s, pat);
    assert r.Some?;
    assert s[r.value] == s[r.value..r.value + |pat|][0] == pat[0];
  }

  /** The id of "<a> <b>.png", for a first word a without spaces, is "<a>_<b>": only the
      first space becomes '_', and ".png" goes. */
  lemma ImageIdOfName(a: string, b: string)
    requires ' ' !in a && '.' !in a && '.' !in b
    requires forall i :: 0 <= i < |a| ==> !IsAsciiUpper(a[i])
    requires forall i :: 0 <= i < |b| ==> !IsAsciiUpper(b[i])
    ensures ImageId(a + " " + b + ".png") == a + "_" + b
  {
    var name := a + " " + b + ".png";
    NoUpperLowersToItself(name);
    assert OccursAt(name, " ", |a|) by {
      assert name[|a|..|a| + 1] == " ";
    }
    IndexOfAt(name, " ", |a|);
    var named := a + "_" + b + ".png";
    assert ReplaceFirst(name, " ", "_") == named by {
      assert name[..|a|] == a;
      assert name[|a| + 1..] == b + ".png";
    }
    var k := |a| + 1 + |b|;
    assert OccursAt(named, ".png", k) by {
      assert named[k..k + 4] == ".png";
    }
    forall j | 0 <= j < k
      ensures named[j] != '.'
    {
      if j < |a| {
        assert named[j] == a[j];
      } else if j > |a| {
        assert named[j] == b[j - |a| - 1];
      }
    }
    IndexOfAt(named, ".png", k);
    assert named[..k] == a + "_" + b;
    assert named[k + 4..] == [];
  }

  /** The images of a folder that are not yet mentioned in its set file. */
  function MissingImages(images: seq<string>, file: string): (r: seq<string>)
    ensures forall x :: x in r <==> x in images && EndsWith(x, ".png") && !Contains(file, x)
  {
    if images == [] then []
    else if EndsWith(images[0], ".png") && !Contains(file, images[0]) then [images[0]] + MissingImages(images[1..], file)
    else MissingImages(images[1..], file)
  }

  /** `checkFolder(root, name)` given the folder's images and the set file's text: one
      entry per missing image, in the folder's order, built with the corrected entry so
      that an entry is a base exactly when the folder path mentions "base". */
  function CheckFolder(root: string, images: seq<string>, file: string): (entries: seq<AttireEntry>)
    ensures |entries| == |MissingImages(images, file)|
    ensures forall i :: 0 <= i < |entries| ==>
      entries[i] == IntendedImgToJSON(MissingImages(images, file)[i], root, Contains(root, "base"))
    ensures forall i :: 0 <= i < |entries| ==> (entries[i].base == "true" <==> Contains(root, "base"))
  {
    var missing := MissingImages(images, file);
    seq(|missing|, i requires 0 <= i < |missing| => IntendedImgToJSON(missing[i], root, Contains(root, "base")))
  }

  /** `checkFolder` as written: every entry it prints is marked as a base. */
  function CheckFolderAsWritten(root: string, images: seq<string>, file: string): (entries: seq<AttireEntry>)
    ensures |entries| == |MissingImages(images, file)|
    ensures forall i :: 0 <= i < |entries| ==> entries[i].base == "true"
  {
    var missing := MissingImages(images, file);
    seq(|missing|, i requires 0 <= i < |missing| => ImgToJSON(missing[i], root, Contains(root, "base")))
  }

  /** The printed list differs from the corrected one only in the base field, and only
      for folders whose path does not mention "base". */
  lemma CheckFolderDiffersOnlyInBase(root: string, images: seq<string>, file: string)
    ensures |CheckFolderAsWritten(root, images, file)| == |CheckFolder(root, images, file)|
    ensures forall i :: 0 <= i < |CheckFolder(root, images, file)| ==>
      CheckFolderAsWritten(root, images, file)[i] == CheckFolder(root, images, file)[i].(base := "true")
    ensures forall i :: 0 <= i < |CheckFolder(root, images, file)| ==>
      (CheckFolderAsWritten(root, images, file)[i] == CheckFolder(root, images, file)[i] <==> Contains(root, "base"))
  {
  }

  // ---------------------------------------------------------------------------
  // camelToKebab and kebabToCamel

  /** `s.replace(/([a-z0-9])([A-Z])/g, "$1-$2")`: a '-' between a lower-case letter or
      digit and the upper-case letter after it, matches taken left to right without
      overlap. */
  function InsertDashes(s: string): (r: string)
    ensures |s| <= |r|
  {
    if |s| >= 2 && (IsAsciiLower(s[0]) || IsAsciiDigit(s[0])) && IsAsciiUpper(s[1]) then
      [s[0], '-', s[1]] + InsertDashes(s[2..])
    else if s == [] then []
    else [s[0]] + InsertDashes(s[1..])
  }

  /** `camelToKebab(s)`. */
  function CamelToKebab(s: string): (r: string)
    ensures forall i :: 0 <= i < |r| ==> !IsAsciiUpper(r[i])
  {
    ToLowerAscii(InsertDashes(s))
  }

  /** No '-' is followed by a lower-case letter. */
  predicate NoDashBeforeLower(s: string)
  {
    forall i :: 0 <= i < |s| - 1 ==> !(s[i] == '-' && IsAsciiLower(s[i + 1]))
  }

  /** `kebabToCamel(s)`: every '-' followed by a lower-case letter is replaced by that
      letter in upper case, matches taken left to right. */
  function KebabToCamel(s: string): (r: string)
    ensures |r| <= |s|
    ensures NoDashBeforeLower(r)
    ensures s != [] ==> r != [] && (r[0] == s[0] || IsAsciiUpper(r[0]))
  {
    if |s| >= 2 && s[0] == '-' && IsAsciiLower(s[1]) then [UpperChar(s[1])] + KebabToCamel(s[2..])
    else if s == [] then []
    else [s[0]] + KebabToCamel(s[1..])
  }

  /** A camel-case name: no '-', and every upper-case letter follows a lower-case
      letter or a digit. */
  predicate IsCamelCase(s: string)
  {
    '-' !in s && forall i :: 0 <= i < |s| && IsAsciiUpper(s[i]) ==> i > 0 && (IsAsciiLower(s[i - 1]) || IsAsciiDigit(s[i - 1]))
  }

  /** A character other than '-' passes through `kebabToCamel` unchanged. */
  lemma KebabToCamelPlain(c: char, t: string)
    requires c != '-'
    ensures KebabToCamel([c] + t) == [c] + KebabToCamel(t)
  {
    assert ([c] + t)[1..] == t;
  }

  /** A '-' before a lower-case letter becomes that letter in upper case. */
  lemma KebabToCamelDash(l: char, t: string)
    requires IsAsciiLower(l)
    ensures KebabToCamel(['-', l] + t) == [UpperChar(l)] + KebabToCamel(t)
  {
    assert (['-', l] + t)[2..] == t;
  }

  /** A camel-case name stays camel case without its first n characters. */
  lemma CamelCaseDrop(s: string, n: nat)
    requires IsCamelCase(s) && n <= |s|
    requires n < |s| ==> !IsAsciiUpper(s[n])
    ensures IsCamelCase(s[n..])
  {
    var rest := s[n..];
    forall i | 0 <= i < |rest| && IsAsciiUpper(rest[i])
      ensures i > 0 && (IsAsciiLower(rest[i - 1]) || IsAsciiDigit(rest[i - 1]))
    {
      assert rest[i] == s[i + n];
    }
  }

  /** `camelToKebab` of a lower-case letter or digit and an upper-case letter, then the
      rest: the letter or digit, '-', the lowered letter, then the rest converted. */
  lemma CamelToKebabDash(s: string)
    requires |s| >= 2 && (IsAsciiLower(s[0]) || IsAsciiDigit(s[0])) && IsAsciiUpper(s[1])
    ensures CamelToKebab(s) == [s[0]] + (['-', LowerChar(s[1])] + CamelToKebab(s[2..]))
  {
    assert InsertDashes(s) == [s[0], '-', s[1]] + InsertDashes(s[2..]);
    ToLowerAsciiConcat([s[0], '-', s[1]], InsertDashes(s[2..]));
    assert ToLowerAscii([s[0], '-', s[1]]) == [s[0], '-', LowerChar(s[1])];
  }

  /** `camelToKebab` of a character that starts no match, then the rest. */
  lemma CamelToKebabPlain(s: string)
    requires s != [] && !IsAsciiUpper(s[0])
    requires !(|s| >= 2 && (IsAsciiLower(s[0]) || IsAsciiDigit(s[0])) && IsAsciiUpper(s[1]))
    ensures CamelToKebab(s) == [s[0]] + CamelToKebab(s[1..])
  {
    assert InsertDashes(s) == [s[0]] + InsertDashes(s[1..]);
    ToLowerAsciiConcat([s[0]], InsertDashes(s[1..]));
  }

  /** `kebabToCamel(camelToKebab(s))` gives back a camel-case name. */
  lemma {:induction false} CamelKebabRoundTrip(s: string)
    requires IsCamelCase(s)
    ensures KebabToCamel(CamelToKebab(s)) == s
  {
    if |s| >= 2 && (IsAsciiLower(s[0]) || IsAsciiDigit(s[0])) && IsAsciiUpper(s[1]) {
      CamelCaseDrop(s, 2);
      CamelKebabRoundTrip(s[2..]);
      CamelToKebabDash(s);
      KebabToCamelPlain(s[0], ['-', LowerChar(s[1])] + CamelToKebab(s[2..]));
      KebabToCamelDash(LowerChar(s[1]), CamelToKebab(s[2..]));
      assert s == [s[0]] + ([s[1]] + s[2..]);
    } else if s != [] {
      assert s[0] in s;
      CamelCaseDrop(s, 1);
      CamelKebabRoundTrip(s[1..]);
      CamelToKebabPlain(s);
      KebabToCamelPlain(s[0], CamelToKebab(s[1..]));
      assert s == [s[0]] + s[1..];
    }
  }

  // ---------------------------------------------------------------------------
  // The folders checked

  /** `check.forEach(...)` for one path: None for a path holding "." or "set-logos",
      otherwise the attire-set file it is checked against. */
  function SetFileFor(path: string): (file: Option<string>)
    ensures file.None? <==> Contains(path, ".") || Contains(path, "set-logos")
    ensures file.Some? ==> EndsWith(file.value, "AttireSet.ts")
    ensures file.Some? ==> NoDashBeforeLower(file.value[..|file.value| - 12])
  {
    if Contains(path, ".") || Contains(path, "set-logos") then None
    else
      var name := KebabToCamel(Basename(path));
      assert (name + "AttireSet.ts")[..|name|] == name;
      Some(name + "AttireSet.ts")
  }

  /** `path.includes(".")` is a test for a '.' character. */
  lemma ContainsDot(path: string)
    ensures Contains(path, ".") <==> '.' in path
  {
    if '.' in path {
      var j :| 0 <= j < |path| && path[j] == '.';
      assert OccursAt(path, ".", j) by {
        assert path[j..j + 1] == ".";
      }
    }
    if Contains(path, ".") {
      var k := IndexOf(path, ".").value;
      assert path[k..k + 1] == ".";
      assert path[k] == '.';
    }
  }

  /** The base name of "<dir>/<name>" is name. */
  lemma {:induction false} BasenameOfChild(dir: string, name: string)
    requires '/' !in name
    ensures Basename(dir + "/" + name) == name
  {
    if name != [] {
      var path := dir + "/" + name;
      var init := name[..|name| - 1];
      assert path[..|path| - 1] == dir + "/" + init;
      BasenameOfChild(dir, init);
      assert init + [name[|name| - 1]] == name;
    } else {
      assert (dir + "/" + name)[|dir|] == '/';
    }
  }

  /** A folder "<dir>/<kebab-name>" without '.' or "set-logos" in its path is checked
      against the camel-case name of its last segment followed by "AttireSet.ts". */
  lemma FolderChecksItsSetFile(dir: string, name: string)
    requires '/' !in name && '.' !in dir + "/" + name && !Contains(dir + "/" + name, "set-logos")
    ensures SetFileFor(dir + "/" + name) == Some(KebabToCamel(name) + "AttireSet.ts")
  {
    ContainsDot(dir + "/" + name);
    BasenameOfChild(dir, name);
  }
}
