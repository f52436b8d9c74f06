/** The folder driver's choice of files: which directory entries are
    processed, and under which paths they are read and written. */
module FolderScan {

  /** str.lower() on the ASCII letters. */
  function LowerChar(c: char): (l: char)
    ensures 'A' <= c <= 'Z' ==> 'a' <= l <= 'z' && l as int - c as int == 32
    ensures !('A' <= c <= 'Z') ==> l == c
  {
    if 'A' <= c <= 'Z' then (c as int + 32) as char else c
  }

  /** str.lower() on the ASCII letters, character by character. */
  function Lower(s: string): (r: string)
    ensures |r| == |s|
  {
    seq(|s|, i requires 0 <= i < |s| => LowerChar(s[i]))
  }

  /** No capital letter is left, and every character is either kept or is a
      capital letter replaced by its small letter. */
  lemma LowerCharacters(s: string)
    ensures forall i :: 0 <= i < |s| ==> !('A' <= Lower(s)[i] <= 'Z')
    ensures forall i :: 0 <= i < |s| ==>
      Lower(s)[i] == s[i] || ('A' <= s[i] <= 'Z' && Lower(s)[i] as int == s[i] as int + 32)
  {
  }

  /** str.endswith: s is the part before the suffix followed by the suffix. */
  predicate EndsWith(s: string, suffix: string): (b: bool)
    ensures b ==> |suffix| <= |s| && s == s[..|s| - |suffix|] + suffix
  {
    |suffix| <= |s| && s[|s| - |suffix|..] == suffix
  }

  /** ...and whatever precedes a suffix, the string ends with it. */
  lemma EndsWithAppended(stem: string, suffix: string)
    ensures EndsWith(stem + suffix, suffix)
  {
    assert (stem + suffix)[|stem|..] == suffix;
  }

  /** One of the three accepted extensions, in any letter case. */
  predicate IsImageExtension(ext: string) {
    var e := Lower(ext);
    e == ".jpg" || e == ".jpeg" || e == ".png"
  }

  /** The extension filter of rotate_faces_in_folder: a name is accepted
      exactly when its last four or five characters are an accepted
      extension, whatever their letter case. */
  predicate IsImageFileName(name: string): (b: bool)
    ensures b <==> (|name| >= 4 && IsImageExtension(name[|name| - 4..])) ||
                   (|name| >= 5 && IsImageExtension(name[|name| - 5..]))
  {
    var l := Lower(name);
    LowerEndsWith(name, ".jpg");
    LowerEndsWith(name, ".jpeg");
    LowerEndsWith(name, ".png");
    EndsWith(l, ".jpg") || EndsWith(l, ".jpeg") || EndsWith(l, ".png")
  }

  /** The lower-case form ends in a suffix exactly when the lower-case form
      of the name's last characters is that suffix. */
  lemma LowerEndsWith(name: string, suffix: string)
    ensures EndsWith(Lower(name), suffix) <==>
            |suffix| <= |name| && Lower(name[|name| - |suffix|..]) == suffix
  {
    if |suffix| <= |name| {
      assert Lower(name)[|name| - |suffix|..] == Lower(name[|name| - |suffix|..]);
    }
  }

  /** The filter ignores letter case: a name and its lower-case form are
      accepted or rejected together. */
  lemma ImageFileNameIgnoresCase(name: string)
    ensures IsImageFileName(Lower(name)) == IsImageFileName(name)
  {
    assert Lower(Lower(name)) == Lower(name);
  }

  /** Any name followed by one of the three extensions, in any mix of
      upper and lower case, is accepted. */
  lemma AcceptsImageExtensions(stem: string, ext: string)
    requires IsImageExtension(ext)
    ensures IsImageFileName(stem + ext)
  {
    var name := stem + ext;
    assert name[|name| - |ext|..] == ext;
  }

  /** ...and only such names: an accepted name is a stem followed by one of
      the extensions, so the dot is required and nothing may follow the
      extension. */
  lemma AcceptedHaveExtension(name: string)
    requires IsImageFileName(name)
    ensures exists stem, ext :: name == stem + ext && IsImageExtension(ext)
  {
    var k := if |name| >= 4 && IsImageExtension(name[|name| - 4..]) then 4 else 5;
    assert name == name[..|name| - k] + name[|name| - k..];
  }

  /** The names in a directory listing that are processed, in listing order. */
  function ImageFileNames(names: seq<string>): (r: seq<string>)
    ensures |r| <= |names|
  {
    if names == [] then []
    else
      var init, last := names[..|names| - 1], names[|names| - 1];
      assert names == init + [last];
      ImageFileNames(init) + (if IsImageFileName(last) then [last] else [])
  }

  /** Each accepted name is processed as many times as it is listed, and
      no rejected name at all. */
  lemma {:induction false} ImageFileNamesCount(names: seq<string>, x: string)
    ensures multiset(ImageFileNames(names))[x] == if IsImageFileName(x) then multiset(names)[x] else 0
  {
    if names != [] {
      var init, last := names[..|names| - 1], names[|names| - 1];
      assert names == init + [last];
      ImageFileNamesCount(init, x);
    }
  }

  /** The processed names are exactly the listed names that pass the filter. */
  lemma ImageFileNamesMembers(names: seq<string>, x: string)
    ensures x in ImageFileNames(names) <==> x in names && IsImageFileName(x)
  {
    ImageFileNamesCount(names, x);
  }

  /** Filtering keeps the listing order: the files of a listing split in
      two are the files of the first part followed by those of the second. */
  lemma {:induction false} ImageFileNamesKeepOrder(a: seq<string>, b: seq<string>)
    ensures ImageFileNames(a + b) == ImageFileNames(a) + ImageFileNames(b)
    decreases |b|
  {
    if b == [] {
      assert a + b == a;
    } else {
      var init, last := b[..|b| - 1], b[|b| - 1];
      var ab := a + b;
      assert ab[..|ab| - 1] == a + init;
      assert ab[|ab| - 1] == last;
      assert ImageFileNames(ab) == ImageFileNames(a + init) + (if IsImageFileName(last) then [last] else []);
      assert ImageFileNames(b) == ImageFileNames(init) + (if IsImageFileName(last) then [last] else []);
      ImageFileNamesKeepOrder(a, init);
    }
  }

  /** os.path.join(folder, name) on POSIX: an absolute name replaces the
      folder; otherwise a separator is put between them unless the folder is
      empty or already ends in one. */
  function JoinPath(folder: string, name: string): string {
    if |name| > 0 && name[0] == '/' then name
    else if folder == [] || folder[|folder| - 1] == '/' then folder + name
    else folder + "/" + name
  }

  /** The joined path ends in the name; unless the name is absolute, it
      starts with the folder and adds at most one separator between them. */
  lemma JoinPathParts(folder: string, name: string)
    ensures var p := JoinPath(folder, name);
      |name| <= |p| && p[|p| - |name|..] == name
    ensures var p := JoinPath(folder, name);
      !(|name| > 0 && name[0] == '/') ==>
        |folder| <= |p| - |name| <= |folder| + 1 && p[..|folder|] == folder
  {
  }

  /** os.path.basename on POSIX: everything after the last separator. */
  function BaseName(path: string): string {
    if path == [] then []
    else if path[|path| - 1] == '/' then []
    else BaseName(path[..|path| - 1]) + [path[|path| - 1]]
  }

  /** A name without separators is its own base name... */
  lemma {:induction false} BaseNameOfName(name: string)
    requires '/' !in name
    ensures BaseName(name) == name
  {
    if name != [] {
      BaseNameOfName(name[..|name| - 1]);
      assert name[..|name| - 1] + [name[|name| - 1]] == name;
    }
  }

  /** ...and stays so behind a folder that ends in a separator. */
  lemma {:induction false} BaseNameAfterSeparator(folder: string, name: string)
    requires folder != [] && folder[|folder| - 1] == '/'
    requires '/' !in name
    ensures BaseName(folder + name) == name
  {
    if name == [] {
      assert folder + name == folder;
    } else {
      var init := name[..|name| - 1];
      BaseNameAfterSeparator(folder, init);
      assert (folder + name)[..|folder + name| - 1] == folder + init;
      assert init + [name[|name| - 1]] == name;
    }
  }

  /** The output path of a listed file keeps the file's own name. */
  lemma JoinKeepsName(folder: string, name: string)
    requires '/' !in name
    ensures BaseName(JoinPath(folder, name)) == name
  {
    if folder == [] {
      assert folder + name == name;
      BaseNameOfName(name);
    } else if folder[|folder| - 1] == '/' {
      BaseNameAfterSeparator(folder, name);
    } else {
      assert folder + "/" + name == (folder + "/") + name;
      BaseNameAfterSeparator(folder + "/", name);
    }
  }

  /** One call of process_image: where the image is read from and where
      the result is written. */
  datatype Job = Job(inPath: string, outPath: string)

  /** The jobs the driver runs for a directory listing, in listing order. */
  function Jobs(inputFolder: string, outputFolder: string, names: seq<string>): (jobs: seq<Job>)
    ensures |jobs| == |ImageFileNames(names)|
  {
    var files := ImageFileNames(names);
    seq(|files|, i requires 0 <= i < |files| => Job(JoinPath(inputFolder, files[i]), JoinPath(outputFolder, files[i])))
  }

  /** One more directory entry adds its job when it is accepted, and
      nothing otherwise. */
  lemma JobsAppend(inputFolder: string, outputFolder: string, names: seq<string>, n: string)
    ensures Jobs(inputFolder, outputFolder, names + [n]) ==
      Jobs(inputFolder, outputFolder, names) +
      (if IsImageFileName(n) then [Job(JoinPath(inputFolder, n), JoinPath(outputFolder, n))] else [])
  {
    var all := names + [n];
    assert all[..|all| - 1] == names && all[|all| - 1] == n;
    var files, more := ImageFileNames(names), ImageFileNames(all);
    assert more == files + (if IsImageFileName(n) then [n] else []);
    var before, after := Jobs(inputFolder, outputFolder, names), Jobs(inputFolder, outputFolder, all);
    var extra := if IsImageFileName(n) then [Job(JoinPath(inputFolder, n), JoinPath(outputFolder, n))] else [];
    assert |after| == |before| + |extra|;
    forall i | 0 <= i < |after|
      ensures after[i] == (before + extra)[i]
    {
      if i < |before| {
        assert more[i] == files[i];
      } else {
        assert more[i] == n;
      }
    }
  }

  /** The for loop of rotate_faces_in_folder, with process_image recorded
      as the job it is called with instead of being run. */
  method PlanFolder(inputFolder: string, outputFolder: string, listing: seq<string>) returns (jobs: seq<Job>)
    ensures jobs == Jobs(inputFolder, outputFolder, listing)
  {
    jobs := [];
    for i := 0 to |listing|
      invariant jobs == Jobs(inputFolder, outputFolder, listing[..i])
    {
      var fname := listing[i];
      assert listing[..i + 1] == listing[..i] + [fname];
      JobsAppend(inputFolder, outputFolder, listing[..i], fname);
      if IsImageFileName(fname) {
        jobs := jobs + [Job(JoinPath(inputFolder, fname), JoinPath(outputFolder, fname))];
      }
    }
    assert listing[..|listing|] == listing;
  }

  /** j processes the accepted file n: it reads n from the input folder and
      writes a file with the same base name into the output folder. */
  predicate IsJobFor(j: Job, inputFolder: string, outputFolder: string, n: string) {
    IsImageFileName(n) &&
    j.inPath == JoinPath(inputFolder, n) && j.outPath == JoinPath(outputFolder, n) &&
    BaseName(j.inPath) == n && BaseName(j.outPath) == n
  }

  /** Every job reads an accepted file of the listing from the input folder
      and writes a file of the same name into the output folder. Directory
      entries never contain a separator. */
  lemma JobsKeepFileNames(inputFolder: string, outputFolder: string, names: seq<string>)
    requires forall n :: n in names ==> '/' !in n
    ensures forall j :: j in Jobs(inputFolder, outputFolder, names) ==>
      (exists n :: n in names && IsJobFor(j, inputFolder, outputFolder, n))
  {
    var files := ImageFileNames(names);
    var jobs := Jobs(inputFolder, outputFolder, names);
    forall j | j in jobs
      ensures exists n :: n in names && IsJobFor(j, inputFolder, outputFolder, n)
    {
      var i :| 0 <= i < |jobs| && jobs[i] == j;
      var n := files[i];
      assert n in files;
      ImageFileNamesMembers(names, n);
      JoinKeepsName(inputFolder, n);
      JoinKeepsName(outputFolder, n);
    }
  }
}
