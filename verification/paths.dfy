/** File names and extensions of Unix-style paths, the way
    `std::path::Path::file_name` and `Path::extension` compute them:
    the file name is the last component if it is a normal one, and the
    extension is what follows the last '.' of that name, unless the only
    '.' is its first character. */
module Paths {
  import opened Wrappers

  /** The '/'-separated pieces of a path, empty pieces included. */
  function Split(s: string): (parts: seq<string>)
    ensures |parts| >= 1
    ensures forall i :: 0 <= i < |parts| ==> '/' !in parts[i]
    decreases |s|
  {
    if |s| == 0 then [""]
    else if s[0] == '/' then [""] + Split(s[1..])
    else
      var rest := Split(s[1..]);
      [[s[0]] + rest[0]] + rest[1..]
  }

  lemma {:induction false} SplitWithoutSeparator(s: string)
    requires '/' !in s
    ensures Split(s) == [s]
    decreases |s|
  {
    if |s| > 0 {
      SplitWithoutSeparator(s[1..]);
      assert [s[0]] + s[1..] == s;
    }
  }

  lemma {:induction false} SplitJoin(a: string, b: string)
    ensures Split(a + "/" + b) == Split(a) + Split(b)
    decreases |a|
  {
    var s := a + "/" + b;
    if |a| == 0 {
      assert s[1..] == b;
    } else {
      assert s[1..] == a[1..] + "/" + b;
      SplitJoin(a[1..], b);
    }
  }

  /** The pieces `Path::components` reports as components: empty pieces
      (from repeated or trailing '/') and "." pieces do not appear. */
  function DropEmpty(parts: seq<string>): (r: seq<string>)
    ensures forall i :: 0 <= i < |r| ==> r[i] != "" && r[i] != "."
    ensures forall i :: 0 <= i < |r| ==> r[i] in parts
  {
    if |parts| == 0 then []
    else if parts[0] == "" || parts[0] == "." then DropEmpty(parts[1..])
    else [parts[0]] + DropEmpty(parts[1..])
  }

  lemma {:induction false} DropEmptyAppend(p: seq<string>, q: seq<string>)
    ensures DropEmpty(p + q) == DropEmpty(p) + DropEmpty(q)
  {
    if |p| > 0 {
      assert (p + q)[1..] == p[1..] + q;
      DropEmptyAppend(p[1..], q);
    } else {
      assert p + q == q;
    }
  }

  function Components(path: string): seq<string> {
    DropEmpty(Split(path))
  }

  /** `Path::file_name`: the last component, unless there is none or it is "..". */
  function FileName(path: string): (r: Option<string>)
    ensures r.Some? ==> r.value != "" && r.value != "." && r.value != ".."
    ensures r.Some? ==> '/' !in r.value
  {
    var cs := Components(path);
    if |cs| == 0 || cs[|cs| - 1] == ".." then None else Some(cs[|cs| - 1])
  }

  /** The position of the last occurrence of `c` in `s`. */
  function LastIndexOf(s: string, c: char): (r: Option<nat>)
    ensures r.None? <==> c !in s
    ensures r.Some? ==> r.value < |s| && s[r.value] == c && c !in s[r.value + 1..]
  {
    if |s| == 0 then None
    else if s[|s| - 1] == c then Some(|s| - 1)
    else
      var r := LastIndexOf(s[..|s| - 1], c);
      assert s == s[..|s| - 1] + [s[|s| - 1]];
      if r.Some? then
        assert s[r.value + 1..] == s[..|s| - 1][r.value + 1..] + [s[|s| - 1]];
        r
      else r
  }

  /** The extension of a file name: the text after its last '.', provided
      something precedes that '.'. */
  function NameExtension(name: string): Option<string> {
    match LastIndexOf(name, '.')
    case None => None
    case Some(i) => if i == 0 then None else Some(name[i + 1..])
  }

  /** `Path::extension`. */
  function Extension(path: string): Option<string> {
    match FileName(path)
    case None => None
    case Some(name) => NameExtension(name)
  }

  predicate HasExtension(path: string) {
    Extension(path).Some?
  }

  /** An extension is the tail of the file name after a '.' that is not the
      name's first character, and it holds no '.' or '/' itself. */
  lemma ExtensionShape(path: string)
    requires HasExtension(path)
    ensures FileName(path).Some?
    ensures var name, e := FileName(path).value, Extension(path).value;
      && |e| + 1 < |name|
      && name[|name| - |e| - 1] == '.'
      && name[|name| - |e|..] == e
      && '.' !in e && '/' !in e
  {
  }

  /** The extension of a bare file name `stem.ext`. */
  lemma NameExtensionOf(stem: string, ext: string)
    requires stem != "" && '.' !in ext
    ensures NameExtension(stem + "." + ext) == Some(ext)
  {
    var name := stem + "." + ext;
    assert name[|stem|] == '.';
    assert name[|stem| + 1..] == ext;
    var r := LastIndexOf(name, '.');
    assert r.Some?;
  }

  /** A normal last component is the file name, whatever directory precedes it. */
  lemma FileNameAfterDirectory(dir: string, name: string)
    requires '/' !in name && name != "" && name != "." && name != ".."
    ensures FileName(dir + "/" + name) == Some(name)
  {
    SplitJoin(dir, name);
    SplitWithoutSeparator(name);
    DropEmptyAppend(Split(dir), [name]);
    assert DropEmpty([name]) == [name];
  }

  lemma FileNameOfBareName(name: string)
    requires '/' !in name && name != "" && name != "." && name != ".."
    ensures FileName(name) == Some(name)
  {
    SplitWithoutSeparator(name);
    assert DropEmpty([name]) == [name];
  }

  /** `dir/stem.ext` has extension `ext`. */
  lemma ExtensionOfPath(dir: string, stem: string, ext: string)
    requires stem != "" && ext != ""
    requires '/' !in stem && '/' !in ext && '.' !in ext
    ensures Extension(dir + "/" + stem + "." + ext) == Some(ext)
  {
    var name := stem + "." + ext;
    assert dir + "/" + stem + "." + ext == dir + "/" + name;
    assert '/' !in name by {
      assert forall k :: 0 <= k < |name| ==> name[k] == (if k < |stem| then stem[k] else if k == |stem| then '.' else ext[k - |stem| - 1]);
    }
    assert name[|name| - 1] == ext[|ext| - 1] != '.';
    FileNameAfterDirectory(dir, name);
    NameExtensionOf(stem, ext);
  }

  /** `stem.ext`, with no directory, has extension `ext`. */
  lemma ExtensionOfFileName(stem: string, ext: string)
    requires stem != "" && ext != ""
    requires '/' !in stem && '/' !in ext && '.' !in ext
    ensures Extension(stem + "." + ext) == Some(ext)
  {
    var name := stem + "." + ext;
    assert '/' !in name by {
      assert forall k :: 0 <= k < |name| ==> name[k] == (if k < |stem| then stem[k] else if k == |stem| then '.' else ext[k - |stem| - 1]);
    }
    assert name[|name| - 1] == ext[|ext| - 1] != '.';
    FileNameOfBareName(name);
    NameExtensionOf(stem, ext);
  }

  /** A file name whose only '.' is its first character (".bashrc") has no extension. */
  lemma HiddenFileHasNoExtension(dir: string, name: string)
    requires name != "" && '/' !in name && '.' !in name
    ensures !HasExtension(dir + "/." + name)
  {
    var file := "." + name;
    assert dir + "/." + name == dir + "/" + file;
    assert '/' !in file by {
      assert forall k :: 1 <= k < |file| ==> file[k] == name[k - 1];
    }
    assert file[1..] == name;
    FileNameAfterDirectory(dir, file);
  }
}
