/**
 The file filter of the Python camera widget (camwatcher.py
 `copyableFileIndexes`): the 1-based positions of the device's file paths
 whose extension is in the allow-list.
 */
module CamWatcher {
  import opened Wrappers
  import opened Text
  import opened Extensions

  /** `os.path.basename`: the text after the last '/', or the whole path when it holds none. */
  function BaseName(path: string): (b: string)
    ensures forall i :: 0 <= i < |b| ==> b[i] != '/'
    ensures |b| <= |path| && b == path[|path| - |b|..]
    ensures |b| < |path| ==> path[|path| - |b| - 1] == '/'
  {
    match AfterLast(path, '/')
    case None => path
    case Some(k) => path[k..]
  }

  predicate AllDots(s: string) {
    forall i :: 0 <= i < |s| ==> s[i] == '.'
  }

  /** `'.' in baseName`. */
  predicate HasDot(b: string) {
    AfterLast(b, '.').Some?
  }

  /**
   `os.path.splitext(b)[1][1:]`: the text after the last dot, provided
   something other than a dot stands before that dot; otherwise the name has
   no extension (".jpg" is a hidden file called ".jpg").
   */
  function Extension(b: string): (e: string)
    ensures forall i :: 0 <= i < |e| ==> e[i] != '.'
    ensures !HasDot(b) ==> e == ""
  {
    match AfterLast(b, '.')
    case None => ""
    case Some(k) => if AllDots(b[..k - 1]) then "" else b[k..]
  }

  /** The test one path passes to be yielded. */
  function Copyable(path: string): (c: bool)
    ensures c <==> HasDot(BaseName(path)) && ToLower(Extension(BaseName(path))) in AllowedExtensions - {"R3D"}
    ensures c ==> 0 < |Extension(BaseName(path))| <= 4
  {
    var b := BaseName(path);
    var e := Extension(b);
    R3DNeverAccepted(e);
    AllowedLength(e);
    HasDot(b) && Allowed(e)
  }

  /** Every allowed suffix has one to four characters. */
  lemma AllowedLength(e: string)
    ensures Allowed(e) ==> 0 < |e| <= 4
  {
    if |e| == 0 || |e| > 4 {
      AllowListRefuses(e);
    }
  }

  /** The positions, counted from 1, of the set flags, in order. */
  function Positions(flags: seq<bool>): (r: seq<nat>)
    ensures forall i :: 0 <= i < |flags| ==> (i + 1 in r <==> flags[i])
    ensures forall i :: 0 <= i < |r| ==> 1 <= r[i] <= |flags|
    ensures forall i, j :: 0 <= i < j < |r| ==> r[i] < r[j]
    decreases |flags|
  {
    if |flags| == 0 then []
    else
      var n := |flags| - 1;
      var rest := Positions(flags[..n]);
      assert forall i :: 0 <= i < n ==> flags[..n][i] == flags[i];
      rest + (if flags[n] then [n + 1] else [])
  }

  /** Whether each path is copyable, path by path. */
  function CopyableFlags(paths: seq<string>): (f: seq<bool>)
    ensures |f| == |paths|
    ensures forall i :: 0 <= i < |paths| ==> f[i] == Copyable(paths[i])
  {
    seq(|paths|, i requires 0 <= i < |paths| => Copyable(paths[i]))
  }

  /**
   `copyableFileIndexes`: the position, counted from 1 as the camera tool
   counts, of every copyable path, in order; no other number.
   */
  function CopyableFileIndexes(paths: seq<string>): (r: seq<nat>)
    ensures forall i :: 0 <= i < |paths| ==> (i + 1 in r <==> Copyable(paths[i]))
    ensures forall i :: 0 <= i < |r| ==> 1 <= r[i] <= |paths|
    ensures forall i, j :: 0 <= i < j < |r| ==> r[i] < r[j]
  {
    Positions(CopyableFlags(paths))
  }

  /** The name part of a path: everything after the last '/' when the name holds none. */
  lemma BaseNameOf(dir: string, name: string)
    requires forall i :: 0 <= i < |name| ==> name[i] != '/'
    ensures BaseName(dir + "/" + name) == name
  {
    var p := dir + "/" + name;
    assert p[|dir|] == '/';
    assert forall j :: |dir| + 1 <= j < |p| ==> p[j] == name[j - |dir| - 1];
    assert p[|dir| + 1..] == name;
  }

  /**
   A file "stem.ext" in any folder, where the stem is not made of dots only,
   is yielded exactly when its extension is allowed.
   */
  lemma CopyableByExtension(dir: string, stem: string, ext: string)
    requires forall i :: 0 <= i < |stem| ==> stem[i] != '/'
    requires forall i :: 0 <= i < |ext| ==> ext[i] != '/' && ext[i] != '.'
    requires !AllDots(stem)
    ensures Copyable(dir + "/" + (stem + "." + ext)) <==> Allowed(ext)
  {
    var name := stem + "." + ext;
    BaseNameOf(dir, name);
    ExtensionOf(stem, ext);
  }

  /** A bare file name "stem.ext", with no folder, is yielded exactly when its extension is allowed. */
  lemma CopyableBareName(stem: string, ext: string)
    requires forall i :: 0 <= i < |stem| ==> stem[i] != '/'
    requires forall i :: 0 <= i < |ext| ==> ext[i] != '/' && ext[i] != '.'
    requires !AllDots(stem)
    ensures Copyable(stem + "." + ext) <==> Allowed(ext)
  {
    var name := stem + "." + ext;
    forall i | 0 <= i < |name| ensures name[i] != '/' {
      if i > |stem| {
        assert name[i] == ext[i - |stem| - 1];
      }
    }
    BaseNameOfBare(name);
    ExtensionOf(stem, ext);
  }

  /** A name without a '/' is its own base name. */
  lemma BaseNameOfBare(name: string)
    requires forall i :: 0 <= i < |name| ==> name[i] != '/'
    ensures BaseName(name) == name
  {
  }

  lemma ExtensionOf(stem: string, ext: string)
    requires forall i :: 0 <= i < |ext| ==> ext[i] != '.'
    ensures var name := stem + "." + ext;
            HasDot(name) && Extension(name) == (if AllDots(stem) then "" else ext)
  {
    var name := stem + "." + ext;
    var k := |stem| + 1;
    assert name[k - 1] == '.';
    assert forall j :: k <= j < |name| ==> name[j] == ext[j - k];
    assert AfterLast(name, '.') == Some(k);
    assert name[..k - 1] == stem && name[k..] == ext;
  }

  /** A hidden file such as ".jpg" has no extension and is never yielded. */
  lemma HiddenFileNotCopyable(dir: string, ext: string)
    requires forall i :: 0 <= i < |ext| ==> ext[i] != '/' && ext[i] != '.'
    ensures !Copyable(dir + "/" + ("" + "." + ext))
  {
    BaseNameOf(dir, "" + "." + ext);
    ExtensionOf("", ext);
    AllowListRefuses("");
  }

  /** A name without a dot is never yielded. */
  lemma NoDotNotCopyable(path: string)
    requires forall i :: 0 <= i < |path| ==> path[i] != '.'
    ensures !Copyable(path)
  {
  }

  /** An ".R3D" file is never yielded, whatever the letter case. */
  lemma R3DNotCopyable(path: string)
    requires ToLower(Extension(BaseName(path))) == "r3d"
    ensures !Copyable(path)
  {
    R3DNeverAccepted(Extension(BaseName(path)));
  }
}
