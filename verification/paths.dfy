/**
 * Paths as the program builds them (src/utils.rs), on Unix.
 *
 * A path is its raw text, exactly as `PathBuf` stores it: `Push` mirrors
 * `PathBuf::push` (a separator is inserted only when the buffer is non-empty
 * and does not already end in one; an absolute component replaces the
 * buffer). Questions about parents and file names are answered on the
 * component view `View`, which is how `Path` compares and splits paths.
 */
module Paths {
  import opened Optional

  const Sep: char := '/'

  predicate IsAbsolute(p: string) {
    |p| > 0 && p[0] == Sep
  }

  /** A single relative path component: non-empty and without a separator. */
  predicate IsName(s: string) {
    s != "" && Sep !in s
  }

  /** `PathBuf::push`. */
  function Push(buf: string, s: string): (r: string)
    ensures IsAbsolute(s) ==> r == s
    ensures !IsAbsolute(s) && buf != "" ==> |buf| <= |r| && r[..|buf|] == buf
  {
    if IsAbsolute(s) then s
    else if |buf| > 0 && buf[|buf| - 1] != Sep then buf + [Sep] + s
    else buf + s
  }

  /** `path_from_array`: push every element in turn onto an empty buffer. */
  function PathFromArray(a: seq<string>): string {
    if a == [] then "" else Push(PathFromArray(a[..|a| - 1]), a[|a| - 1])
  }

  /** Index of the first separator, or the length when there is none. */
  function FirstSep(s: string): (i: nat)
    ensures i <= |s|
    ensures i < |s| ==> s[i] == Sep
    ensures forall j :: 0 <= j < i ==> s[j] != Sep
  {
    if s == [] then 0 else if s[0] == Sep then 0 else 1 + FirstSep(s[1..])
  }

  /** The normal components of a path: the text split at separators, empty pieces dropped. */
  function Components(s: string): (r: seq<string>)
    ensures forall k :: 0 <= k < |r| ==> IsName(r[k])
    decreases |s|
  {
    if s == [] then []
    else
      var i := FirstSep(s);
      (if i == 0 then [] else [s[..i]]) + (if i == |s| then [] else Components(s[i + 1..]))
  }

  datatype PathView = PathView(absolute: bool, parts: seq<string>)

  /** What `Path` equality, `parent` and `file_name` look at. */
  function View(p: string): PathView {
    PathView(IsAbsolute(p), Components(p))
  }

  /** `Path::file_name` (for paths made of normal components). */
  function FileName(p: string): Option<string> {
    var c := Components(p);
    if c == [] then None else Some(c[|c| - 1])
  }

  /** `Path::parent` (for paths made of normal components), as a view. */
  function Parent(p: string): Option<PathView> {
    var c := Components(p);
    if c == [] then None else Some(PathView(IsAbsolute(p), c[..|c| - 1]))
  }

  /** The components of every element of an array, in order. */
  function AllComponents(a: seq<string>): seq<string> {
    if a == [] then [] else AllComponents(a[..|a| - 1]) + Components(a[|a| - 1])
  }

  lemma {:induction false} ComponentsOfName(x: string)
    requires IsName(x)
    ensures Components(x) == [x]
  {
    assert FirstSep(x) == |x| by {
      assert forall j :: 0 <= j < |x| ==> x[j] != Sep;
    }
    assert x[..|x|] == x;
  }

  /** Splitting at a separator splits the components. */
  lemma {:induction false} ComponentsAtSep(x: string, y: string)
    ensures Components(x + [Sep] + y) == Components(x) + Components(y)
    decreases |x|
  {
    var s := x + [Sep] + y;
    var i := FirstSep(x);
    if i == |x| {
      assert FirstSep(s) == i by {
        assert s[i] == Sep;
        assert forall j :: 0 <= j < i ==> s[j] == x[j];
      }
      assert s[..i] == x;
      assert s[i + 1..] == y;
      if x != [] {
        ComponentsOfName(x);
      }
    } else {
      assert FirstSep(s) == i by {
        assert forall j :: 0 <= j <= i ==> s[j] == x[j];
      }
      assert s[..i] == x[..i];
      assert s[i + 1..] == x[i + 1..] + [Sep] + y;
      ComponentsAtSep(x[i + 1..], y);
    }
  }

  /** Pushing a relative piece appends its components and keeps the root. */
  lemma PushView(buf: string, s: string)
    requires !IsAbsolute(s)
    ensures Components(Push(buf, s)) == Components(buf) + Components(s)
    ensures IsAbsolute(Push(buf, s)) == IsAbsolute(buf)
  {
    if |buf| > 0 && buf[|buf| - 1] != Sep {
      ComponentsAtSep(buf, s);
    } else if |buf| > 0 {
      var b := buf[..|buf| - 1];
      assert buf == b + [Sep] + "";
      assert buf + s == b + [Sep] + s;
      ComponentsAtSep(b, "");
      ComponentsAtSep(b, s);
    } else {
      assert buf + s == s;
    }
  }

  /**
   * `path_from_array` yields the in-order concatenation of its elements'
   * components; it is absolute exactly when its first element is.
   */
  lemma {:induction false} PathFromArrayView(a: seq<string>)
    requires forall i :: 1 <= i < |a| ==> !IsAbsolute(a[i])
    ensures Components(PathFromArray(a)) == AllComponents(a)
    ensures IsAbsolute(PathFromArray(a)) == (|a| > 0 && IsAbsolute(a[0]))
    decreases |a|
  {
    if a != [] {
      var init := a[..|a| - 1];
      PathFromArrayView(init);
      if |a| == 1 {
        assert PathFromArray(a) == Push("", a[0]);
        if !IsAbsolute(a[0]) {
          PushView("", a[0]);
        }
      } else {
        PushView(PathFromArray(init), a[|a| - 1]);
        assert init[0] == a[0];
      }
    }
  }

  /**
   * Appending one name to the array gives a path whose file name is that name
   * and whose parent is the path of the shorter array.
   */
  lemma PathFromArraySnoc(a: seq<string>, x: string)
    requires IsName(x)
    ensures FileName(PathFromArray(a + [x])) == Some(x)
    ensures Parent(PathFromArray(a + [x])) == Some(View(PathFromArray(a)))
  {
    assert (a + [x])[..|a|] == a;
    PushView(PathFromArray(a), x);
    ComponentsOfName(x);
  }

  /** An empty element adds no component (a top-level file's empty relative parent). */
  lemma PathFromArrayEmptyElement(a: seq<string>)
    ensures View(PathFromArray(a + [""])) == View(PathFromArray(a))
  {
    assert (a + [""])[..|a|] == a;
    PushView(PathFromArray(a), "");
  }

  /** Index of the last '.' in a name, if any. */
  function LastDot(name: string): (r: Option<nat>)
    ensures r.Some? ==> r.value < |name| && name[r.value] == '.'
    ensures r.Some? ==> forall j :: r.value < j < |name| ==> name[j] != '.'
    ensures r.None? ==> '.' !in name
  {
    if name == [] then None
    else if name[|name| - 1] == '.' then Some(|name| - 1)
    else LastDot(name[..|name| - 1])
  }

  datatype StemExt = StemExt(stem: string, ext: Option<string>)

  /**
   * `Path::file_stem` and `Path::extension` of a file name: split at the last
   * '.', except that ".." and names whose only '.' leads have no extension.
   */
  function SplitName(name: string): (r: StemExt)
    ensures r.ext.Some? ==> name == r.stem + "." + r.ext.value && '.' !in r.ext.value && r.stem != ""
    ensures r.ext.None? ==> r.stem == name
  {
    if name == ".." then StemExt(name, None)
    else match LastDot(name)
      case None => StemExt(name, None)
      case Some(i) =>
        if i == 0 then StemExt(name, None)
        else StemExt(name[..i], Some(name[i + 1..]))
  }

  /**
   * A stem followed by '.' and a dot-free extension splits back into those
   * two; the one exception is the name "..", which has no extension.
   */
  lemma SplitNameJoin(stem: string, ext: string)
    requires stem != "" && (stem == "." ==> ext != "") && '.' !in ext
    ensures SplitName(stem + "." + ext) == StemExt(stem, Some(ext))
  {
    var name := stem + "." + ext;
    assert name != ".." by {
      if |name| == 2 {
        assert |stem| == 1 && ext == [];
        assert stem == [stem[0]] && name[0] == stem[0];
      }
    }
    assert forall j :: |stem| < j < |name| ==> name[j] == ext[j - |stem| - 1];
    assert name[|stem|] == '.';
    var d := LastDot(name);
    assert d.Some?;
    assert d.value == |stem|;
    assert name[..|stem|] == stem;
    assert name[|stem| + 1..] == ext;
  }

  /**
   * `use_fileext`: the override extension when it is non-empty, otherwise the
   * file's own extension (the source panics when the file has none).
   */
  function UseFileExt(ownExt: Option<string>, ext: string): (r: string)
    requires ext != "" || ownExt.Some?
    ensures ext != "" ==> r == ext
    ensures ext == "" ==> Some(r) == ownExt
  {
    if ext != "" then ext else ownExt.value
  }
}
