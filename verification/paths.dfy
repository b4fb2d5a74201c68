/** Node's `path.basename` and `path.extname` on '/'-separated paths. */
module Paths {
  import opened Wrappers
  import opened Text

  /** `p` without its trailing '/'s (Node ignores them when it looks for the last segment). */
  function TrimTrailingSlashes(p: string): (r: string)
    ensures StartsWith(p, r)
    ensures r == [] || r[|r| - 1] != '/'
  {
    if p != [] && p[|p| - 1] == '/' then
      var r := TrimTrailingSlashes(p[..|p| - 1]);
      assert p[..|r|] == p[..|p| - 1][..|r|];
      r
    else p
  }

  /** Trimming drops '/'s only, and keeps a path that has no trailing '/'. */
  lemma {:induction false} TrimDropsOnlySlashes(p: string)
    ensures forall i :: |TrimTrailingSlashes(p)| <= i < |p| ==> p[i] == '/'
    ensures p == [] || p[|p| - 1] != '/' ==> TrimTrailingSlashes(p) == p
  {
    if p != [] && p[|p| - 1] == '/' {
      TrimDropsOnlySlashes(p[..|p| - 1]);
    }
  }

  /** A path without '/' is its own base name. */
  lemma BasenameOfSlashFree(p: string)
    requires '/' !in p
    ensures Basename(p) == p
  {
    if p != [] {
      assert p[|p| - 1] in p;
    }
    BasenameIsAfterLast(p);
  }

  /** `path.basename(p)`: the last '/'-separated segment once trailing '/'s are dropped ("" for a
      path of '/'s only). */
  function Basename(p: string): (r: string)
    ensures '/' !in r && EndsWith(TrimTrailingSlashes(p), r)
  {
    AfterLast(TrimTrailingSlashes(p), '/')
  }

  /** Trailing '/'s change neither the base name nor the extension: `basename('a/b.pdf/')` is
      `b.pdf` and its extension `.pdf`. */
  lemma TrailingSlashIgnored(p: string)
    ensures Basename(p + "/") == Basename(p)
    ensures Extname(p + "/") == Extname(p)
  {
    assert (p + "/")[..|p + "/"| - 1] == p;
  }

  /** A path without a trailing '/' keeps its last segment whole: the base name is what follows
      the last '/', or the whole path when it has none. */
  lemma BasenameOfPlainPath(p: string)
    requires p == [] || p[|p| - 1] != '/'
    ensures '/' !in p ==> Basename(p) == p
    ensures '/' in p ==> Basename(p) == p[LastIndexOf(p, '/').value + 1..]
    ensures EndsWith(p, Basename(p))
  {
    BasenameIsAfterLast(p);
  }

  /** Without a trailing '/', the base name is what follows the last '/'. */
  lemma BasenameIsAfterLast(p: string)
    requires p == [] || p[|p| - 1] != '/'
    ensures Basename(p) == AfterLast(p, '/')
  {
    TrimDropsOnlySlashes(p);
  }

  /** The extension of a base name: from its last '.' on, or "" when it has no '.', starts with
      its last '.', or is "..". */
  function ExtOfBase(base: string): (r: string)
    ensures r == "" || (r[0] == '.' && EndsWith(base, r))
  {
    match LastIndexOf(base, '.')
    case None => ""
    case Some(k) =>
      if k == 0 || base == ".." then ""
      else
        base[k..]
  }

  /** `path.extname(p)`: the extension of the base name. */
  function Extname(p: string): (r: string)
    ensures r == "" || (r[0] == '.' && EndsWith(Basename(p), r))
  {
    ExtOfBase(Basename(p))
  }

  /** A name whose basename has no '.' has no extension. */
  lemma NoDotNoExtension(p: string)
    requires '.' !in Basename(p)
    ensures Extname(p) == ""
  {
  }

  /** The extension of `stem.ext` is `.ext` whenever `stem` is not empty (and the name is not ".."). */
  lemma {:induction false} ExtnameOfStemAndExt(stem: string, ext: string)
    requires stem != [] && '/' !in stem && '/' !in ext && '.' !in ext
    requires !(stem == "." && ext == "")
    ensures Extname(stem + "." + ext) == "." + ext
  {
    var p := stem + "." + ext;
    assert '/' !in p by {
      forall c | c in p ensures c != '/' {
        assert c in stem || c == '.' || c in ext;
      }
    }
    BasenameOfSlashFree(p);
    var k := |stem|;
    assert p[k] == '.';
    assert p[k + 1..] == ext;
    var li := LastIndexOf(p, '.');
    assert li.Some?;
    assert li.value == k;
    assert p != ".." by {
      if |p| == 2 {
        assert |stem| == 1 && ext == "";
        assert stem == [p[0]];
      }
    }
    assert p[k..] == "." + ext;
  }
}
