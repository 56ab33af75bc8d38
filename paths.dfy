/** URLs and the `std::path` operations used to place thumbnails: trimming the
    leading slashes of a URL path, `PathBuf::join`, `Path::strip_prefix` and
    `Path::parent`, all on plain strings with `/` as the separator. */
module Paths {
  import opened Strings

  /** An attachment or image URL as received, together with what
      `Url::from_str(text)` makes of it: the URL's path, or `None` when the
      text does not parse. */
  datatype Url = Url(text: string, path: Option<string>)

  /** `s.trim_start_matches('/')`: drops every leading `/` and nothing else. */
  function TrimLeadingSlashes(s: string): (r: string)
    ensures |r| <= |s| && r == s[|s| - |r|..]
    ensures |r| == 0 || r[0] != '/'
    ensures forall i :: 0 <= i < |s| - |r| ==> s[i] == '/'
    decreases |s|
  {
    if |s| > 0 && s[0] == '/' then TrimLeadingSlashes(s[1..]) else s
  }

  predicate IsAbsolute(p: string) {
    |p| > 0 && p[0] == '/'
  }

  /** `root.join(rel)`: an absolute `rel` replaces `root`; otherwise a
      separator is put between them unless `root` is empty or already ends in
      one. */
  function Join(root: string, rel: string): (r: string)
  {
    if IsAbsolute(rel) then rel
    else if |root| == 0 || root[|root| - 1] == '/' then root + rel
    else root + "/" + rel
  }

  /** `path.strip_prefix(root)`: what follows `root` in `path`, or `None`
      when `path` does not start with `root` as a whole path. */
  function StripPrefix(path: string, root: string): (r: Option<string>)
    ensures !StartsWith(path, root) ==> r.None?
  {
    if |root| == 0 then Some(path)
    else if root[|root| - 1] == '/' then
      (if StartsWith(path, root) then Some(path[|root|..]) else None)
    else if StartsWith(path, root + "/") then Some(path[|root| + 1..])
    else if path == root then Some("")
    else None
  }

  /** Stripping the root back off a joined relative path gives the relative
      path: `root.join(rel).strip_prefix(root) == Ok(rel)`. */
  lemma StripPrefixOfJoin(root: string, rel: string)
    requires !IsAbsolute(rel)
    ensures StripPrefix(Join(root, rel), root) == Some(rel)
  {
    var p := Join(root, rel);
    if |root| > 0 && root[|root| - 1] != '/' {
      assert p[..|root| + 1] == root + "/";
      assert p[|root| + 1..] == rel;
    } else if |root| > 0 {
      assert p == root + rel;
      assert p[..|root|] == root;
      assert StartsWith(p, root);
      assert p[|root|..] == rel;
    } else {
      assert p == rel;
    }
  }

  /** `path.parent()`: everything before the last separator; `""` for a
      single relative component; `None` for the empty path and for `/`. */
  function Parent(p: string): (r: Option<string>)
    ensures r.None? <==> p == "" || p == "/"
    ensures r.Some? ==> |r.value| < |p| && p[..|r.value|] == r.value
    ensures r.Some? ==> forall i :: |r.value| < i < |p| ==> p[i] != '/'
    ensures r.Some? && |r.value| > 0 && r.value != "/" ==> p[|r.value|] == '/'
    ensures r == Some("") <==> |p| > 0 && forall i :: 0 <= i < |p| ==> p[i] != '/'
  {
    if |p| == 0 then None
    else
      var k := LastSlash(p, |p|);
      if k < 0 then Some("")
      else if k == 0 then (if |p| == 1 then None else Some("/"))
      else Some(p[..k])
  }

  /** Index of the last `/` in `p[..end]`, or -1. */
  function LastSlash(p: string, end: nat): (k: int)
    requires end <= |p|
    ensures -1 <= k < end
    ensures k >= 0 ==> p[k] == '/'
    ensures forall i :: k < i < end ==> p[i] != '/'
  {
    if end == 0 then -1 else if p[end - 1] == '/' then end - 1 else LastSlash(p, end - 1)
  }

  /** The directories `fs::create_dir_all(dir)` makes sure exist: `dir` and
      each of its ancestors, walking up by `parent()`; nothing for the empty
      path. Each one is a prefix of `dir` that ends where a component of
      `dir` ends: `dir` itself, the root `/`, or a prefix followed by `/`. */
  function DirChain(dir: string): (r: set<string>)
    ensures |dir| > 0 ==> dir in r
    ensures forall d :: d in r ==> 0 < |d| <= |dir| && d == dir[..|d|]
    ensures forall d :: d in r ==> d == dir || d == "/" || (|d| < |dir| && dir[|d|] == '/')
    decreases |dir|
  {
    if |dir| == 0 then {}
    else
      match Parent(dir)
      case None => {dir}
      case Some(up) =>
        var above := DirChain(up);
        assert forall d :: d in above ==> d == dir[..|d|] && (d == dir || d == "/" || (|d| < |dir| && dir[|d|] == '/')) by {
          forall d | d in above
            ensures d == dir[..|d|] && (d == dir || d == "/" || (|d| < |dir| && dir[|d|] == '/'))
          {
            assert d == up[..|d|];
            assert up == dir[..|up|];
            if d != up && d != "/" {
              assert up[|d|] == '/';
            }
          }
        }
        {dir} + above
  }

  /** Every directory `create_dir_all` makes has its nonempty parent made as
      well, so the chain reaches the top of the path. */
  lemma {:induction false} DirChainHasEveryAncestor(dir: string, d: string)
    requires d in DirChain(dir) && Parent(d).Some? && |Parent(d).value| > 0
    ensures Parent(d).value in DirChain(dir)
    decreases |dir|
  {
    if d != dir {
      DirChainHasEveryAncestor(Parent(dir).value, d);
    }
  }
}
