/** The path manipulation used to derive output names: `os.path.basename`,
    `os.path.splitext` (root only) and joining with `pathlib.Path`, over
    POSIX paths with the single separator '/'. */
module Paths {
  import opened Wrappers

  /** `os.path.basename(p)`: the longest suffix of `p` that contains no
      separator. */
  function Basename(p: string): (r: string)
    ensures '/' !in r
    ensures |r| <= |p| && r == p[|p| - |r|..]
    ensures |r| < |p| ==> p[|p| - |r| - 1] == '/'
  {
    if p == [] || p[|p| - 1] == '/' then [] else Basename(p[..|p| - 1]) + [p[|p| - 1]]
  }

  /** Position of the last '.' in `s`, if any. */
  function LastDot(s: string): (r: Option<nat>)
    ensures r.None? ==> '.' !in s
    ensures r.Some? ==> r.value < |s| && s[r.value] == '.' && '.' !in s[r.value + 1..]
  {
    if s == [] then None
    else if s[|s| - 1] == '.' then Some(|s| - 1)
    else
      var r := LastDot(s[..|s| - 1]);
      assert r.Some? ==> s[r.value + 1..] == s[..|s| - 1][r.value + 1..] + [s[|s| - 1]];
      r
  }

  predicate AllDots(s: string) {
    forall i :: 0 <= i < |s| ==> s[i] == '.'
  }

  /** The dot at `d` starts the extension of `name`: it is the last dot and
      something other than a dot comes before it (leading dots, as in
      ".profile", do not start an extension). */
  predicate ExtensionDotAt(name: string, d: nat) {
    d < |name| && name[d] == '.' && '.' !in name[d + 1..] && !AllDots(name[..d])
  }

  /** `os.path.splitext(name)[0]` for a name without separators: `name` with
      its extension, if it has one, removed. */
  function Stem(name: string): (r: string)
    ensures |r| <= |name| && r == name[..|r|]
    ensures r != name ==> ExtensionDotAt(name, |r|)
    ensures r == name ==> forall d :: 0 <= d < |name| ==> !ExtensionDotAt(name, d)
  {
    match LastDot(name)
    case None => name
    case Some(d) =>
      if AllDots(name[..d]) then
        assert forall e :: 0 <= e < |name| && ExtensionDotAt(name, e) ==> e == d by {
          forall e | 0 <= e < |name| && ExtensionDotAt(name, e) ensures e == d {
            if e < d { assert false; }
            if e > d { assert false; }
          }
        }
        name
      else name[..d]
  }

  lemma StemKeepsNoSeparator(name: string)
    requires '/' !in name
    ensures '/' !in Stem(name)
  {
    var r := Stem(name);
    assert forall i :: 0 <= i < |r| ==> r[i] == name[i];
  }

  lemma NoSeparatorConcat(a: string, b: string)
    requires '/' !in a && '/' !in b
    ensures '/' !in a + b
  {
    assert forall i :: 0 <= i < |a + b| ==> (a + b)[i] in a || (a + b)[i] in b;
  }

  /** `str(Path(dir) / name)` for a relative `name`: the two joined by one
      separator, an empty directory standing for the current one. */
  function Join(dir: string, name: string): (r: string)
    ensures |r| >= |dir| + |name| && r[|r| - |name|..] == name
    ensures dir != [] ==> r[..|dir|] == dir && r[|r| - |name| - 1] == '/'
    ensures dir != [] && dir[|dir| - 1] != '/' ==> r == dir + "/" + name
    ensures dir != [] && dir[|dir| - 1] == '/' ==> r == dir + name
    ensures dir == [] ==> r == name
  {
    if dir == [] then name
    else if dir[|dir| - 1] == '/' then dir + name
    else dir + "/" + name
  }

  /** The base name of a joined path is the name that was joined. */
  lemma BasenameOfJoin(dir: string, name: string)
    requires '/' !in name
    ensures Basename(Join(dir, name)) == name
  {
  }
}
