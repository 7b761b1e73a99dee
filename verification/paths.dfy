/** POSIX path handling as `os.path.join` and `os.path.basename` perform it. */
module Paths {
  import opened Strings

  /**
    `os.path.basename(p)`: the longest suffix of `p` without a '/', that is,
    everything after the last '/'.
   */
  function Basename(p: string): (b: string)
    ensures '/' !in b
    ensures |b| <= |p| && p[|p| - |b|..] == b
    ensures |b| < |p| ==> p[|p| - |b| - 1] == '/'
    decreases |p|
  {
    if |p| == 0 || p[|p| - 1] == '/' then
      ""
    else
      var init := p[..|p| - 1];
      var b := Basename(init);
      assert p[|p| - |b| - 1..] == init[|init| - |b|..] + [p[|p| - 1]];
      b + [p[|p| - 1]]
  }

  /** `os.path.join(a, b)`: an absolute `b` discards `a`; otherwise a single '/' separates them. */
  function Join(a: string, b: string): (p: string)
    ensures EndsWith(p, b)
    ensures StartsWith(b, "/") ==> p == b
    ensures !StartsWith(b, "/") ==> StartsWith(p, a)
    ensures !StartsWith(b, "/") && a != "" ==> |p| > |b| && p[|p| - |b| - 1] == '/'
    ensures !StartsWith(b, "/") ==> |p| == |a| + |b| + (if a == "" || EndsWith(a, "/") then 0 else 1)
  {
    if StartsWith(b, "/") then b
    else if |a| == 0 || a[|a| - 1] == '/' then a + b
    else a + "/" + b
  }

  /** Whatever precedes a '/' does not affect the basename of what follows. */
  lemma {:induction false} BasenameAfterSlash(x: string, b: string)
    requires |x| > 0 && x[|x| - 1] == '/'
    ensures Basename(x + b) == Basename(b)
    decreases |b|
  {
    if |b| == 0 {
      assert x + b == x;
    } else if b[|b| - 1] == '/' {
      assert (x + b)[|x + b| - 1] == '/';
    } else {
      var init := b[..|b| - 1];
      assert (x + b)[..|x + b| - 1] == x + init;
      BasenameAfterSlash(x, init);
    }
  }

  /** Joining a folder in front of a name never changes the name's basename. */
  lemma BasenameOfJoin(folder: string, name: string)
    ensures Basename(Join(folder, name)) == Basename(name)
  {
    if StartsWith(name, "/") {
    } else if |folder| == 0 {
      assert folder + name == name;
    } else if folder[|folder| - 1] == '/' {
      BasenameAfterSlash(folder, name);
    } else {
      assert folder + "/" + name == (folder + "/") + name;
      BasenameAfterSlash(folder + "/", name);
    }
  }

  /** A name without '/' is its own basename. */
  lemma BasenameOfPlainName(name: string)
    requires '/' !in name
    ensures Basename(name) == name
  {
  }
}
