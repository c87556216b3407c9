/** Slash-separated paths, as path.Base sees them. */
module Paths {

  /** The last element of a path: everything after the final '/'. */
  function Base(p: string): (r: string)
    ensures '/' !in r
  {
    if p == [] then []
    else if p[|p| - 1] == '/' then []
    else Base(p[..|p| - 1]) + [p[|p| - 1]]
  }

  /** Base gives the longest suffix of the path that holds no '/': it is a
      suffix, and either it is the whole path or a '/' comes right before it. */
  lemma {:induction false} BaseIsLastElement(p: string)
    ensures |Base(p)| <= |p| && Base(p) == p[|p| - |Base(p)|..]
    ensures |Base(p)| < |p| ==> p[|p| - |Base(p)| - 1] == '/'
  {
    if p == [] {
    } else if p[|p| - 1] == '/' {
      assert Base(p) == [];
    } else {
      var front := p[..|p| - 1];
      BaseIsLastElement(front);
      var b := Base(front);
      var k := |b|;
      assert Base(p) == b + [p[|p| - 1]];
      assert p[|p| - 1 - k..|p| - 1] == front[|front| - k..];
      assert p[|p| - 1 - k..] == b + [p[|p| - 1]];
      if k < |front| {
        assert p[|p| - k - 2] == front[|front| - k - 1];
      }
    }
  }

  /** An event reported for a file `name` inside any watched directory has
      `name` as its base, so a change to the executable matches by base
      name wherever the watcher reports it from. */
  lemma {:induction false} BaseOfJoin(dir: string, name: string)
    requires '/' !in name
    ensures Base(dir + "/" + name) == name
  {
    if name == [] {
      assert dir + "/" + name == dir + "/";
    } else {
      var front := name[..|name| - 1];
      assert forall c :: c in front ==> c in name;
      assert (dir + "/" + name)[..|dir + "/" + name| - 1] == dir + "/" + front;
      BaseOfJoin(dir, front);
      assert name == front + [name[|name| - 1]];
    }
  }
}
