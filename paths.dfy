/** Paths of the data tree. A path is the list of its segments; the empty
    path is the filesystem root. Plugin and app names are single plain
    segments, so joining is concatenation. */
module Paths {

  type Path = seq<string>

  /** The segment between the storage root and the plugin directories. */
  const DataSegment: string := "data"

  /** The non-empty prefixes of `p`, `p` itself included: exactly the
      directories a recursive mkdir of `p` must leave in place. */
  function Ancestry(p: Path): (r: set<Path>)
    ensures forall q :: q in r <==> 0 < |q| && q <= p
  {
    assert forall q | 0 < |q| && q <= p :: q == p[..|q|];
    set k | 1 <= k <= |p| :: p[..k]
  }

  /** Adding one segment adds exactly one path to the ancestry. */
  lemma AncestryAppend(p: Path, x: string)
    ensures Ancestry(p + [x]) == Ancestry(p) + {p + [x]}
  {
    forall q | q in Ancestry(p + [x]) && q != p + [x]
      ensures q in Ancestry(p)
    {
      assert q == (p + [x])[..|q|];
      assert (p + [x])[..|q|] == p[..|q|];
    }
    forall q | q in Ancestry(p)
      ensures q in Ancestry(p + [x])
    {
      assert q == p[..|q|];
      assert p[..|q|] == (p + [x])[..|q|];
    }
  }

  /** Two prefixes of one path are themselves ordered by prefix. */
  lemma PrefixesComparable(a: Path, b: Path, q: Path)
    requires a <= q && b <= q
    ensures a <= b || b <= a
  {
    if |a| <= |b| {
      assert a == q[..|a|] && b[..|a|] == q[..|a|];
    } else {
      assert b == q[..|b|] && a[..|b|] == q[..|b|];
    }
  }

  /** Two different names under one parent never lie under each other. */
  lemma {:induction false} SiblingsApart(base: Path, x: string, y: string)
    requires x != y
    ensures !(base + [x] <= base + [y]) && !(base + [y] <= base + [x])
  {
    assert (base + [x])[|base|] == x && (base + [y])[|base|] == y;
  }

  /** `<storage root>/data/<plugin>`: the directory that holds all of one
      plugin's data. */
  function DataDirectory(root: Path, plugin: string): (p: Path)
    ensures root < p && p[|p| - 1] == plugin
  {
    root + [DataSegment, plugin]
  }

  /** `<storage root>/data/<plugin>/<app>`: one level below the plugin's
      directory, so creating it creates the plugin directory and nothing
      else besides. */
  function AppDataDirectory(root: Path, plugin: string, app: string): (p: Path)
    ensures DataDirectory(root, plugin) < p && |p| == |DataDirectory(root, plugin)| + 1
    ensures p[|p| - 1] == app
    ensures Ancestry(p) == Ancestry(DataDirectory(root, plugin)) + {p}
  {
    AncestryAppend(DataDirectory(root, plugin), app);
    DataDirectory(root, plugin) + [app]
  }

  /** Different apps of one plugin have disjoint data subtrees. */
  lemma AppDirectoriesApart(root: Path, plugin: string, a: string, b: string)
    requires a != b
    ensures !(AppDataDirectory(root, plugin, a) <= AppDataDirectory(root, plugin, b))
    ensures !(AppDataDirectory(root, plugin, b) <= AppDataDirectory(root, plugin, a))
  {
    SiblingsApart(DataDirectory(root, plugin), a, b);
  }

  /** The data directories of a list of apps. */
  function AppDirectories(root: Path, plugin: string, apps: seq<string>): (r: set<Path>)
    ensures forall a :: a in apps ==> AppDataDirectory(root, plugin, a) in r
    ensures forall q :: q in r ==> DataDirectory(root, plugin) < q
  {
    set a | a in apps :: AppDataDirectory(root, plugin, a)
  }

  /** The directories of a non-empty list: the first app's and the rest's. */
  lemma AppDirectoriesCons(root: Path, plugin: string, apps: seq<string>)
    requires apps != []
    ensures AppDirectories(root, plugin, apps)
      == {AppDataDirectory(root, plugin, apps[0])} + AppDirectories(root, plugin, apps[1..])
  {
    var r := AppDirectories(root, plugin, apps);
    var rest := AppDirectories(root, plugin, apps[1..]);
    forall q | q in r
      ensures q == AppDataDirectory(root, plugin, apps[0]) || q in rest
    {
      var a :| a in apps && q == AppDataDirectory(root, plugin, a);
      if a != apps[0] {
        assert a in apps[1..];
      }
    }
  }
}
