/** Where message packages come from (crates/ros-z-msgs/build.rs:138-212, 270-383). */
module Packages {
  import opened Common

  /** A path by its components; the first may be a whole prefix. */
  type Path = seq<string>

  /** What the search can observe: which paths exist, and the verdict of the package file where one
      gives a name or cannot be read (crates/ros-z-codegen/src/discovery.rs:78-105). */
  datatype FileSystem = FileSystem(existing: set<Path>, named: map<Path, Option<string>>)

  predicate Exists(fs: FileSystem, p: Path) {
    p in fs.existing
  }

  /** The name in the package file, or else that of the directory; `None` on an error. */
  function PackageName(fs: FileSystem, p: Path): Option<string> {
    if p in fs.named then fs.named[p] else if p == [] then None else Some(p[|p| - 1])
  }

  predicate IsPackage(fs: FileSystem, p: Path) {
    Exists(fs, p) &&
    (Exists(fs, p + ["msg"]) || Exists(fs, p + ["srv"]) || Exists(fs, p + ["action"]))
  }

  /** The package files agree with the directory names. */
  predicate Faithful(fs: FileSystem) {
    forall p :: p in fs.named ==> p != [] && fs.named[p] == Some(p[|p| - 1])
  }

  /** Prefix lists from the environment; `None` where a variable is not set. */
  datatype Environment = Environment(ament: Option<seq<string>>, cmake: Option<seq<string>>)

  const INSTALL_PATHS: seq<string> :=
    ["/opt/ros/rolling", "/opt/ros/jazzy", "/opt/ros/iron", "/opt/ros/humble"]

  const ASSETS: Path := ["ros-z-codegen/assets/jazzy"]

  // ---- The search

  function Share(prefix: string): Path {
    [prefix, "share"]
  }

  /** The wanted packages below one directory, in the order they are wanted. */
  function Below(fs: FileSystem, dir: Path, wanted: seq<string>): seq<Path> {
    if wanted == [] then []
    else
      var last := dir + [wanted[|wanted| - 1]];
      Below(fs, dir, wanted[..|wanted| - 1]) + if IsPackage(fs, last) then [last] else []
  }

  function Along(fs: FileSystem, prefixes: seq<string>, wanted: seq<string>): seq<Path> {
    if prefixes == [] then []
    else Along(fs, prefixes[..|prefixes| - 1], wanted)
         + Below(fs, Share(prefixes[|prefixes| - 1]), wanted)
  }

  /** The prefixes whose packages are used: those of the first source that holds any wanted package. */
  function Source(fs: FileSystem, env: Environment, wanted: seq<string>): seq<string> {
    if env.ament.Some? && Along(fs, env.ament.value, wanted) != [] then env.ament.value
    else if env.cmake.Some? && Along(fs, env.cmake.value, wanted) != [] then env.cmake.value
    else FirstInstall(fs, INSTALL_PATHS, wanted)
  }

  function FirstInstall(fs: FileSystem, installs: seq<string>, wanted: seq<string>): seq<string> {
    if installs == [] then []
    else if Exists(fs, [installs[0]]) && Below(fs, Share(installs[0]), wanted) != [] then [installs[0]]
    else FirstInstall(fs, installs[1..], wanted)
  }

  /** The innermost loop, shared by every search. */
  method Collect(fs: FileSystem, dir: Path, wanted: seq<string>) returns (found: seq<Path>)
    ensures found == Below(fs, dir, wanted)
  {
    found := [];
    for i := 0 to |wanted|
      invariant found == Below(fs, dir, wanted[..i])
    {
      var path := dir + [wanted[i]];
      if Exists(fs, path)
         && (Exists(fs, path + ["msg"]) || Exists(fs, path + ["srv"]) || Exists(fs, path + ["action"]))
      {
        found := found + [path];
      }
      assert wanted[..i + 1][..i] == wanted[..i];
    }
    assert wanted[..|wanted|] == wanted;
  }

  /** The loop over the prefixes of one environment variable. */
  method CollectAlong(fs: FileSystem, prefixes: seq<string>, wanted: seq<string>)
    returns (found: seq<Path>)
    ensures found == Along(fs, prefixes, wanted)
  {
    found := [];
    for i := 0 to |prefixes|
      invariant found == Along(fs, prefixes[..i], wanted)
    {
      var below := Collect(fs, Share(prefixes[i]), wanted);
      found := found + below;
      assert prefixes[..i + 1][..i] == prefixes[..i];
    }
    assert prefixes[..|prefixes|] == prefixes;
  }

  /** The loop over the common installation paths. */
  method CollectInstall(fs: FileSystem, installs: seq<string>, wanted: seq<string>)
    returns (found: seq<Path>)
    ensures found == Along(fs, FirstInstall(fs, installs, wanted), wanted)
  {
    found := [];
    var i := 0;
    while i < |installs|
      invariant 0 <= i <= |installs| && found == []
      invariant FirstInstall(fs, installs[i..], wanted) == FirstInstall(fs, installs, wanted)
    {
      if Exists(fs, [installs[i]]) {
        found := Collect(fs, Share(installs[i]), wanted);
        if found != [] {
          AlongOne(fs, installs[i], wanted);
          return;
        }
      }
      assert installs[i..][1..] == installs[i + 1..];
      i := i + 1;
    }
  }

  /** `discover_system_packages`: later sources are consulted only when all earlier ones hold nothing. */
  method DiscoverSystemPackages(fs: FileSystem, env: Environment, wanted: seq<string>)
    returns (found: seq<Path>)
    ensures found == Along(fs, Source(fs, env, wanted), wanted)
  {
    NothingWanted(fs, Source(fs, env, wanted));
    if wanted == [] {
      return [];
    }
    found := [];
    if env.ament.Some? {
      found := CollectAlong(fs, env.ament.value, wanted);
    }
    if found == [] && env.cmake.Some? {
      found := CollectAlong(fs, env.cmake.value, wanted);
    }
    if found == [] {
      found := CollectInstall(fs, INSTALL_PATHS, wanted);
    }
  }

  lemma AlongOne(fs: FileSystem, prefix: string, wanted: seq<string>)
    ensures Along(fs, [prefix], wanted) == Below(fs, Share(prefix), wanted)
  {
    assert Along(fs, [prefix][..0], wanted) == [];
  }

  lemma {:induction false} NothingWanted(fs: FileSystem, prefixes: seq<string>)
    ensures Along(fs, prefixes, []) == []
  {
    if prefixes != [] {
      NothingWanted(fs, prefixes[..|prefixes| - 1]);
    }
  }

  /** `discover_local_assets`. */
  method DiscoverLocalAssets(fs: FileSystem, wanted: seq<string>) returns (found: seq<Path>)
    ensures found == if Exists(fs, ASSETS) then Below(fs, ASSETS, wanted) else []
  {
    if !Exists(fs, ASSETS) {
      return [];
    }
    found := Collect(fs, ASSETS, wanted);
  }

  // ---- From paths to packages

  /** Paths by package name; of several with one name the last stays. */
  function LastWins(fs: FileSystem, paths: seq<Path>): map<string, Path> {
    if paths == [] then map[]
    else
      var rest, last := LastWins(fs, paths[..|paths| - 1]), paths[|paths| - 1];
      match PackageName(fs, last)
      case None => rest
      case Some(name) => rest[name := last]
  }

  /** Paths by package name; of several with one name the first stays. */
  function FirstWins(fs: FileSystem, paths: seq<Path>): map<string, Path> {
    if paths == [] then map[]
    else
      var rest, last := FirstWins(fs, paths[..|paths| - 1]), paths[|paths| - 1];
      match PackageName(fs, last)
      case None => rest
      case Some(name) => if name in rest then rest else rest[name := last]
  }

  /** `discover_ros_packages`. */
  method DiscoverRosPackages(fs: FileSystem, env: Environment, wanted: seq<string>)
    returns (packages: map<string, Path>)
    ensures packages ==
              if Exists(fs, ASSETS) && Below(fs, ASSETS, wanted) != []
              then LastWins(fs, Below(fs, ASSETS, wanted))
              else FirstWins(fs, Along(fs, Source(fs, env, wanted), wanted))
  {
    packages := map[];
    var local := DiscoverLocalAssets(fs, wanted);
    for i := 0 to |local|
      invariant packages == LastWins(fs, local[..i])
    {
      var name := PackageName(fs, local[i]);
      if name.Some? {
        packages := packages[name.value := local[i]];
      }
      assert local[..i + 1][..i] == local[..i];
    }
    assert local[..|local|] == local;
    if |local| > 0 {
      return;
    }
    var system := DiscoverSystemPackages(fs, env, wanted);
    for i := 0 to |system|
      invariant packages == FirstWins(fs, system[..i])
    {
      var name := PackageName(fs, system[i]);
      if name.Some? && name.value !in packages {
        packages := packages[name.value := system[i]];
      }
      assert system[..i + 1][..i] == system[..i];
    }
    assert system[..|system|] == system;
  }

  // ---- What the result means

  /** The package file of `p` gives the name, or there is none and the directory has that name. */
  ghost predicate IsNamed(fs: FileSystem, p: Path, name: string) {
    || (p in fs.named && fs.named[p] == Some(name))
    || (p !in fs.named && p != [] && p[|p| - 1] == name)
  }

  /** A name is mapped exactly when some path carries it, and then to the first that does. */
  lemma {:induction false} FirstWinsMeans(fs: FileSystem, paths: seq<Path>, name: string)
    returns (first: nat)
    ensures first <= |paths|
    ensures forall i :: 0 <= i < first ==> !IsNamed(fs, paths[i], name)
    ensures name in FirstWins(fs, paths) <==> first < |paths|
    ensures first < |paths| ==>
              IsNamed(fs, paths[first], name) && FirstWins(fs, paths)[name] == paths[first]
  {
    if paths == [] {
      return 0;
    }
    first := FirstWinsMeans(fs, paths[..|paths| - 1], name);
    if first == |paths| - 1 && !IsNamed(fs, paths[first], name) {
      first := |paths|;
    }
  }

  /** The same for bundled packages, where the last path stays. `after` is the index behind it, or 0. */
  lemma {:induction false} LastWinsMeans(fs: FileSystem, paths: seq<Path>, name: string)
    returns (after: nat)
    ensures after <= |paths|
    ensures forall i :: after <= i < |paths| ==> !IsNamed(fs, paths[i], name)
    ensures name in LastWins(fs, paths) <==> 0 < after
    ensures 0 < after ==>
              IsNamed(fs, paths[after - 1], name) && LastWins(fs, paths)[name] == paths[after - 1]
  {
    if paths == [] {
      return 0;
    }
    after := LastWinsMeans(fs, paths[..|paths| - 1], name);
    if IsNamed(fs, paths[|paths| - 1], name) {
      after := |paths|;
    }
  }

  /** Results of earlier paths lie over those of later ones. */
  lemma {:induction false} FirstWinsOverlays(fs: FileSystem, front: seq<Path>, back: seq<Path>)
    ensures FirstWins(fs, front + back) == FirstWins(fs, back) + FirstWins(fs, front)
  {
    if back == [] {
      assert front + back == front;
    } else {
      var most, last := back[..|back| - 1], back[|back| - 1];
      assert (front + back)[..|front + back| - 1] == front + most;
      FirstWinsOverlays(fs, front, most);
    }
  }

  /** The wanted packages that one directory holds. */
  function Layer(fs: FileSystem, dir: Path, wanted: seq<string>): map<string, Path> {
    map name | name in wanted && IsPackage(fs, dir + [name]) :: dir + [name]
  }

  /** Earlier prefixes over later ones. */
  function Overlay(fs: FileSystem, prefixes: seq<string>, wanted: seq<string>): map<string, Path> {
    if prefixes == [] then map[]
    else Layer(fs, Share(prefixes[|prefixes| - 1]), wanted)
         + Overlay(fs, prefixes[..|prefixes| - 1], wanted)
  }

  lemma LayerSnoc(fs: FileSystem, dir: Path, most: seq<string>, last: string)
    ensures Layer(fs, dir, most + [last]) ==
              if IsPackage(fs, dir + [last]) then Layer(fs, dir, most)[last := dir + [last]]
              else Layer(fs, dir, most)
  {
  }

  lemma OneMorePath(fs: FileSystem, paths: seq<Path>, dir: Path, last: string)
    requires Faithful(fs)
    ensures LastWins(fs, paths + [dir + [last]]) == LastWins(fs, paths)[last := dir + [last]]
    ensures FirstWins(fs, paths + [dir + [last]]) ==
              if last in FirstWins(fs, paths) then FirstWins(fs, paths)
              else FirstWins(fs, paths)[last := dir + [last]]
  {
    var path := dir + [last];
    assert PackageName(fs, path) == Some(last);
    assert (paths + [path])[..|paths|] == paths;
  }

  /** Bundled and installed packages of one directory are mapped alike. */
  lemma {:induction false} BelowIsLayer(fs: FileSystem, dir: Path, wanted: seq<string>)
    requires Faithful(fs)
    ensures LastWins(fs, Below(fs, dir, wanted)) == Layer(fs, dir, wanted)
    ensures FirstWins(fs, Below(fs, dir, wanted)) == Layer(fs, dir, wanted)
  {
    if wanted == [] {
      assert Layer(fs, dir, []) == map[];
    } else {
      var most, last := wanted[..|wanted| - 1], wanted[|wanted| - 1];
      assert wanted == most + [last];
      var below, layer, path := Below(fs, dir, most), Layer(fs, dir, most), dir + [last];
      BelowIsLayer(fs, dir, most);
      LayerSnoc(fs, dir, most, last);
      if IsPackage(fs, path) {
        OneMorePath(fs, below, dir, last);
        SameAgain(layer, last, path);
        assert last in layer ==> layer[last] == path;
      } else {
        assert below + [] == below;
      }
    }
  }

  lemma SameAgain(m: map<string, Path>, name: string, p: Path)
    ensures name in m && m[name] == p ==> m[name := p] == m
  {
  }

  /** The nested search with its first-wins map is the overlay of the prefixes. */
  lemma {:induction false} AlongIsOverlay(fs: FileSystem, prefixes: seq<string>, wanted: seq<string>)
    requires Faithful(fs)
    ensures FirstWins(fs, Along(fs, prefixes, wanted)) == Overlay(fs, prefixes, wanted)
  {
    if prefixes != [] {
      var most, last := prefixes[..|prefixes| - 1], prefixes[|prefixes| - 1];
      AlongIsOverlay(fs, most, wanted);
      FirstWinsOverlays(fs, Along(fs, most, wanted), Below(fs, Share(last), wanted));
      BelowIsLayer(fs, Share(last), wanted);
    }
  }

  /** The overlay maps a wanted name to the earliest prefix that holds it, and nothing else. */
  lemma {:induction false} OverlayIsEarliest(fs: FileSystem, prefixes: seq<string>,
                                             wanted: seq<string>, name: string)
    returns (first: nat)
    ensures first <= |prefixes|
    ensures forall i :: 0 <= i < first ==> !IsPackage(fs, Share(prefixes[i]) + [name]) || name !in wanted
    ensures name in Overlay(fs, prefixes, wanted) <==> first < |prefixes|
    ensures first < |prefixes| ==>
              && name in wanted && IsPackage(fs, Share(prefixes[first]) + [name])
              && Overlay(fs, prefixes, wanted)[name] == Share(prefixes[first]) + [name]
  {
    if prefixes == [] {
      return 0;
    }
    first := OverlayIsEarliest(fs, prefixes[..|prefixes| - 1], wanted, name);
    if first == |prefixes| - 1
       && (name !in wanted || !IsPackage(fs, Share(prefixes[first]) + [name]))
    {
      first := |prefixes|;
    }
  }

  lemma {:induction false} BelowEmptyIff(fs: FileSystem, dir: Path, wanted: seq<string>)
    ensures Below(fs, dir, wanted) == [] <==> Layer(fs, dir, wanted) == map[]
  {
    if wanted != [] {
      var most, last := wanted[..|wanted| - 1], wanted[|wanted| - 1];
      assert wanted == most + [last];
      BelowEmptyIff(fs, dir, most);
      if IsPackage(fs, dir + [last]) {
        assert last in Layer(fs, dir, wanted);
      } else {
        assert Layer(fs, dir, wanted) == Layer(fs, dir, most);
      }
    }
  }

  lemma {:induction false} AlongEmptyIff(fs: FileSystem, prefixes: seq<string>, wanted: seq<string>)
    ensures Along(fs, prefixes, wanted) == [] <==> Overlay(fs, prefixes, wanted) == map[]
  {
    if prefixes != [] {
      var most, last := prefixes[..|prefixes| - 1], prefixes[|prefixes| - 1];
      AlongEmptyIff(fs, most, wanted);
      BelowEmptyIff(fs, Share(last), wanted);
      var top, under := Overlay(fs, most, wanted), Layer(fs, Share(last), wanted);
      if under != map[] {
        assert exists name :: name in under;
        assert forall name :: name in under ==> name in under + top;
      } else {
        assert under + top == top;
      }
    }
  }

  /** Where the system search finds anything, it uses the first source that holds anything; where it
      finds nothing, no source does, install paths included. */
  lemma SourceIsFirstNonempty(fs: FileSystem, env: Environment, wanted: seq<string>, install: string)
    ensures var r := Overlay(fs, Source(fs, env, wanted), wanted);
            && (env.ament.Some? && Overlay(fs, env.ament.value, wanted) != map[] ==>
                  r == Overlay(fs, env.ament.value, wanted))
            && ((env.ament.Some? ==> Overlay(fs, env.ament.value, wanted) == map[])
                && env.cmake.Some? && Overlay(fs, env.cmake.value, wanted) != map[] ==>
                  r == Overlay(fs, env.cmake.value, wanted))
            && (r == map[] ==>
                  && (env.ament.Some? ==> Overlay(fs, env.ament.value, wanted) == map[])
                  && (env.cmake.Some? ==> Overlay(fs, env.cmake.value, wanted) == map[])
                  && (install in INSTALL_PATHS && Exists(fs, [install]) ==>
                        Layer(fs, Share(install), wanted) == map[]))
  {
    AlongEmptyIff(fs, Source(fs, env, wanted), wanted);
    if env.ament.Some? {
      AlongEmptyIff(fs, env.ament.value, wanted);
    }
    if env.cmake.Some? {
      AlongEmptyIff(fs, env.cmake.value, wanted);
    }
    BelowEmptyIff(fs, Share(install), wanted);
    FirstInstallFinds(fs, INSTALL_PATHS, wanted, install);
  }

  /** The first existing installation path with a wanted package is the one that is used. */
  lemma {:induction false} FirstInstallIs(fs: FileSystem, installs: seq<string>, wanted: seq<string>, k: nat)
    requires k < |installs| && Exists(fs, [installs[k]]) && Below(fs, Share(installs[k]), wanted) != []
    requires forall i :: 0 <= i < k && Exists(fs, [installs[i]]) ==>
               Below(fs, Share(installs[i]), wanted) == []
    ensures FirstInstall(fs, installs, wanted) == [installs[k]]
  {
    if k > 0 {
      forall i | 0 <= i < k - 1 && Exists(fs, [installs[1..][i]])
        ensures Below(fs, Share(installs[1..][i]), wanted) == []
      {
        assert installs[1..][i] == installs[i + 1];
      }
      FirstInstallIs(fs, installs[1..], wanted, k - 1);
    }
  }

  /** Where neither variable leads to a wanted package, the result is the layer of the first existing
      installation path that holds any, whatever the later ones hold. */
  lemma EarliestInstallIsUsed(fs: FileSystem, env: Environment, wanted: seq<string>, k: nat)
    requires env.ament.Some? ==> Overlay(fs, env.ament.value, wanted) == map[]
    requires env.cmake.Some? ==> Overlay(fs, env.cmake.value, wanted) == map[]
    requires k < |INSTALL_PATHS| && Exists(fs, [INSTALL_PATHS[k]])
    requires Layer(fs, Share(INSTALL_PATHS[k]), wanted) != map[]
    requires forall i :: 0 <= i < k && Exists(fs, [INSTALL_PATHS[i]]) ==>
               Layer(fs, Share(INSTALL_PATHS[i]), wanted) == map[]
    ensures Overlay(fs, Source(fs, env, wanted), wanted) == Layer(fs, Share(INSTALL_PATHS[k]), wanted)
  {
    if env.ament.Some? {
      AlongEmptyIff(fs, env.ament.value, wanted);
    }
    if env.cmake.Some? {
      AlongEmptyIff(fs, env.cmake.value, wanted);
    }
    forall i | 0 <= i <= k
      ensures Below(fs, Share(INSTALL_PATHS[i]), wanted) == [] <==>
                Layer(fs, Share(INSTALL_PATHS[i]), wanted) == map[]
    {
      BelowEmptyIff(fs, Share(INSTALL_PATHS[i]), wanted);
    }
    FirstInstallIs(fs, INSTALL_PATHS, wanted, k);
    OverlayOne(fs, INSTALL_PATHS[k], wanted);
  }

  lemma OverlayOne(fs: FileSystem, prefix: string, wanted: seq<string>)
    ensures Overlay(fs, [prefix], wanted) == Layer(fs, Share(prefix), wanted)
  {
    assert Overlay(fs, [prefix][..0], wanted) == map[];
  }

  lemma {:induction false} FirstInstallFinds(fs: FileSystem, installs: seq<string>, wanted: seq<string>,
                                             install: string)
    ensures install in installs && Exists(fs, [install]) && Below(fs, Share(install), wanted) != [] ==>
              Along(fs, FirstInstall(fs, installs, wanted), wanted) != []
  {
    if installs != [] {
      AlongOne(fs, installs[0], wanted);
      FirstInstallFinds(fs, installs[1..], wanted, install);
    }
  }

  // ---- The resolution, read off the file system

  /** `dir` holds a package called `name`: its path exists, with one of the three kinds of interfaces. */
  ghost predicate Carries(existing: set<Path>, dir: Path, name: string) {
    && dir + [name] in existing
    && (dir + [name, "msg"] in existing || dir + [name, "srv"] in existing
        || dir + [name, "action"] in existing)
  }

  ghost predicate CarriesAny(existing: set<Path>, dir: Path, wanted: seq<string>) {
    exists name :: name in wanted && Carries(existing, dir, name)
  }

  ghost predicate AnyCarries(existing: set<Path>, prefixes: seq<string>, wanted: seq<string>) {
    exists i :: 0 <= i < |prefixes| && CarriesAny(existing, [prefixes[i], "share"], wanted)
  }

  /** `m` maps exactly the wanted packages of `dir`, each to its own path there. */
  ghost predicate MapsAll(existing: set<Path>, dir: Path, wanted: seq<string>, m: map<string, Path>) {
    forall name ::
      && (name in m <==> name in wanted && Carries(existing, dir, name))
      && (name in m ==> m[name] == dir + [name])
  }

  /** The earliest prefix that holds `name` is `prefixes[i]`. */
  ghost predicate Earliest(existing: set<Path>, prefixes: seq<string>, name: string, i: int) {
    && 0 <= i < |prefixes| && Carries(existing, [prefixes[i], "share"], name)
    && forall j :: 0 <= j < i ==> !Carries(existing, [prefixes[j], "share"], name)
  }

  /** `m` maps exactly the wanted packages of the prefixes, each to its path in the earliest one. */
  ghost predicate MapsEarliest(existing: set<Path>, prefixes: seq<string>, wanted: seq<string>,
                               m: map<string, Path>) {
    forall name ::
      && (name in m <==> name in wanted && exists i :: Earliest(existing, prefixes, name, i))
      && (name in m ==>
            exists i :: Earliest(existing, prefixes, name, i) && m[name] == [prefixes[i], "share", name])
  }

  lemma CarriesIs(fs: FileSystem, dir: Path, name: string)
    ensures Carries(fs.existing, dir, name) <==> IsPackage(fs, dir + [name])
  {
    var p := dir + [name];
    assert p + ["msg"] == dir + [name, "msg"] && p + ["srv"] == dir + [name, "srv"];
    assert p + ["action"] == dir + [name, "action"];
  }

  lemma LayerMeans(fs: FileSystem, dir: Path, wanted: seq<string>)
    ensures MapsAll(fs.existing, dir, wanted, Layer(fs, dir, wanted))
    ensures Layer(fs, dir, wanted) == map[] <==> !CarriesAny(fs.existing, dir, wanted)
  {
    forall name
      ensures Carries(fs.existing, dir, name) <==> IsPackage(fs, dir + [name])
    {
      CarriesIs(fs, dir, name);
    }
    var m := Layer(fs, dir, wanted);
    assert m == map[] <==> forall name :: name !in m;
  }

  lemma OverlayMaps(fs: FileSystem, prefixes: seq<string>, wanted: seq<string>, name: string)
    ensures var m := Overlay(fs, prefixes, wanted);
            && (name in m <==> name in wanted && exists i :: Earliest(fs.existing, prefixes, name, i))
            && (name in m ==> exists i :: Earliest(fs.existing, prefixes, name, i)
                                          && m[name] == [prefixes[i], "share", name])
  {
    var first := OverlayIsEarliest(fs, prefixes, wanted, name);
    forall i | 0 <= i < |prefixes|
      ensures Carries(fs.existing, [prefixes[i], "share"], name)
              <==> IsPackage(fs, Share(prefixes[i]) + [name])
    {
      CarriesIs(fs, Share(prefixes[i]), name);
    }
    if first < |prefixes| {
      assert Earliest(fs.existing, prefixes, name, first);
      assert Share(prefixes[first]) + [name] == [prefixes[first], "share", name];
    }
  }

  lemma OverlayMeans(fs: FileSystem, prefixes: seq<string>, wanted: seq<string>)
    ensures MapsEarliest(fs.existing, prefixes, wanted, Overlay(fs, prefixes, wanted))
  {
    forall name {
      OverlayMaps(fs, prefixes, wanted, name);
    }
  }

  lemma {:induction false} SomeIsEarliest(existing: set<Path>, prefixes: seq<string>, name: string, k: nat)
    requires k < |prefixes| && Carries(existing, [prefixes[k], "share"], name)
    ensures exists i :: Earliest(existing, prefixes, name, i)
  {
    if j :| 0 <= j < k && Carries(existing, [prefixes[j], "share"], name) {
      SomeIsEarliest(existing, prefixes, name, j);
    } else {
      assert Earliest(existing, prefixes, name, k);
    }
  }

  lemma OverlayEmptyIff(fs: FileSystem, prefixes: seq<string>, wanted: seq<string>)
    ensures Overlay(fs, prefixes, wanted) == map[] <==> !AnyCarries(fs.existing, prefixes, wanted)
  {
    var m := Overlay(fs, prefixes, wanted);
    OverlayMeans(fs, prefixes, wanted);
    if AnyCarries(fs.existing, prefixes, wanted) {
      var i :| 0 <= i < |prefixes| && CarriesAny(fs.existing, [prefixes[i], "share"], wanted);
      var name :| name in wanted && Carries(fs.existing, [prefixes[i], "share"], name);
      SomeIsEarliest(fs.existing, prefixes, name, i);
      assert name in m;
    }
  }

  /** Bundled packages alone if there is any, else the overlay of the first source that holds any. */
  function Resolution(fs: FileSystem, env: Environment, wanted: seq<string>): map<string, Path> {
    if Exists(fs, ASSETS) && Layer(fs, ASSETS, wanted) != map[] then Layer(fs, ASSETS, wanted)
    else Overlay(fs, Source(fs, env, wanted), wanted)
  }

  /** An installation that exists and holds a wanted package. */
  ghost predicate Installed(existing: set<Path>, install: string, wanted: seq<string>) {
    [install] in existing && CarriesAny(existing, [install, "share"], wanted)
  }

  /** The last resort: rolling before jazzy before iron before humble, and only one of them. */
  ghost predicate MapsInstalled(existing: set<Path>, wanted: seq<string>, m: map<string, Path>) {
    if Installed(existing, "/opt/ros/rolling", wanted)
    then MapsAll(existing, ["/opt/ros/rolling", "share"], wanted, m)
    else if Installed(existing, "/opt/ros/jazzy", wanted)
    then MapsAll(existing, ["/opt/ros/jazzy", "share"], wanted, m)
    else if Installed(existing, "/opt/ros/iron", wanted)
    then MapsAll(existing, ["/opt/ros/iron", "share"], wanted, m)
    else if Installed(existing, "/opt/ros/humble", wanted)
    then MapsAll(existing, ["/opt/ros/humble", "share"], wanted, m)
    else m == map[]
  }

  /** What `m` must be, in terms of the existing paths alone: bundled packages exclude all others; else
      the environment's first variable with any wanted package is used, and of its prefixes the
      earliest for each name. */
  ghost predicate Resolves(existing: set<Path>, env: Environment, wanted: seq<string>,
                           m: map<string, Path>) {
    if ["ros-z-codegen/assets/jazzy"] in existing
       && CarriesAny(existing, ["ros-z-codegen/assets/jazzy"], wanted)
    then MapsAll(existing, ["ros-z-codegen/assets/jazzy"], wanted, m)
    else if env.ament.Some? && AnyCarries(existing, env.ament.value, wanted)
    then MapsEarliest(existing, env.ament.value, wanted, m)
    else if env.cmake.Some? && AnyCarries(existing, env.cmake.value, wanted)
    then MapsEarliest(existing, env.cmake.value, wanted, m)
    else MapsInstalled(existing, wanted, m)
  }

  lemma {:induction false} FirstInstallMeans(fs: FileSystem, installs: seq<string>, wanted: seq<string>)
    returns (first: nat)
    ensures first <= |installs|
    ensures forall i :: 0 <= i < first ==> !Installed(fs.existing, installs[i], wanted)
    ensures first == |installs| ==> FirstInstall(fs, installs, wanted) == []
    ensures first < |installs| ==>
              Installed(fs.existing, installs[first], wanted)
              && FirstInstall(fs, installs, wanted) == [installs[first]]
  {
    if installs == [] {
      return 0;
    }
    LayerMeans(fs, Share(installs[0]), wanted);
    BelowEmptyIff(fs, Share(installs[0]), wanted);
    if Installed(fs.existing, installs[0], wanted) {
      return 0;
    }
    var later := FirstInstallMeans(fs, installs[1..], wanted);
    forall i | 0 <= i < later + 1
      ensures !Installed(fs.existing, installs[i], wanted)
    {
      assert i > 0 ==> installs[i] == installs[1..][i - 1];
    }
    first := later + 1;
  }

  lemma FallbackMeans(fs: FileSystem, wanted: seq<string>)
    ensures MapsInstalled(fs.existing, wanted,
                          Overlay(fs, FirstInstall(fs, INSTALL_PATHS, wanted), wanted))
  {
    var first := FirstInstallMeans(fs, INSTALL_PATHS, wanted);
    assert INSTALL_PATHS[0] == "/opt/ros/rolling" && INSTALL_PATHS[1] == "/opt/ros/jazzy";
    assert INSTALL_PATHS[2] == "/opt/ros/iron" && INSTALL_PATHS[3] == "/opt/ros/humble";
    if first < |INSTALL_PATHS| {
      OverlayOne(fs, INSTALL_PATHS[first], wanted);
      LayerMeans(fs, Share(INSTALL_PATHS[first]), wanted);
    }
  }

  /** The resolution is what the file system says it must be. */
  lemma ResolutionMeans(fs: FileSystem, env: Environment, wanted: seq<string>)
    ensures Resolves(fs.existing, env, wanted, Resolution(fs, env, wanted))
  {
    LayerMeans(fs, ["ros-z-codegen/assets/jazzy"], wanted);
    FallbackMeans(fs, wanted);
    if env.ament.Some? {
      AlongEmptyIff(fs, env.ament.value, wanted);
      OverlayEmptyIff(fs, env.ament.value, wanted);
      OverlayMeans(fs, env.ament.value, wanted);
    }
    if env.cmake.Some? {
      AlongEmptyIff(fs, env.cmake.value, wanted);
      OverlayEmptyIff(fs, env.cmake.value, wanted);
      OverlayMeans(fs, env.cmake.value, wanted);
    }
  }

  lemma ResolvedIsOnDisk(fs: FileSystem, env: Environment, wanted: seq<string>, name: string)
    requires name in Resolution(fs, env, wanted)
    ensures name in wanted
    ensures var p := Resolution(fs, env, wanted)[name];
            p in fs.existing
            && (p + ["msg"] in fs.existing || p + ["srv"] in fs.existing || p + ["action"] in fs.existing)
  {
    var first := OverlayIsEarliest(fs, Source(fs, env, wanted), wanted, name);
  }

  /** The whole resolution, where the package files agree with their directories. Whatever it maps is
      wanted and is a package on disk. */
  method Resolve(fs: FileSystem, env: Environment, wanted: seq<string>)
    returns (packages: map<string, Path>)
    requires Faithful(fs)
    ensures packages == Resolution(fs, env, wanted) && Resolves(fs.existing, env, wanted, packages)
    ensures forall name :: name in packages ==>
              && name in wanted && packages[name] in fs.existing
              && (packages[name] + ["msg"] in fs.existing || packages[name] + ["srv"] in fs.existing
                  || packages[name] + ["action"] in fs.existing)
  {
    packages := DiscoverRosPackages(fs, env, wanted);
    BelowIsLayer(fs, ASSETS, wanted);
    BelowEmptyIff(fs, ASSETS, wanted);
    AlongIsOverlay(fs, Source(fs, env, wanted), wanted);
    ResolutionMeans(fs, env, wanted);
    forall name | name in packages {
      ResolvedIsOnDisk(fs, env, wanted, name);
    }
  }
}
