/**
The signed image catalog of one launch: the closure of a package's library
dependencies, which may be cyclic, and the images it declares. Loading and
authenticating a package is a function of its name.
*/
module ImageCatalog {
  import opened Base

  const MAX_PACKAGES: nat := 256
  const MAX_LIBRARIES: nat := 8192

  type Path = string

  type Name = string

  datatype Image = Image(path: Path, size: nat, digest: Digest)

  datatype Kind = Application | Library | OtherKind

  /** A declared binary; `image` is its checked code binding, if it has a valid one. */
  datatype Binary = Binary(path: Path, kind: Kind, image: Option<Image>)

  /** What a package demands of a library package; `key` is absent when it does not decode. */
  datatype Dependency = Dependency(package: Name, developer: string, key: Option<nat>, provenance: nat, abi: string)

  datatype Manifest = Manifest(
    package: Name,
    identity: Name,
    developer: string,
    key: nat,
    provenance: nat,
    abi: Option<string>,
    architecture: Option<string>,
    executable: bool,
    binaries: seq<Binary>,
    dependencies: seq<Dependency>)

  datatype Failure = Denied | Exists | TooBig | LoadFailed(code: int)

  type Loader = Name -> Result<Manifest, Failure>

  /** The publisher, ABI and architecture constraints of one edge. */
  predicate MatchesDependency(d: Dependency, actual: Manifest, architecture: Option<string>) {
    && actual.package == d.package && actual.identity == d.package && actual.developer == d.developer
    && d.key == Some(actual.key) && actual.provenance == d.provenance && actual.abi == Some(d.abi)
    && (architecture.Some? ==> actual.architecture == architecture)
  }

  // The reference: a closed set of packages.

  /** A library binary `i` of package `n`. */
  predicate LibraryAt(closure: map<Name, Manifest>, n: Name, i: nat) {
    n in closure && i < |closure[n].binaries| && closure[n].binaries[i].kind == Library
  }

  /** Every declared library has a valid binding, and no path is declared twice or shared with the root. */
  ghost predicate LibrariesFit(closure: map<Name, Manifest>, root: Image) {
    LibrariesBound(closure, root) && LibrariesApart(closure)
  }

  ghost predicate LibrariesBound(closure: map<Name, Manifest>, root: Image) {
    forall n, i: nat :: LibraryAt(closure, n, i) ==>
      closure[n].binaries[i].image.Some? && closure[n].binaries[i].image.value.path != root.path
  }

  ghost predicate LibrariesApart(closure: map<Name, Manifest>) {
    forall m, n, i: nat, j: nat :: LibraryAt(closure, m, i) && LibraryAt(closure, n, j) && !(m == n && i == j) ==>
      closure[m].binaries[i].image.Some? && closure[n].binaries[j].image.Some? ==>
        closure[m].binaries[i].image.value.path != closure[n].binaries[j].image.value.path
  }

  function LibraryPaths(closure: map<Name, Manifest>): set<Path> {
    set n, i | n in closure && 0 <= i < |closure[n].binaries| && closure[n].binaries[i].kind == Library
               && closure[n].binaries[i].image.Some? :: closure[n].binaries[i].image.value.path
  }

  /** Packages as loaded, with every dependency present and every constraint met. */
  ghost predicate ClosedUnder(closure: map<Name, Manifest>, start: Manifest, load: Loader) {
    && start.package in closure && closure[start.package] == start
    && (forall n :: n in closure && n != start.package ==> load(n) == Ok(closure[n]))
    && (forall n, k :: n in closure && 0 <= k < |closure[n].dependencies| ==>
          && closure[n].dependencies[k].package in closure
          && MatchesDependency(closure[n].dependencies[k], closure[closure[n].dependencies[k].package], start.architecture))
  }

  ghost predicate Acceptable(closure: map<Name, Manifest>, start: Manifest, load: Loader, root: Image) {
    && ClosedUnder(closure, start, load) && LibrariesFit(closure, root)
    && |closure| <= MAX_PACKAGES && |LibraryPaths(closure)| <= MAX_LIBRARIES
  }

  // The images of a list of packages.

  /** The images of the library binaries among the first `n`. */
  function ImagesOf(binaries: seq<Binary>, n: nat): seq<Image>
    requires n <= |binaries|
  {
    if n == 0 then []
    else
      var b := binaries[n - 1];
      ImagesOf(binaries, n - 1) + (if b.kind == Library && b.image.Some? then [b.image.value] else [])
  }

  function Images(m: Manifest): seq<Image> { ImagesOf(m.binaries, |m.binaries|) }

  function ImagesUpTo(packages: seq<Manifest>, n: nat): seq<Image>
    requires n <= |packages|
  {
    if n == 0 then [] else ImagesUpTo(packages, n - 1) + Images(packages[n - 1])
  }

  predicate Bound(m: Manifest) {
    forall k :: 0 <= k < |m.binaries| && m.binaries[k].kind == Library ==> m.binaries[k].image.Some?
  }

  predicate DistinctPaths(images: seq<Image>, root: Image) {
    && (forall a, b :: 0 <= a < b < |images| ==> images[a].path != images[b].path)
    && (forall a :: 0 <= a < |images| ==> images[a].path != root.path)
  }

  /** Binary `k` of package `i` is a library with a valid image. */
  predicate ImageAt(packages: seq<Manifest>, i: nat, k: nat) {
    && i < |packages| && k < |packages[i].binaries|
    && packages[i].binaries[k].kind == Library && packages[i].binaries[k].image.Some?
  }

  function PositionOf(packages: seq<Manifest>, i: nat, k: nat): nat
    requires i < |packages| && k <= |packages[i].binaries|
  {
    |ImagesUpTo(packages, i)| + |ImagesOf(packages[i].binaries, k)|
  }

  lemma {:induction false} ImagesOfGrow(binaries: seq<Binary>, k: nat, n: nat)
    requires k <= n <= |binaries|
    ensures ImagesOf(binaries, k) <= ImagesOf(binaries, n)
  {
    if k < n { ImagesOfGrow(binaries, k, n - 1); }
  }

  lemma {:induction false} ImagesUpToGrow(packages: seq<Manifest>, i: nat, n: nat)
    requires i <= n <= |packages|
    ensures ImagesUpTo(packages, i) <= ImagesUpTo(packages, n)
  {
    if i < n { ImagesUpToGrow(packages, i, n - 1); }
  }

  lemma {:induction false} ImagesUpToPrefix(packages: seq<Manifest>, more: seq<Manifest>, n: nat)
    requires packages <= more && n <= |packages|
    ensures ImagesUpTo(packages, n) == ImagesUpTo(more, n)
  {
    if n > 0 { ImagesUpToPrefix(packages, more, n - 1); }
  }

  /** A library's image stands at its own position. */
  lemma PositionIs(packages: seq<Manifest>, i: nat, k: nat, n: nat)
    requires ImageAt(packages, i, k) && i < n <= |packages|
    ensures PositionOf(packages, i, k) < |ImagesUpTo(packages, n)|
    ensures ImagesUpTo(packages, n)[PositionOf(packages, i, k)] == packages[i].binaries[k].image.value
  {
    var b := packages[i].binaries;
    ImagesOfGrow(b, k + 1, |b|);
    ImagesUpToGrow(packages, i + 1, n);
    assert ImagesOf(b, k + 1)[|ImagesOf(b, k)|] == b[k].image.value;
    assert Images(packages[i])[|ImagesOf(b, k)|] == b[k].image.value;
  }

  /** Positions follow the order of packages and binaries. */
  lemma PositionsApart(packages: seq<Manifest>, i: nat, k: nat, j: nat, l: nat)
    requires ImageAt(packages, i, k) && ImageAt(packages, j, l) && (i < j || (i == j && k < l))
    ensures PositionOf(packages, i, k) < PositionOf(packages, j, l)
  {
    var b := packages[i].binaries;
    if i == j {
      ImagesOfGrow(b, k + 1, l);
    } else {
      PositionIs(packages, i, k, i + 1);
      ImagesUpToGrow(packages, i + 1, j);
    }
  }

  /** Every image of the list comes from some binary. */
  lemma {:induction false} ImageComesFrom(packages: seq<Manifest>, n: nat, p: nat) returns (i: nat, k: nat)
    requires n <= |packages| && p < |ImagesUpTo(packages, n)|
    ensures i < n && ImageAt(packages, i, k) && PositionOf(packages, i, k) == p
    ensures packages[i].binaries[k].image.value == ImagesUpTo(packages, n)[p]
  {
    if p < |ImagesUpTo(packages, n - 1)| {
      i, k := ImageComesFrom(packages, n - 1, p);
    } else {
      i := n - 1;
      k := BinaryComesFrom(packages[i].binaries, |packages[i].binaries|, p - |ImagesUpTo(packages, i)|);
    }
  }

  lemma {:induction false} BinaryComesFrom(binaries: seq<Binary>, n: nat, p: nat) returns (k: nat)
    requires n <= |binaries| && p < |ImagesOf(binaries, n)|
    ensures k < n && binaries[k].kind == Library && binaries[k].image == Some(ImagesOf(binaries, n)[p])
    ensures |ImagesOf(binaries, k)| == p
  {
    if p < |ImagesOf(binaries, n - 1)| { k := BinaryComesFrom(binaries, n - 1, p); } else { k := n - 1; }
  }

  // The search.

  datatype Catalog = Catalog(root: Image, libraries: seq<Image>)

  /** The list holds each package of the map once. */
  ghost predicate Lists(packages: seq<Manifest>, closure: map<Name, Manifest>) {
    && |packages| == |closure|
    && (forall i :: 0 <= i < |packages| ==>
          packages[i].package in closure && closure[packages[i].package] == packages[i])
    && (forall n :: n in closure ==> exists i :: 0 <= i < |packages| && packages[i].package == n)
    && (forall i, j :: 0 <= i < j < |packages| ==> packages[i].package != packages[j].package)
  }

  predicate Edge(m: Manifest, name: Name) {
    exists k :: 0 <= k < |m.dependencies| && m.dependencies[k].package == name
  }

  /** A chain of dependencies from the first package. */
  ghost predicate Chain(packages: seq<Manifest>, path: seq<nat>) {
    && |path| > 0 && path[0] == 0 && (forall k :: 0 <= k < |path| ==> path[k] < |packages|)
    && (forall k :: 0 < k < |path| ==> Edge(packages[path[k - 1]], packages[path[k]].package))
  }

  ghost predicate Leads(packages: seq<Manifest>, path: seq<nat>, i: nat) {
    Chain(packages, path) && path[|path| - 1] == i
  }

  ghost predicate Reachable(packages: seq<Manifest>, i: nat) {
    exists path :: Leads(packages, path, i)
  }

  /** A larger list keeps chains and so reachability. */
  lemma ReachableGrows(packages: seq<Manifest>, more: seq<Manifest>, i: nat)
    requires packages <= more && Reachable(packages, i)
    ensures Reachable(more, i)
  {
    var path :| Leads(packages, path, i);
    assert Leads(more, path, i);
  }

  lemma ReachNext(packages: seq<Manifest>, i: nat, j: nat)
    requires Reachable(packages, i) && j < |packages| && Edge(packages[i], packages[j].package)
    ensures Reachable(packages, j)
  {
    hide Edge;
    var path :| Leads(packages, path, i);
    assert Leads(packages, path + [j], j);
  }

  /** What the search knows: which packages it has, how they were found, and which edges it has checked. */
  ghost predicate Found(packages: seq<Manifest>, closure: map<Name, Manifest>, start: Manifest, load: Loader) {
    && Lists(packages, closure) && |packages| > 0 && packages[0] == start
    && (forall i :: 0 < i < |packages| ==> load(packages[i].package) == Ok(packages[i]))
    && (forall i: nat :: i < |packages| ==> Reachable(packages, i))
  }

  predicate EdgeMet(closure: map<Name, Manifest>, d: Dependency, architecture: Option<string>) {
    d.package in closure && MatchesDependency(d, closure[d.package], architecture)
  }

  ghost predicate EdgesMet(packages: seq<Manifest>, closure: map<Name, Manifest>, start: Manifest, c: nat)
    requires c <= |packages|
  {
    forall i, k :: 0 <= i < c && 0 <= k < |packages[i].dependencies| ==>
      EdgeMet(closure, packages[i].dependencies[k], start.architecture)
  }

  /** The found packages are among those of `wish`. */
  ghost predicate Among(packages: seq<Manifest>, wish: map<Name, Manifest>) {
    forall i :: 0 <= i < |packages| ==> packages[i].package in wish && wish[packages[i].package] == packages[i]
  }

  lemma FindMore(packages: seq<Manifest>, closure: map<Name, Manifest>, start: Manifest, load: Loader, c: nat, m: Manifest)
    requires Found(packages, closure, start, load) && c < |packages|
    requires m.package !in closure && load(m.package) == Ok(m) && Edge(packages[c], m.package)
    ensures Found(packages + [m], closure[m.package := m], start, load)
  {
    hide Edge, Reachable, Lists;
    ListsMore(packages, closure, m);
    var more := packages + [m];
    forall i: nat | i < |more| ensures Reachable(more, i) {
      ReachableGrows(packages, more, if i < |packages| then i else c);
      if i == |packages| { ReachNext(more, c, i); }
    }
  }

  lemma ListsMore(packages: seq<Manifest>, closure: map<Name, Manifest>, m: Manifest)
    requires Lists(packages, closure) && m.package !in closure
    ensures Lists(packages + [m], closure[m.package := m])
  {
    var more, closure' := packages + [m], closure[m.package := m];
    forall n | n in closure' ensures exists i :: 0 <= i < |more| && more[i].package == n {
      if n == m.package {
        assert more[|packages|].package == n;
      } else {
        var i :| 0 <= i < |packages| && packages[i].package == n;
        assert more[i].package == n;
      }
    }
  }

  lemma EdgesStayMet(packages: seq<Manifest>, closure: map<Name, Manifest>, m: Manifest, start: Manifest, c: nat)
    requires c <= |packages| && EdgesMet(packages, closure, start, c) && m.package !in closure
    ensures EdgesMet(packages + [m], closure[m.package := m], start, c)
  {
  }

  /** Follow the dependencies of package `c`, loading what is new and checking every edge. */
  method Follow(packages: seq<Manifest>, c: nat, start: Manifest, load: Loader, ghost closure: map<Name, Manifest>,
                ghost wish: map<Name, Manifest>, ghost root: Image)
    returns (error: Option<Failure>, more: seq<Manifest>, ghost closure': map<Name, Manifest>)
    requires Found(packages, closure, start, load) && c < |packages| <= MAX_PACKAGES
    requires EdgesMet(packages, closure, start, c)
    requires Acceptable(wish, start, load, root) ==> Among(packages, wish)
    ensures packages <= more
    ensures error.None? ==> Found(more, closure', start, load) && |more| <= MAX_PACKAGES && EdgesMet(more, closure', start, c + 1)
    ensures Acceptable(wish, start, load, root) ==> error.None? && Among(more, wish)
  {
    hide Acceptable, MatchesDependency, Reachable, Lists;
    more, closure' := packages, closure;
    var dependencies := packages[c].dependencies;
    for k := 0 to |dependencies|
      invariant packages <= more && |more| <= MAX_PACKAGES && Found(more, closure', start, load)
      invariant EdgesMet(more, closure', start, c)
      invariant forall l :: 0 <= l < k ==> EdgeMet(closure', dependencies[l], start.architecture)
      invariant Acceptable(wish, start, load, root) ==> Among(more, wish)
    {
      var d := dependencies[k];
      var at := FindPackage(more, d.package);
      WishEdge(wish, start, load, root, more, c, k, at);
      ListsMeans(more, closure', d.package);
      if at.Some? {
        if !MatchesDependency(d, more[at.value], start.architecture) { return Some(Denied), more, closure'; }
      } else {
        if |more| == MAX_PACKAGES {
          WishHasRoom(wish, start, load, root, more, closure', d.package);
          return Some(TooBig), more, closure';
        }
        var loaded := load(d.package);
        if loaded.Err? { return Some(loaded.error), more, closure'; }
        var m := loaded.value;
        if !MatchesDependency(d, m, start.architecture) { return Some(Denied), more, closure'; }
        NamedAsAsked(d, m, start.architecture);
        assert Edge(more[c], m.package);
        FindMore(more, closure', start, load, c, m);
        EdgesStayMet(more, closure', m, start, c);
        more, closure' := more + [m], closure'[m.package := m];
      }
    }
    error := None;
  }

  method FindPackage(packages: seq<Manifest>, name: Name) returns (r: Option<nat>)
    ensures r.Some? ==> r.value < |packages| && packages[r.value].package == name
    ensures r.None? ==> forall i :: 0 <= i < |packages| ==> packages[i].package != name
  {
    for i := 0 to |packages|
      invariant forall k :: 0 <= k < i ==> packages[k].package != name
    {
      if packages[i].package == name { return Some(i); }
    }
    r := None;
  }

  lemma NamedAsAsked(d: Dependency, m: Manifest, architecture: Option<string>)
    requires MatchesDependency(d, m, architecture)
    ensures m.package == d.package
  {
  }

  lemma ListsMeans(packages: seq<Manifest>, closure: map<Name, Manifest>, name: Name)
    requires Lists(packages, closure)
    ensures name in closure <==> exists i :: 0 <= i < |packages| && packages[i].package == name
    ensures forall i :: 0 <= i < |packages| ==>
      packages[i].package in closure && closure[packages[i].package] == packages[i]
  {
  }

  /** In an acceptable closure the edge is met by the package already found, or by the one to load. */
  lemma WishEdge(wish: map<Name, Manifest>, start: Manifest, load: Loader, root: Image, packages: seq<Manifest>, c: nat,
                 k: nat, at: Option<nat>)
    requires c < |packages| && k < |packages[c].dependencies| && |packages| > 0 && packages[0] == start
    requires Acceptable(wish, start, load, root) ==> Among(packages, wish)
    requires var name := packages[c].dependencies[k].package;
      && (at.Some? ==> at.value < |packages| && packages[at.value].package == name)
      && (at.None? ==> forall i :: 0 <= i < |packages| ==> packages[i].package != name)
    ensures Acceptable(wish, start, load, root) ==>
      var d := packages[c].dependencies[k];
      && d.package in wish && MatchesDependency(d, wish[d.package], start.architecture)
      && (at.Some? ==> packages[at.value] == wish[d.package])
      && (at.None? ==> load(d.package) == Ok(wish[d.package]))
  {
  }

  lemma WishHasRoom(wish: map<Name, Manifest>, start: Manifest, load: Loader, root: Image, packages: seq<Manifest>,
                    closure: map<Name, Manifest>, name: Name)
    requires Acceptable(wish, start, load, root) ==> Among(packages, wish) && name in wish
    requires Lists(packages, closure) && forall i :: 0 <= i < |packages| ==> packages[i].package != name
    ensures Acceptable(wish, start, load, root) ==> |packages| < MAX_PACKAGES
  {
    if Acceptable(wish, start, load, root) {
      var names := Names(packages);
      NamesCount(packages);
      assert names + {name} <= wish.Keys;
      SubsetSize(names + {name}, wish.Keys);
      assert |wish.Keys| == |wish|;
    }
  }

  function Names(packages: seq<Manifest>): set<Name> { set i | 0 <= i < |packages| :: packages[i].package }

  lemma {:induction false} NamesCount(packages: seq<Manifest>)
    requires forall i, j :: 0 <= i < j < |packages| ==> packages[i].package != packages[j].package
    ensures |Names(packages)| == |packages|
  {
    if packages != [] {
      var n := |packages| - 1;
      NamesCount(packages[..n]);
      assert Names(packages) == Names(packages[..n]) + {packages[n].package};
    }
  }

  lemma {:induction false} SubsetSize<T>(a: set<T>, b: set<T>)
    requires a <= b
    ensures |a| <= |b|
  {
    if a != {} {
      var x :| x in a;
      SubsetSize(a - {x}, b - {x});
    }
  }

  // Collecting images.

  /** The libraries of one more package fit: all bound, no path taken, within the limit. */
  predicate CanAdd(libraries: seq<Image>, m: Manifest, root: Image) {
    Bound(m) && DistinctPaths(libraries + Images(m), root) && |libraries| + |Images(m)| <= MAX_LIBRARIES
  }

  /** Add the images of one package's libraries, or say why they do not fit. */
  method AddLibraries(m: Manifest, root: Image, libraries: seq<Image>) returns (error: Option<Failure>, more: seq<Image>)
    requires DistinctPaths(libraries, root) && |libraries| <= MAX_LIBRARIES
    ensures error.None? <==> CanAdd(libraries, m, root)
    ensures error.None? ==> more == libraries + Images(m)
  {
    more := libraries;
    for k := 0 to |m.binaries|
      invariant more == libraries + ImagesOf(m.binaries, k) && DistinctPaths(more, root) && |more| <= MAX_LIBRARIES
      invariant forall l :: 0 <= l < k && m.binaries[l].kind == Library ==> m.binaries[l].image.Some?
    {
      var b := m.binaries[k];
      if b.kind == Library {
        if b.image.None? { return Some(Denied), more; }
        var image := b.image.value;
        ImagesOfGrow(m.binaries, k + 1, |m.binaries|);
        assert more + [image] <= libraries + Images(m);
        assert (libraries + Images(m))[|more|] == image;
        if (exists p :: 0 <= p < |more| && more[p].path == image.path) || image.path == root.path {
          Clashes(more, libraries + Images(m), image, root);
          return Some(Exists), more;
        }
        if |more| == MAX_LIBRARIES { return Some(TooBig), more; }
        more := more + [image];
      }
    }
    error := None;
  }

  lemma Clashes(part: seq<Image>, all: seq<Image>, image: Image, root: Image)
    requires part + [image] <= all
    requires (exists p :: 0 <= p < |part| && part[p].path == image.path) || image.path == root.path
    ensures !DistinctPaths(all, root)
  {
    assert all[|part|] == (part + [image])[|part|] == image;
    if image.path != root.path {
      var p :| 0 <= p < |part| && part[p].path == image.path;
      assert all[p] == (part + [image])[p] == part[p];
    }
  }

  /** In an acceptable closure the libraries of each found package fit after those before it. */
  lemma WishAllows(wish: map<Name, Manifest>, start: Manifest, load: Loader, root: Image, packages: seq<Manifest>,
                   closure: map<Name, Manifest>, c: nat)
    requires Acceptable(wish, start, load, root) && Among(packages, wish) && Lists(packages, closure) && c < |packages|
    ensures CanAdd(ImagesUpTo(packages, c), packages[c], root)
  {
    hide ClosedUnder, ImagesOf, ImagesUpTo, LibrariesFit, LibraryPaths, DistinctPaths, Bound, Among, Lists, PathSet;
    var all := ImagesUpTo(packages, c + 1);
    ImagesNext(packages, c);
    WishPaths(wish, root, packages, closure, c + 1);
    WishBound(wish, root, packages, c);
    PathsCount(all, root);
    PathsAmong(wish, packages, c + 1);
    SubsetSize(PathSet(all), LibraryPaths(wish));
  }

  lemma ImagesNext(packages: seq<Manifest>, c: nat)
    requires c < |packages|
    ensures ImagesUpTo(packages, c + 1) == ImagesUpTo(packages, c) + Images(packages[c])
  {
  }

  lemma WishBound(wish: map<Name, Manifest>, root: Image, packages: seq<Manifest>, c: nat)
    requires LibrariesFit(wish, root) && Among(packages, wish) && c < |packages|
    ensures Bound(packages[c])
  {
    forall k | 0 <= k < |packages[c].binaries| && packages[c].binaries[k].kind == Library
      ensures packages[c].binaries[k].image.Some?
    {
      assert LibraryAt(wish, packages[c].package, k);
    }
  }

  lemma PathsAmong(wish: map<Name, Manifest>, packages: seq<Manifest>, n: nat)
    requires Among(packages, wish) && n <= |packages|
    ensures PathSet(ImagesUpTo(packages, n)) <= LibraryPaths(wish)
  {
    hide ImagesUpTo, ImagesOf, PositionOf, PathSet;
    var all := ImagesUpTo(packages, n);
    forall x | x in PathSet(all) ensures x in LibraryPaths(wish) {
      PathSetMeans(all, x);
      var p :| 0 <= p < |all| && all[p].path == x;
      var i, k := ImageComesFrom(packages, n, p);
      assert wish[packages[i].package].binaries[k] == packages[i].binaries[k];
    }
  }

  lemma WishPaths(wish: map<Name, Manifest>, root: Image, packages: seq<Manifest>, closure: map<Name, Manifest>, n: nat)
    requires LibrariesFit(wish, root) && Among(packages, wish) && Lists(packages, closure) && n <= |packages|
    ensures DistinctPaths(ImagesUpTo(packages, n), root)
  {
    hide ImagesUpTo, ImagesOf, PositionOf;
    var all := ImagesUpTo(packages, n);
    forall a | 0 <= a < |all| ensures all[a].path != root.path {
      var i, k := ImageComesFrom(packages, n, a);
      assert LibraryAt(wish, packages[i].package, k);
    }
    forall a, b | 0 <= a < b < |all| ensures all[a].path != all[b].path {
      var i, k := ImageComesFrom(packages, n, a);
      var j, l := ImageComesFrom(packages, n, b);
      assert LibraryAt(wish, packages[i].package, k) && LibraryAt(wish, packages[j].package, l);
    }
  }

  function PathSet(images: seq<Image>): set<Path> {
    if images == [] then {} else PathSet(images[..|images| - 1]) + {images[|images| - 1].path}
  }

  lemma {:induction false} PathSetMeans(images: seq<Image>, x: Path)
    ensures x in PathSet(images) <==> exists p :: 0 <= p < |images| && images[p].path == x
  {
    if images != [] {
      var n := |images| - 1;
      PathSetMeans(images[..n], x);
      if p :| 0 <= p < |images| && images[p].path == x {
        assert p < n ==> images[..n][p].path == x;
      }
    }
  }

  lemma {:induction false} PathsCount(images: seq<Image>, root: Image)
    requires DistinctPaths(images, root)
    ensures |PathSet(images)| == |images|
  {
    if images != [] {
      var n := |images| - 1;
      PathsCount(images[..n], root);
      PathSetMeans(images[..n], images[n].path);
    }
  }

  /** What the search found at its end is acceptable itself. */
  lemma FoundIsAcceptable(packages: seq<Manifest>, closure: map<Name, Manifest>, start: Manifest, load: Loader, root: Image)
    requires Found(packages, closure, start, load) && EdgesMet(packages, closure, start, |packages|)
    requires |packages| <= MAX_PACKAGES && |ImagesUpTo(packages, |packages|)| <= MAX_LIBRARIES
    requires DistinctPaths(ImagesUpTo(packages, |packages|), root)
    requires forall i :: 0 <= i < |packages| ==> Bound(packages[i])
    ensures Acceptable(closure, start, load, root)
  {
    hide ImagesUpTo, ImagesOf, Reachable, MatchesDependency, PathSet;
    FoundIsClosed(packages, closure, start, load);
    FoundFits(packages, closure, root);
    var all := ImagesUpTo(packages, |packages|);
    PathsCount(all, root);
    forall x | x in LibraryPaths(closure) ensures x in PathSet(all) {
      var n, k :| n in closure && 0 <= k < |closure[n].binaries| && closure[n].binaries[k].kind == Library
                  && closure[n].binaries[k].image.Some? && closure[n].binaries[k].image.value.path == x;
      var i :| 0 <= i < |packages| && packages[i].package == n;
      PositionIs(packages, i, k, |packages|);
      PathSetMeans(all, x);
    }
    SubsetSize(LibraryPaths(closure), PathSet(all));
  }

  lemma FoundIsClosed(packages: seq<Manifest>, closure: map<Name, Manifest>, start: Manifest, load: Loader)
    requires Found(packages, closure, start, load) && EdgesMet(packages, closure, start, |packages|)
    ensures ClosedUnder(closure, start, load)
  {
    hide Reachable, MatchesDependency;
    forall n | n in closure && n != start.package ensures load(n) == Ok(closure[n]) {
      var i :| 0 <= i < |packages| && packages[i].package == n;
    }
    forall n, k | n in closure && 0 <= k < |closure[n].dependencies|
      ensures EdgeMet(closure, closure[n].dependencies[k], start.architecture)
    {
      var i :| 0 <= i < |packages| && packages[i].package == n;
    }
  }

  lemma FoundFits(packages: seq<Manifest>, closure: map<Name, Manifest>, root: Image)
    requires Lists(packages, closure) && DistinctPaths(ImagesUpTo(packages, |packages|), root)
    requires forall i :: 0 <= i < |packages| ==> Bound(packages[i])
    ensures LibrariesFit(closure, root)
  {
    hide ImagesUpTo, ImagesOf, PositionOf, Lists, LibrariesApart, DistinctPaths;
    forall n, k: nat | LibraryAt(closure, n, k)
      ensures closure[n].binaries[k].image.Some? && closure[n].binaries[k].image.value.path != root.path
    {
      var i := IndexOf(packages, closure, n);
      NotTheRoot(packages, i, k, root);
    }
    FoundApart(packages, closure, root);
  }

  lemma IndexOf(packages: seq<Manifest>, closure: map<Name, Manifest>, n: Name) returns (i: nat)
    requires Lists(packages, closure) && n in closure
    ensures i < |packages| && packages[i].package == n && packages[i] == closure[n]
  {
    i :| 0 <= i < |packages| && packages[i].package == n;
  }

  lemma NotTheRoot(packages: seq<Manifest>, i: nat, k: nat, root: Image)
    requires ImageAt(packages, i, k) && DistinctPaths(ImagesUpTo(packages, |packages|), root)
    ensures packages[i].binaries[k].image.value.path != root.path
  {
    hide ImagesUpTo, ImagesOf, PositionOf;
    PositionIs(packages, i, k, |packages|);
  }

  lemma FoundApart(packages: seq<Manifest>, closure: map<Name, Manifest>, root: Image)
    requires Lists(packages, closure) && DistinctPaths(ImagesUpTo(packages, |packages|), root)
    ensures LibrariesApart(closure)
  {
    hide ImagesUpTo, ImagesOf, PositionOf, Lists, DistinctPaths;
    forall m, n, k: nat, l: nat
      | LibraryAt(closure, m, k) && LibraryAt(closure, n, l) && !(m == n && k == l)
        && closure[m].binaries[k].image.Some? && closure[n].binaries[l].image.Some?
      ensures closure[m].binaries[k].image.value.path != closure[n].binaries[l].image.value.path
    {
      var i := IndexOf(packages, closure, m);
      var j := IndexOf(packages, closure, n);
      if i < j || (i == j && k < l) {
        PathsDiffer(packages, i, k, j, l, root);
      } else {
        PathsDiffer(packages, j, l, i, k, root);
      }
    }
  }

  lemma PathsDiffer(packages: seq<Manifest>, i: nat, k: nat, j: nat, l: nat, root: Image)
    requires ImageAt(packages, i, k) && ImageAt(packages, j, l) && (i < j || (i == j && k < l))
    requires DistinctPaths(ImagesUpTo(packages, |packages|), root)
    ensures packages[i].binaries[k].image.value.path != packages[j].binaries[l].image.value.path
  {
    hide ImagesUpTo, ImagesOf, PositionOf;
    PositionIs(packages, i, k, |packages|);
    PositionIs(packages, j, l, |packages|);
    PositionsApart(packages, i, k, j, l);
  }

  method FindBinary(m: Manifest, path: Path) returns (r: Option<Binary>)
    ensures r == FirstBinary(m.binaries, path)
  {
    for k := 0 to |m.binaries|
      invariant FirstBinary(m.binaries, path) == FirstBinary(m.binaries[k..], path)
    {
      if m.binaries[k].path == path { return Some(m.binaries[k]); }
      assert m.binaries[k..][1..] == m.binaries[k + 1..];
    }
    r := None;
  }

  function FirstBinary(binaries: seq<Binary>, path: Path): Option<Binary> {
    if binaries == [] then None
    else if binaries[0].path == path then Some(binaries[0])
    else FirstBinary(binaries[1..], path)
  }

  /** The root image, when the package may be launched from this path. */
  function RootOf(start: Manifest, path: Path): Option<Image> {
    var b := FirstBinary(start.binaries, path);
    if !start.executable || b.None? || b.value.kind != Application then None else b.value.image
  }

  /**
  Resolve the closure of a package. It ends on every graph. It succeeds exactly when the root is launchable and
  some closed set of packages is acceptable; then it has found each reachable package once, checked every edge,
  and collected exactly their libraries, with distinct paths.
  */
  method Resolve(start: Manifest, path: Path, load: Loader, ghost wish: map<Name, Manifest>)
    returns (r: Result<Catalog, Failure>, packages: seq<Manifest>, ghost closure: map<Name, Manifest>)
    ensures r.Ok? ==> RootOf(start, path) == Some(r.value.root) && Found(packages, closure, start, load)
                      && Acceptable(closure, start, load, r.value.root)
                      && r.value.libraries == ImagesUpTo(packages, |packages|)
                      && DistinctPaths(r.value.libraries, r.value.root)
    ensures RootOf(start, path).Some? && Acceptable(wish, start, load, RootOf(start, path).value) ==>
              r.Ok? && Among(packages, wish)
  {
    hide Acceptable, Found, EdgesMet, Lists, ImagesUpTo, Among, CanAdd;
    packages, closure := [start], map[start.package := start];
    if !start.executable { return Err(Denied), packages, closure; }
    var binary := FindBinary(start, path);
    if binary.None? || binary.value.kind != Application || binary.value.image.None? { return Err(Denied), packages, closure; }
    var root := binary.value.image.value;
    var libraries: seq<Image> := [];
    var cursor := 0;
    ghost var wanted := Acceptable(wish, start, load, root);
    Begins(start, load, wish, root);
    while cursor < |packages|
      invariant cursor <= |packages| <= MAX_PACKAGES && |libraries| <= MAX_LIBRARIES
      invariant Found(packages, closure, start, load) && EdgesMet(packages, closure, start, cursor)
      invariant libraries == ImagesUpTo(packages, cursor) && DistinctPaths(libraries, root)
      invariant forall i :: 0 <= i < cursor ==> Bound(packages[i])
      invariant wanted ==> Among(packages, wish)
      decreases MAX_PACKAGES - cursor
    {
      if wanted { WishAllowsFound(wish, start, load, root, packages, closure, cursor); }
      var refused, more := AddLibraries(packages[cursor], root, libraries);
      if refused.Some? { return Err(refused.value), packages, closure; }
      AddedIs(packages, cursor, root, libraries);
      var failed, packages', closure' := Follow(packages, cursor, start, load, closure, wish, root);
      ImagesUpToPrefix(packages, packages', cursor + 1);
      if failed.Some? { return Err(failed.value), packages, closure; }
      packages, closure, libraries := packages', closure', more;
      cursor := cursor + 1;
    }
    FoundIsAcceptable(packages, closure, start, load, root);
    r := Ok(Catalog(root, libraries));
  }

  lemma Begins(start: Manifest, load: Loader, wish: map<Name, Manifest>, root: Image)
    ensures Found([start], map[start.package := start], start, load)
    ensures EdgesMet([start], map[start.package := start], start, 0) && ImagesUpTo([start], 0) == []
    ensures Acceptable(wish, start, load, root) ==> Among([start], wish)
  {
    assert Leads([start], [0], 0);
    assert [start][0].package == start.package;
  }

  lemma WishAllowsFound(wish: map<Name, Manifest>, start: Manifest, load: Loader, root: Image, packages: seq<Manifest>,
                        closure: map<Name, Manifest>, c: nat)
    requires Acceptable(wish, start, load, root) && Among(packages, wish) && Found(packages, closure, start, load)
    requires c < |packages|
    ensures CanAdd(ImagesUpTo(packages, c), packages[c], root)
  {
    hide Acceptable, CanAdd, Lists, Among;
    WishAllows(wish, start, load, root, packages, closure, c);
  }

  lemma AddedIs(packages: seq<Manifest>, c: nat, root: Image, libraries: seq<Image>)
    requires c < |packages| && libraries == ImagesUpTo(packages, c) && CanAdd(libraries, packages[c], root)
    ensures libraries + Images(packages[c]) == ImagesUpTo(packages, c + 1) && Bound(packages[c])
    ensures DistinctPaths(libraries + Images(packages[c]), root) && |libraries + Images(packages[c])| <= MAX_LIBRARIES
  {
  }

  // Using the catalog.

  datatype Source = Root | Dependency(path: Path) | Interpreter(path: Path)

  /** Accept captured bytes for a path exactly when the one record of that path has their size and digest. */
  method Validate(c: Catalog, source: Source, size: nat, digest: Digest) returns (ok: bool)
    requires DistinctPaths(c.libraries, c.root)
    ensures source.Root? ==> (ok <==> c.root.size == size && c.root.digest == digest)
    ensures !source.Root? ==> (ok <==> Image(source.path, size, digest) in c.libraries)
  {
    if source.Root? { return c.root.size == size && c.root.digest == digest; }
    for i := 0 to |c.libraries|
      invariant forall k :: 0 <= k < i ==> c.libraries[k].path != source.path
    {
      if c.libraries[i].path == source.path {
        return c.libraries[i].size == size && c.libraries[i].digest == digest;
      }
    }
    ok := false;
  }
}
