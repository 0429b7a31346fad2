/** The worklist over quoted includes, from the translation units. */
module IncludeClosure {
  // It either returns all the headers needed or refuses.

  import Orders
  import opened Paths

  /** A resolved path, by its parts. */
  type Path = seq<string>

  /** What the file system shows: for each place a quoted include may be looked up at, the resolved
      regular file found there, if any; what each file quotes, in order; and which paths lie in the
      repository and carry a header suffix. */
  datatype World = World(
    file: map<Path, Path>, beside: (Path, string) -> Path, inNative: string -> Path,
    quoted: Path -> seq<string>, inRepository: Path -> bool, headerSuffix: Path -> bool)

  datatype Lookup =
      Include(path: Path) | Unresolved(name: string, item: Path) | Escapes(path: Path) | UnexpectedKind(path: Path)

  /** One quoted include: beside the including file first, then in the native directory. */
  function Resolve(w: World, item: Path, name: string): Lookup {
    var first, second := w.beside(item, name), w.inNative(name);
    if first !in w.file && second !in w.file then Unresolved(name, item)
    else
      var included := w.file[if first in w.file then first else second];
      if !w.inRepository(included) then Escapes(included)
      else if !w.headerSuffix(included) then UnexpectedKind(included)
      else Include(included)
  }

  /** What a quoted name comes to. The file beside the including one wins, and the native directory is looked
      in only when there is none; a name found in neither place is unresolved; what is found is included exactly
      if it lies in the repository and has a header's suffix, and otherwise refused for the first it lacks. */
  lemma ResolveMeans(w: World, item: Path, name: string)
    ensures var (r, first, second) := (Resolve(w, item, name), w.beside(item, name), w.inNative(name));
      && (r.Unresolved? <==> first !in w.file && second !in w.file)
      && (first in w.file ==> (r.Include? <==> w.inRepository(w.file[first]) && w.headerSuffix(w.file[first])))
      && (first in w.file && r.Include? ==> r.path == w.file[first])
      && (first !in w.file && second in w.file ==>
            (r.Include? <==> w.inRepository(w.file[second]) && w.headerSuffix(w.file[second])))
      && (first !in w.file && second in w.file && r.Include? ==> r.path == w.file[second])
      && (r.Escapes? ==> !w.inRepository(r.path))
      && (r.UnexpectedKind? ==> w.inRepository(r.path) && !w.headerSuffix(r.path))
      && (r.Unresolved? ==> r.name == name && r.item == item)
  {
  }

  /** The files a file includes by the first k names it quotes. */
  function Included(w: World, item: Path, k: nat): set<Path> {
    set i | 0 <= i < k && i < |w.quoted(item)| && Resolve(w, item, w.quoted(item)[i]).Include? ::
      Resolve(w, item, w.quoted(item)[i]).path
  }

  function Includes(w: World, item: Path): set<Path> {
    Included(w, item, |w.quoted(item)|)
  }

  /** Every name a file quotes resolves to a header of the repository. */
  predicate Sound(w: World, item: Path) {
    forall i :: 0 <= i < |w.quoted(item)| ==> Resolve(w, item, w.quoted(item)[i]).Include?
  }

  /** Everything the search can ever meet. */
  function Universe(w: World, roots: set<Path>): set<Path> {
    roots + w.file.Values
  }

  function IncludeGraph(w: World, roots: set<Path>): Graph<Path> {
    map f | f in Universe(w, roots) :: Includes(w, f)
  }

  ghost predicate Reached(w: World, roots: set<Path>, f: Path) {
    exists r :: r in roots && Reaches(IncludeGraph(w, roots), r, f)
  }

  lemma IncludedIsKnown(w: World, item: Path, k: nat)
    ensures Included(w, item, k) <= w.file.Values
  {
  }

  lemma SuccIsIncludes(w: World, roots: set<Path>, f: Path)
    requires f in Universe(w, roots)
    ensures Succ(IncludeGraph(w, roots), f) == Includes(w, f)
  {
  }

  lemma RootIsReached(w: World, roots: set<Path>, f: Path)
    requires f in roots
    ensures Reached(w, roots, f)
  {
    ReachRefl(IncludeGraph(w, roots), f);
  }

  lemma IncludeIsReached(w: World, roots: set<Path>, item: Path, f: Path)
    requires Reached(w, roots, item) && item in Universe(w, roots) && f in Includes(w, item)
    ensures Reached(w, roots, f)
  {
    hide Includes, Universe;
    var g := IncludeGraph(w, roots);
    var r :| r in roots && Reaches(g, r, item);
    SuccIsIncludes(w, roots, item);
    hide IncludeGraph;
    ReachEdge(g, item, f);
    ReachTrans(g, r, item, f);
  }

  // ------------------------------------------------------------------------------------------
  // The least set of headers
  // ------------------------------------------------------------------------------------------

  /** The native headers, and whatever any translation unit or any header already in the set includes. */
  ghost predicate ClosedHeaders(w: World, tus: set<Path>, native: set<Path>, headers: set<Path>) {
    native <= headers && forall f :: f in tus + headers ==> Includes(w, f) <= headers
  }

  /** Nothing is in the set without a reason. */
  ghost predicate Justified(w: World, roots: set<Path>, native: set<Path>, headers: set<Path>) {
    forall h :: h in headers ==>
      h in native || exists f :: Reached(w, roots, f) && f in Universe(w, roots) && h in Includes(w, f)
  }

  /** A justified set lies inside every closed one. */
  lemma JustifiedIsLeast(w: World, tus: set<Path>, native: set<Path>, headers: set<Path>, closed: set<Path>)
    requires Justified(w, tus + native, native, headers) && ClosedHeaders(w, tus, native, closed)
    ensures headers <= closed
  {
    hide Includes, Universe, Reaches;
    var g := IncludeGraph(w, tus + native);
    forall h | h in headers ensures h in closed {
      if h !in native {
        var f :| Reached(w, tus + native, f) && f in Universe(w, tus + native) && h in Includes(w, f);
        var r :| r in tus + native && Reaches(g, r, f);
        forall x | x in tus + closed ensures Succ(g, x) <= tus + closed {
          if x in g { assert Succ(g, x) == Includes(w, x); }
        }
        ClosedContainsReachable(g, tus + closed, r, f);
      }
    }
  }

  /** There is one least closed set. */
  ghost predicate LeastHeaders(w: World, tus: set<Path>, native: set<Path>, headers: set<Path>) {
    && ClosedHeaders(w, tus, native, headers)
    && forall other: set<Path> :: ClosedHeaders(w, tus, native, other) ==> headers <= other
  }

  lemma LeastIsUnique(w: World, tus: set<Path>, native: set<Path>, a: seq<Path>, b: seq<Path>)
    requires LeastHeaders(w, tus, native, Orders.Elements(a)) && LeastHeaders(w, tus, native, Orders.Elements(b))
    requires Orders.Sorted(Orders.StringsLeq, a) && Orders.Distinct(a)
    requires Orders.Sorted(Orders.StringsLeq, b) && Orders.Distinct(b)
    ensures a == b
  {
    hide ClosedHeaders, Orders.StringsLeq, Orders.TotalOrder, Orders.Sorted, Orders.Distinct;
    assert Orders.Elements(a) == Orders.Elements(b);
    hide LeastHeaders;
    forall x ensures x in a <==> x in b {
      assert x in a <==> x in Orders.Elements(a);
      assert x in b <==> x in Orders.Elements(b);
    }
    Orders.SameDistinctMembers(a, b);
    Orders.StringsLeqIsTotalOrder();
    Orders.SortedIsUnique(Orders.StringsLeq, a, b);
  }

  // ------------------------------------------------------------------------------------------
  // The worklist
  // ------------------------------------------------------------------------------------------

  /** Everything on the worklist or done is reached; everything known is on the worklist or done; what
      is done is sound, and its includes are known. */
  ghost predicate WorkInv(w: World, roots: set<Path>, native: set<Path>, pending: seq<Path>,
        visited: set<Path>, headers: set<Path>) {
    && (forall f :: f in pending || f in visited ==> f in Universe(w, roots) && Reached(w, roots, f))
    && (forall f :: f in roots || f in headers ==> f in pending || f in visited)
    && (forall f :: f in visited ==> Sound(w, f) && Includes(w, f) <= headers)
    && native <= headers && Justified(w, roots, native, headers)
  }

  /** The invariant while the first k names of an item are done. */
  ghost predicate ItemInv(w: World, roots: set<Path>, native: set<Path>, pending: seq<Path>,
        visited: set<Path>, headers: set<Path>, item: Path, k: nat) {
    && item in Universe(w, roots) && Reached(w, roots, item)
    && (forall f :: f in pending || f in visited ==> f in Universe(w, roots) && Reached(w, roots, f))
    && (forall f :: f in roots || f in headers ==> f == item || f in pending || f in visited)
    && (forall f :: f in visited ==> Sound(w, f) && Includes(w, f) <= headers)
    && native <= headers && Justified(w, roots, native, headers)
    && k <= |w.quoted(item)| && (forall i :: 0 <= i < k ==> Resolve(w, item, w.quoted(item)[i]).Include?)
    && Included(w, item, k) <= headers
  }

  datatype Discovery = Found(headers: seq<Path>) | Refused(item: Path, reason: Lookup)

  lemma StartHolds(w: World, roots: set<Path>, native: set<Path>, pending: seq<Path>)
    requires native <= roots && forall f :: f in pending <==> f in roots
    ensures WorkInv(w, roots, native, pending, {}, native)
  {
    forall f | f in roots ensures Reached(w, roots, f) { RootIsReached(w, roots, f); }
    hide Reached;
  }

  lemma ItemStarts(w: World, roots: set<Path>, native: set<Path>, pending: seq<Path>, visited: set<Path>,
        headers: set<Path>)
    requires pending != [] && WorkInv(w, roots, native, pending, visited, headers)
    ensures ItemInv(w, roots, native, pending[..|pending| - 1], visited, headers, pending[|pending| - 1], 0)
  {
    hide Reached, Sound, Includes, Justified;
    assert pending == pending[..|pending| - 1] + [pending[|pending| - 1]];
  }

  lemma AlreadyVisited(w: World, roots: set<Path>, native: set<Path>, pending: seq<Path>, visited: set<Path>,
        headers: set<Path>)
    requires pending != [] && WorkInv(w, roots, native, pending, visited, headers) && pending[|pending| - 1] in visited
    ensures WorkInv(w, roots, native, pending[..|pending| - 1], visited, headers)
  {
    hide Reached, Sound, Includes, Justified;
    assert pending == pending[..|pending| - 1] + [pending[|pending| - 1]];
  }

  lemma IncludedNext(w: World, item: Path, k: nat)
    requires k < |w.quoted(item)| && Resolve(w, item, w.quoted(item)[k]).Include?
    ensures Included(w, item, k + 1) == Included(w, item, k) + {Resolve(w, item, w.quoted(item)[k]).path}
    ensures Resolve(w, item, w.quoted(item)[k]).path in Includes(w, item)
  {
    hide Resolve;
    var p := Resolve(w, item, w.quoted(item)[k]).path;
    assert p in Included(w, item, k + 1);
  }

  lemma NameIsFollowed(w: World, roots: set<Path>, native: set<Path>, pending: seq<Path>, visited: set<Path>,
        headers: set<Path>, item: Path, k: nat)
    requires ItemInv(w, roots, native, pending, visited, headers, item, k)
    requires k < |w.quoted(item)| && Resolve(w, item, w.quoted(item)[k]).Include?
    ensures var p := Resolve(w, item, w.quoted(item)[k]).path;
      ItemInv(w, roots, native, pending + [p], visited, headers + {p}, item, k + 1)
  {
    var p := Resolve(w, item, w.quoted(item)[k]).path;
    IncludedNext(w, item, k);
    IncludeIsReached(w, roots, item, p);
    IncludedIsKnown(w, item, |w.quoted(item)|);
    assert p in Universe(w, roots);
    hide Resolve, Reached, Includes, Included, Sound, Universe;
  }

  lemma ItemIsDone(w: World, roots: set<Path>, native: set<Path>, pending: seq<Path>, visited: set<Path>,
        headers: set<Path>, item: Path)
    requires ItemInv(w, roots, native, pending, visited, headers, item, |w.quoted(item)|)
    ensures WorkInv(w, roots, native, pending, visited + {item}, headers)
  {
    assert Sound(w, item) && Includes(w, item) <= headers;
    hide Resolve, Reached, Includes, Included, Sound, Universe, Justified;
  }

  lemma NothingPending(w: World, tus: set<Path>, native: set<Path>, visited: set<Path>, headers: set<Path>)
    requires WorkInv(w, tus + native, native, [], visited, headers)
    ensures LeastHeaders(w, tus, native, headers)
    ensures forall f :: Reached(w, tus + native, f) ==> Sound(w, f)
  {
    hide Resolve, Includes, Sound, Universe, Justified;
    forall other: set<Path> | ClosedHeaders(w, tus, native, other) ensures headers <= other {
      JustifiedIsLeast(w, tus, native, headers, other);
    }
    var g := IncludeGraph(w, tus + native);
    forall f | Reached(w, tus + native, f) ensures f in visited {
      var r :| r in tus + native && Reaches(g, r, f);
      forall x | x in visited ensures Succ(g, x) <= visited {
        SuccIsIncludes(w, tus + native, x);
      }
      hide Reaches, IncludeGraph;
      ClosedContainsReachable(g, visited, r, f);
    }
  }

  /** Follow the quoted includes of the translation units and the native headers until nothing new
      turns up. The result is the least set of headers, in order; it refuses exactly when some file
      it can reach quotes a name that does not resolve to a header of the repository. */
  method Discover(w: World, tus: seq<Path>, native: set<Path>) returns (r: Discovery)
    ensures var roots := Orders.Elements(tus) + native;
      && (r.Refused? <==>
            exists f :: Reached(w, roots, f) && exists i ::
              0 <= i < |w.quoted(f)| && !Resolve(w, f, w.quoted(f)[i]).Include?)
      && (r.Refused? ==>
            && Reached(w, roots, r.item) && !r.reason.Include?
            && exists i :: 0 <= i < |w.quoted(r.item)| && r.reason == Resolve(w, r.item, w.quoted(r.item)[i]))
      && (r.Found? ==>
            && LeastHeaders(w, Orders.Elements(tus), native, Orders.Elements(r.headers))
            && Orders.Sorted(Orders.StringsLeq, r.headers) && Orders.Distinct(r.headers))
  {
    hide Resolve, Reached, WorkInv, ItemInv, LeastHeaders,
        Universe, Orders.StringsLeq, Orders.TotalOrder, Orders.Sorted;
    ghost var roots := Orders.Elements(tus) + native;
    Orders.StringsLeqIsTotalOrder();
    var pending := Orders.SortMembers(Orders.StringsLeq, native);
    pending := tus + pending;
    var visited, headers := {}, native;
    StartHolds(w, roots, native, pending);
    while pending != []
      invariant WorkInv(w, roots, native, pending, visited, headers)
      decreases |Universe(w, roots) - visited|, |pending|
    {
      var item := pending[|pending| - 1];
      if item in visited {
        AlreadyVisited(w, roots, native, pending, visited, headers);
        pending := pending[..|pending| - 1];
      } else {
        ItemStarts(w, roots, native, pending, visited, headers);
        pending := pending[..|pending| - 1];
        ghost var done := visited;
        ItemIsReached(w, roots, native, pending, visited, headers, item, 0);
        FewerLeft(Universe(w, roots), visited, item);
        visited := visited + {item};
        var names, k := w.quoted(item), 0;
        while k < |names|
          invariant k <= |names| && ItemInv(w, roots, native, pending, done, headers, item, k)
        {
          var found := Resolve(w, item, names[k]);
          if !found.Include? {
            ItemIsReached(w, roots, native, pending, done, headers, item, k);
            return Refused(item, found);
          }
          NameIsFollowed(w, roots, native, pending, done, headers, item, k);
          headers := headers + {found.path};
          pending := pending + [found.path];
          k := k + 1;
        }
        ItemIsDone(w, roots, native, pending, done, headers, item);
      }
    }
    NothingPending(w, Orders.Elements(tus), native, visited, headers);
    var sorted := Orders.SortMembers(Orders.StringsLeq, headers);
    assert Orders.Elements(sorted) == headers;
    return Found(sorted);
  }

  lemma ItemIsReached(w: World, roots: set<Path>, native: set<Path>, pending: seq<Path>, visited: set<Path>,
        headers: set<Path>, item: Path, k: nat)
    requires ItemInv(w, roots, native, pending, visited, headers, item, k)
    ensures Reached(w, roots, item) && item in Universe(w, roots)
  {
  }

  lemma FewerLeft(all: set<Path>, visited: set<Path>, item: Path)
    requires item in all && item !in visited
    ensures |all - (visited + {item})| < |all - visited|
  {
    assert all - (visited + {item}) == (all - visited) - {item};
  }
}
