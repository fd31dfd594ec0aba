/**
 * The filter registry of `os_finder`: three set-typed filters (inode
 * numbers, base names, hard-link counts) and one ordered, append-only list
 * of size filters. Registration never fails and only grows one container.
 */
module Registry {
  import opened SizeFilters

  /** The four containers of an `os_finder`. */
  datatype Registry = Registry(
    inums: set<nat>,
    names: set<string>,
    sizes: seq<SizeFilter>,
    nlinks: set<nat>)

  /** A freshly constructed finder: no filters at all. */
  function Fresh(): Registry
  {
    Registry({}, {}, [], {})
  }

  /** `filter_inum`: set insertion. */
  function FilterInum(r: Registry, inum: nat): (r': Registry)
    ensures inum in r'.inums && r.inums <= r'.inums
    ensures forall i :: i in r'.inums ==> i in r.inums || i == inum
    ensures r'.names == r.names && r'.sizes == r.sizes && r'.nlinks == r.nlinks
  {
    r.(inums := r.inums + {inum})
  }

  /** `filter_name`: set insertion. */
  function FilterName(r: Registry, name: string): (r': Registry)
    ensures name in r'.names && r.names <= r'.names
    ensures forall n :: n in r'.names ==> n in r.names || n == name
    ensures r'.inums == r.inums && r'.sizes == r.sizes && r'.nlinks == r.nlinks
  {
    r.(names := r.names + {name})
  }

  /** `filter_size`: `push_back` onto the ordered list. */
  function FilterSize(r: Registry, f: SizeFilter): (r': Registry)
    ensures |r'.sizes| == |r.sizes| + 1
    ensures r.sizes <= r'.sizes && r'.sizes[|r.sizes|] == f
    ensures r'.inums == r.inums && r'.names == r.names && r'.nlinks == r.nlinks
  {
    r.(sizes := r.sizes + [f])
  }

  /** `filter_nlinks`: set insertion. */
  function FilterNlinks(r: Registry, n: nat): (r': Registry)
    ensures n in r'.nlinks && r.nlinks <= r'.nlinks
    ensures forall k :: k in r'.nlinks ==> k in r.nlinks || k == n
    ensures r'.inums == r.inums && r'.names == r.names && r'.sizes == r.sizes
  {
    r.(nlinks := r.nlinks + {n})
  }

  /** The inode check of the matcher: an empty set matches everything. */
  predicate InodeOk(r: Registry, ino: nat)
  {
    r.inums == {} || ino in r.inums
  }

  /** The name check of the matcher: exact match on the base name. */
  predicate NameOk(r: Registry, name: string)
  {
    r.names == {} || name in r.names
  }

  /** The link-count check of the matcher. */
  predicate NlinksOk(r: Registry, n: nat)
  {
    r.nlinks == {} || n in r.nlinks
  }

  /** Whether any filter needs the metadata query. */
  predicate NeedsStat(r: Registry)
  {
    |r.sizes| > 0 || r.nlinks != {}
  }

  /** A fresh finder passes every file through every check. */
  lemma FreshAcceptsAll(ino: nat, name: string, size: nat, n: nat)
    ensures InodeOk(Fresh(), ino) && NameOk(Fresh(), name) && NlinksOk(Fresh(), n)
    ensures AllPass(Fresh().sizes, size) && !NeedsStat(Fresh())
  {
  }

  /** Set-typed registration is idempotent and order-insensitive. */
  lemma SetFiltersIdempotent(r: Registry, i: nat, j: nat, name: string, n: nat)
    ensures FilterInum(FilterInum(r, i), i) == FilterInum(r, i)
    ensures FilterInum(FilterInum(r, i), j) == FilterInum(FilterInum(r, j), i)
    ensures FilterName(FilterName(r, name), name) == FilterName(r, name)
    ensures FilterNlinks(FilterNlinks(r, n), n) == FilterNlinks(r, n)
  {
  }

  /** Within one set filter values are alternatives: after registering
      `inum` the inode check accepts `inum`, and accepts any other inode
      exactly when a non-empty set already accepted it. The first value
      narrows a match-all filter; later values widen it. */
  lemma InumFilterSemantics(r: Registry, inum: nat, ino: nat)
    ensures InodeOk(FilterInum(r, inum), ino) <==> ino == inum || (r.inums != {} && InodeOk(r, ino))
  {
  }

  /** The same for names. */
  lemma NameFilterSemantics(r: Registry, name: string, n: string)
    ensures NameOk(FilterName(r, name), n) <==> n == name || (r.names != {} && NameOk(r, n))
  {
  }

  /** Size filters are clauses of a conjunction: a new one narrows the
      accepted sizes to those the old list and the new filter both accept. */
  lemma SizeFilterNarrows(r: Registry, f: SizeFilter, sz: nat)
    ensures AllPass(FilterSize(r, f).sizes, sz) <==> AllPass(r.sizes, sz) && Check(f, sz)
  {
    AllPassAppend(r.sizes, [f], sz);
  }

  /** Registering the same size filter twice keeps two clauses but accepts
      the same sizes as registering it once. */
  lemma DuplicateSizeFilter(r: Registry, f: SizeFilter, sz: nat)
    ensures |FilterSize(FilterSize(r, f), f).sizes| == |r.sizes| + 2
    ensures AllPass(FilterSize(FilterSize(r, f), f).sizes, sz) <==> AllPass(FilterSize(r, f).sizes, sz)
  {
    assert FilterSize(FilterSize(r, f), f).sizes == r.sizes + [f, f];
    DuplicateFilterIsRedundant(r.sizes, f, sz);
  }
}
