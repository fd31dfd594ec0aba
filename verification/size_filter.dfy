/**
 * `os_finder::size_filter`: an immutable (threshold, comparison) pair and
 * its three-way check, plus the conjunction the matcher applies over the
 * ordered list of registered size filters (`std::all_of`).
 */
module SizeFilters {

  /** `size_filter::cmp`: exactly three comparison modes. */
  datatype Cmp = Less | Greater | Eq

  /** A size filter; both fields are fixed at construction. */
  datatype SizeFilter = SizeFilter(val: nat, mode: Cmp)

  /** `size_filter::check`: does a file of size `sz` pass this filter? */
  function Check(f: SizeFilter, sz: nat): bool
  {
    match f.mode
    case Less => sz < f.val
    case Greater => sz > f.val
    case Eq => sz == f.val
  }

  /** The three modes partition the sizes: for a fixed threshold every size
      is accepted by exactly one of them. */
  lemma CheckPartitions(v: nat, sz: nat)
    ensures Check(SizeFilter(v, Less), sz) || Check(SizeFilter(v, Greater), sz) || Check(SizeFilter(v, Eq), sz)
    ensures !(Check(SizeFilter(v, Less), sz) && Check(SizeFilter(v, Greater), sz))
    ensures !(Check(SizeFilter(v, Less), sz) && Check(SizeFilter(v, Eq), sz))
    ensures !(Check(SizeFilter(v, Greater), sz) && Check(SizeFilter(v, Eq), sz))
  {
  }

  /** `std::all_of` over the registered filters, evaluated front to back. */
  function AllPass(fs: seq<SizeFilter>, sz: nat): (ok: bool)
    ensures ok <==> forall i :: 0 <= i < |fs| ==> Check(fs[i], sz)
  {
    if |fs| == 0 then true
    else Check(fs[0], sz) && AllPass(fs[1..], sz)
  }

  /** Filters compose conjunctively: the verdict over a concatenation is the
      conjunction of the verdicts over the parts, so registration order does
      not matter. */
  lemma {:induction false} AllPassAppend(fs: seq<SizeFilter>, gs: seq<SizeFilter>, sz: nat)
    ensures AllPass(fs + gs, sz) <==> AllPass(fs, sz) && AllPass(gs, sz)
    ensures AllPass(fs + gs, sz) <==> AllPass(gs + fs, sz)
  {
    assert forall i :: 0 <= i < |fs| ==> (fs + gs)[i] == fs[i];
    assert forall i :: 0 <= i < |gs| ==> (fs + gs)[|fs| + i] == gs[i];
    assert forall i :: 0 <= i < |gs| ==> (gs + fs)[i] == gs[i];
    assert forall i :: 0 <= i < |fs| ==> (gs + fs)[|gs| + i] == fs[i];
  }

  /** A repeated filter is a separate but redundant clause. */
  lemma DuplicateFilterIsRedundant(fs: seq<SizeFilter>, f: SizeFilter, sz: nat)
    ensures AllPass(fs + [f, f], sz) <==> AllPass(fs + [f], sz)
  {
    AllPassAppend(fs, [f, f], sz);
    AllPassAppend(fs, [f], sz);
  }

  /** A greater-than and a less-than filter together select an open range. */
  lemma RangeQuery(lo: nat, hi: nat, sz: nat)
    ensures AllPass([SizeFilter(lo, Greater), SizeFilter(hi, Less)], sz) <==> lo < sz < hi
  {
  }
}
