/**
 * The decision `visit_rec` takes for one regular-file record: the inode
 * check, then the name check, then, only when a size or link-count filter
 * is registered, the metadata query and the size and link-count checks.
 */
module Matcher {
  import opened SizeFilters
  import opened Registry
  import opened Dirents

  /** Outcome for one regular file: keep it, skip it, or abort the scan
      because the metadata query failed. */
  datatype Decision = Accept | Reject | StatFailed(reason: string)

  /** The metadata checks on a successful query: every size filter passes
      and the link count is allowed. */
  predicate MetaOk(r: Registry, size: nat, nlinks: nat)
  {
    AllPass(r.sizes, size) && NlinksOk(r, nlinks)
  }

  /** The match decision for a regular file named `name` with inode `ino`;
      `st` is what the metadata query would return. */
  function Decide(r: Registry, ino: nat, name: string, st: StatResult): (dec: Decision)
    ensures dec == Accept <==>
              && InodeOk(r, ino)
              && NameOk(r, name)
              && (NeedsStat(r) ==> st.Stat? && MetaOk(r, st.size, st.nlinks))
    ensures dec.StatFailed? <==> InodeOk(r, ino) && NameOk(r, name) && NeedsStat(r) && st.StatError?
    ensures dec.StatFailed? ==> dec.reason == st.reason
  {
    if !InodeOk(r, ino) then Reject
    else if !NameOk(r, name) then Reject
    else if NeedsStat(r) then
      match st
      case StatError(reason) => StatFailed(reason)
      case Stat(size, nlinks) =>
        if !AllPass(r.sizes, size) then Reject
        else if !NlinksOk(r, nlinks) then Reject
        else Accept
    else Accept
  }

  /** Without size or link-count filters the metadata query is never made:
      the decision does not depend on its outcome and never fails. */
  lemma NoStatWithoutMetaFilters(r: Registry, ino: nat, name: string, s1: StatResult, s2: StatResult)
    requires !NeedsStat(r)
    ensures Decide(r, ino, name, s1) == Decide(r, ino, name, s2)
    ensures !Decide(r, ino, name, s1).StatFailed?
  {
  }

  /** The cheap checks run first: a file the inode or name filter rejects is
      rejected whatever the metadata query would have said. */
  lemma CheapChecksFirst(r: Registry, ino: nat, name: string, st: StatResult)
    requires !InodeOk(r, ino) || !NameOk(r, name)
    ensures Decide(r, ino, name, st) == Reject
  {
  }

  /** An empty registry accepts every regular file. */
  lemma FreshAcceptsEveryFile(ino: nat, name: string, st: StatResult)
    ensures Decide(Fresh(), ino, name, st) == Accept
  {
  }
}
