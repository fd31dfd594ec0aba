/**
 * A worked scan of a small tree. The root holds ".", "..", two regular
 * files "a" and "b" and a subdirectory "sub" holding ".", ".." and a
 * regular file "c"; every record is one byte long. With the single size
 * filter "greater than 100" all three files are reported, whatever their
 * own sizes: the size compared is that of the directory holding them
 * (4096 here), because the metadata query is made on the directory's
 * descriptor.
 */
module Scenarios {
  import opened Wrappers
  import opened SizeFilters
  import opened Registry
  import opened Dirents
  import opened Traversal

  /** The contents given to "." and ".." records; never read. */
  function Leaf(): Dir
  {
    Dir(Stat(0, 0), [], EndOfDir)
  }

  function SubDir(): Dir
  {
    Dir(Stat(4096, 2), [Batch([
      Header(Dirent(7, 1, Directory(Leaf()), ".")),
      Header(Dirent(2, 1, Directory(Leaf()), "..")),
      Header(Dirent(13, 1, Regular, "c"))])], EndOfDir)
  }

  function RootDir(): Dir
  {
    Dir(Stat(4096, 3), [Batch([
      Header(Dirent(2, 1, Directory(Leaf()), ".")),
      Header(Dirent(1, 1, Directory(Leaf()), "..")),
      Header(Dirent(11, 1, Regular, "a")),
      Header(Dirent(12, 1, Regular, "b")),
      Header(Dirent(7, 1, Directory(SubDir()), "sub"))])], EndOfDir)
  }

  /** A buffer of one-byte records is packed. */
  lemma {:induction false} OneByteRecordsPacked(cells: seq<Cell>, off: nat)
    requires off <= |cells|
    requires forall i :: off <= i < |cells| ==> cells[i].Header? && cells[i].ent.reclen == 1
    ensures Packed(cells, off)
    decreases |cells| - off
  {
    if off < |cells| {
      OneByteRecordsPacked(cells, off + 1);
    }
  }

  lemma SubDirWellFormed()
    ensures WellFormed(SubDir())
  {
    assert WellFormed(Leaf());
    OneByteRecordsPacked(SubDir().batches[0].cells, 0);
  }

  lemma RootDirWellFormed()
    ensures WellFormed(RootDir())
  {
    assert WellFormed(Leaf());
    SubDirWellFormed();
    OneByteRecordsPacked(RootDir().batches[0].cells, 0);
  }

  /** A finder with the single size filter `+100`. */
  function LargeFiles(): Registry
  {
    FilterSize(Fresh(), SizeFilter(100, Greater))
  }

  /** Scanning "sub" appends its one file to the accumulator. */
  lemma SubDirScan(found: seq<Path>)
    ensures WellFormed(SubDir()) && VisitRec(LargeFiles(), found, "/r/sub", SubDir()) == Ok(found + ["/r/sub/c"])
  {
    SubDirWellFormed();
    var reg := LargeFiles();
    var d := SubDir();
    assert Join("/r/sub", "c") == "/r/sub/c";
    assert ScanBatch(reg, found + ["/r/sub/c"], "/r/sub", d, 0, 3) == Ok(found + ["/r/sub/c"]);
    assert ScanBatch(reg, found, "/r/sub", d, 0, 2) == Ok(found + ["/r/sub/c"]);
    assert ScanBatch(reg, found, "/r/sub", d, 0, 1) == Ok(found + ["/r/sub/c"]);
    assert ScanBatch(reg, found, "/r/sub", d, 0, 0) == Ok(found + ["/r/sub/c"]);
    assert ReadLoop(reg, found + ["/r/sub/c"], "/r/sub", d, 1) == Ok(found + ["/r/sub/c"]);
  }

  /** The scan reports every regular file of the tree in depth-first
      order and skips the dot entries. */
  lemma LargeFilesScenario()
    ensures WellFormed(RootDir()) && Visit(LargeFiles(), "/r", RootDir()) == Ok(["/r/a", "/r/b", "/r/sub/c"])
  {
    RootDirWellFormed();
    var reg := LargeFiles();
    var d := RootDir();
    var all := ["/r/a", "/r/b", "/r/sub/c"];
    assert Join("/r", "a") == "/r/a";
    assert Join("/r", "b") == "/r/b";
    assert Join("/r", "sub") == "/r/sub";
    SubDirScan(["/r/a", "/r/b"]);
    assert ["/r/a", "/r/b"] + ["/r/sub/c"] == all;
    assert ScanBatch(reg, all, "/r", d, 0, 5) == Ok(all);
    assert ScanBatch(reg, ["/r/a", "/r/b"], "/r", d, 0, 4) == Ok(all);
    assert ["/r/a"] + ["/r/b"] == ["/r/a", "/r/b"];
    assert ScanBatch(reg, ["/r/a"], "/r", d, 0, 3) == Ok(all);
    assert [] + ["/r/a"] == ["/r/a"];
    assert ScanBatch(reg, [], "/r", d, 0, 2) == Ok(all);
    assert ScanBatch(reg, [], "/r", d, 0, 0) == Ok(all);
    assert ReadLoop(reg, all, "/r", d, 1) == Ok(all);
  }
}
