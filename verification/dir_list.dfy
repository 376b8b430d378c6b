/** The directory listing (`dl`, `dir_list`): open the directory, list
    entries until a read fails or returns the end marker, then close it. */
module DirList {
  import opened Base
  import opened FsResults
  import opened Volume

  /** What `dir_list(name)` did: the open failed (with its code), or the
      listed entries and the code of the one `f_closedir` call. */
  datatype Listing = Unopened(code: FResult) | Listed(entries: seq<Entry>, closeCode: FResult)

  /** The entries a handle on `dir` lists from position `q` on, stated
      recursively: each named entry, until the end marker or a failed read. */
  function ListFrom(fs: Fs, dir: Path, es: seq<Entry>, q: nat): (l: seq<Entry>)
    ensures l != [] ==> q + |l| <= |es| && l == es[q..q + |l|]
    decreases |es| - q
  {
    match ReadAt(fs, dir, es, q)
    case Item(e) => if e.name == [] then [] else [e] + ListFrom(fs, dir, es, q + 1)
    case _ => []
  }

  /** `dir_list(name)` as the console runs it, one `f_readdir` per turn. */
  method ListDir(fs: Fs, cwd: Path, name: string) returns (r: Listing)
    ensures r.Unopened? <==> OpenDir(fs, cwd, name).Failure?
    ensures r.Unopened? ==> r.code == OpenDir(fs, cwd, name).code && r.code != Ok
    ensures r.Listed? ==> var c := OpenDir(fs, cwd, name).value;
              && r.entries == ListFrom(fs, c.dir, c.entries, 0)
              && |r.entries| <= |c.entries| && r.entries == c.entries[..|r.entries|]
              && r.closeCode == CloseDir(fs, c)
              && !(ReadAt(fs, c.dir, c.entries, |r.entries|).Item? && ReadAt(fs, c.dir, c.entries, |r.entries|).entry.name != [])
  {
    match OpenDir(fs, cwd, name)
    case Failure(e) =>
      return Unopened(e);
    case Success(c) =>
      var rd, cur := ReadDir(fs, c).0, ReadDir(fs, c).1;
      var lines: seq<Entry> := [];
      assert lines + ListFrom(fs, c.dir, c.entries, 0) == ListFrom(fs, c.dir, c.entries, 0);
      while rd.Item? && rd.entry.name != []
        invariant cur == c.(pos := |lines| + 1) && |lines| <= |c.entries|
        invariant rd == ReadAt(fs, c.dir, c.entries, |lines|)
        invariant lines + ListFrom(fs, c.dir, c.entries, |lines|) == ListFrom(fs, c.dir, c.entries, 0)
        decreases |c.entries| - |lines|
      {
        ListStep(fs, c.dir, c.entries, |lines|, lines, lines + [rd.entry], ListFrom(fs, c.dir, c.entries, 0));
        lines := lines + [rd.entry];
        rd, cur := ReadDir(fs, cur).0, ReadDir(fs, cur).1;
      }
      assert ListFrom(fs, c.dir, c.entries, |lines|) == [];
      assert lines + [] == lines;
      return Listed(lines, CloseDir(fs, cur));
  }

  /** One turn of the listing loop keeps the listed part plus the rest whole. */
  lemma ListStep(fs: Fs, dir: Path, es: seq<Entry>, q: nat, lines: seq<Entry>, lines': seq<Entry>, all: seq<Entry>)
    requires ReadAt(fs, dir, es, q).Item? && ReadAt(fs, dir, es, q).entry.name != []
    requires lines + ListFrom(fs, dir, es, q) == all
    requires lines' == lines + [ReadAt(fs, dir, es, q).entry]
    ensures lines' + ListFrom(fs, dir, es, q + 1) == all
  {
    assert ListFrom(fs, dir, es, q) == [ReadAt(fs, dir, es, q).entry] + ListFrom(fs, dir, es, q + 1);
  }

  /** With no failed read on the directory and no empty name in it, the
      listing is every entry, in order. */
  lemma {:induction false} ListAll(fs: Fs, dir: Path, es: seq<Entry>, q: nat)
    requires q <= |es|
    requires forall k :: q <= k <= |es| ==> Fault(fs.faults.read, (dir, k)) == Ok
    requires forall k :: q <= k < |es| ==> es[k].name != []
    ensures ListFrom(fs, dir, es, q) == es[q..]
    decreases |es| - q
  {
    if q < |es| {
      ListAll(fs, dir, es, q + 1);
      assert es[q..] == [es[q]] + es[q + 1..];
    }
  }

  /** On a well-formed volume without read faults, listing a directory that
      opens gives all of its entries. */
  lemma ListsEverything(fs: Fs, cwd: Path, name: string)
    requires WellFormed(fs.root) && fs.faults.read == map[]
    requires OpenDir(fs, cwd, name).Success?
    ensures var c := OpenDir(fs, cwd, name).value; ListFrom(fs, c.dir, c.entries, 0) == c.entries
  {
    var c := OpenDir(fs, cwd, name).value;
    OpenedEntries(fs, c.dir, c.entries);
    ListAll(fs, c.dir, c.entries, 0);
  }
}
