/** What the reference traversal, and so the walker, does on particular
    volumes: on a fault-free well-formed volume it lists the whole tree in
    preorder down to the depth limit; a failed read ends a directory's
    listing; and the current directory it leaves behind depends on how the
    root was written. */
module WalkProperties {
  import opened Base
  import opened FsResults
  import opened Volume
  import opened WalkReference
  import opened TreeWalker

  /** No filesystem call is made to fail. */
  predicate NoFaults(fs: Fs)
  {
    fs.faults == Faults(map[], map[], map[], map[], map[])
  }

  /** A fault-free well-formed volume is one on which the walker is proved
      to follow the reference traversal. */
  lemma NoFaultsGood(fs: Fs)
    requires NoFaults(fs) && WellFormed(fs.root)
    ensures Good(fs)
  {
  }

  /** The listing lines of a trace, in order. */
  function Shows(t: seq<Event>): (s: seq<Event>)
    ensures |s| <= |t|
  {
    if t == [] then [] else (if t[0].Shown? then [t[0]] else []) + Shows(t[1..])
  }

  lemma {:induction false} ShowsAppend(a: seq<Event>, b: seq<Event>)
    ensures Shows(a + b) == Shows(a) + Shows(b)
  {
    if a != [] {
      assert (a + b)[1..] == a[1..] + b;
      ShowsAppend(a[1..], b);
    } else {
      assert a + b == b;
    }
  }

  /** The preorder listing of the children `cs` of a directory at depth `d`:
      each child's line, then, for a subdirectory above the depth limit, the
      listing of its own children one level deeper. */
  function ListOf(cs: seq<Node>, d: nat): seq<Event>
    decreases cs
  {
    if cs == [] then [] else [Shown(d, EntryOf(cs[0]))] + Below(cs[0], d) + ListOf(cs[1..], d)
  }

  /** What is listed under a child shown at depth `d`. */
  function Below(n: Node, d: nat): seq<Event>
    decreases n
  {
    if n.Dir? && d < MaxTreeHeight - 1 then ListOf(n.children, d + 1) else []
  }

  /** The lines a fault-free frame produces from entry `q` on are the
      preorder listing of the remaining children. */
  lemma {:induction false} FromList(fs: Fs, p: Path, nm: string, cs: seq<Node>, q: nat, d: nat, dotRoot: bool)
    requires NoFaults(fs) && WellFormed(fs.root)
    requires Lookup(fs.root, p) == Some(Dir(nm, cs))
    requires q <= |cs| && d < MaxTreeHeight
    ensures Shows(RefFrom(fs, p, EntriesOf(cs), q, d, dotRoot)) == ListOf(cs[q..], d)
    decreases MaxTreeHeight - d, |cs| - q
  {
    if q == |cs| {
      assert ReadAt(fs, p, EntriesOf(cs), q) == Ended;
      assert cs[q..] == [];
    } else {
      NamedChild(fs, p, nm, cs, q);
      FromList(fs, p, nm, cs, q + 1, d, dotRoot);
      if cs[q].Dir? && d < MaxTreeHeight - 1 {
        ChildShows(fs, p, nm, cs, q, d, dotRoot);
      }
      FromListStep(fs, p, nm, cs, q, d, dotRoot);
    }
  }

  lemma NamedChild(fs: Fs, p: Path, nm: string, cs: seq<Node>, q: nat)
    requires WellFormed(fs.root) && Lookup(fs.root, p) == Some(Dir(nm, cs)) && q < |cs|
    ensures Ordinary(cs[q].name)
  {
    WellFormedLookup(fs.root, p);
  }

  /** A subdirectory entered from a fault-free frame lists what is below it. */
  lemma {:induction false} ChildShows(fs: Fs, p: Path, nm: string, cs: seq<Node>, q: nat, d: nat, dotRoot: bool)
    requires NoFaults(fs) && WellFormed(fs.root)
    requires Lookup(fs.root, p) == Some(Dir(nm, cs))
    requires q < |cs| && cs[q].Dir? && d < MaxTreeHeight - 1
    ensures Shows(Descend(fs, p, cs[q].name, d + 1, dotRoot)) == Below(cs[q], d)
    decreases MaxTreeHeight - d, 0
  {
    var n := cs[q];
    NamedChild(fs, p, nm, cs, q);
    ResolveChild(p, n.name);
    LookupChild(fs.root, p, nm, cs, q);
    DescendShows(fs, p, n.name, p + [n.name], n.name, n.children, d + 1, dotRoot);
  }

  /** One entry of a fault-free frame: its line, what is listed below it,
      then the rest of the frame. */
  lemma FromListStep(fs: Fs, p: Path, nm: string, cs: seq<Node>, q: nat, d: nat, dotRoot: bool)
    requires NoFaults(fs) && d < MaxTreeHeight && q < |cs| && cs[q].name != []
    requires Shows(RefFrom(fs, p, EntriesOf(cs), q + 1, d, dotRoot)) == ListOf(cs[q + 1..], d)
    requires cs[q].Dir? && d < MaxTreeHeight - 1 ==>
               Shows(Descend(fs, p, cs[q].name, d + 1, dotRoot)) == Below(cs[q], d)
    ensures Shows(RefFrom(fs, p, EntriesOf(cs), q, d, dotRoot)) == ListOf(cs[q..], d)
  {
    var es := EntriesOf(cs);
    var n, e := cs[q], es[q];
    assert ReadAt(fs, p, es, q) == Item(e);
    var sub := if e.isDir && d < MaxTreeHeight - 1 then Descend(fs, p, e.name, d + 1, dotRoot) else [];
    var rest := RefFrom(fs, p, es, q + 1, d, dotRoot);
    assert RefFrom(fs, p, es, q, d, dotRoot) == [Shown(d, e)] + sub + rest;
    ShowsAppend([Shown(d, e)] + sub, rest);
    ShowsAppend([Shown(d, e)], sub);
    assert Shows([Shown(d, e)]) == [Shown(d, e)];
    assert Shows(sub) == Below(n, d);
    assert cs[q..][1..] == cs[q + 1..];
  }

  /** Entering a directory of a fault-free well-formed volume lists its
      children in preorder; the open, close and `..` events list nothing. */
  lemma {:induction false} DescendShows(fs: Fs, cwd: Path, name: string, p: Path, nm: string, cs: seq<Node>,
                                        d: nat, dotRoot: bool)
    requires NoFaults(fs) && WellFormed(fs.root)
    requires Resolve(cwd, name) == p && Lookup(fs.root, p) == Some(Dir(nm, cs))
    requires d < MaxTreeHeight
    ensures Shows(Descend(fs, cwd, name, d, dotRoot)) == ListOf(cs, d)
    decreases MaxTreeHeight - d, |cs| + 1
  {
    var h := Cursor(p, EntriesOf(cs), 0);
    assert OpenDir(fs, cwd, name) == Success(h);
    assert ChDir(fs, cwd, name) == Success(p);
    var body, up := RefFrom(fs, p, EntriesOf(cs), 0, d, dotRoot), Unwind(fs, p, d, dotRoot);
    assert Descend(fs, cwd, name, d, dotRoot) == [Opened(p)] + (body + up);
    ShowsAppend([Opened(p)], body + up);
    ShowsAppend(body, up);
    assert Shows(up) == [] by {
      assert up[1..] == [] || up[1..] == [WentUp(UpCode(fs, p))];
    }
    FromList(fs, p, nm, cs, 0, d, dotRoot);
    assert cs[0..] == cs;
  }

  /** Preorder completeness: on a fault-free well-formed volume, `dt root`
      lists every entry under the directory `root` names, in preorder, each
      indented by its depth, and lists nothing below depth
      `MaxTreeHeight - 1`. */
  lemma WalkListsTree(fs: Fs, cwd0: Path, root: string, p: Path, nm: string, cs: seq<Node>)
    requires NoFaults(fs) && WellFormed(fs.root)
    requires Resolve(cwd0, root) == p && Lookup(fs.root, p) == Some(Dir(nm, cs))
    ensures Shows(RefWalk(fs, cwd0, root)) == ListOf(cs, 0)
  {
    DescendShows(fs, cwd0, root, p, nm, cs, 0, root == ".");
  }

  /** The volume with the failure of the read at position `f` of directory
      `p` taken away; every other answer stays as it was. */
  function Repaired(fs: Fs, p: Path, f: nat): Fs
  {
    fs.(faults := fs.faults.(read := fs.faults.read - {(p, f)}))
  }

  /** Repairing one read changes no other read. */
  lemma RepairedReads(fs: Fs, p: Path, f: nat, x: Path, es: seq<Entry>, k: nat)
    requires (x, k) != (p, f)
    ensures ReadAt(Repaired(fs, p, f), x, es, k) == ReadAt(fs, x, es, k)
  {
  }

  /** `x` is `p` or a directory below it. */
  predicate Within(p: Path, x: Path)
  {
    |p| <= |x| && x[..|p|] == p
  }

  /** Entering a child of a directory at or below `p` never reads `p`
      itself, so the repaired read makes no difference there. */
  lemma {:induction false} DescendRepaired(fs: Fs, p: Path, f: nat, cwd: Path, name: string, d: nat, dotRoot: bool)
    requires WellFormed(fs.root) && d < MaxTreeHeight
    requires Within(p, cwd) && Ordinary(name)
    ensures Descend(Repaired(fs, p, f), cwd, name, d, dotRoot) == Descend(fs, cwd, name, d, dotRoot)
    decreases MaxTreeHeight - d, 3, 0
  {
    var fs' := Repaired(fs, p, f);
    var ch := ChangeCwd(fs, cwd, name);
    assert ChangeCwd(fs', cwd, name) == ch;
    if ch.code == Ok {
      var c := ch.handle.value;
      ResolveChild(cwd, name);
      assert (cwd + [name])[..|p|] == p;
      OpenedEntries(fs, c.dir, c.entries);
      FromRepaired(fs, p, f, c.dir, c.entries, c.pos, d, dotRoot);
      assert Unwind(fs', c.dir, d, dotRoot) == Unwind(fs, c.dir, d, dotRoot);
    }
  }

  /** A frame on a directory strictly below `p` is unaffected by the
      repaired read. */
  lemma {:induction false} FromRepaired(fs: Fs, p: Path, f: nat, x: Path, es: seq<Entry>, q: nat, d: nat, dotRoot: bool)
    requires WellFormed(fs.root) && d < MaxTreeHeight
    requires Within(p, x) && |x| > |p|
    requires forall k :: 0 <= k < |es| ==> Ordinary(es[k].name)
    ensures RefFrom(Repaired(fs, p, f), x, es, q, d, dotRoot) == RefFrom(fs, x, es, q, d, dotRoot)
    decreases MaxTreeHeight - d, 1, |es| - q
  {
    var fs' := Repaired(fs, p, f);
    assert x != p;
    RepairedReads(fs, p, f, x, es, q);
    match ReadAt(fs, x, es, q) {
      case Item(e) =>
        assert e.name != [];
        var enters := e.isDir && d < MaxTreeHeight - 1;
        if enters {
          DescendRepaired(fs, p, f, x, e.name, d + 1, dotRoot);
        }
        var below := if enters then Descend(fs, x, e.name, d + 1, dotRoot) else [];
        assert below == if enters then Descend(fs', x, e.name, d + 1, dotRoot) else [];
        FromRepaired(fs, p, f, x, es, q + 1, d, dotRoot);
        assert RefFrom(fs, x, es, q, d, dotRoot) == [Shown(d, e)] + below + RefFrom(fs, x, es, q + 1, d, dotRoot);
        assert RefFrom(fs', x, es, q, d, dotRoot) == [Shown(d, e)] + below + RefFrom(fs', x, es, q + 1, d, dotRoot);
      case _ =>
        assert RefFrom(fs, x, es, q, d, dotRoot) == [];
        assert RefFrom(fs', x, es, q, d, dotRoot) == [];
    }
  }

  /** A failed read ends a directory's listing exactly as the end marker
      would: on a well-formed volume, a frame whose read at position `f`
      fails produces the same events, subtrees entered before `f` included,
      as the frame over the directory's first `f` entries in which that read
      returns the end marker instead. */
  lemma {:induction false} ReadFaultTruncates(fs: Fs, p: Path, es: seq<Entry>, q: nat, f: nat, d: nat, dotRoot: bool)
    requires WellFormed(fs.root) && d < MaxTreeHeight
    requires DirAt(fs.root, p) == Some(es) && q <= f <= |es|
    requires Fault(fs.faults.read, (p, f)) != Ok
    ensures ReadAt(Repaired(fs, p, f), p, es[..f], f) == Ended
    ensures RefFrom(fs, p, es, q, d, dotRoot) == RefFrom(Repaired(fs, p, f), p, es[..f], q, d, dotRoot)
    decreases f - q
  {
    var fs' := Repaired(fs, p, f);
    assert Fault(fs'.faults.read, (p, f)) == Ok;
    if q < f {
      OpenedEntries(fs, p, es);
      RepairedReads(fs, p, f, p, es[..f], q);
      assert ReadAt(fs, p, es[..f], q) == ReadAt(fs, p, es, q);
      match ReadAt(fs, p, es, q) {
        case Item(e) =>
          assert e.name != [];
          var enters := e.isDir && d < MaxTreeHeight - 1;
          if enters {
            assert p[..|p|] == p;
            DescendRepaired(fs, p, f, p, e.name, d + 1, dotRoot);
          }
          var below := if enters then Descend(fs, p, e.name, d + 1, dotRoot) else [];
          assert below == if enters then Descend(fs', p, e.name, d + 1, dotRoot) else [];
          ReadFaultTruncates(fs, p, es, q + 1, f, d, dotRoot);
          assert RefFrom(fs, p, es, q, d, dotRoot) == [Shown(d, e)] + below + RefFrom(fs, p, es, q + 1, d, dotRoot);
          assert RefFrom(fs', p, es[..f], q, d, dotRoot) == [Shown(d, e)] + below + RefFrom(fs', p, es[..f], q + 1, d, dotRoot);
        case _ =>
      }
    } else {
      assert RefFrom(fs, p, es, q, d, dotRoot) == [];
      assert RefFrom(fs', p, es[..f], q, d, dotRoot) == [];
    }
  }

  lemma ResolveDot(cwd: Path)
    ensures Resolve(cwd, ".") == cwd
  {
    SplitPlain(".");
    assert Apply(cwd, ["."]) == Apply(cwd, []);
  }

  /** Root `.`: the walker opens the current directory and issues no `..`
      for it, so the current directory ends where it started. */
  lemma DotRootRestores(fs: Fs, cwd0: Path)
    requires ChangeCwd(fs, cwd0, ".").code == Ok
    ensures FinalCwd(fs, cwd0, ".") == cwd0
  {
    ResolveDot(cwd0);
  }

  /** A single ordinary name as root: one `..` undoes the one descent. */
  lemma NameRootRestores(fs: Fs, cwd0: Path, name: string)
    requires Ordinary(name) && fs.faults.up == map[]
    requires ChangeCwd(fs, cwd0, name).code == Ok
    ensures FinalCwd(fs, cwd0, name) == cwd0
  {
    ResolveChild(cwd0, name);
    assert (cwd0 + [name])[..|cwd0|] == cwd0;
  }

  lemma {:induction false} SplitJoin(a: string, b: string)
    requires forall k :: 0 <= k < |a| ==> a[k] != '/'
    ensures Split(a + "/" + b) == [a] + Split(b)
  {
    if a == [] {
      assert (a + "/" + b)[1..] == b;
    } else {
      SplitJoin(a[1..], b);
      assert (a + "/" + b)[1..] == a[1..] + "/" + b;
      assert [a[0]] + a[1..] == a;
    }
  }

  /** A two-level root `a/b`: the walker descends two levels to reach it but
      issues only one `..` for it, so it ends in `a`, not where it started. */
  lemma NestedRootStopsHalfway(fs: Fs, cwd0: Path, a: string, b: string)
    requires Ordinary(a) && Ordinary(b) && fs.faults.up == map[]
    requires ChangeCwd(fs, cwd0, a + "/" + b).code == Ok
    ensures FinalCwd(fs, cwd0, a + "/" + b) == cwd0 + [a]
  {
    var text := a + "/" + b;
    SplitJoin(a, b);
    SplitPlain(b);
    assert text[0] == a[0];
    assert Apply(cwd0, [a, b]) == Apply(cwd0 + [a], [b]) == Apply(cwd0 + [a] + [b], []);
    assert Resolve(cwd0, text) == cwd0 + [a] + [b];
    assert text != ".";
    assert (cwd0 + [a] + [b])[..|cwd0| + 1] == cwd0 + [a];
  }

  /** Root `./` names the current directory but is not the text `.`, so the
      walker issues a `..` for it and ends in the parent directory (at the
      volume root, the root itself). */
  lemma DotSlashRootClimbs(fs: Fs, cwd0: Path)
    requires fs.faults.up == map[]
    requires ChangeCwd(fs, cwd0, "./").code == Ok
    ensures FinalCwd(fs, cwd0, "./") == if cwd0 == [] then [] else cwd0[..|cwd0| - 1]
  {
    SplitJoin(".", "");
    assert "." + "/" + "" == "./";
    assert Split("") == [[]];
    assert Apply(cwd0, [".", []]) == Apply(cwd0, [[]]) == Apply(cwd0, []);
    assert Resolve(cwd0, "./") == cwd0;
  }

  /** Root `/`: the walker opens the volume root, and the `..` it issues on
      leaving succeeds and stays there, so `dt /` ends at the root wherever
      it started. */
  lemma SlashRootStays(fs: Fs, cwd0: Path)
    requires fs.faults.up == map[]
    requires ChangeCwd(fs, cwd0, "/").code == Ok
    ensures UpCode(fs, []) == Ok
    ensures FinalCwd(fs, cwd0, "/") == []
  {
    assert Split("") == [[]];
    assert Apply([], [[]]) == Apply([], []);
    assert Resolve(cwd0, "/") == [];
  }
}
