/** The filesystem as the console sees it through FatFs: a finite tree of
    directories and files, a current directory held as a sequence of names,
    path text resolved against it, directory handles as cursors into a
    snapshot of a directory's entries, and failures injected per call site
    through fault maps (a missing key means the call succeeds). */
module Volume {
  import opened Base
  import opened FsResults

  type Path = seq<string>

  /** What `f_readdir` reports about one directory entry (`FILINFO`). */
  datatype Entry = Entry(name: string, isDir: bool, size: nat)

  datatype Node = File(name: string, size: nat) | Dir(name: string, children: seq<Node>)

  function EntryOf(n: Node): Entry
  {
    match n
    case File(name, size) => Entry(name, false, size)
    case Dir(name, _) => Entry(name, true, 0)
  }

  function EntriesOf(children: seq<Node>): (es: seq<Entry>)
    ensures |es| == |children|
    ensures forall k :: 0 <= k < |children| ==> es[k] == EntryOf(children[k])
  {
    seq(|children|, k requires 0 <= k < |children| => EntryOf(children[k]))
  }

  /** The first child with the given name. */
  function Child(children: seq<Node>, name: string): (r: Option<Node>)
    ensures r.Some? ==> r.value in children && r.value.name == name
  {
    if children == [] then None
    else if children[0].name == name then Some(children[0])
    else Child(children[1..], name)
  }

  /** The node a path of names leads to from the volume root. */
  function Lookup(root: Node, path: Path): Option<Node>
    decreases |path|
  {
    if path == [] then Some(root)
    else match Lookup(root, path[..|path| - 1])
      case Some(Dir(_, cs)) => Child(cs, path[|path| - 1])
      case _ => None
  }

  /** The entries of the directory a path leads to. */
  function DirAt(root: Node, path: Path): Option<seq<Entry>>
  {
    match Lookup(root, path)
    case Some(Dir(_, cs)) => Some(EntriesOf(cs))
    case _ => None
  }

  /** The largest number of children any directory of a tree has. */
  function Fanout(n: Node): nat
    decreases n, 1
  {
    match n
    case File(_, _) => 0
    case Dir(_, cs) => Max(|cs|, FanoutOf(cs))
  }

  function FanoutOf(cs: seq<Node>): nat
    decreases cs, 0
  {
    if cs == [] then 0 else Max(Fanout(cs[0]), FanoutOf(cs[1..]))
  }

  function Max(a: nat, b: nat): nat
  {
    if a < b then b else a
  }

  /** Results to inject: `open`, `chdir` and `close` keyed by the directory
      concerned, `read` by directory and entry position, `up` by the
      directory that `f_chdir("..")` leaves. */
  datatype Faults = Faults(
    open: map<Path, FResult>,
    chdir: map<Path, FResult>,
    read: map<(Path, nat), FResult>,
    close: map<Path, FResult>,
    up: map<Path, FResult>)

  datatype Fs = Fs(root: Node, faults: Faults)

  function Fault<K>(m: map<K, FResult>, k: K): FResult
  {
    if k in m then m[k] else Ok
  }

  /** Splits path text at every `/`. */
  function Split(text: string): (parts: seq<string>)
    ensures |parts| >= 1
  {
    if text == [] then [[]]
    else if text[0] == '/' then [[]] + Split(text[1..])
    else
      var rest := Split(text[1..]);
      [[text[0]] + rest[0]] + rest[1..]
  }

  /** Applies path components to a directory: empty and `.` components stay,
      `..` goes up, any other name goes down. The volume root has no dot
      entries, and FatFs's path follower treats a dot name it cannot find
      there as the root itself, so `..` at the root stays at the root. */
  function Apply(p: Path, parts: seq<string>): Path
    decreases |parts|
  {
    if parts == [] then p
    else if parts[0] == [] || parts[0] == "." then Apply(p, parts[1..])
    else if parts[0] == ".." then Apply(if p == [] then [] else p[..|p| - 1], parts[1..])
    else Apply(p + [parts[0]], parts[1..])
  }

  /** The directory path text names when the current directory is `cwd`;
      text starting with `/` is taken from the volume root. */
  function Resolve(cwd: Path, text: string): Path
  {
    if text != [] && text[0] == '/' then Apply([], Split(text[1..])) else Apply(cwd, Split(text))
  }

  /** A name a directory entry can carry: not empty, not a dot name, no `/`. */
  predicate Ordinary(name: string)
  {
    name != [] && name != "." && name != ".." && forall k :: 0 <= k < |name| ==> name[k] != '/'
  }

  /** Every entry name is ordinary and unique within its directory. */
  predicate WellFormed(n: Node)
  {
    match n
    case File(_, _) => true
    case Dir(_, cs) =>
      && (forall k :: 0 <= k < |cs| ==> Ordinary(cs[k].name) && WellFormed(cs[k]))
      && (forall a, b :: 0 <= a < b < |cs| ==> cs[a].name != cs[b].name)
  }

  /** A `DIR` handle: the directory it was opened on, the snapshot of its
      entries, and the position of the next entry `f_readdir` returns. */
  datatype Cursor = Cursor(dir: Path, entries: seq<Entry>, pos: nat)

  /** `f_opendir(dir, name)` relative to the current directory. */
  function OpenDir(fs: Fs, cwd: Path, name: string): (r: Result<Cursor>)
    ensures r.Failure? ==> r.code != Ok
    ensures r.Success? ==> r.value.pos == 0 && Resolve(cwd, name) == r.value.dir
                           && DirAt(fs.root, r.value.dir) == Some(r.value.entries)
  {
    var target := Resolve(cwd, name);
    if Fault(fs.faults.open, target) != Ok then Failure(Fault(fs.faults.open, target))
    else match DirAt(fs.root, target)
      case None => Failure(NoPath)
      case Some(es) => Success(Cursor(target, es, 0))
  }

  /** `f_chdir(name)`: the new current directory. */
  function ChDir(fs: Fs, cwd: Path, name: string): (r: Result<Path>)
    ensures r.Failure? ==> r.code != Ok
    ensures r.Success? ==> Resolve(cwd, name) == r.value && DirAt(fs.root, r.value).Some?
  {
    var target := Resolve(cwd, name);
    if Fault(fs.faults.chdir, target) != Ok then Failure(Fault(fs.faults.chdir, target))
    else if DirAt(fs.root, target).None? then Failure(NoPath)
    else Success(target)
  }

  /** `f_chdir("..")`. */
  function ChDirUp(fs: Fs, cwd: Path): (r: Result<Path>)
    ensures r.Failure? ==> r.code != Ok
    ensures Fault(fs.faults.up, cwd) == Ok ==> r == Success(if cwd == [] then [] else cwd[..|cwd| - 1])
  {
    ResolveParent(cwd);
    if Fault(fs.faults.up, cwd) != Ok then Failure(Fault(fs.faults.up, cwd))
    else Success(Resolve(cwd, ".."))
  }

  /** One answer of `f_readdir`: an entry (an empty name marks the end, as in
      FatFs), the end, or an error. */
  datatype Read = Item(entry: Entry) | Ended | ReadFailed(code: FResult)

  function ReadAt(fs: Fs, dir: Path, entries: seq<Entry>, pos: nat): (r: Read)
    ensures r.Item? ==> pos < |entries| && r.entry == entries[pos]
    ensures r.ReadFailed? ==> r.code != Ok
  {
    if Fault(fs.faults.read, (dir, pos)) != Ok then ReadFailed(Fault(fs.faults.read, (dir, pos)))
    else if pos < |entries| then Item(entries[pos])
    else Ended
  }

  /** `f_readdir(dir, &info)`: answers for the handle's position and moves on. */
  function ReadDir(fs: Fs, c: Cursor): (Read, Cursor)
  {
    (ReadAt(fs, c.dir, c.entries, c.pos), c.(pos := c.pos + 1))
  }

  /** `f_closedir(dir)`. */
  function CloseDir(fs: Fs, c: Cursor): FResult
  {
    Fault(fs.faults.close, c.dir)
  }

  lemma {:induction false} SplitPlain(name: string)
    requires forall k :: 0 <= k < |name| ==> name[k] != '/'
    ensures Split(name) == [name]
  {
    if name != [] {
      SplitPlain(name[1..]);
      assert name == [name[0]] + name[1..];
    }
  }

  /** An ordinary name resolves to the child of the current directory. */
  lemma ResolveChild(cwd: Path, name: string)
    requires Ordinary(name)
    ensures Resolve(cwd, name) == cwd + [name]
  {
    SplitPlain(name);
    assert name[0] != '/';
    assert Apply(cwd + [name], []) == cwd + [name];
  }

  /** A name without `/` followed by a `/` is a component of its own. */
  lemma {:induction false} SplitAfter(name: string, rest: string)
    requires forall k :: 0 <= k < |name| ==> name[k] != '/'
    ensures Split(name + "/" + rest) == [name] + Split(rest)
  {
    if name == [] {
      assert name + "/" + rest == "/" + rest;
      assert ("/" + rest)[1..] == rest;
    } else {
      var text := name + "/" + rest;
      SplitAfter(name[1..], rest);
      assert text[0] == name[0] != '/' && text[1..] == name[1..] + "/" + rest;
      assert [name[0]] + name[1..] == name;
    }
  }

  /** Resolution works on the text alone: `name/..` names the current
      directory whether or not `name` exists. */
  lemma DownThenUp(cwd: Path, name: string)
    requires Ordinary(name)
    ensures Resolve(cwd, name + "/..") == cwd
  {
    SplitAfter(name, "..");
    SplitPlain("..");
    assert name + "/" + ".." == name + "/..";
    assert (name + "/..")[0] == name[0] != '/';
    assert Split(name + "/..") == [name, ".."];
    assert Apply(cwd, [name, ".."]) == Apply(cwd + [name], [".."]);
    assert (cwd + [name])[..|cwd|] == cwd;
  }

  /** `..` resolves to the parent, and to the root itself at the root. */
  lemma ResolveParent(cwd: Path)
    ensures Resolve(cwd, "..") == (if cwd == [] then [] else cwd[..|cwd| - 1])
  {
    SplitPlain("..");
    assert Split("..") == [".."];
    assert Apply(cwd, [".."]) == Apply(if cwd == [] then [] else cwd[..|cwd| - 1], []);
  }

  lemma {:induction false} ChildOfUnique(cs: seq<Node>, k: nat)
    requires k < |cs|
    requires forall a, b :: 0 <= a < b < |cs| ==> cs[a].name != cs[b].name
    ensures Child(cs, cs[k].name) == Some(cs[k])
  {
    if k > 0 {
      ChildOfUnique(cs[1..], k - 1);
    }
  }

  /** In a well-formed tree, the k-th child of a directory is found by its name. */
  lemma LookupChild(root: Node, path: Path, name: string, cs: seq<Node>, k: nat)
    requires WellFormed(root)
    requires Lookup(root, path) == Some(Dir(name, cs)) && k < |cs|
    ensures Lookup(root, path + [cs[k].name]) == Some(cs[k])
  {
    WellFormedLookup(root, path);
    assert (path + [cs[k].name])[..|path|] == path;
    ChildOfUnique(cs, k);
  }

  lemma {:induction false} ChildIn(cs: seq<Node>, name: string)
    ensures Child(cs, name).Some? ==> exists k :: 0 <= k < |cs| && cs[k] == Child(cs, name).value
  {
    if cs != [] && cs[0].name != name {
      ChildIn(cs[1..], name);
      if Child(cs, name).Some? {
        var k :| 0 <= k < |cs[1..]| && cs[1..][k] == Child(cs, name).value;
        assert cs[k + 1] == Child(cs, name).value;
      }
    }
  }

  /** Every node a path reaches in a well-formed tree is well formed. */
  lemma {:induction false} WellFormedLookup(root: Node, path: Path)
    requires WellFormed(root)
    decreases |path|
    ensures Lookup(root, path).Some? ==> WellFormed(Lookup(root, path).value)
  {
    if path != [] {
      var up := path[..|path| - 1];
      WellFormedLookup(root, up);
      match Lookup(root, up)
      case Some(Dir(_, cs)) =>
        ChildIn(cs, path[|path| - 1]);
      case _ =>
    }
  }

  lemma {:induction false} FanoutChild(cs: seq<Node>, k: nat)
    requires k < |cs|
    ensures Fanout(cs[k]) <= FanoutOf(cs)
  {
    if k > 0 {
      FanoutChild(cs[1..], k - 1);
    }
  }

  /** No directory reachable in a tree has more children than its fanout. */
  lemma {:induction false} FanoutLookup(root: Node, path: Path)
    decreases |path|
    ensures Lookup(root, path).Some? ==> Fanout(Lookup(root, path).value) <= Fanout(root)
  {
    if path != [] {
      var up := path[..|path| - 1];
      FanoutLookup(root, up);
      match Lookup(root, up)
      case Some(Dir(_, cs)) =>
        ChildIn(cs, path[|path| - 1]);
        if Child(cs, path[|path| - 1]).Some? {
          var k :| 0 <= k < |cs| && cs[k] == Child(cs, path[|path| - 1]).value;
          FanoutChild(cs, k);
        }
      case _ =>
    }
  }

  /** A handle on a directory of a well-formed tree sees only ordinary names,
      and no more entries than the tree's fanout. */
  lemma OpenedEntries(fs: Fs, p: Path, es: seq<Entry>)
    requires DirAt(fs.root, p) == Some(es)
    ensures |es| <= Fanout(fs.root)
    ensures WellFormed(fs.root) ==> forall k :: 0 <= k < |es| ==> Ordinary(es[k].name)
  {
    FanoutLookup(fs.root, p);
    if WellFormed(fs.root) {
      WellFormedLookup(fs.root, p);
    }
  }
}
