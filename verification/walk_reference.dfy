/** The directory-tree listing (`dt`) stated recursively: the events the
    walker produces, `change_cwd`, the unwinding of one frame, and a
    recursive reference traversal against which the iterative walker is
    proved. */
module WalkReference {
  import opened Base
  import opened FsResults
  import opened Volume

  /** Capacity of the walker's frame array (`MAX_TREE_HEIGHT`). */
  const MaxTreeHeight: nat := 16

  /** What the walker does that can be observed: a listed entry at an
      indentation depth, a handle opened, the messages for a failed open or
      change of directory, a handle closed (with its result), and a move to
      the parent directory (with its result). */
  datatype Event =
    | Shown(depth: nat, entry: Entry)
    | Opened(dir: Path)
    | OpenFailed(name: string, code: FResult)
    | ChdirFailed(name: string, code: FResult)
    | Closed(dir: Path, code: FResult)
    | WentUp(code: FResult)

  datatype Kind = OpenedKind | ClosedKind | ChdirFailedKind

  predicate Is(e: Event, k: Kind)
  {
    match k
    case OpenedKind => e.Opened?
    case ClosedKind => e.Closed?
    case ChdirFailedKind => e.ChdirFailed?
  }

  /** How many events of a kind a trace holds. */
  function Count(t: seq<Event>, k: Kind): nat
  {
    if t == [] then 0 else Count(t[..|t| - 1], k) + (if Is(t[|t| - 1], k) then 1 else 0)
  }

  lemma {:induction false} CountAppend(a: seq<Event>, b: seq<Event>, k: Kind)
    ensures Count(a + b, k) == Count(a, k) + Count(b, k)
    decreases |b|
  {
    if b == [] {
      assert a + b == a;
    } else {
      assert (a + b)[..|a + b| - 1] == a + b[..|b| - 1];
      CountAppend(a, b[..|b| - 1], k);
    }
  }

  /** The outcome of `change_cwd`: its result, the handle `f_opendir` filled
      in (if it succeeded), the current directory afterwards, and events. */
  datatype Change = Change(code: FResult, handle: Option<Cursor>, cwd: Path, events: seq<Event>)

  /** `change_cwd(dir, name)`: opens the directory, then makes it current.
      When the open succeeds and the change fails, the handle stays open. */
  function ChangeCwd(fs: Fs, cwd: Path, name: string): (c: Change)
    ensures c.code == Ok ==> c.handle.Some? && c.events == [Opened(c.handle.value.dir)]
                             && c.cwd == c.handle.value.dir
    ensures c.code != Ok ==> c.cwd == cwd
    ensures c.code != Ok && c.handle.None? ==> c.events == [OpenFailed(name, c.code)]
    ensures c.code != Ok && c.handle.Some? ==> c.events == [Opened(c.handle.value.dir), ChdirFailed(name, c.code)]
    ensures c.handle.Some? ==> c.handle.value.pos == 0 && Resolve(cwd, name) == c.handle.value.dir
                               && DirAt(fs.root, c.handle.value.dir) == Some(c.handle.value.entries)
    ensures c.handle.Some? && c.code != Ok ==> Fault(fs.faults.chdir, c.handle.value.dir) == c.code
  {
    match OpenDir(fs, cwd, name)
    case Failure(e) => Change(e, None, cwd, [OpenFailed(name, e)])
    case Success(cur) =>
      match ChDir(fs, cwd, name)
      case Failure(e) => Change(e, Some(cur), cwd, [Opened(cur.dir), ChdirFailed(name, e)])
      case Success(p) => Change(Ok, Some(cur), p, [Opened(cur.dir)])
  }

  function UpCode(fs: Fs, cwd: Path): FResult
  {
    match ChDirUp(fs, cwd)
    case Success(_) => Ok
    case Failure(e) => e
  }

  /** Whether leaving the frame at depth `d` issues `f_chdir("..")`: always
      below the root, and at the root unless the root text was `.`. */
  predicate GoesUp(d: nat, dotRoot: bool)
  {
    d > 0 || !dotRoot
  }

  /** The end of a frame: close its handle, then move up if required. */
  function Unwind(fs: Fs, dir: Path, d: nat, dotRoot: bool): seq<Event>
  {
    [Closed(dir, Fault(fs.faults.close, dir))] + (if GoesUp(d, dotRoot) then [WentUp(UpCode(fs, dir))] else [])
  }

  /** The events of a frame at depth `d` from entry position `q` on: each
      entry is shown; a subdirectory below the depth limit is descended into;
      an empty name, the end or a read error ends the frame. */
  function RefFrom(fs: Fs, dir: Path, es: seq<Entry>, q: nat, d: nat, dotRoot: bool): seq<Event>
    requires d < MaxTreeHeight
    decreases MaxTreeHeight - d, 1, |es| - q
  {
    match ReadAt(fs, dir, es, q)
    case Item(e) =>
      if e.name == [] then []
      else
        [Shown(d, e)]
        + (if e.isDir && d < MaxTreeHeight - 1 then Descend(fs, dir, e.name, d + 1, dotRoot) else [])
        + RefFrom(fs, dir, es, q + 1, d, dotRoot)
    case _ => []
  }

  /** Entering a directory from `cwd` as frame `d`, and everything that frame
      produces until it is unwound; a failed change produces only its
      messages, so the subtree is skipped. */
  function Descend(fs: Fs, cwd: Path, name: string, d: nat, dotRoot: bool): seq<Event>
    requires d < MaxTreeHeight
    decreases MaxTreeHeight - d, 3, 0
  {
    var ch := ChangeCwd(fs, cwd, name);
    ch.events + (if ch.code == Ok then RefFrame(fs, ch.handle.value, d, dotRoot) else [])
  }

  function RefFrame(fs: Fs, c: Cursor, d: nat, dotRoot: bool): seq<Event>
    requires d < MaxTreeHeight
    decreases MaxTreeHeight - d, 2, 0
  {
    RefFrom(fs, c.dir, c.entries, c.pos, d, dotRoot) + Unwind(fs, c.dir, d, dotRoot)
  }

  /** The reference run of `dir_tree(root)` from current directory `cwd0`. */
  function RefWalk(fs: Fs, cwd0: Path, root: string): seq<Event>
  {
    Descend(fs, cwd0, root, 0, root == ".")
  }

  /** The current directory after the top frame, opened on `base`, is
      unwound: its parent unless the root text was `.` or `..` fails. */
  function Settle(fs: Fs, base: Path, dotRoot: bool): Path
  {
    if dotRoot then base
    else match ChDirUp(fs, base)
      case Success(p) => p
      case Failure(_) => base
  }

  /** The current directory a run of `dir_tree(root)` leaves behind when no
      `..` fails at depth: the root's parent unless the root text was `.`. */
  function FinalCwd(fs: Fs, cwd0: Path, root: string): Path
  {
    var ch := ChangeCwd(fs, cwd0, root);
    if ch.code != Ok then cwd0 else Settle(fs, ch.cwd, root == ".")
  }

  /** What the frames `0..i` of a frame array have left to produce, top first. */
  function Pending(fs: Fs, path: seq<Cursor>, i: int, dotRoot: bool): seq<Event>
    requires -1 <= i < |path| && i < MaxTreeHeight
    decreases i + 1
  {
    if i < 0 then []
    else RefFrame(fs, path[i], i, dotRoot) + Pending(fs, path, i - 1, dotRoot)
  }

  lemma {:induction false} PendingFrame(fs: Fs, path: seq<Cursor>, j: nat, c: Cursor, i: int, dotRoot: bool)
    requires -1 <= i < j < |path| && i < MaxTreeHeight
    ensures Pending(fs, path[j := c], i, dotRoot) == Pending(fs, path, i, dotRoot)
    decreases i + 1
  {
    if i >= 0 {
      PendingFrame(fs, path, j, c, i - 1, dotRoot);
    }
  }

  /** Handles opened minus handles closed minus handles left behind by a
      failed change of directory. */
  function Balance(t: seq<Event>): int
  {
    Count(t, OpenedKind) - Count(t, ClosedKind) - Count(t, ChdirFailedKind)
  }

  lemma BalanceAppend(a: seq<Event>, b: seq<Event>)
    ensures Balance(a + b) == Balance(a) + Balance(b)
  {
    CountAppend(a, b, OpenedKind);
    CountAppend(a, b, ClosedKind);
    CountAppend(a, b, ChdirFailedKind);
  }

  lemma CountOne(e: Event, k: Kind)
    ensures Count([e], k) == if Is(e, k) then 1 else 0
  {
    assert [e][..0] == [];
  }

  /** A change of directory leaves one more handle open exactly when it
      succeeds, and reports a failed change only when `f_chdir` faulted. */
  lemma ChangeBalance(fs: Fs, cwd: Path, name: string)
    ensures Balance(ChangeCwd(fs, cwd, name).events) == if ChangeCwd(fs, cwd, name).code == Ok then 1 else 0
    ensures fs.faults.chdir == map[] ==> Count(ChangeCwd(fs, cwd, name).events, ChdirFailedKind) == 0
  {
    var c := ChangeCwd(fs, cwd, name);
    if c.code == Ok || c.handle.None? {
      CountOne(c.events[0], OpenedKind);
      CountOne(c.events[0], ClosedKind);
      CountOne(c.events[0], ChdirFailedKind);
    } else {
      var a, b := [c.events[0]], [c.events[1]];
      assert c.events == a + b;
      CountAppend(a, b, OpenedKind);
      CountAppend(a, b, ClosedKind);
      CountAppend(a, b, ChdirFailedKind);
      CountOne(c.events[0], OpenedKind);
      CountOne(c.events[0], ClosedKind);
      CountOne(c.events[0], ChdirFailedKind);
      CountOne(c.events[1], OpenedKind);
      CountOne(c.events[1], ClosedKind);
      CountOne(c.events[1], ChdirFailedKind);
    }
  }

  /** Every listed entry is indented by fewer than `MaxTreeHeight` levels. */
  predicate Shallow(t: seq<Event>)
  {
    forall k :: 0 <= k < |t| && t[k].Shown? ==> t[k].depth < MaxTreeHeight
  }

  lemma ShallowAppend(a: seq<Event>, b: seq<Event>)
    requires Shallow(a) && Shallow(b)
    ensures Shallow(a + b)
  {
    forall k | 0 <= k < |a + b| && (a + b)[k].Shown?
      ensures (a + b)[k].depth < MaxTreeHeight
    {
      if k >= |a| {
        assert (a + b)[k] == b[k - |a|];
      }
    }
  }

  /** Appending events moves the balance, the count of failed changes and
      the depth bound as each part does. */
  lemma Extend(a: seq<Event>, b: seq<Event>)
    requires Shallow(a) && Shallow(b)
    ensures Balance(a + b) == Balance(a) + Balance(b)
    ensures Count(a + b, ChdirFailedKind) == Count(a, ChdirFailedKind) + Count(b, ChdirFailedKind)
    ensures Shallow(a + b)
  {
    BalanceAppend(a, b);
    CountAppend(a, b, ChdirFailedKind);
    ShallowAppend(a, b);
  }

  lemma {:induction false} OneEvent(e: Event)
    requires e.Shown? ==> e.depth < MaxTreeHeight
    ensures Shallow([e])
    ensures Balance([e]) == (if e.Opened? then 1 else if e.Closed? || e.ChdirFailed? then -1 else 0)
    ensures Count([e], ChdirFailedKind) == (if e.ChdirFailed? then 1 else 0)
  {
    CountOne(e, OpenedKind);
    CountOne(e, ClosedKind);
    CountOne(e, ChdirFailedKind);
  }

  lemma ChangeShallow(fs: Fs, cwd: Path, name: string)
    ensures Shallow(ChangeCwd(fs, cwd, name).events)
  {
  }

  lemma Regroup<T>(t: seq<T>, r: seq<T>, u: seq<T>, p: seq<T>)
    ensures t + ((r + u) + p) == t + r + u + p
    ensures t + (r + u + p) == t + r + u + p
  {
  }

  /** The regrouping behind showing an entry: the shown part of a frame
      moves in front of the rest. */
  lemma Shift<T>(t: seq<T>, x: seq<T>, s: seq<T>, r: seq<T>, u: seq<T>, p: seq<T>, w: seq<T>)
    requires t + x + u + p == w
    requires x == s + r
    ensures t + s + r + u + p == w
  {
    assert t + (s + r) == t + s + r;
  }

  /** The regrouping behind entering a subdirectory: the events of the
      change and the new frame move in front of the rest of the old frame. */
  lemma Nest<T>(t: seq<T>, x: seq<T>, s: seq<T>, ev: seq<T>, f: seq<T>, v: seq<T>,
                r: seq<T>, u: seq<T>, p: seq<T>, q: seq<T>, w: seq<T>)
    requires t + x + u + p == w
    requires x == s + (ev + (f + v)) + r
    requires q == r + u + p
    ensures t + s + ev + f + v + q == w
  {
    assert t + (s + (ev + (f + v)) + r) == t + s + ev + f + v + r;
  }

  /** The regrouping behind a failed change of directory. */
  lemma Skip<T>(t: seq<T>, x: seq<T>, s: seq<T>, ev: seq<T>, r: seq<T>, u: seq<T>, p: seq<T>, w: seq<T>)
    requires t + x + u + p == w
    requires x == s + (ev + []) + r
    ensures t + s + ev + r + u + p == w
  {
    assert ev + [] == ev;
    assert t + (s + ev + r) == t + s + ev + r;
  }
}
