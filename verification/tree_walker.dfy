/** The iterative `dir_tree` walker over a fixed array of `MaxTreeHeight`
    directory handles, proved to terminate under any faults, to close every
    handle whose change of directory succeeded, and, on a well-formed volume
    whose `..` moves do not fail, to produce exactly the recursive reference
    traversal. */
module TreeWalker {
  import opened Base
  import opened FsResults
  import opened Volume
  import opened Measure
  import opened WalkReference

  /** A volume on which the walker agrees with the recursive reference:
      entry names are ordinary and unique, and `f_chdir("..")` never faults. */
  predicate Good(fs: Fs)
  {
    WellFormed(fs.root) && fs.faults.up == map[]
  }

  /** Reads a frame may still issue: up to and including the one that
      returns the end marker. */
  function Rem(c: Cursor): nat
  {
    if c.pos <= |c.entries| + 1 then |c.entries| + 1 - c.pos else 0
  }

  /** Whether the entry just read at depth `i` is a directory the walker
      will try to enter. */
  function Flag(rd: Read, i: int): nat
  {
    if rd.Item? && rd.entry.name != [] && rd.entry.isDir && i < MaxTreeHeight - 1 then 1 else 0
  }

  /** The termination measure: one digit per frame, the frame nearest the
      root most significant; the top frame's digit also counts a pending
      descent. */
  function Digits(path: seq<Cursor>, i: int, flag: nat): (ds: seq<nat>)
    requires |path| == MaxTreeHeight
    ensures |ds| == MaxTreeHeight
  {
    seq(MaxTreeHeight, k requires 0 <= k < MaxTreeHeight =>
      if k < i then 2 * Rem(path[k]) else if k == i then 2 * Rem(path[k]) + flag else 0)
  }

  function Radix(fs: Fs): nat
  {
    2 * Fanout(fs.root) + 4
  }

  /** The frames `0..i` hold handles opened on directories of the volume;
      the frames below the top have returned the entry they descended into. */
  predicate Frames(fs: Fs, path: seq<Cursor>, i: int)
  {
    && |path| == MaxTreeHeight && -1 <= i < MaxTreeHeight
    && (forall k :: 0 <= k <= i ==> DirAt(fs.root, path[k].dir) == Some(path[k].entries))
    && (forall k :: 0 <= k <= i ==> |path[k].entries| <= Fanout(fs.root))
    && (forall k :: 0 <= k < i ==> 1 <= path[k].pos <= |path[k].entries|)
  }

  /** What a run is proved to reach: the reference trace, the directory the
      root frame is opened on, the current directory at the end, and whether
      the root text was `.`. */
  datatype Goal = Goal(walk: seq<Event>, base: Path, final: Path, dotRoot: bool)

  /** On a good volume: the current directory is the top frame's, each frame
      is a child of the one below it, and after the last frame the current
      directory is the one the reference predicts. */
  predicate Synced(g: Goal, path: seq<Cursor>, i: int, cwd: Path)
    requires |path| == MaxTreeHeight && -1 <= i < MaxTreeHeight
  {
    && (i >= 0 ==> cwd == path[i].dir && path[0].dir == g.base)
    && (i < 0 ==> cwd == g.final)
    && (forall k :: 0 < k <= i ==> path[k].dir != [] && path[k - 1].dir == path[k].dir[..|path[k].dir| - 1])
  }

  lemma DigitsBelow(fs: Fs, path: seq<Cursor>, i: int, flag: nat)
    requires Frames(fs, path, i) && flag <= 1
    ensures forall k :: 0 <= k < MaxTreeHeight ==> Digits(path, i, flag)[k] < Radix(fs)
  {
  }

  /** A read on the top frame lowers the measure, whatever it returns. */
  lemma ReadDrops(fs: Fs, path: seq<Cursor>, i: int, flag: nat, flag': nat, path': seq<Cursor>)
    requires Frames(fs, path, i) && 0 <= i && flag' <= 1
    requires path[i].pos <= |path[i].entries|
    requires path' == path[i := path[i].(pos := path[i].pos + 1)]
    ensures Enc(Digits(path', i, flag'), Radix(fs)) < Enc(Digits(path, i, flag), Radix(fs))
  {
    var s, t := Digits(path', i, flag'), Digits(path, i, flag);
    assert s[..i] == t[..i];
    EncLess(s, t, i, Radix(fs));
  }

  /** Entering a subdirectory consumes the pending descent of the frame below. */
  lemma DescendDrops(fs: Fs, path: seq<Cursor>, i: int, c: Cursor, flag': nat, path': seq<Cursor>)
    requires Frames(fs, path, i) && 0 <= i < MaxTreeHeight - 1 && flag' <= 1
    requires path[i].pos <= |path[i].entries| + 1
    requires |c.entries| <= Fanout(fs.root)
    requires path' == path[i + 1 := c]
    ensures Enc(Digits(path', i + 1, flag'), Radix(fs)) < Enc(Digits(path, i, 1), Radix(fs))
  {
    var s, t := Digits(path', i + 1, flag'), Digits(path, i, 1);
    assert s[..i] == t[..i];
    EncLess(s, t, i, Radix(fs));
  }

  /** Writing a slot above the top frame leaves the measure as it was. */
  lemma DigitsAbove(path: seq<Cursor>, i: int, j: nat, c: Cursor, flag: nat)
    requires |path| == MaxTreeHeight && i < j < MaxTreeHeight
    ensures Digits(path[j := c], i, flag) == Digits(path, i, flag)
  {
  }

  /** Dropping the top frame never raises the measure. */
  lemma PopKeeps(fs: Fs, path: seq<Cursor>, i: int)
    requires Frames(fs, path, i) && 0 <= i
    ensures Enc(Digits(path, i - 1, 0), Radix(fs)) <= Enc(Digits(path, i, 0), Radix(fs))
  {
    var s, t := Digits(path, i - 1, 0), Digits(path, i, 0);
    if Rem(path[i]) == 0 {
      assert s == t;
    } else {
      assert s[..i] == t[..i];
      EncLess(s, t, i, Radix(fs));
    }
  }

  /** The top frame `i` has returned `rd` for its last read. */
  predicate Top(fs: Fs, path: seq<Cursor>, i: int, rd: Read)
  {
    && Frames(fs, path, i) && 0 <= i
    && 1 <= path[i].pos <= |path[i].entries| + 1
    && rd == ReadAt(fs, path[i].dir, path[i].entries, path[i].pos - 1)
  }

  /** The trace so far has `open` handles outstanding, reports no failed
      change when `f_chdir` cannot fault, and keeps the depth bound. */
  predicate Tally(fs: Fs, trace: seq<Event>, open: int)
  {
    && Balance(trace) == open
    && (fs.faults.chdir == map[] ==> Count(trace, ChdirFailedKind) == 0)
    && Shallow(trace)
  }

  /** The trace so far followed by what the frames still produce, starting
      with the entry `rd` just read, is the reference traversal. */
  predicate Inside(fs: Fs, dotRoot: bool, trace: seq<Event>, path: seq<Cursor>, i: int, walk: seq<Event>)
    requires |path| == MaxTreeHeight && 0 <= i < MaxTreeHeight && path[i].pos >= 1
  {
    trace + RefFrom(fs, path[i].dir, path[i].entries, path[i].pos - 1, i, dotRoot)
    + Unwind(fs, path[i].dir, i, dotRoot) + Pending(fs, path, i - 1, dotRoot) == walk
  }

  /** The walker's state at the head of its inner loop: `rd` is what the top
      frame returned for its last read and has not been acted on yet. */
  predicate Scanning(fs: Fs, g: Goal, trace: seq<Event>, cwd: Path,
                     path: seq<Cursor>, i: int, rd: Read)
  {
    && Top(fs, path, i, rd)
    && Tally(fs, trace, i + 1)
    && (Good(fs) ==> Synced(g, path, i, cwd) && Inside(fs, g.dotRoot, trace, path, i, g.walk))
  }

  /** The walker's state at the head of its outer loop: frames `0..i` are
      open and the top one is about to be read. */
  predicate Resting(fs: Fs, g: Goal, trace: seq<Event>, cwd: Path, path: seq<Cursor>, i: int)
  {
    && Frames(fs, path, i)
    && (i >= 0 ==> path[i].pos <= |path[i].entries|)
    && Balance(trace) == i + 1
    && (fs.faults.chdir == map[] ==> Count(trace, ChdirFailedKind) == 0)
    && Shallow(trace)
    && (Good(fs) ==> Synced(g, path, i, cwd))
    && (Good(fs) ==> trace + Pending(fs, path, i, g.dotRoot) == g.walk)
  }

  /** `RefFrom` at an entry it shows and does not enter. */
  lemma FromShown(fs: Fs, dir: Path, es: seq<Entry>, q: nat, d: nat, dotRoot: bool)
    requires d < MaxTreeHeight
    requires ReadAt(fs, dir, es, q).Item? && ReadAt(fs, dir, es, q).entry.name != []
    requires !(ReadAt(fs, dir, es, q).entry.isDir && d < MaxTreeHeight - 1)
    ensures RefFrom(fs, dir, es, q, d, dotRoot) == [Shown(d, ReadAt(fs, dir, es, q).entry)] + RefFrom(fs, dir, es, q + 1, d, dotRoot)
  {
  }

  /** `RefFrom` at a directory it enters. */
  lemma FromDescend(fs: Fs, dir: Path, es: seq<Entry>, q: nat, d: nat, dotRoot: bool)
    requires d < MaxTreeHeight - 1
    requires ReadAt(fs, dir, es, q).Item? && ReadAt(fs, dir, es, q).entry.name != [] && ReadAt(fs, dir, es, q).entry.isDir
    ensures var e := ReadAt(fs, dir, es, q).entry;
      RefFrom(fs, dir, es, q, d, dotRoot) == [Shown(d, e)] + Descend(fs, dir, e.name, d + 1, dotRoot) + RefFrom(fs, dir, es, q + 1, d, dotRoot)
  {
  }

  lemma TallyExtend(fs: Fs, trace: seq<Event>, extra: seq<Event>, open: int)
    requires Tally(fs, trace, open) && Shallow(extra)
    requires fs.faults.chdir == map[] ==> Count(extra, ChdirFailedKind) == 0
    ensures Tally(fs, trace + extra, open + Balance(extra))
  {
    Extend(trace, extra);
  }

  /** Advancing the top frame's position keeps the frames and the chain. */
  lemma Advance(fs: Fs, g: Goal, path: seq<Cursor>, i: int, cwd: Path, path': seq<Cursor>)
    requires Frames(fs, path, i) && 0 <= i
    requires path' == path[i := path[i].(pos := path[i].pos + 1)]
    ensures Frames(fs, path', i)
    ensures Synced(g, path, i, cwd) ==> Synced(g, path', i, cwd)
  {
  }

  /** Writing the slot above the top frame keeps the frames and the chain. */
  lemma Above(fs: Fs, g: Goal, path: seq<Cursor>, i: int, c: Cursor, cwd: Path, path': seq<Cursor>)
    requires Frames(fs, path, i) && 0 <= i < MaxTreeHeight - 1
    requires path' == path[i + 1 := c]
    ensures Frames(fs, path', i)
    ensures Synced(g, path, i, cwd) ==> Synced(g, path', i, cwd)
  {
  }

  /** Showing an entry the walker does not enter. */
  lemma ShowStep(fs: Fs, g: Goal, trace: seq<Event>, cwd: Path, path: seq<Cursor>, i: int, rd: Read,
                 trace': seq<Event>, path': seq<Cursor>, rd': Read)
    requires Scanning(fs, g, trace, cwd, path, i, rd)
    requires rd.Item? && rd.entry.name != [] && !(rd.entry.isDir && i < MaxTreeHeight - 1)
    requires trace' == trace + [Shown(i, rd.entry)]
    requires path' == path[i := path[i].(pos := path[i].pos + 1)]
    requires rd' == ReadAt(fs, path[i].dir, path[i].entries, path[i].pos)
    ensures Scanning(fs, g, trace', cwd, path', i, rd')
    ensures Enc(Digits(path', i, Flag(rd', i)), Radix(fs)) < Enc(Digits(path, i, Flag(rd, i)), Radix(fs))
  {
    Advance(fs, g, path, i, cwd, path');
    assert Top(fs, path', i, rd');
    assert Tally(fs, trace', i + 1) by {
      OneEvent(Shown(i, rd.entry));
      TallyExtend(fs, trace, [Shown(i, rd.entry)], i + 1);
    }
    if Good(fs) {
      ShowInside(fs, g.dotRoot, trace, path, i, rd.entry, g.walk, trace', path');
    }
    ReadDrops(fs, path, i, Flag(rd, i), Flag(rd', i), path');
  }

  lemma ShowInside(fs: Fs, dotRoot: bool, trace: seq<Event>, path: seq<Cursor>, i: int, e: Entry, walk: seq<Event>,
                   trace': seq<Event>, path': seq<Cursor>)
    requires |path| == MaxTreeHeight && 0 <= i < MaxTreeHeight && 1 <= path[i].pos
    requires ReadAt(fs, path[i].dir, path[i].entries, path[i].pos - 1) == Item(e)
    requires e.name != [] && !(e.isDir && i < MaxTreeHeight - 1)
    requires Inside(fs, dotRoot, trace, path, i, walk)
    requires trace' == trace + [Shown(i, e)]
    requires path' == path[i := path[i].(pos := path[i].pos + 1)]
    ensures Inside(fs, dotRoot, trace', path', i, walk)
  {
    var c, c' := path[i], path'[i];
    assert c' == c.(pos := c.pos + 1);
    var x := RefFrom(fs, c.dir, c.entries, c.pos - 1, i, dotRoot);
    var r1 := RefFrom(fs, c'.dir, c'.entries, c'.pos - 1, i, dotRoot);
    var u, p := Unwind(fs, c.dir, i, dotRoot), Pending(fs, path, i - 1, dotRoot);
    InsideParts(fs, dotRoot, trace, path, i, walk, x, u, p);
    FromShown(fs, c.dir, c.entries, c.pos - 1, i, dotRoot);
    PendingFrame(fs, path, i, c', i - 1, dotRoot);
    Shift(trace, x, [Shown(i, e)], r1, u, p, walk);
    InsideIntro(fs, dotRoot, trace', path', i, walk, r1, u, p);
  }

  /** `Inside`, taken apart into its three pieces. */
  lemma InsideParts(fs: Fs, dotRoot: bool, trace: seq<Event>, path: seq<Cursor>, i: int, walk: seq<Event>,
                    x: seq<Event>, u: seq<Event>, p: seq<Event>)
    requires |path| == MaxTreeHeight && 0 <= i < MaxTreeHeight && path[i].pos >= 1
    requires Inside(fs, dotRoot, trace, path, i, walk)
    requires x == RefFrom(fs, path[i].dir, path[i].entries, path[i].pos - 1, i, dotRoot)
    requires u == Unwind(fs, path[i].dir, i, dotRoot) && p == Pending(fs, path, i - 1, dotRoot)
    ensures trace + x + u + p == walk
  {
  }

  /** `Inside`, put together from its three pieces. */
  lemma InsideIntro(fs: Fs, dotRoot: bool, trace: seq<Event>, path: seq<Cursor>, i: int, walk: seq<Event>,
                    x: seq<Event>, u: seq<Event>, p: seq<Event>)
    requires |path| == MaxTreeHeight && 0 <= i < MaxTreeHeight && path[i].pos >= 1
    requires x == RefFrom(fs, path[i].dir, path[i].entries, path[i].pos - 1, i, dotRoot)
    requires u == Unwind(fs, path[i].dir, i, dotRoot) && p == Pending(fs, path, i - 1, dotRoot)
    requires trace + x + u + p == walk
    ensures Inside(fs, dotRoot, trace, path, i, walk)
  {
  }

  /** Entering a subdirectory: the new frame is the top, one level down,
      and the measure drops. */
  lemma DescendStep(fs: Fs, g: Goal, trace: seq<Event>, cwd: Path, path: seq<Cursor>, i: int, rd: Read,
                    h: Cursor, trace': seq<Event>, cwd': Path, path': seq<Cursor>, rd': Read)
    requires Scanning(fs, g, trace, cwd, path, i, rd)
    requires rd.Item? && rd.entry.name != [] && rd.entry.isDir && i < MaxTreeHeight - 1
    requires ChangeCwd(fs, cwd, rd.entry.name).code == Ok && ChangeCwd(fs, cwd, rd.entry.name).handle == Some(h)
    requires trace' == trace + [Shown(i, rd.entry)] + ChangeCwd(fs, cwd, rd.entry.name).events
    requires cwd' == ChangeCwd(fs, cwd, rd.entry.name).cwd
    requires path' == path[i + 1 := h.(pos := h.pos + 1)]
    requires rd' == ReadAt(fs, h.dir, h.entries, h.pos)
    ensures Scanning(fs, g, trace', cwd', path', i + 1, rd')
    ensures Enc(Digits(path', i + 1, Flag(rd', i + 1)), Radix(fs)) < Enc(Digits(path, i, Flag(rd, i)), Radix(fs))
  {
    OpenedEntries(fs, h.dir, h.entries);
    DescendTop(fs, path, i, h, path', rd');
    DescendDrops(fs, path, i, h.(pos := h.pos + 1), Flag(rd', i + 1), path');
    ChangeTally(fs, trace, cwd, i, rd.entry, trace');
    if Good(fs) {
      assert Ordinary(rd.entry.name) by {
        OpenedEntries(fs, path[i].dir, path[i].entries);
      }
      DescendSynced(fs, g, path, i, cwd, rd.entry.name, h, path', cwd');
      DescendInside(fs, g.dotRoot, trace, path, i, rd.entry, h, g.walk, trace', path');
    }
  }

  /** The handle of a directory just entered becomes the top frame. */
  lemma DescendTop(fs: Fs, path: seq<Cursor>, i: int, h: Cursor, path': seq<Cursor>, rd': Read)
    requires Frames(fs, path, i) && 0 <= i < MaxTreeHeight - 1
    requires 1 <= path[i].pos <= |path[i].entries|
    requires DirAt(fs.root, h.dir) == Some(h.entries) && |h.entries| <= Fanout(fs.root) && h.pos == 0
    requires path' == path[i + 1 := h.(pos := h.pos + 1)]
    requires rd' == ReadAt(fs, h.dir, h.entries, h.pos)
    ensures Top(fs, path', i + 1, rd')
  {
  }

  /** Showing an entry and trying to enter it moves the tally by the
      outcome of the change of directory. */
  lemma ChangeTally(fs: Fs, trace: seq<Event>, cwd: Path, i: int, e: Entry, trace': seq<Event>)
    requires Tally(fs, trace, i + 1) && 0 <= i < MaxTreeHeight
    requires trace' == trace + [Shown(i, e)] + ChangeCwd(fs, cwd, e.name).events
    ensures ChangeCwd(fs, cwd, e.name).code == Ok ==> Tally(fs, trace', i + 1 + 1)
    ensures ChangeCwd(fs, cwd, e.name).code != Ok ==> Tally(fs, trace', i + 1)
  {
    OneEvent(Shown(i, e));
    TallyExtend(fs, trace, [Shown(i, e)], i + 1);
    ChangeBalance(fs, cwd, e.name);
    ChangeShallow(fs, cwd, e.name);
    TallyExtend(fs, trace + [Shown(i, e)], ChangeCwd(fs, cwd, e.name).events, i + 1);
  }

  /** A successful change into an ordinary name extends the chain by one. */
  lemma DescendSynced(fs: Fs, g: Goal, path: seq<Cursor>, i: int, cwd: Path, name: string,
                      h: Cursor, path': seq<Cursor>, cwd': Path)
    requires |path| == MaxTreeHeight && 0 <= i < MaxTreeHeight - 1
    requires Synced(g, path, i, cwd) && Ordinary(name)
    requires ChangeCwd(fs, cwd, name).code == Ok && ChangeCwd(fs, cwd, name).handle == Some(h)
    requires path' == path[i + 1 := h.(pos := h.pos + 1)]
    requires cwd' == ChangeCwd(fs, cwd, name).cwd
    ensures Synced(g, path', i + 1, cwd')
  {
    ResolveChild(cwd, name);
    assert (cwd + [name])[..|cwd|] == cwd;
  }

  lemma DescendInside(fs: Fs, dotRoot: bool, trace: seq<Event>, path: seq<Cursor>, i: int, e: Entry,
                      h: Cursor, walk: seq<Event>, trace': seq<Event>, path': seq<Cursor>)
    requires |path| == MaxTreeHeight && 0 <= i < MaxTreeHeight - 1 && 1 <= path[i].pos
    requires ReadAt(fs, path[i].dir, path[i].entries, path[i].pos - 1) == Item(e)
    requires e.name != [] && e.isDir
    requires ChangeCwd(fs, path[i].dir, e.name).code == Ok && ChangeCwd(fs, path[i].dir, e.name).handle == Some(h)
    requires Inside(fs, dotRoot, trace, path, i, walk)
    requires trace' == trace + [Shown(i, e)] + ChangeCwd(fs, path[i].dir, e.name).events
    requires path' == path[i + 1 := h.(pos := h.pos + 1)]
    ensures Inside(fs, dotRoot, trace', path', i + 1, walk)
  {
    var c := path[i];
    assert path'[i + 1] == h.(pos := h.pos + 1);
    var events := ChangeCwd(fs, c.dir, e.name).events;
    var r1 := RefFrom(fs, c.dir, c.entries, c.pos, i, dotRoot);
    var u, p := Unwind(fs, c.dir, i, dotRoot), Pending(fs, path, i - 1, dotRoot);
    var f, v := RefFrom(fs, h.dir, h.entries, 0, i + 1, dotRoot), Unwind(fs, h.dir, i + 1, dotRoot);
    var x := RefFrom(fs, c.dir, c.entries, c.pos - 1, i, dotRoot);
    assert x == [Shown(i, e)] + (events + (f + v)) + r1 by {
      FromDescend(fs, c.dir, c.entries, c.pos - 1, i, dotRoot);
      assert h.pos == 0;
    }
    assert Pending(fs, path', i, dotRoot) == r1 + u + p by {
      PendingFrame(fs, path, i + 1, h.(pos := h.pos + 1), i - 1, dotRoot);
    }
    Nest(trace, x, [Shown(i, e)], events, f, v, r1, u, p, Pending(fs, path', i, dotRoot), walk);
  }

  /** A failed change of directory: the walker stays in the same frame. */
  lemma FailStep(fs: Fs, g: Goal, trace: seq<Event>, cwd: Path, path: seq<Cursor>, i: int, rd: Read,
                 trace': seq<Event>, path': seq<Cursor>, rd': Read)
    requires Scanning(fs, g, trace, cwd, path, i, rd)
    requires rd.Item? && rd.entry.name != [] && rd.entry.isDir && i < MaxTreeHeight - 1
    requires ChangeCwd(fs, cwd, rd.entry.name).code != Ok
    requires trace' == trace + [Shown(i, rd.entry)] + ChangeCwd(fs, cwd, rd.entry.name).events
    requires path' == path[i := path[i].(pos := path[i].pos + 1)]
    requires rd' == ReadAt(fs, path[i].dir, path[i].entries, path[i].pos)
    ensures Scanning(fs, g, trace', cwd, path', i, rd')
    ensures Enc(Digits(path', i, Flag(rd', i)), Radix(fs)) < Enc(Digits(path, i, Flag(rd, i)), Radix(fs))
  {
    Advance(fs, g, path, i, cwd, path');
    assert Top(fs, path', i, rd');
    ChangeTally(fs, trace, cwd, i, rd.entry, trace');
    if Good(fs) {
      FailInside(fs, g.dotRoot, trace, path, i, rd.entry, g.walk, trace', path');
    }
    ReadDrops(fs, path, i, Flag(rd, i), Flag(rd', i), path');
  }

  /** A handle opened on a directory that could not be made current is
      parked in the slot above the top frame, which changes nothing else. */
  lemma Park(fs: Fs, g: Goal, trace: seq<Event>, cwd: Path, path: seq<Cursor>, i: int, rd: Read,
             c: Cursor, path': seq<Cursor>)
    requires Scanning(fs, g, trace, cwd, path, i, rd) && i < MaxTreeHeight - 1
    requires path' == path[i + 1 := c]
    ensures Scanning(fs, g, trace, cwd, path', i, rd)
    ensures Digits(path', i, Flag(rd, i)) == Digits(path, i, Flag(rd, i))
  {
    Above(fs, g, path, i, c, cwd, path');
    assert path'[i] == path[i];
    DigitsAbove(path, i, i + 1, c, Flag(rd, i));
    if Good(fs) {
      InsideAbove(fs, g.dotRoot, trace, path, i, c, g.walk, path');
    }
  }

  lemma FailInside(fs: Fs, dotRoot: bool, trace: seq<Event>, path: seq<Cursor>, i: int, e: Entry, walk: seq<Event>,
                   trace': seq<Event>, path': seq<Cursor>)
    requires |path| == MaxTreeHeight && 0 <= i < MaxTreeHeight - 1 && 1 <= path[i].pos
    requires ReadAt(fs, path[i].dir, path[i].entries, path[i].pos - 1) == Item(e)
    requires e.name != [] && e.isDir
    requires ChangeCwd(fs, path[i].dir, e.name).code != Ok
    requires Inside(fs, dotRoot, trace, path, i, walk)
    requires trace' == trace + [Shown(i, e)] + ChangeCwd(fs, path[i].dir, e.name).events
    requires path' == path[i := path[i].(pos := path[i].pos + 1)]
    ensures Inside(fs, dotRoot, trace', path', i, walk)
  {
    var c := path[i];
    assert path'[i] == c.(pos := c.pos + 1);
    var events := ChangeCwd(fs, c.dir, e.name).events;
    var r1 := RefFrom(fs, c.dir, c.entries, c.pos, i, dotRoot);
    var u, p := Unwind(fs, c.dir, i, dotRoot), Pending(fs, path, i - 1, dotRoot);
    var x := RefFrom(fs, c.dir, c.entries, c.pos - 1, i, dotRoot);
    assert x == [Shown(i, e)] + (events + []) + r1 by {
      FromDescend(fs, c.dir, c.entries, c.pos - 1, i, dotRoot);
    }
    assert Pending(fs, path', i - 1, dotRoot) == p by {
      PendingFrame(fs, path, i, c.(pos := c.pos + 1), i - 1, dotRoot);
    }
    Skip(trace, x, [Shown(i, e)], events, r1, u, p, walk);
  }

  /** Writing a slot above the top frame leaves what remains unchanged. */
  lemma InsideAbove(fs: Fs, dotRoot: bool, trace: seq<Event>, path: seq<Cursor>, i: int, c: Cursor, walk: seq<Event>,
                    path': seq<Cursor>)
    requires |path| == MaxTreeHeight && 0 <= i < MaxTreeHeight - 1 && 1 <= path[i].pos
    requires Inside(fs, dotRoot, trace, path, i, walk)
    requires path' == path[i + 1 := c]
    ensures Inside(fs, dotRoot, trace, path', i, walk)
  {
    assert path'[i] == path[i];
    PendingFrame(fs, path, i + 1, c, i - 1, dotRoot);
  }

  /** Reading the top frame at the head of the outer loop. */
  lemma EnterStep(fs: Fs, g: Goal, trace: seq<Event>, cwd: Path, path: seq<Cursor>, i: int,
                  path': seq<Cursor>, rd': Read)
    requires Resting(fs, g, trace, cwd, path, i) && 0 <= i
    requires path' == path[i := path[i].(pos := path[i].pos + 1)]
    requires rd' == ReadAt(fs, path[i].dir, path[i].entries, path[i].pos)
    ensures Scanning(fs, g, trace, cwd, path', i, rd')
    ensures Enc(Digits(path', i, Flag(rd', i)), Radix(fs)) < Enc(Digits(path, i, 0), Radix(fs))
  {
    Advance(fs, g, path, i, cwd, path');
    assert Top(fs, path', i, rd');
    if Good(fs) {
      EnterInside(fs, g.dotRoot, trace, path, i, g.walk, path');
    }
    ReadDrops(fs, path, i, 0, Flag(rd', i), path');
  }

  lemma EnterInside(fs: Fs, dotRoot: bool, trace: seq<Event>, path: seq<Cursor>, i: int, walk: seq<Event>,
                    path': seq<Cursor>)
    requires |path| == MaxTreeHeight && 0 <= i < MaxTreeHeight
    requires trace + Pending(fs, path, i, dotRoot) == walk
    requires path' == path[i := path[i].(pos := path[i].pos + 1)]
    ensures Inside(fs, dotRoot, trace, path', i, walk)
  {
    var c := path[i];
    assert path'[i] == c.(pos := c.pos + 1);
    assert Pending(fs, path', i - 1, dotRoot) == Pending(fs, path, i - 1, dotRoot) by {
      PendingFrame(fs, path, i, path'[i], i - 1, dotRoot);
    }
    Regroup(trace, RefFrom(fs, c.dir, c.entries, c.pos, i, dotRoot), Unwind(fs, c.dir, i, dotRoot),
            Pending(fs, path, i - 1, dotRoot));
  }

  /** The current directory after the `..` a frame's end may issue. */
  function Climb(fs: Fs, cwd: Path, up: bool): Path
  {
    if !up then cwd
    else match ChDirUp(fs, cwd)
      case Success(p) => p
      case Failure(_) => cwd
  }

  /** The events at the end of frame `i`, as the walker issues them from the
      current directory `cwd`. */
  function Leaving(fs: Fs, c: Cursor, i: int, dotRoot: bool, cwd: Path): seq<Event>
  {
    [Closed(c.dir, CloseDir(fs, c))] + (if i > 0 || !dotRoot then [WentUp(UpCode(fs, cwd))] else [])
  }

  /** Ending the top frame. */
  lemma LeaveStep(fs: Fs, g: Goal, trace: seq<Event>, cwd: Path, path: seq<Cursor>, i: int, rd: Read,
                  trace': seq<Event>, cwd': Path)
    requires Scanning(fs, g, trace, cwd, path, i, rd)
    requires !(rd.Item? && rd.entry.name != [])
    requires Good(fs) ==> g.final == Settle(fs, g.base, g.dotRoot)
    requires trace' == trace + Leaving(fs, path[i], i, g.dotRoot, cwd)
    requires cwd' == Climb(fs, cwd, i > 0 || !g.dotRoot)
    ensures Resting(fs, g, trace', cwd', path, i - 1)
    ensures Enc(Digits(path, i - 1, 0), Radix(fs)) <= Enc(Digits(path, i, Flag(rd, i)), Radix(fs))
  {
    LeaveTally(fs, trace, path[i], i, g.dotRoot, cwd);
    if Good(fs) {
      assert Synced(g, path, i - 1, cwd');
      LeaveInside(fs, g.dotRoot, trace, path, i, g.walk);
    }
    PopKeeps(fs, path, i);
  }

  lemma LeaveTally(fs: Fs, trace: seq<Event>, c: Cursor, i: int, dotRoot: bool, cwd: Path)
    requires Tally(fs, trace, i + 1)
    ensures Tally(fs, trace + Leaving(fs, c, i, dotRoot, cwd), i)
  {
    var out := Leaving(fs, c, i, dotRoot, cwd);
    OneEvent(out[0]);
    if |out| == 2 {
      OneEvent(out[1]);
      Extend([out[0]], [out[1]]);
      assert out == [out[0]] + [out[1]];
    } else {
      assert out == [out[0]];
    }
    TallyExtend(fs, trace, out, i + 1);
  }

  lemma LeaveInside(fs: Fs, dotRoot: bool, trace: seq<Event>, path: seq<Cursor>, i: int, walk: seq<Event>)
    requires |path| == MaxTreeHeight && 0 <= i < MaxTreeHeight && 1 <= path[i].pos
    requires !(ReadAt(fs, path[i].dir, path[i].entries, path[i].pos - 1).Item?
               && ReadAt(fs, path[i].dir, path[i].entries, path[i].pos - 1).entry.name != [])
    requires Inside(fs, dotRoot, trace, path, i, walk)
    ensures trace + Unwind(fs, path[i].dir, i, dotRoot) + Pending(fs, path, i - 1, dotRoot) == walk
  {
    var c := path[i];
    assert RefFrom(fs, c.dir, c.entries, c.pos - 1, i, dotRoot) == [];
    assert trace + [] == trace;
  }

  /** One pass of the inner loop: show the entry, enter it if it is a
      directory below the depth limit (the handle goes into the next slot,
      which becomes the top only if the change succeeds), then read the next
      entry of the top frame. */
  method Visit(fs: Fs, ghost g: Goal, trace: seq<Event>, cwd: Path,
               path: seq<Cursor>, i: int, rd: Read)
    returns (trace': seq<Event>, cwd': Path, path': seq<Cursor>, i': int, rd': Read)
    requires Scanning(fs, g, trace, cwd, path, i, rd)
    requires rd.Item? && rd.entry.name != []
    ensures Scanning(fs, g, trace', cwd', path', i', rd')
    ensures Enc(Digits(path', i', Flag(rd', i')), Radix(fs)) < Enc(Digits(path, i, Flag(rd, i)), Radix(fs))
  {
    if rd.entry.isDir && i < MaxTreeHeight - 1 {
      var change := ChangeCwd(fs, cwd, rd.entry.name);
      if change.code == Ok {
        trace', cwd', path', i', rd' := EnterDir(fs, g, trace, cwd, path, i, rd);
      } else {
        trace', cwd', path', i', rd' := SkipDir(fs, g, trace, cwd, path, i, rd);
      }
    } else {
      trace', cwd', path', i', rd' := ShowEntry(fs, g, trace, cwd, path, i, rd);
    }
  }

  /** A file, or a directory at the depth limit: shown, not entered. */
  method ShowEntry(fs: Fs, ghost g: Goal, trace: seq<Event>, cwd: Path,
                   path: seq<Cursor>, i: int, rd: Read)
    returns (trace': seq<Event>, cwd': Path, path': seq<Cursor>, i': int, rd': Read)
    requires Scanning(fs, g, trace, cwd, path, i, rd)
    requires rd.Item? && rd.entry.name != [] && !(rd.entry.isDir && i < MaxTreeHeight - 1)
    ensures Scanning(fs, g, trace', cwd', path', i', rd')
    ensures Enc(Digits(path', i', Flag(rd', i')), Radix(fs)) < Enc(Digits(path, i, Flag(rd, i)), Radix(fs))
  {
    trace', cwd', i' := trace + [Shown(i, rd.entry)], cwd, i;
    path' := path[i := path[i].(pos := path[i].pos + 1)];
    rd' := ReadAt(fs, path[i].dir, path[i].entries, path[i].pos);
    ShowStep(fs, g, trace, cwd, path, i, rd, trace', path', rd');
  }

  /** A directory whose change succeeds: shown and entered. */
  method EnterDir(fs: Fs, ghost g: Goal, trace: seq<Event>, cwd: Path,
                  path: seq<Cursor>, i: int, rd: Read)
    returns (trace': seq<Event>, cwd': Path, path': seq<Cursor>, i': int, rd': Read)
    requires Scanning(fs, g, trace, cwd, path, i, rd)
    requires rd.Item? && rd.entry.name != [] && rd.entry.isDir && i < MaxTreeHeight - 1
    requires ChangeCwd(fs, cwd, rd.entry.name).code == Ok
    ensures Scanning(fs, g, trace', cwd', path', i', rd')
    ensures Enc(Digits(path', i', Flag(rd', i')), Radix(fs)) < Enc(Digits(path, i, Flag(rd, i)), Radix(fs))
  {
    var change := ChangeCwd(fs, cwd, rd.entry.name);
    var h := change.handle.value;
    trace', cwd', i' := trace + [Shown(i, rd.entry)] + change.events, change.cwd, i + 1;
    path' := path[i + 1 := h.(pos := h.pos + 1)];
    rd' := ReadAt(fs, h.dir, h.entries, h.pos);
    DescendStep(fs, g, trace, cwd, path, i, rd, h, trace', cwd', path', rd');
  }

  /** A directory whose change fails: shown, reported, skipped. */
  method SkipDir(fs: Fs, ghost g: Goal, trace: seq<Event>, cwd: Path,
                 path: seq<Cursor>, i: int, rd: Read)
    returns (trace': seq<Event>, cwd': Path, path': seq<Cursor>, i': int, rd': Read)
    requires Scanning(fs, g, trace, cwd, path, i, rd)
    requires rd.Item? && rd.entry.name != [] && rd.entry.isDir && i < MaxTreeHeight - 1
    requires ChangeCwd(fs, cwd, rd.entry.name).code != Ok
    ensures Scanning(fs, g, trace', cwd', path', i', rd')
    ensures Enc(Digits(path', i', Flag(rd', i')), Radix(fs)) < Enc(Digits(path, i, Flag(rd, i)), Radix(fs))
  {
    var change := ChangeCwd(fs, cwd, rd.entry.name);
    var path1 := path;
    if change.handle.Some? {
      path1 := path[i + 1 := change.handle.value];
      Park(fs, g, trace, cwd, path, i, rd, change.handle.value, path1);
    }
    trace', cwd', i' := trace + [Shown(i, rd.entry)] + change.events, change.cwd, i;
    path' := path1[i := path1[i].(pos := path1[i].pos + 1)];
    rd' := ReadAt(fs, path1[i].dir, path1[i].entries, path1[i].pos);
    FailStep(fs, g, trace, cwd, path1, i, rd, trace', path', rd');
  }

  /** The end of a frame: close its handle, go up if required, drop it. */
  method Leave(fs: Fs, ghost g: Goal, dotRoot: bool, trace: seq<Event>, cwd: Path,
               path: seq<Cursor>, i: int, rd: Read)
    returns (trace': seq<Event>, cwd': Path, i': int)
    requires Scanning(fs, g, trace, cwd, path, i, rd) && g.dotRoot == dotRoot
    requires !(rd.Item? && rd.entry.name != [])
    requires Good(fs) ==> g.final == Settle(fs, g.base, g.dotRoot)
    ensures Resting(fs, g, trace', cwd', path, i')
    ensures Enc(Digits(path, i', 0), Radix(fs)) <= Enc(Digits(path, i, Flag(rd, i)), Radix(fs))
  {
    var closed := CloseDir(fs, path[i]);
    trace', cwd' := trace + [Closed(path[i].dir, closed)], cwd;
    if i > 0 || !dotRoot {
      trace' := trace' + [WentUp(UpCode(fs, cwd'))];
      match ChDirUp(fs, cwd')
      case Success(p) => cwd' := p;
      case Failure(_) =>
    }
    i' := i - 1;
    assert trace' == trace + Leaving(fs, path[i], i, dotRoot, cwd);
    LeaveStep(fs, g, trace, cwd, path, i, rd, trace', cwd');
  }

  /** The state after the root directory has been entered. */
  lemma StartStep(fs: Fs, cwd0: Path, root: string, path: seq<Cursor>, g: Goal, path': seq<Cursor>)
    requires |path| == MaxTreeHeight && ChangeCwd(fs, cwd0, root).code == Ok
    requires g == Goal(RefWalk(fs, cwd0, root), ChangeCwd(fs, cwd0, root).cwd, FinalCwd(fs, cwd0, root), root == ".")
    requires path' == path[0 := ChangeCwd(fs, cwd0, root).handle.value]
    ensures Resting(fs, g, ChangeCwd(fs, cwd0, root).events, ChangeCwd(fs, cwd0, root).cwd, path', 0)
  {
    var start := ChangeCwd(fs, cwd0, root);
    var h := start.handle.value;
    ChangeBalance(fs, cwd0, root);
    ChangeShallow(fs, cwd0, root);
    OpenedEntries(fs, h.dir, h.entries);
    assert Pending(fs, path', 0, root == ".") == RefFrame(fs, h, 0, root == ".") + [];
    assert RefFrame(fs, h, 0, root == ".") + [] == RefFrame(fs, h, 0, root == ".");
  }

  /** What the outer loop's invariant gives once every frame is gone. */
  lemma FinishStep(fs: Fs, g: Goal, trace: seq<Event>, cwd: Path, path: seq<Cursor>)
    requires Resting(fs, g, trace, cwd, path, -1)
    ensures Count(trace, OpenedKind) == Count(trace, ClosedKind) + Count(trace, ChdirFailedKind)
    ensures Good(fs) ==> trace == g.walk && cwd == g.final
  {
    assert trace + [] == trace;
  }

  /** `dir_tree(root)`: lists the tree under `root` depth first, indenting
      each entry by its depth, entering subdirectories up to
      `MaxTreeHeight - 1` levels down, and moving back up with `..` as each
      directory is finished (at the top only when `root` is not `.`). */
  method DirTree(fs: Fs, cwd0: Path, root: string) returns (trace: seq<Event>, cwd: Path)
    ensures Count(trace, OpenedKind) == Count(trace, ClosedKind) + Count(trace, ChdirFailedKind)
    ensures fs.faults.chdir == map[] ==> Count(trace, ChdirFailedKind) == 0
    ensures Shallow(trace)
    ensures Good(fs) ==> trace == RefWalk(fs, cwd0, root) && cwd == FinalCwd(fs, cwd0, root)
  {
    var dotRoot := root == ".";
    var path: seq<Cursor> := seq(MaxTreeHeight, _ => Cursor([], [], 0));
    var i: int := 0;
    var start := ChangeCwd(fs, cwd0, root);
    ChangeBalance(fs, cwd0, root);
    ChangeShallow(fs, cwd0, root);
    trace, cwd := start.events, start.cwd;
    if start.code != Ok {
      return;
    }
    ghost var g := Goal(RefWalk(fs, cwd0, root), start.cwd, FinalCwd(fs, cwd0, root), dotRoot);
    var path0 := path[0 := start.handle.value];
    StartStep(fs, cwd0, root, path, g, path0);
    path := path0;
    while i >= 0
      invariant Resting(fs, g, trace, cwd, path, i)
      decreases Enc(Digits(path, i, 0), Radix(fs))
    {
      ghost var m0 := Enc(Digits(path, i, 0), Radix(fs));
      var rd := ReadAt(fs, path[i].dir, path[i].entries, path[i].pos);
      var read := path[i := path[i].(pos := path[i].pos + 1)];
      EnterStep(fs, g, trace, cwd, path, i, read, rd);
      path := read;
      while rd.Item? && rd.entry.name != []
        invariant Scanning(fs, g, trace, cwd, path, i, rd)
        invariant Enc(Digits(path, i, Flag(rd, i)), Radix(fs)) < m0
        decreases Enc(Digits(path, i, Flag(rd, i)), Radix(fs))
      {
        trace, cwd, path, i, rd := Visit(fs, g, trace, cwd, path, i, rd);
      }
      trace, cwd, i := Leave(fs, g, dotRoot, trace, cwd, path, i, rd);
    }
    FinishStep(fs, g, trace, cwd, path);
  }
}
