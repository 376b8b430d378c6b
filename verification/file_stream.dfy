/** Chunked file streaming of the file console: `fw` (`file_write`) copies
    console input into a file 128 characters at a time until a character
    with code 4 or less; `fr` (`file_read`) copies a file to the console 128
    bytes at a time. FatFs's `f_open`/`f_write`/`f_read`/`f_close` are
    oracles: result codes given as parameters, a card with a fixed amount of
    free space, and fault maps keyed by the call's index. */
module FileStream {
  import opened Base
  import opened FsResults
  import opened Volume

  /** Size of the static buffer both directions use. */
  const ChunkSize: nat := 128

  /** A `getchar()` value that ends the input (EOF, NUL .. EOT). */
  predicate Ends(c: char)
  {
    c as int <= 4
  }

  /** `t` is the first position at or after `s` whose character ends the input. */
  predicate EndsAt(input: string, s: nat, t: nat)
  {
    s <= t < |input| && Ends(input[t]) && forall k :: s <= k < t ==> !Ends(input[k])
  }

  // ---------------------------------------------------------------- writing

  /** One filling of the buffer: the stored characters, the position after
      the last character read, and whether an ending character stopped it. */
  datatype Piece = Piece(data: string, next: nat, ended: bool)

  /** The inner loop of `file_write`, having stored `input[s..j]`: stops with
      a full buffer without reading further, or at an ending character
      (read, not stored). `None` when the console input runs out first. */
  function Gather(input: string, s: nat, j: nat): (r: Option<Piece>)
    requires s <= j <= |input| && j - s <= ChunkSize
    ensures r.Some? ==> s < r.value.next <= |input|
    ensures r.Some? && !r.value.ended ==> r.value.next == s + ChunkSize
    decreases ChunkSize - (j - s)
  {
    if j - s == ChunkSize then Some(Piece(input[s..j], j, false))
    else if j == |input| then None
    else if Ends(input[j]) then Some(Piece(input[s..j], j + 1, true))
    else Gather(input, s, j + 1)
  }

  function Chunk(input: string, s: nat): (r: Option<Piece>)
    requires s <= |input|
    ensures r.Some? ==> s < r.value.next <= |input|
    ensures r.Some? && !r.value.ended ==> r.value.next == s + ChunkSize
  {
    Gather(input, s, s)
  }

  /** The chunk that starts at `s` when the input ends at `t`: everything up
      to `t` when that fits, else the next 128 characters. */
  function ChunkBefore(input: string, s: nat, t: nat): Piece
    requires s <= t < |input|
  {
    if t - s < ChunkSize then Piece(input[s..t], t + 1, true)
    else Piece(input[s..s + ChunkSize], s + ChunkSize, false)
  }

  lemma {:induction false} GatherBefore(input: string, s: nat, j: nat, t: nat)
    requires EndsAt(input, s, t) && s <= j <= t && j - s <= ChunkSize
    ensures Gather(input, s, j) == Some(ChunkBefore(input, s, t))
    decreases t - j
  {
    if j - s == ChunkSize {
    } else if j == t {
    } else {
      GatherBefore(input, s, j + 1, t);
    }
  }

  /** The buffer always holds the input characters that precede the ending
      one, in order: at most 128 of them, and exactly 128 when the chunk did
      not end the input. */
  lemma ChunkSplits(input: string, s: nat, t: nat)
    requires EndsAt(input, s, t)
    ensures Chunk(input, s) == Some(ChunkBefore(input, s, t))
    ensures var p := ChunkBefore(input, s, t);
            && |p.data| <= ChunkSize && p.data == input[s..s + |p.data|]
            && (p.ended <==> t - s < ChunkSize)
            && (p.ended ==> p.next == t + 1)
  {
    GatherBefore(input, s, s, t);
  }

  /** Without an ending character the inner loop blocks in `getchar()`. */
  lemma {:induction false} GatherBlocks(input: string, s: nat, j: nat)
    requires s <= j <= |input| && j - s <= ChunkSize && |input| - s < ChunkSize
    requires forall k :: j <= k < |input| ==> !Ends(input[k])
    ensures Gather(input, s, j) == None
    decreases |input| - j
  {
    if j < |input| {
      GatherBlocks(input, s, j + 1);
    }
  }

  /** A message `file_write` prints besides the echo. */
  datatype Note = CannotWrite(code: FResult) | CardFull

  /** The file side of `file_write`: its `err`, the file's contents, the free
      space left on the card, the length of every `f_write` call, and the
      messages printed. */
  datatype Sink = Sink(err: FResult, file: string, room: nat, writes: seq<nat>, notes: seq<Note>)

  function Min(a: nat, b: nat): nat
  {
    if a <= b then a else b
  }

  /** One `f_write` of `data`. The call with index `k` fails with
      `faults[k]` when present; otherwise the card takes as much as it has
      room for, and a short count is reported as a full card (`FR_DENIED`). */
  function Put(faults: map<nat, FResult>, st: Sink, data: string): (st': Sink)
    ensures st'.writes == st.writes + [|data|]
    ensures st'.err == Ok ==> st'.file == st.file + data && st'.room + |data| == st.room
  {
    var k := |st.writes|;
    if Fault(faults, k) != Ok then
      st.(err := Fault(faults, k), writes := st.writes + [|data|], notes := st.notes + [CannotWrite(Fault(faults, k))])
    else
      var n := Min(|data|, st.room);
      assert data[..|data|] == data;
      st.(file := st.file + data[..n], room := st.room - n, writes := st.writes + [|data|],
          err := if n < |data| then Denied else Ok,
          notes := if n < |data| then st.notes + [CardFull] else st.notes)
  }

  /** Where the outer loop of `file_write` stops: the file side and the
      position after the ending character. */
  datatype Drained = Drained(sink: Sink, next: nat)

  /** The outer loop of `file_write` from input position `s`: fill the
      buffer, write it only when it is not empty and no error has occurred,
      stop after a buffer that an ending character cut short. */
  function Drain(faults: map<nat, FResult>, input: string, s: nat, st: Sink): (r: Option<Drained>)
    requires s <= |input|
    ensures r.Some? ==> s < r.value.next <= |input|
    decreases |input| - s
  {
    match Chunk(input, s)
    case None => None
    case Some(p) =>
      var st' := if |p.data| > 0 && st.err == Ok then Put(faults, st, p.data) else st;
      if p.ended then Some(Drained(st', p.next)) else Drain(faults, input, p.next, st')
  }

  /** What `file_write(name)` did: the open failed, or the loop drained the
      input and the file was closed once, with the close's code. */
  datatype WriteRun = WriteUnopened(code: FResult) | WriteDone(sink: Sink, consumed: nat, closeCode: FResult)

  /** `file_write`, given the result codes of `f_open` and `f_close`, the
      card's free space and the `f_write` faults. `None` when the console
      input runs out before an ending character. */
  function FileWrite(openCode: FResult, closeCode: FResult, room: nat, faults: map<nat, FResult>, input: string): (r: Option<WriteRun>)
    ensures openCode != Ok ==> r == Some(WriteUnopened(openCode))
    ensures r.Some? && r.value.WriteDone? ==> openCode == Ok && r.value.closeCode == closeCode && 0 < r.value.consumed <= |input|
  {
    if openCode != Ok then Some(WriteUnopened(openCode))
    else match Drain(faults, input, 0, Sink(Ok, [], room, [], []))
      case None => None
      case Some(d) => Some(WriteDone(d.sink, d.next, closeCode))
  }

  /** Once `err` is set, the loop keeps reading but never calls `f_write`. */
  lemma {:induction false} Suppressed(faults: map<nat, FResult>, input: string, s: nat, st: Sink)
    requires s <= |input| && st.err != Ok
    ensures Drain(faults, input, s, st).Some? ==> Drain(faults, input, s, st).value.sink == st
    decreases |input| - s
  {
    match Chunk(input, s)
    case None =>
    case Some(p) =>
      if !p.ended {
        Suppressed(faults, input, p.next, st);
      }
  }

  /** Every `f_write` is given between 1 and 128 characters. */
  lemma {:induction false} WriteSizes(faults: map<nat, FResult>, input: string, s: nat, st: Sink)
    requires s <= |input|
    requires forall k :: 0 <= k < |st.writes| ==> 0 < st.writes[k] <= ChunkSize
    ensures var r := Drain(faults, input, s, st);
            r.Some? ==> forall k :: 0 <= k < |r.value.sink.writes| ==> 0 < r.value.sink.writes[k] <= ChunkSize
    decreases |input| - s
  {
    match Chunk(input, s)
    case None =>
    case Some(p) =>
      GatherSize(input, s, s);
      var st' := if |p.data| > 0 && st.err == Ok then Put(faults, st, p.data) else st;
      if !p.ended {
        assert Drain(faults, input, s, st) == Drain(faults, input, p.next, st');
        WriteSizes(faults, input, p.next, st');
      }
  }

  lemma {:induction false} GatherSize(input: string, s: nat, j: nat)
    requires s <= j <= |input| && j - s <= ChunkSize
    ensures Gather(input, s, j).Some? ==> |Gather(input, s, j).value.data| <= ChunkSize
    decreases ChunkSize - (j - s)
  {
    if j - s != ChunkSize && j < |input| && !Ends(input[j]) {
      GatherSize(input, s, j + 1);
    }
  }

  /** Writing `text` without faults took the sink from `st` to `st2`: the
      file gained as much of `text` as the card had room for, and a text
      longer than the room set `FR_DENIED` with one full-card message. */
  predicate Filled(st: Sink, text: string, st2: Sink)
  {
    && st2.file == st.file + text[..Min(|text|, st.room)]
    && (st2.err == Ok <==> |text| <= st.room)
    && (st2.err == Ok ==> st2.room == st.room - |text| && st2.notes == st.notes)
    && (st2.err != Ok ==> st2.err == Denied && st2.notes == st.notes + [CardFull])
  }

  lemma PutFills(st: Sink, data: string)
    requires st.err == Ok
    ensures Filled(st, data, Put(map[], st, data))
  {
    assert Fault(map[], |st.writes|) == Ok;
  }

  /** Two fault-free writes in a row, the first complete, fill like one. */
  lemma FilledJoin(st: Sink, a: string, st1: Sink, b: string, st2: Sink)
    requires Filled(st, a, st1) && st1.err == Ok && Filled(st1, b, st2)
    ensures Filled(st, a + b, st2)
  {
    assert (a + b)[..Min(|a + b|, st.room)] == a + b[..Min(|b|, st1.room)];
  }

  /** After a short write nothing more is stored, however the text goes on. */
  lemma FilledCut(st: Sink, a: string, b: string, st1: Sink)
    requires Filled(st, a, st1) && st1.err != Ok
    ensures Filled(st, a + b, st1)
  {
    assert (a + b)[..Min(|a + b|, st.room)] == a[..Min(|a|, st.room)];
  }

  /** With no write faults the file receives the input before the ending
      character `t` for as long as the card has room, and the loop stops
      just after `t`. */
  lemma {:induction false} DrainFills(input: string, s: nat, t: nat, st: Sink)
    requires EndsAt(input, s, t) && st.err == Ok
    ensures var r := Drain(map[], input, s, st);
            r.Some? && r.value.next == t + 1 && Filled(st, input[s..t], r.value.sink)
    decreases t - s
  {
    ChunkSplits(input, s, t);
    var p := ChunkBefore(input, s, t);
    if |p.data| == 0 {
      assert input[s..t] == [];
    } else {
      var st' := Put(map[], st, p.data);
      PutFills(st, p.data);
      if p.ended {
      } else {
        assert input[s..t] == p.data + input[p.next..t];
        if st'.err != Ok {
          EndsLater(input, s, p.next, t);
          DrainSkips(map[], input, p.next, t, st');
          FilledCut(st, p.data, input[p.next..t], st');
        } else {
          EndsLater(input, s, p.next, t);
          DrainFills(input, p.next, t, st');
          FilledJoin(st, p.data, st', input[p.next..t], Drain(map[], input, p.next, st').value.sink);
        }
      }
    }
  }

  /** Once `err` is set, the rest of the input up to the ending character
      is read and dropped. */
  lemma {:induction false} DrainSkips(faults: map<nat, FResult>, input: string, s: nat, t: nat, st: Sink)
    requires EndsAt(input, s, t) && st.err != Ok
    ensures Drain(faults, input, s, st) == Some(Drained(st, t + 1))
    decreases t - s
  {
    ChunkSplits(input, s, t);
    var p := ChunkBefore(input, s, t);
    if !p.ended {
      EndsLater(input, s, p.next, t);
      DrainSkips(faults, input, p.next, t, st);
    }
  }

  /** Whatever the write faults, the loop stops just after the first
      ending character. */
  lemma {:induction false} DrainEnds(faults: map<nat, FResult>, input: string, s: nat, t: nat, st: Sink)
    requires EndsAt(input, s, t)
    ensures var r := Drain(faults, input, s, st);
            r.Some? && r.value.next == t + 1
    decreases t - s
  {
    ChunkSplits(input, s, t);
    var p := ChunkBefore(input, s, t);
    var st' := if |p.data| > 0 && st.err == Ok then Put(faults, st, p.data) else st;
    if !p.ended {
      assert Drain(faults, input, s, st) == Drain(faults, input, p.next, st');
      EndsLater(input, s, p.next, t);
      DrainEnds(faults, input, p.next, t, st');
    }
  }

  /** `file_write` on an opened file returns just after the first ending
      character, whatever its writes report. */
  lemma WriteConsumes(closeCode: FResult, room: nat, faults: map<nat, FResult>, input: string, t: nat)
    requires EndsAt(input, 0, t)
    ensures var r := FileWrite(Ok, closeCode, room, faults, input);
            r.Some? && r.value.WriteDone? && r.value.consumed == t + 1
  {
    DrainEnds(faults, input, 0, t, Sink(Ok, [], room, [], []));
  }

  lemma EndsLater(input: string, s: nat, s': nat, t: nat)
    requires EndsAt(input, s, t) && s <= s' <= t
    ensures EndsAt(input, s', t)
  {
  }

  /** `file_write` on a card with room for the whole text and no write
      faults stores exactly the characters typed before the ending one. */
  lemma WriteStoresText(closeCode: FResult, room: nat, input: string, t: nat)
    requires EndsAt(input, 0, t) && t <= room
    ensures var r := FileWrite(Ok, closeCode, room, map[], input);
            && r.Some? && r.value.WriteDone? && r.value.consumed == t + 1
            && r.value.sink.file == input[..t] && r.value.sink.err == Ok && r.value.sink.notes == []
  {
    DrainFills(input, 0, t, Sink(Ok, [], room, [], []));
  }

  /** On a card with less room than the text, the file keeps the prefix that
      fit and `file_write` reports a full card once. */
  lemma WriteFillsCard(closeCode: FResult, room: nat, input: string, t: nat)
    requires EndsAt(input, 0, t) && room < t
    ensures var r := FileWrite(Ok, closeCode, room, map[], input);
            && r.Some? && r.value.WriteDone?
            && r.value.sink.file == input[..room]
            && r.value.sink.err == Denied && r.value.sink.notes == [CardFull]
  {
    DrainFills(input, 0, t, Sink(Ok, [], room, [], []));
  }

  /** Without an ending character `file_write` never returns. */
  lemma WriteWaits(closeCode: FResult, room: nat, faults: map<nat, FResult>, input: string)
    requires |input| < ChunkSize && forall k :: 0 <= k < |input| ==> !Ends(input[k])
    ensures FileWrite(Ok, closeCode, room, faults, input) == None
  {
    GatherBlocks(input, 0, 0);
  }

  // ---------------------------------------------------------------- reading

  /** Where the `do … while` of `file_read` stopped: the bytes put on the
      console, the number of `f_read` calls, and the code of the last one. */
  datatype Pulled = Pulled(shown: string, calls: nat, err: FResult)

  /** The reads of `file_read` from call `k` on, over a file with
      `content`; the call with index `k` fails with `faults[k]` when present.
      A read that returns fewer than 128 bytes is the last. */
  function Pull(content: string, faults: map<nat, FResult>, k: nat): (r: Pulled)
    requires ChunkSize * k <= |content|
    ensures r.calls >= 1
    ensures ChunkSize * k + |r.shown| <= |content| && r.shown == content[ChunkSize * k .. ChunkSize * k + |r.shown|]
    decreases |content| - ChunkSize * k
  {
    if Fault(faults, k) != Ok then Pulled([], 1, Fault(faults, k))
    else
      var lo := ChunkSize * k;
      if |content| - lo < ChunkSize then Pulled(content[lo..], 1, Ok)
      else
        var rest := Pull(content, faults, k + 1);
        assert lo + ChunkSize == ChunkSize * (k + 1);
        Pulled(content[lo..lo + ChunkSize] + rest.shown, rest.calls + 1, rest.err)
  }

  datatype ReadRun = ReadUnopened(code: FResult) | ReadDone(pulled: Pulled, closeCode: FResult)

  /** `file_read`, given the result codes of `f_open` and `f_close`, the
      file's contents and the `f_read` faults. */
  function FileRead(openCode: FResult, closeCode: FResult, content: string, faults: map<nat, FResult>): (r: ReadRun)
    ensures r.ReadUnopened? <==> openCode != Ok
    ensures r.ReadDone? ==> r.closeCode == closeCode
    ensures r.ReadDone? ==> |r.pulled.shown| <= |content| && r.pulled.shown == content[..|r.pulled.shown|]
  {
    if openCode != Ok then ReadUnopened(openCode) else ReadDone(Pull(content, faults, 0), closeCode)
  }

  /** Without read faults every byte comes out, in order, using one read per
      full chunk plus the short (possibly empty) final one. */
  lemma {:induction false} PullAll(content: string, k: nat)
    requires ChunkSize * k <= |content|
    ensures var r := Pull(content, map[], k);
            r.shown == content[ChunkSize * k..] && r.err == Ok
            && r.calls == (|content| - ChunkSize * k) / ChunkSize + 1
    decreases |content| - ChunkSize * k
  {
    if |content| - ChunkSize * k >= ChunkSize {
      assert ChunkSize * k + ChunkSize == ChunkSize * (k + 1);
      PullAll(content, k + 1);
      assert content[ChunkSize * k..] == content[ChunkSize * k..ChunkSize * k + ChunkSize] + content[ChunkSize * (k + 1)..];
    }
  }

  /** A failed read ends the loop at once: the console receives exactly the
      chunks read before it. */
  lemma {:induction false} PullStopsAtFault(content: string, faults: map<nat, FResult>, k: nat, f: nat)
    requires k <= f && ChunkSize * f <= |content|
    requires Fault(faults, f) != Ok && forall j: nat :: k <= j < f ==> j !in faults || faults[j] == Ok
    ensures var r := Pull(content, faults, k);
            r.shown == content[ChunkSize * k..ChunkSize * f] && r.err == Fault(faults, f) && r.calls == f - k + 1
    decreases f - k
  {
    if k < f {
      assert ChunkSize * k + ChunkSize == ChunkSize * (k + 1);
      assert ChunkSize * (k + 1) <= ChunkSize * f;
      assert Fault(faults, k) == Ok;
      assert ChunkSize * k + ChunkSize <= |content|;
      PullStopsAtFault(content, faults, k + 1, f);
      var rest := Pull(content, faults, k + 1);
      assert Pull(content, faults, k) == Pulled(content[ChunkSize * k..ChunkSize * k + ChunkSize] + rest.shown, rest.calls + 1, rest.err);
      assert content[ChunkSize * k..ChunkSize * f] == content[ChunkSize * k..ChunkSize * k + ChunkSize] + content[ChunkSize * (k + 1)..ChunkSize * f];
    }
  }

  /** Reading back a file written with enough room and no faults prints the
      text that was typed. */
  lemma WriteThenRead(room: nat, input: string, t: nat)
    requires EndsAt(input, 0, t) && t <= room
    ensures var w := FileWrite(Ok, Ok, room, map[], input);
            && w.Some? && w.value.WriteDone?
            && FileRead(Ok, Ok, w.value.sink.file, map[]).pulled.shown == input[..t]
  {
    WriteStoresText(Ok, room, input, t);
    PullAll(input[..t], 0);
  }
}
