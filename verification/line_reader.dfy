/** The console's bounded line reader (`getline`, identical in both consoles).
    Input is the stream of characters `getchar` would return; a read that
    needs more characters than the stream holds is blocked (`None`). */
module LineReader {
  import opened Base

  /** The characters the reader keeps: those from the space upwards. */
  function Printable(s: string): (p: string)
    ensures |p| <= |s|
  {
    if s == [] then [] else (if s[0] >= ' ' then [s[0]] else []) + Printable(s[1..])
  }

  /** Everything `Printable` keeps is a printable character. */
  lemma {:induction false} PrintableOnly(s: string)
    ensures forall k :: 0 <= k < |Printable(s)| ==> Printable(s)[k] >= ' '
  {
    if s != [] {
      PrintableOnly(s[1..]);
    }
  }

  lemma {:induction false} PrintableSnoc(s: string, c: char)
    ensures Printable(s + [c]) == Printable(s) + (if c >= ' ' then [c] else [])
  {
    if s != [] {
      assert (s + [c])[1..] == s[1..] + [c];
      PrintableSnoc(s[1..], c);
    } else {
      assert (s + [c])[1..] == [];
    }
  }

  /** One completed read: the stored text, how many characters were taken
      from the stream, and what was echoed. */
  datatype Line = Line(text: string, consumed: nat, echo: string)

  /** No character of `input[j..end]` is a newline, and before each of them
      the buffer, holding `text` and what the scan stored since `j`, still
      had room. */
  predicate Unbroken(room: nat, input: string, j: nat, text: string, end: int)
    requires j <= |input| && end <= |input|
  {
    forall k :: j <= k < end ==> input[k] != '\n' && |text + Printable(input[j..k])| < room
  }

  /** What a scan from position `j`, with `text` already stored, promises
      of its result `r`: a completed line ends at the first newline or where
      the buffer filled up, and holds the printable characters before that
      point; no line at all means the stream ran dry first. */
  predicate Scanned(room: nat, input: string, j: nat, text: string, r: Option<Line>)
    requires j <= |input|
  {
    && (r.Some? ==> j < r.value.consumed <= |input| && |r.value.text| <= room)
    && (r.Some? ==> r.value.text == text + Printable(input[j..r.value.consumed - 1]))
    && (r.Some? ==> r.value.echo == r.value.text + "\n")
    && (r.Some? ==> input[r.value.consumed - 1] == '\n' || |r.value.text| == room)
    && Unbroken(room, input, j, text, if r.Some? then r.value.consumed - 1 else |input|)
  }

  /** The reading loop from stream position `j`, with `text` stored so far
      and `room` characters of space in total. */
  function Scan(room: nat, input: string, j: nat, text: string): (r: Option<Line>)
    requires j <= |input|
    requires |text| <= room
    decreases |input| - j
    ensures Scanned(room, input, j, text, r)
  {
    if j == |input| then None
    else if |text| == room || input[j] == '\n' then
      ScanStop(room, input, j, text);
      Some(Line(text, j + 1, text + "\n"))
    else
      var text' := if input[j] >= ' ' then text + [input[j]] else text;
      var r := Scan(room, input, j + 1, text');
      ScanStep(room, input, j, text, text', r);
      r
  }

  /** The scan stops at `j`: the character there is consumed, nothing more
      is stored. */
  lemma ScanStop(room: nat, input: string, j: nat, text: string)
    requires j < |input| && |text| <= room
    requires |text| == room || input[j] == '\n'
    ensures Scanned(room, input, j, text, Some(Line(text, j + 1, text + "\n")))
  {
    assert input[j..j] == [];
  }

  /** One character taken by `Scan`: what the rest of the scan promises from
      `j + 1` on is what the scan promises from `j`. */
  lemma ScanStep(room: nat, input: string, j: nat, text: string, text': string, r: Option<Line>)
    requires j < |input| && |text| < room && input[j] != '\n'
    requires text' == if input[j] >= ' ' then text + [input[j]] else text
    requires Scanned(room, input, j + 1, text', r)
    ensures Scanned(room, input, j, text, r)
  {
    forall k | j + 1 <= k <= |input|
      ensures text' + Printable(input[j + 1..k]) == text + Printable(input[j..k])
    {
      assert input[j..k][1..] == input[j + 1..k];
    }
    assert input[j..j] == [];
  }

  /** `getline(capacity, line)`: stores the printable characters that precede
      the first newline, at most `capacity - 1` of them, and stops at the
      first character fetched when the newline arrives or when the buffer is
      already full; that character is consumed and not stored. */
  function GetLine(capacity: nat, input: string): (r: Option<Line>)
    requires capacity >= 1
    ensures r.Some? ==> 1 <= r.value.consumed <= |input|
    ensures r.Some? ==> |r.value.text| <= capacity - 1
    ensures r.Some? ==> r.value.text == Printable(input[..r.value.consumed - 1])
    ensures r.Some? ==> r.value.echo == r.value.text + "\n"
    ensures r.Some? ==> input[r.value.consumed - 1] == '\n' || |r.value.text| == capacity - 1
    ensures forall k :: 0 <= k < (if r.Some? then r.value.consumed - 1 else |input|) ==>
              input[k] != '\n' && |Printable(input[..k])| < capacity - 1
  {
    var r := Scan(capacity - 1, input, 0, []);
    assert forall k :: 0 <= k <= |input| ==> input[0..k] == input[..k];
    r
  }

  /** When the buffer fills before a newline, the character fetched next is
      consumed and lost, whatever it is. */
  lemma FullLineDropsNext(capacity: nat, s: string, c: char, rest: string)
    requires capacity >= 1
    requires |s| == capacity - 1
    requires forall k :: 0 <= k < |s| ==> s[k] >= ' '
    ensures GetLine(capacity, s + [c] + rest) == Some(Line(s, capacity, s + "\n"))
  {
    var input := s + [c] + rest;
    var r := GetLine(capacity, input);
    assert input[..|s|] == s;
    PrintableAll(s);
    assert |Printable(input[..|s|])| == capacity - 1;
    assert r.Some? && r.value.consumed - 1 <= |s|;
  }

  lemma {:induction false} PrintableAll(s: string)
    requires forall k :: 0 <= k < |s| ==> s[k] >= ' '
    ensures Printable(s) == s
  {
    if s != [] {
      PrintableAll(s[1..]);
    }
  }
}
