/** The raw block-device console (`sdcard_demo`): single-letter commands that
    set the sector address register and the speed flag, initialise the card,
    and read, write or erase the sector at the address. The card driver is an
    oracle: its result codes and the sector it reads come in as `Replies`. */
module BlockConsole {
  import opened Base
  import opened Numerals
  import opened LineReader
  import opened SectorDump

  /** Size of the command buffer `cmd`. */
  const CommandCapacity: nat := 12

  /** The console's state: the address register and the card's speed flag. */
  datatype Session = Session(addr: u32, slow: bool)

  datatype Command = Init | Slow | Fast | SetAddress(value: u32) | Read | Write | Erase | Ignored

  /** A call into the card driver, with the speed profile in force. */
  datatype Request =
    | InitCard
    | ReadSector(addr: u32, slow: bool)
    | WriteSector(addr: u32, slow: bool, data: Sector)
    | EraseSector(addr: u32, slow: bool)

  /** What the driver answers to each call (0 is success) and, for a read,
      the sector it delivered; `slowAfterInit` is the speed flag the driver
      leaves in the card descriptor after initialisation. */
  datatype Replies = Replies(init: int, slowAfterInit: bool, read: int, readData: Sector, write: int, erase: int)

  datatype Output = Nothing | Failed(operation: string, code: int) | Dumped(text: string)

  datatype Reaction = Reaction(session: Session, requests: seq<Request>, output: Output)

  /** Chooses the command from the first character only; `a` takes the
      decimal number after it. */
  function Parse(line: string): Command
  {
    if line == [] then Ignored
    else match line[0]
      case 'i' => Init
      case 'c' => Slow
      case 'C' => Fast
      case 'a' => SetAddress(Strtoul(line[1..]))
      case 'r' => Read
      case 'w' => Write
      case 'e' => Erase
      case _ => Ignored
  }

  /** Only the first character chooses the command: seven letters are
      commands, whatever follows them, and everything else, including an
      empty line, is ignored. Only `a` reads the rest of the line, as a
      decimal number. */
  lemma FirstCharSelects(c: char, rest: string, other: string)
    ensures Parse([c] + rest).Ignored? <==> c !in "icCarwe"
    ensures c != 'a' ==> Parse([c] + rest) == Parse([c] + other)
    ensures c == 'a' ==> Parse([c] + rest) == SetAddress(Strtoul(rest))
    ensures Parse([]) == Ignored
  {
  }

  /** A canonical line for each command. */
  function Render(c: Command): string
  {
    match c
    case Init => "i"
    case Slow => "c"
    case Fast => "C"
    case SetAddress(v) => "a" + Decimal(v)
    case Read => "r"
    case Write => "w"
    case Erase => "e"
    case Ignored => "?"
  }

  /** The test pattern `w` writes: byte `i` of the sector is `i mod 256`. */
  function Pattern(): Sector
  {
    seq(512, i => i % 256)
  }

  /** One pass of the command loop for a non-blank line. */
  function Step(s: Session, line: string, replies: Replies): (r: Reaction)
    ensures Parse(line) == Ignored ==> r == Reaction(s, [], Nothing)
    ensures r.session.addr == (if Parse(line).SetAddress? then Parse(line).value else s.addr)
    ensures Parse(line) == Slow ==> r.session.slow
    ensures Parse(line) == Fast ==> !r.session.slow
    ensures Parse(line) !in {Init, Slow, Fast} ==> r.session.slow == s.slow
    ensures Parse(line) == Write ==>
              r.requests == (if s.addr != 0 then [WriteSector(s.addr, s.slow, Pattern())] else [])
    ensures Parse(line) == Erase ==>
              r.requests == (if s.addr != 0 then [EraseSector(s.addr, s.slow)] else [])
    ensures Parse(line) == Read ==> r.requests == [ReadSector(s.addr, s.slow)]
    ensures Parse(line) == Read && replies.read == 0 ==> r.output == Dumped(Dump(s.addr, replies.readData))
    ensures forall q :: q in r.requests && (q.WriteSector? || q.EraseSector?) ==> q.addr != 0
  {
    match Parse(line)
    case Init =>
      Reaction(s.(slow := replies.slowAfterInit), [InitCard],
               if replies.init != 0 then Failed("init", replies.init) else Nothing)
    case Slow => Reaction(s.(slow := true), [], Nothing)
    case Fast => Reaction(s.(slow := false), [], Nothing)
    case SetAddress(v) => Reaction(s.(addr := v), [], Nothing)
    case Read =>
      Reaction(s, [ReadSector(s.addr, s.slow)],
               if replies.read != 0 then Failed("read", replies.read)
               else Dumped(Dump(s.addr, replies.readData)))
    case Write =>
      if s.addr == 0 then Reaction(s, [], Nothing)
      else Reaction(s, [WriteSector(s.addr, s.slow, Pattern())],
                    if replies.write != 0 then Failed("write", replies.write) else Nothing)
    case Erase =>
      if s.addr == 0 then Reaction(s, [], Nothing)
      else Reaction(s, [EraseSector(s.addr, s.slow)],
                    if replies.erase != 0 then Failed("erase", replies.erase) else Nothing)
    case Ignored => Reaction(s, [], Nothing)
  }

  /** The result of one prompt: the line read from the stream (if any
      arrived), the reaction to it, and the rest of the stream. */
  datatype Prompt = Blocked | Skipped(rest: string) | Executed(line: string, reaction: Reaction, rest: string)

  /** Reads one line into the 12-character command buffer and runs it; a
      line that stored no character is skipped. */
  function Prompted(s: Session, input: string, replies: Replies): (p: Prompt)
    ensures p.Executed? ==> 1 <= |p.line| <= CommandCapacity - 1
    ensures p.Executed? ==> forall k :: 0 <= k < |p.line| ==> p.line[k] >= ' '
    ensures !p.Blocked? ==> |p.rest| < |input|
  {
    match GetLine(CommandCapacity, input)
    case None => Blocked
    case Some(l) =>
      var rest := input[l.consumed..];
      PrintableOnly(input[..l.consumed - 1]);
      if |l.text| == 0 then Skipped(rest) else Executed(l.text, Step(s, l.text, replies), rest)
  }

  /** Every command's canonical line parses back to it. */
  lemma ParseRender(c: Command)
    requires c != Ignored
    ensures Parse(Render(c)) == c
  {
    match c
    case SetAddress(v) =>
      var line := "a" + Decimal(v);
      assert line[0] == 'a';
      assert line[1..] == [] + Decimal(v) + [];
      StrtoulRoundTrip([], v, []);
      assert Strtoul(line[1..]) == v;
    case _ =>
  }

  /** `a` with nothing numeric after it clears the address register. */
  lemma AddressWithoutDigits(s: Session, rest: string, replies: Replies)
    requires forall k :: 0 <= k < |rest| ==> !IsDigit(rest[k])
    ensures Step(s, "a" + rest, replies).session.addr == 0
  {
    assert Parse("a" + rest) == SetAddress(0) by {
      assert ("a" + rest)[0] == 'a';
      assert ("a" + rest)[1..] == rest;
      StrtoulNoDigits(rest);
    }
  }

  /** With the address register at zero, `w` and `e` issue no request while
      `r` still reads sector 0. */
  lemma ZeroAddressGuards(s: Session, replies: Replies)
    requires s.addr == 0
    ensures Step(s, "w", replies).requests == []
    ensures Step(s, "e", replies).requests == []
    ensures Step(s, "r", replies).requests == [ReadSector(0, s.slow)]
  {
    assert Parse("w") == Write && Parse("e") == Erase && Parse("r") == Read;
  }
}
