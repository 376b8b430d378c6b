/** The file-system console (`fatfs_sdcard_demo`): two-letter commands with
    an optional argument, read into a 32-character buffer. `c` commands
    act on the card, `d` commands on directories and `f` commands on files.
    The console keeps the prompt text (`cwd`); FatFs keeps the current
    directory. Everything FatFs and the card answer comes in as `Replies`. */
module FsConsole {
  import opened Base
  import opened FsResults
  import opened LineReader
  import opened Volume
  import WalkReference
  import TreeWalker
  import DirList
  import FileStream
  import MountReport

  /** Size of the command buffer `cmd`. */
  const CommandCapacity: nat := 32

  datatype Command =
    | Mount
    | CardSize
    | Tree(arg: string)
    | List(arg: string)
    | ChangeDir(arg: string)
    | MakeDir(arg: string)
    | RemoveDir(arg: string)
    | WriteFile(arg: string)
    | ReadFile(arg: string)
    | DeleteFile(arg: string)
    | Ignored

  /** The text after the two verb characters with its leading blanks (only
      `' '`) removed. */
  function StripBlanks(s: string): string
  {
    if s != [] && s[0] == ' ' then StripBlanks(s[1..]) else s
  }

  /** `d` commands replace an empty argument by the current directory. */
  function OrDot(arg: string): string
  {
    if arg == [] then "." else arg
  }

  /** Chooses the command from the first two characters. A one-character
      line has the terminator as its second character, which no verb
      matches. */
  function Parse(line: string): Command
  {
    if |line| < 2 then Ignored
    else
      var arg := StripBlanks(line[2..]);
      match line[0]
      case 'c' =>
        (match line[1]
         case 'm' => Mount
         case 's' => CardSize
         case _ => Ignored)
      case 'd' =>
        (match line[1]
         case 't' => Tree(OrDot(arg))
         case 'l' => List(OrDot(arg))
         case 'c' => ChangeDir(OrDot(arg))
         case 'm' => MakeDir(OrDot(arg))
         case 'r' => RemoveDir(OrDot(arg))
         case _ => Ignored)
      case 'f' =>
        (match line[1]
         case 'w' => WriteFile(arg)
         case 'r' => ReadFile(arg)
         case 'd' => DeleteFile(arg)
         case _ => Ignored)
      case _ => Ignored
  }

  /** A canonical line for each command. */
  function Render(c: Command): string
  {
    match c
    case Mount => "cm"
    case CardSize => "cs"
    case Tree(a) => "dt " + a
    case List(a) => "dl " + a
    case ChangeDir(a) => "dc " + a
    case MakeDir(a) => "dm " + a
    case RemoveDir(a) => "dr " + a
    case WriteFile(a) => "fw " + a
    case ReadFile(a) => "fr " + a
    case DeleteFile(a) => "fd " + a
    case Ignored => "?"
  }

  /** A command some line produces: its argument does not start with a
      blank, and a directory command's argument is not empty. */
  predicate Canonical(c: Command)
  {
    match c
    case Mount => true
    case CardSize => true
    case Ignored => false
    case Tree(a) => a != [] && a[0] != ' '
    case List(a) => a != [] && a[0] != ' '
    case ChangeDir(a) => a != [] && a[0] != ' '
    case MakeDir(a) => a != [] && a[0] != ' '
    case RemoveDir(a) => a != [] && a[0] != ' '
    case WriteFile(a) => a == [] || a[0] != ' '
    case ReadFile(a) => a == [] || a[0] != ' '
    case DeleteFile(a) => a == [] || a[0] != ' '
  }

  /** Blanks in front of the argument are dropped, and nothing else is. */
  lemma {:induction false} StripLeading(blanks: string, arg: string)
    requires forall k :: 0 <= k < |blanks| ==> blanks[k] == ' '
    requires arg == [] || arg[0] != ' '
    ensures StripBlanks(blanks + arg) == arg
  {
    if blanks != [] {
      assert (blanks + arg)[1..] == blanks[1..] + arg;
      StripLeading(blanks[1..], arg);
    } else {
      assert blanks + arg == arg;
    }
  }

  /** The argument is what follows the verb and any blanks. */
  lemma ArgumentAfterVerb(v: char, w: char, blanks: string, arg: string)
    requires forall k :: 0 <= k < |blanks| ==> blanks[k] == ' '
    requires arg == [] || arg[0] != ' '
    ensures StripBlanks(([v, w] + blanks + arg)[2..]) == arg
  {
    assert ([v, w] + blanks + arg)[2..] == blanks + arg;
    StripLeading(blanks, arg);
  }

  /** Every canonical command's line parses back to it. */
  lemma ParseRender(c: Command)
    requires Canonical(c)
    ensures Parse(Render(c)) == c
  {
    if !(c.Mount? || c.CardSize?) {
      var line := Render(c);
      assert line == [line[0], line[1]] + " " + c.arg;
      ArgumentAfterVerb(line[0], line[1], " ", c.arg);
    }
  }

  /** The ten verbs the console knows. */
  const Verbs: set<(char, char)> :=
    {('c', 'm'), ('c', 's'), ('d', 't'), ('d', 'l'), ('d', 'c'), ('d', 'm'), ('d', 'r'), ('f', 'w'), ('f', 'r'), ('f', 'd')}

  /** The first two characters alone decide whether a line is a command;
      the argument of a `d` or `f` command is the rest of the line without
      its leading blanks, and a `d` command without one works on `"."`.
      A line shorter than two characters is never a command. */
  lemma VerbSelects(a: char, b: char, rest: string)
    ensures Parse([a, b] + rest).Ignored? <==> (a, b) !in Verbs
    ensures var c := Parse([a, b] + rest);
            !c.Ignored? && a == 'f' ==> c.arg == StripBlanks(rest)
    ensures var c := Parse([a, b] + rest);
            !c.Ignored? && a == 'd' ==> c.arg == OrDot(StripBlanks(rest))
    ensures Parse([]) == Ignored && Parse([a]) == Ignored
  {
  }

  /** A directory command given only blanks works on `"."`. */
  lemma DirectoryDefault(w: char, blanks: string)
    requires forall k :: 0 <= k < |blanks| ==> blanks[k] == ' '
    ensures Parse(['d', w] + blanks) ==
            (match w
             case 't' => Tree(".")
             case 'l' => List(".")
             case 'c' => ChangeDir(".")
             case 'm' => MakeDir(".")
             case 'r' => RemoveDir(".")
             case _ => Ignored)
  {
    ArgumentAfterVerb('d', w, blanks, []);
    assert ['d', w] + blanks == ['d', w] + blanks + [];
  }

  /** A file command given only blanks passes the empty name on. */
  lemma FileNameNotDefaulted(w: char, blanks: string)
    requires forall k :: 0 <= k < |blanks| ==> blanks[k] == ' '
    requires w in "wrd"
    ensures Parse(['f', w] + blanks).arg == []
  {
    ArgumentAfterVerb('f', w, blanks, []);
    assert ['f', w] + blanks == ['f', w] + blanks + [];
  }

  /** The console's state: the prompt text, and FatFs's current directory. */
  datatype Console = Console(prompt: string, cwd: Path)

  /** Everything FatFs and the card answer during one command. The volume
      tree and its faults serve `dt`, `dl` and `dc`; the other operations
      answer with the codes given. `cwdText` is what `f_getcwd` writes. */
  datatype Replies = Replies(
    fs: Fs,
    mount: MountReport.MountReplies,
    ioctl: int, sectors: u32,
    mkdir: FResult, unlink: FResult,
    cwdText: string,
    writeOpen: FResult, writeClose: FResult, room: nat, writeFaults: map<nat, FResult>,
    readOpen: FResult, readClose: FResult, content: string, readFaults: map<nat, FResult>)

  /** FatFs only hands out a `FATFS` object with a valid type and a 16-bit
      cluster size. */
  predicate Sane(r: Replies)
  {
    r.mount.mount == Ok && r.mount.getfree == Ok ==> MountReport.Mounted(r.mount.volume)
  }

  /** What a command printed or did, per operation. */
  datatype Outcome =
    | Quiet
    | MountOutcome(report: MountReport.Report)
    | SizeOutcome(ioctl: int, sectors: u32, kb: u32)
    | TreeOutcome(trace: seq<WalkReference.Event>)
    | ListOutcome(listing: DirList.Listing)
    | ChangeOutcome(code: FResult)
    | MakeOutcome(code: FResult)
    | RemoveOutcome(code: FResult)
    | WriteOutcome(written: FileStream.WriteRun)
    | ReadOutcome(read: FileStream.ReadRun)

  /** The console after a command, what the command did, and the console
      input left over (`fw` reads its own input from the same stream). */
  datatype Reaction = Reaction(console: Console, outcome: Outcome, rest: string)

  /** The `switch` of the command loop for a non-blank line; `None` when
      `fw` waits for more input. */
  method Step(c: Console, line: string, rest: string, r: Replies) returns (x: Option<Reaction>)
    requires Sane(r)
    ensures Parse(line) == Ignored ==> x == Some(Reaction(c, Quiet, rest))
    ensures x.None? ==> Parse(line).WriteFile?
    ensures x.Some? && !Parse(line).WriteFile? ==> x.value.rest == rest
    ensures x.Some? ==> |x.value.rest| <= |rest|
    ensures x.Some? ==>
              x.value.console.prompt ==
                (if Parse(line) == Mount && MountReport.Mount(r.mount).code == Ok then "/"
                 else if Parse(line).ChangeDir? && ChDir(r.fs, c.cwd, Parse(line).arg).Success? then r.cwdText
                 else c.prompt)
    ensures x.Some? && !(Parse(line) == Mount || Parse(line).Tree? || Parse(line).ChangeDir?) ==>
              x.value.console.cwd == c.cwd
    ensures x.Some? && Parse(line) == Mount ==>
              x.value.console.cwd == (if r.mount.mount == Ok then [] else c.cwd)
    ensures x.Some? && Parse(line).ChangeDir? ==>
              x.value.console.cwd ==
                (if ChDir(r.fs, c.cwd, Parse(line).arg).Success? then ChDir(r.fs, c.cwd, Parse(line).arg).value else c.cwd)
    ensures x.Some? && Parse(line).Tree? && TreeWalker.Good(r.fs) ==>
              x.value.console.cwd == WalkReference.FinalCwd(r.fs, c.cwd, Parse(line).arg)
              && x.value.outcome == TreeOutcome(WalkReference.RefWalk(r.fs, c.cwd, Parse(line).arg))
    ensures Parse(line).WriteFile? ==>
              var w := FileStream.FileWrite(r.writeOpen, r.writeClose, r.room, r.writeFaults, rest);
              (x.None? <==> w.None?)
              && (x.Some? ==> x.value.outcome == WriteOutcome(w.value)
                              && x.value.rest == (if w.value.WriteDone? then rest[w.value.consumed..] else rest))
  {
    match Parse(line)
    case Ignored =>
      return Some(Reaction(c, Quiet, rest));
    case Mount =>
      var report := MountReport.Mount(r.mount);
      var cwd := if r.mount.mount == Ok then [] else c.cwd;
      var prompt := if report.code == Ok then "/" else c.prompt;
      return Some(Reaction(Console(prompt, cwd), MountOutcome(report), rest));
    case CardSize =>
      return Some(Reaction(c, SizeOutcome(r.ioctl, r.sectors, r.sectors / 2), rest));
    case Tree(a) =>
      var trace, cwd := TreeWalker.DirTree(r.fs, c.cwd, a);
      return Some(Reaction(c.(cwd := cwd), TreeOutcome(trace), rest));
    case List(a) =>
      var listing := DirList.ListDir(r.fs, c.cwd, a);
      return Some(Reaction(c, ListOutcome(listing), rest));
    case ChangeDir(a) =>
      match ChDir(r.fs, c.cwd, a) {
        case Success(p) =>
          return Some(Reaction(Console(r.cwdText, p), ChangeOutcome(Ok), rest));
        case Failure(e) =>
          return Some(Reaction(c, ChangeOutcome(e), rest));
      }
    case MakeDir(a) =>
      return Some(Reaction(c, MakeOutcome(r.mkdir), rest));
    case RemoveDir(a) =>
      return Some(Reaction(c, RemoveOutcome(r.unlink), rest));
    case DeleteFile(a) =>
      return Some(Reaction(c, RemoveOutcome(r.unlink), rest));
    case WriteFile(a) =>
      var run := FileStream.FileWrite(r.writeOpen, r.writeClose, r.room, r.writeFaults, rest);
      match run {
        case None =>
          return None;
        case Some(w) =>
          var used := if w.WriteDone? then w.consumed else 0;
          assert rest == rest[..used] + rest[used..];
          return Some(Reaction(c, WriteOutcome(w), rest[used..]));
      }
    case ReadFile(a) =>
      var run := FileStream.FileRead(r.readOpen, r.readClose, r.content, r.readFaults);
      return Some(Reaction(c, ReadOutcome(run), rest));
  }

  /** The result of one prompt: the line read (if any arrived), the
      reaction to it, and the rest of the console input. */
  datatype Prompt = Blocked | Skipped(rest: string) | Executed(line: string, reaction: Reaction)

  /** One turn of `main_task`: print the prompt, read a line into the
      32-character buffer and run it; a line that stored no character is
      skipped. */
  method Prompted(c: Console, input: string, r: Replies) returns (p: Prompt)
    requires Sane(r)
    ensures p.Skipped? ==> |p.rest| < |input|
    ensures p.Executed? ==> 1 <= |p.line| <= CommandCapacity - 1 && |p.reaction.rest| < |input|
    ensures p.Executed? ==> forall k :: 0 <= k < |p.line| ==> p.line[k] >= ' '
    ensures p.Executed? && Parse(p.line) == Ignored ==> p.reaction.console == c
  {
    match GetLine(CommandCapacity, input)
    case None =>
      return Blocked;
    case Some(l) =>
      var rest := input[l.consumed..];
      PrintableOnly(input[..l.consumed - 1]);
      if |l.text| == 0 {
        return Skipped(rest);
      }
      var x := Step(c, l.text, rest, r);
      match x {
        case None =>
          return Blocked;
        case Some(reaction) =>
          return Executed(l.text, reaction);
      }
  }
}
