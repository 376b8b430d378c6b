/** The filesystem layer's result codes (`FRESULT`) and the console's table
    of their printable names. */
module FsResults {
  import opened Base

  datatype FResult =
    | Ok | DiskErr | IntErr | NotReady | NoFile | NoPath | InvalidName
    | Denied | Exist | InvalidObject | WriteProtected | InvalidDrive
    | NotEnabled | NoFileSystem | MkfsAborted | Timeout | Locked
    | NotEnoughCore | TooManyOpenFiles | InvalidParameter

  /** The outcome of a filesystem call that yields a value on success. */
  datatype Result<+T> = Success(value: T) | Failure(code: FResult)

  /** The names printed for each code, indexed by the code's numeric value. */
  const Labels: seq<string> := [
    "OK", "DISK_ERR", "INT_ERR", "NOT_READY", "NO_FILE", "NO_PATH", "INVALID_NAME",
    "DENIED", "EXIST", "INVALID_OBJECT", "WRITE_PROTECTED", "INVALID_DRIVE",
    "NOT_ENABLED", "NO_FILE_SYSTEM", "MKFS_ABORTED", "TIMEOUT", "LOCKED",
    "NOT_ENOUGH_CORE", "TOO_MANY_OPEN_FILES", "INVALID_PARAMETER"
  ]

  /** The numeric value of a code; `Ok` is the only zero. */
  function Code(r: FResult): (n: nat)
    ensures n < |Labels|
    ensures n == 0 <==> r == Ok
  {
    match r
    case Ok => 0
    case DiskErr => 1
    case IntErr => 2
    case NotReady => 3
    case NoFile => 4
    case NoPath => 5
    case InvalidName => 6
    case Denied => 7
    case Exist => 8
    case InvalidObject => 9
    case WriteProtected => 10
    case InvalidDrive => 11
    case NotEnabled => 12
    case NoFileSystem => 13
    case MkfsAborted => 14
    case Timeout => 15
    case Locked => 16
    case NotEnoughCore => 17
    case TooManyOpenFiles => 18
    case InvalidParameter => 19
  }

  /** The code with a given numeric value, if there is one. */
  function FromCode(n: nat): (r: Option<FResult>)
    ensures r.Some? <==> n < |Labels|
  {
    if n == 0 then Some(Ok)
    else if n == 1 then Some(DiskErr)
    else if n == 2 then Some(IntErr)
    else if n == 3 then Some(NotReady)
    else if n == 4 then Some(NoFile)
    else if n == 5 then Some(NoPath)
    else if n == 6 then Some(InvalidName)
    else if n == 7 then Some(Denied)
    else if n == 8 then Some(Exist)
    else if n == 9 then Some(InvalidObject)
    else if n == 10 then Some(WriteProtected)
    else if n == 11 then Some(InvalidDrive)
    else if n == 12 then Some(NotEnabled)
    else if n == 13 then Some(NoFileSystem)
    else if n == 14 then Some(MkfsAborted)
    else if n == 15 then Some(Timeout)
    else if n == 16 then Some(Locked)
    else if n == 17 then Some(NotEnoughCore)
    else if n == 18 then Some(TooManyOpenFiles)
    else if n == 19 then Some(InvalidParameter)
    else None
  }

  /** The name the console prints for a code (`ERR[err]`). */
  function Label(r: FResult): string
  {
    Labels[Code(r)]
  }

  /** Decoding a code's numeric value gives the code back. */
  lemma CodeRoundTrip(r: FResult)
    ensures FromCode(Code(r)) == Some(r)
  {
  }

  /** Every index of the name table is the value of exactly the code it names. */
  lemma FromCodeRoundTrip(n: nat)
    requires n < |Labels|
    ensures Code(FromCode(n).value) == n
    ensures Label(FromCode(n).value) == Labels[n]
  {
  }

  /** Distinct codes have distinct numeric values, so the table lookup never
      confuses two codes. */
  lemma CodeInjective(a: FResult, b: FResult)
    requires Code(a) == Code(b)
    ensures a == b
  {
    CodeRoundTrip(a);
    CodeRoundTrip(b);
  }
}
