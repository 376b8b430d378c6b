/** The `cm` report (`mount`): mount the volume, then report its geometry
    and free space and its label. FatFs's `f_mount`, `f_getfree` and
    `f_getlabel` are oracles whose answers come in as `MountReplies`; the
    arithmetic on their answers is done in 32-bit `DWORD`s, as on the target. */
module MountReport {
  import opened Base
  import opened FsResults
  import Measure

  /** The fields of FatFs's `FATFS` object the report prints. */
  datatype FatInfo = FatInfo(
    fsType: nat, csize: nat, nFats: nat, nRootdir: nat, fsize: u32,
    nFatent: u32, volbase: u32, fatbase: u32, dirbase: u32, database: u32)

  /** `fs_type` is one of FatFs's `FS_FAT12` .. `FS_EXFAT` and `csize` a
      16-bit `WORD`, as FatFs guarantees for a mounted volume. */
  predicate Mounted(v: FatInfo)
  {
    1 <= v.fsType <= 4 && v.csize < 0x1_0000
  }

  datatype MountReplies = MountReplies(
    mount: FResult, getfree: FResult, freeClusters: u32, volume: FatInfo,
    getlabel: FResult, volumeName: string, serial: u32)

  /** One paragraph of the report. */
  datatype Paragraph =
    | MountFailed(error: string)
    | GetfreeFailed(error: string)
    | Geometry(fatType: string, bytesPerCluster: u32, nFats: nat, nRootdir: nat, fsize: u32,
               clusters: u32, volbase: u32, fatbase: u32, dirbase: u32, database: u32,
               diskKb: u32, availableKb: u32)
    | GetlabelFailed(error: string)
    | LabelShown(volumeName: string, serial: u32)

  datatype Report = Report(paragraphs: seq<Paragraph>, code: FResult)

  const FatTypes: seq<string> := ["", "FAT12", "FAT16", "FAT32", "exFAT"]

  /** `n_fatent - 2` in `DWORD` arithmetic. */
  function Clusters(v: FatInfo): u32
  {
    Wrap32(v.nFatent - 2)
  }

  /** `(n_fatent - 2) * csize` in `DWORD` arithmetic. */
  function TotalSectors(v: FatInfo): u32
  {
    Wrap32(Clusters(v) * v.csize)
  }

  /** `free_clusters * csize` in `DWORD` arithmetic. */
  function FreeSectors(v: FatInfo, free: u32): u32
  {
    Wrap32(free * v.csize)
  }

  /** Size in KB of a count of 512-byte sectors: half of it, rounded down. */
  function Kb(sectors: u32): u32
  {
    sectors / 2
  }

  function GeometryOf(v: FatInfo, free: u32): Paragraph
    requires Mounted(v)
  {
    Geometry(FatTypes[v.fsType], Wrap32(v.csize * 512), v.nFats, v.nRootdir, v.fsize,
             Clusters(v), v.volbase, v.fatbase, v.dirbase, v.database,
             Kb(TotalSectors(v)), Kb(FreeSectors(v, free)))
  }

  /** `mount()`: its report and the code it returns. Once `f_mount`
      succeeds, the code returned is `f_getlabel`'s, whatever `f_getfree`
      answered. */
  function Mount(m: MountReplies): (r: Report)
    requires m.mount == Ok && m.getfree == Ok ==> Mounted(m.volume)
    ensures m.mount != Ok ==> r == Report([MountFailed(Label(m.mount))], m.mount)
    ensures m.mount == Ok ==> r.code == m.getlabel && |r.paragraphs| == 2
    ensures m.mount == Ok ==> (r.paragraphs[0].Geometry? <==> m.getfree == Ok)
    ensures m.mount == Ok ==> (r.paragraphs[1].LabelShown? <==> m.getlabel == Ok)
  {
    if m.mount != Ok then Report([MountFailed(Label(m.mount))], m.mount)
    else
      var first := if m.getfree != Ok then GetfreeFailed(Label(m.getfree)) else GeometryOf(m.volume, m.freeClusters);
      var second := if m.getlabel != Ok then GetlabelFailed(Label(m.getlabel)) else LabelShown(m.volumeName, m.serial);
      Report([first, second], m.getlabel)
  }

  /** A failed `f_getfree` does not make `mount()` fail: the console still
      treats the card as mounted when the label can be read. */
  lemma GetfreeIgnored(m: MountReplies)
    requires m.mount == Ok && m.getfree != Ok && m.getlabel == Ok
    ensures Mount(m).code == Ok
    ensures Mount(m).paragraphs[0] == GetfreeFailed(Label(m.getfree))
  {
  }

  /** Below 2^32 sectors the reported sizes are exact: the disk size is half
      the data area's sector count (512-byte sectors, 1024-byte KB), the
      available size half the free sectors, and the available size is never
      more than the disk size when the free count is at most the cluster
      count. */
  lemma SizesExact(v: FatInfo, free: u32)
    requires Mounted(v) && v.nFatent >= 2
    requires (v.nFatent - 2) * v.csize < WordModulus
    requires free <= v.nFatent - 2
    ensures Clusters(v) == v.nFatent - 2
    ensures TotalSectors(v) == (v.nFatent - 2) * v.csize && Kb(TotalSectors(v)) == (v.nFatent - 2) * v.csize / 2
    ensures FreeSectors(v, free) == free * v.csize && Kb(FreeSectors(v, free)) == free * v.csize / 2
    ensures Kb(FreeSectors(v, free)) <= Kb(TotalSectors(v))
  {
    var total, spare := (v.nFatent - 2) * v.csize, free * v.csize;
    Measure.MulMono(free, v.nFatent - 2, v.csize);
    WrapExact(Clusters(v), v.nFatent - 2, v.csize, total);
    WrapExact(free, free, v.csize, spare);
  }

  lemma WrapExact(a: u32, b: int, c: nat, p: int)
    requires a == b && p == b * c && 0 <= p < WordModulus
    ensures Wrap32(a * c) == p
  {
  }

  /** The disk size is the data area's sector count reduced modulo 2^32
      and halved, so a volume of exactly 2^32 sectors (2 TiB) is reported
      as 0 KB, and one a sector larger as 0 KB too. */
  lemma SizeWraps(v: FatInfo)
    requires Mounted(v) && v.nFatent >= 2
    ensures TotalSectors(v) == (v.nFatent - 2) * v.csize % WordModulus
    ensures Kb(TotalSectors(v)) == (v.nFatent - 2) * v.csize % WordModulus / 2
    ensures (v.nFatent - 2) * v.csize == WordModulus ==> Kb(TotalSectors(v)) == 0
    ensures (v.nFatent - 2) * v.csize == WordModulus + 1 ==> Kb(TotalSectors(v)) == 0
  {
  }

  /** One such volume: 2^24 clusters of 256 sectors. */
  lemma SizeWrapsExample()
    ensures var v := FatInfo(4, 256, 1, 0, 0, 0x100_0002, 0, 0, 0, 0);
            Mounted(v) && (v.nFatent - 2) * v.csize == WordModulus && Kb(TotalSectors(v)) == 0
  {
  }
}
