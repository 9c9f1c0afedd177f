/**
 SD card capacity arithmetic: the two `read_sd_capacity` helpers (FatFs on
 ESP-IDF, the SD_MMC library on Arduino) and the SD example's choice
 between megabytes and gigabytes.

 The card and the file system are parameters: the FatFs geometry and
 free-cluster count, or the library's card size and used bytes. Widths
 follow the target: `size_t` is 32 bits, the Arduino outputs are 64-bit.
 */
module SdCapacity {
  import opened Bytes
  import opened Optional
  import Text
  import IoExtension
  import I2cBus

  datatype Status = EspOk | EspFail

  /** The FatFs volume fields used: `n_fatent` (clusters + 2, 32 bits),
      `csize` (sectors per cluster) and `ssize` (bytes per sector, both
      16 bits). */
  datatype FatVolume = FatVolume(nFatent: nat, csize: nat, ssize: nat)

  predicate ValidVolume(v: FatVolume) {
    v.nFatent < TWO_32 && v.csize < 0x1_0000 && v.ssize < 0x1_0000
  }

  /** `size_t` KB from a cluster count: the 64-bit byte count divided by
      1024 and truncated to 32 bits. */
  function ClustersToKb(clusters: nat, v: FatVolume): (kb: nat)
    requires ValidVolume(v) && clusters < TWO_32
    ensures kb < TWO_32
    ensures clusters * v.csize * v.ssize / 1024 < TWO_32 ==> kb == clusters * v.csize * v.ssize / 1024
  {
    (clusters * v.csize * v.ssize / 1024) % TWO_32
  }

  /** `n_fatent - 2` in 32-bit unsigned arithmetic. */
  function DataClusters(v: FatVolume): (n: nat)
    requires ValidVolume(v)
    ensures n < TWO_32
    ensures v.nFatent >= 2 ==> n == v.nFatent - 2
  {
    (v.nFatent - 2) % TWO_32
  }

  /** The ESP-IDF `read_sd_capacity`. `volume` is `None` when `f_getfree`
      fails; `wantTotal`/`wantAvailable` say whether each output pointer is
      non-NULL. An output is `Some` exactly when it was written. */
  function FatfsCapacity(volume: Option<(FatVolume, nat)>, wantTotal: bool, wantAvailable: bool)
    : (r: (Status, Option<nat>, Option<nat>))
    requires volume.Some? ==> ValidVolume(volume.value.0) && volume.value.1 < TWO_32
    ensures r.0 == EspOk <==> volume.Some?
    ensures r.0 == EspFail ==> r.1.None? && r.2.None?
    ensures r.1.Some? <==> volume.Some? && wantTotal
    ensures r.2.Some? <==> volume.Some? && wantAvailable
    ensures r.1.Some? ==> r.1.value == ClustersToKb(DataClusters(volume.value.0), volume.value.0)
    ensures r.2.Some? ==> r.2.value == ClustersToKb(volume.value.1, volume.value.0)
  {
    match volume
    case None => (EspFail, None, None)
    case Some((v, free)) =>
      (EspOk,
       if wantTotal then Some(ClustersToKb(DataClusters(v), v)) else None,
       if wantAvailable then Some(ClustersToKb(free, v)) else None)
  }

  /** With no more free clusters than data clusters and no 32-bit
      overflow, the available space never exceeds the total. */
  lemma FatfsAvailableAtMostTotal(v: FatVolume, free: nat)
    requires ValidVolume(v) && 2 <= v.nFatent && free <= v.nFatent - 2
    requires (v.nFatent - 2) * v.csize * v.ssize / 1024 < TWO_32
    ensures FatfsCapacity(Some((v, free)), true, true).2.value <= FatfsCapacity(Some((v, free)), true, true).1.value
  {
    var bytesPerCluster := v.csize * v.ssize;
    assert free * v.csize * v.ssize == free * bytesPerCluster;
    assert (v.nFatent - 2) * v.csize * v.ssize == (v.nFatent - 2) * bytesPerCluster;
    MulMonotone(free, v.nFatent - 2, bytesPerCluster);
    DivMonotone(free * bytesPerCluster, (v.nFatent - 2) * bytesPerCluster, 1024);
  }

  lemma MulMonotone(a: nat, b: nat, n: nat)
    requires a <= b
    ensures a * n <= b * n
  {
  }

  lemma DivMonotone(a: nat, b: nat, d: nat)
    requires a <= b && d > 0
    ensures a / d <= b / d
  {
    var qa, qb := a / d, b / d;
    assert a == qa * d + a % d && b == qb * d + b % d;
    if qa > qb {
      MulMonotone(qb + 1, qa, d);
    }
  }

  /** A 4 TiB volume (2^32 KiB) of 2^26 clusters of 128 sectors of 512
      bytes reports a total of 0 KB: the KB value wraps in `size_t`. */
  lemma FatfsTotalWraps()
    ensures FatfsCapacity(Some((FatVolume(0x400_0002, 128, 512), 0)), true, true).1 == Some(0)
  {
    assert 0x400_0000 * 128 * 512 / 1024 == TWO_32;
  }

  /** The Arduino `read_sd_capacity`: both pointers must be non-NULL; the
      total is the card size in KB, the available space the total minus the
      used KB, in 64-bit unsigned arithmetic. */
  function ArduinoCapacity(havePointers: bool, cardSize: nat, usedBytes: nat) : (r: (Status, Option<(nat, nat)>))
    requires cardSize < TWO_64 && usedBytes < TWO_64
    ensures r.0 == EspOk <==> havePointers
    ensures r.1.Some? <==> havePointers
    ensures r.1.Some? ==> r.1.value.0 == cardSize / 1024
    ensures r.1.Some? && usedBytes / 1024 <= cardSize / 1024 ==> r.1.value.1 == cardSize / 1024 - usedBytes / 1024
    ensures r.1.Some? && usedBytes / 1024 > cardSize / 1024 ==> r.1.value.1 == TWO_64 + cardSize / 1024 - usedBytes / 1024
  {
    if !havePointers then (EspFail, None)
    else
      var total := cardSize / 1024;
      (EspOk, Some((total, (total - usedBytes / 1024) % TWO_64)))
  }

  /** When no more bytes are used than the card holds, the available space
      is at most the total; otherwise it wraps to a value above it. */
  lemma ArduinoAvailable(cardSize: nat, usedBytes: nat)
    requires cardSize < TWO_64 && usedBytes < TWO_64
    ensures usedBytes <= cardSize ==> ArduinoCapacity(true, cardSize, usedBytes).1.value.1 <= cardSize / 1024
    ensures usedBytes / 1024 > cardSize / 1024 ==> ArduinoCapacity(true, cardSize, usedBytes).1.value.1 > cardSize / 1024
  {
    if usedBytes <= cardSize {
      DivMonotone(usedBytes, cardSize, 1024);
    }
  }

  // ---------------------------------------------------------------------
  // The SD example's labels

  datatype Unit = MB | GB

  /** A capacity as the example shows it: `(int)kb / 1024` megabytes, or
      `(int)kb / 1024 / 1024` gigabytes when that is over 1024 MB. The
      `size_t` is read as a 32-bit `int` first, with C's truncating
      division. */
  function Shown(kb: nat): (r: (int, Unit))
    requires kb < TWO_32
    ensures r.1 == GB <==> CDiv(AsInt32(kb), 1024) > 1024
    ensures r.1 == MB ==> r.0 == CDiv(AsInt32(kb), 1024)
    ensures r.1 == GB ==> r.0 == CDiv(CDiv(AsInt32(kb), 1024), 1024)
  {
    var mb := CDiv(AsInt32(kb), 1024);
    if mb > 1024 then (CDiv(mb, 1024), GB) else (mb, MB)
  }

  /** Below 2 TiB the shown number is the capacity rounded down to the
      chosen unit; exactly 1024 MB is still shown in megabytes. */
  lemma ShownRoundsDown(kb: nat)
    requires kb < TWO_31
    ensures Shown(kb).1 == MB ==> Shown(kb).0 * 1024 <= kb < (Shown(kb).0 + 1) * 1024 && Shown(kb).0 <= 1024
    ensures Shown(kb).1 == GB ==> Shown(kb).0 * 1024 * 1024 <= kb < (Shown(kb).0 + 1) * 1024 * 1024 && Shown(kb).0 >= 1
  {
    assert AsInt32(kb) == kb;
  }

  lemma ShownThreshold()
    ensures Shown(1024 * 1024) == (1024, MB)
    ensures Shown(1025 * 1024) == (1, GB)
  {
  }

  /** A `size_t` of 2^31 KB or more turns negative in the `int` cast and is
      shown as a negative number of megabytes. */
  lemma ShownNegativeFrom2TiB(kb: nat)
    requires TWO_31 <= kb < TWO_32
    ensures Shown(kb).1 == MB && Shown(kb).0 <= 0
  {
  }

  /** `sprintf(buf, "<label>%d MB")` or `"… GB"`. */
  function Label(prefix: string, kb: nat): (s: string)
    requires kb < TWO_32
    ensures s == prefix + Text.IntToDecimal(Shown(kb).0) + (if Shown(kb).1 == GB then " GB" else " MB")
  {
    var (v, u) := Shown(kb);
    prefix + Text.IntToDecimal(v) + (if u == GB then " GB" else " MB")
  }

  /** What the SD example draws below its title: the card's status and, on
      success, the two capacity labels. `total` and `available` are the
      values `read_sd_capacity` left in its outputs. */
  function SdExampleLines(initOk: bool, total: nat, available: nat): (lines: seq<string>)
    requires total < TWO_32 && available < TWO_32
    ensures !initOk ==> lines == ["SD Card Fail!"]
    ensures initOk ==> |lines| == 3 && lines[0] == "SD Card OK!"
    ensures initOk ==> lines[1] == Label("Total:", total) && lines[2] == Label("Available:", available)
  {
    if initOk then ["SD Card OK!", Label("Total:", total), Label("Available:", available)]
    else ["SD Card Fail!"]
  }

  /** The SD example's start: the expander is initialised (mode register
      all ones, both shadows all ones), then line 4, the card's chip
      select, is driven high before the card is used. The bus sees the
      mode write followed by the output write carrying the new shadow. */
  function SdExampleSetup(): (r: (IoExtension.Device, seq<I2cBus.Op>))
    ensures BitSet(r.0.lastIo, IoExtension.IO_4)
    ensures r.1 == [I2cBus.WriteByte(IoExtension.REG_MODE, 0xFF), I2cBus.WriteByte(IoExtension.REG_OUTPUT, 0xFF)]
    ensures r.1[1] == I2cBus.WriteByte(IoExtension.REG_OUTPUT, r.0.lastIo)
  {
    var (d0, init) := IoExtension.Init();
    var (d1, cs) := IoExtension.Output(d0, IoExtension.IO_4, 1);
    BitsDetermineByte(d1.lastIo, 0xFF);
    (d1, init + cs)
  }
}
