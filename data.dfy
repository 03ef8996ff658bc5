/**
 * The record a collector sends to the aggregator about its machine: CPU and
 * memory figures as given, and one entry per disk drive with its sizes
 * converted from bytes to whole gigabytes.
 */
module AggregatorData {

  /** One gigabyte, in bytes: 1024 * 1024 * 1024. */
  const BytesPerGb: nat := 0x4000_0000

  /** C# integer division of a long by a positive divisor: the quotient is truncated toward zero. */
  function TruncDiv(a: int, d: int): (q: int)
    requires d > 0
    ensures a >= 0 ==> d * q <= a < d * q + d
    ensures a < 0 ==> d * q - d < a <= d * q
  {
    if a >= 0 then a / d else -((-a) / d)
  }

  /** A byte count in gigabytes, as three successive divisions by 1024. */
  function BytesToGb(bytes: int): int
  {
    TruncDiv(TruncDiv(TruncDiv(bytes, 1024), 1024), 1024)
  }

  /**
   * For a size that is not negative the conversion is floor division by one
   * gigabyte: whole gigabytes, the remainder dropped.
   */
  lemma BytesToGbIsFloorDivision(bytes: int)
    requires bytes >= 0
    ensures BytesToGb(bytes) * BytesPerGb <= bytes < (BytesToGb(bytes) + 1) * BytesPerGb
    ensures BytesToGb(bytes) == bytes / BytesPerGb
  {
    var kb := TruncDiv(bytes, 1024);
    var mb := TruncDiv(kb, 1024);
    var gb := TruncDiv(mb, 1024);
    // each step keeps the quotient of the one before to within one unit
    assert 1024 * kb <= bytes <= 1024 * kb + 1023;
    assert 1024 * mb <= kb <= 1024 * mb + 1023;
    assert 1024 * gb <= mb <= 1024 * gb + 1023;
    assert BytesPerGb * gb <= bytes < BytesPerGb * gb + BytesPerGb;
  }

  /** Truncation toward zero is symmetric about zero. */
  lemma TruncDivNegate(a: int, d: int)
    requires d > 0
    ensures TruncDiv(-a, d) == -TruncDiv(a, d)
  {
  }

  /**
   * A negative byte count converts to the negated conversion of its magnitude,
   * as the source's truncating division gives, not to the floor.
   */
  lemma BytesToGbNegate(bytes: int)
    ensures BytesToGb(-bytes) == -BytesToGb(bytes)
  {
    TruncDivNegate(bytes, 1024);
    TruncDivNegate(TruncDiv(bytes, 1024), 1024);
    TruncDivNegate(TruncDiv(TruncDiv(bytes, 1024), 1024), 1024);
  }

  /** A disk drive as the operating system reports it: name and sizes in bytes. */
  datatype DriveInfo = DriveInfo(name: string, totalSize: int, availableFreeSpace: int)

  /** The serialisable copy of a drive: name and sizes in whole gigabytes. */
  datatype Drive = Drive(name: string, totalDiskSpaceGb: int, availableDiskSpaceGb: int)

  /**
   * The record itself. The CPU figure and the percentage are floating point in
   * the source; here they are real numbers, stored unchanged.
   */
  class Data {
    const cpu: real
    const totalMemoryGb: int
    const memoryInUseMb: int
    const percentInUse: real
    var allDrives: seq<Drive>

    /** Stores the figures and converts every drive, in order. */
    constructor (cpu: real, totalMemoryGb: int, memoryInUseMb: int, percentInUse: real, drives: seq<DriveInfo>)
      ensures this.cpu == cpu && this.totalMemoryGb == totalMemoryGb
      ensures this.memoryInUseMb == memoryInUseMb && this.percentInUse == percentInUse
      ensures |allDrives| == |drives|
      ensures forall i :: 0 <= i < |drives| ==>
        allDrives[i] == Drive(drives[i].name, BytesToGb(drives[i].totalSize), BytesToGb(drives[i].availableFreeSpace))
    {
      this.cpu := cpu;
      this.totalMemoryGb := totalMemoryGb;
      this.memoryInUseMb := memoryInUseMb;
      this.percentInUse := percentInUse;
      allDrives := [];
      new;
      for i := 0 to |drives|
        invariant |allDrives| == i
        invariant forall k :: 0 <= k < i ==>
          allDrives[k] == Drive(drives[k].name, BytesToGb(drives[k].totalSize), BytesToGb(drives[k].availableFreeSpace))
      {
        var d := drives[i];
        var drive := Drive(
          d.name,
          TruncDiv(TruncDiv(TruncDiv(d.totalSize, 1024), 1024), 1024),
          TruncDiv(TruncDiv(TruncDiv(d.availableFreeSpace, 1024), 1024), 1024));
        allDrives := allDrives + [drive];
      }
    }
  }
}
