/**
 * The user-function driver's sysfs files: the four binary attributes that
 * expose an xclbin metadata section to user space a chunk at a time, and
 * the write-only `reset` attribute.
 */
module XoclSysfs {
  import opened Common

  const U32_LIMIT: nat := 0x1_0000_0000
  const U64_LIMIT: nat := 0x1_0000_0000_0000_0000
  /** loff_t is a signed 64-bit offset. */
  const LOFF_MIN: int := -0x8000_0000_0000_0000
  const LOFF_LIMIT: int := 0x8000_0000_0000_0000

  /**
   * How many bytes a read of `count` bytes at `offset` returns from a
   * section of `size` bytes. The offset is compared as an unsigned value,
   * so a negative one lies past the end.
   */
  function ReadCount(size: nat, offset: int, count: nat): (n: nat)
    ensures n <= count
    ensures n > 0 ==> 0 <= offset && offset + n <= size
    ensures 0 <= offset < size && n < count ==> offset + n == size
    ensures offset < 0 || size <= offset ==> n == 0
  {
    if offset < 0 || offset >= size then 0
    else if count < size - offset then count
    else size - offset
  }

  /** The bytes such a read delivers. */
  function Chunk(section: seq<byte>, offset: int, count: nat): (c: seq<byte>)
    ensures |c| == ReadCount(|section|, offset, count)
  {
    var n := ReadCount(|section|, offset, count);
    if n == 0 then [] else section[offset .. offset + n]
  }

  /**
   * One read of a binary attribute backed by `section`: copies the next
   * chunk to the front of `buffer` and returns its length, 0 at or past
   * the end. `count` never exceeds the buffer the kernel hands in.
   */
  method ReadSection(section: seq<byte>, buffer: array<byte>, offset: int, count: nat) returns (nread: nat)
    requires |section| < U32_LIMIT
    requires LOFF_MIN <= offset < LOFF_LIMIT && count < U64_LIMIT
    requires count <= buffer.Length
    modifies buffer
    ensures nread == ReadCount(|section|, offset, count)
    ensures buffer[..nread] == Chunk(section, offset, count)
    ensures buffer[nread..] == old(buffer[nread..])
  {
    // loff_t meets size_t: the comparison is made on the unsigned value
    var unsignedOffset := if offset < 0 then offset + U64_LIMIT else offset;
    if unsignedOffset >= |section| {
      return 0;
    }
    // nread is a u32
    var n: nat;
    if count < |section| - offset {
      n := count % U32_LIMIT;
    } else {
      n := (|section| - offset) % U32_LIMIT;
    }
    forall i | 0 <= i < n {
      buffer[i] := section[offset + i];
    }
    nread := n;
  }

  /** The device's copies of the four metadata sections, each exactly as long as its header says. */
  datatype XoclDev = XoclDev(
    debugLayout: seq<byte>,
    layout: seq<byte>,
    connectivity: seq<byte>,
    topology: seq<byte>)

  method ReadDebugIpLayout(xdev: XoclDev, buffer: array<byte>, offset: int, count: nat) returns (nread: nat)
    requires |xdev.debugLayout| < U32_LIMIT
    requires LOFF_MIN <= offset < LOFF_LIMIT && count <= buffer.Length < U64_LIMIT
    modifies buffer
    ensures nread == ReadCount(|xdev.debugLayout|, offset, count)
    ensures buffer[..nread] == Chunk(xdev.debugLayout, offset, count)
    ensures buffer[nread..] == old(buffer[nread..])
  {
    nread := ReadSection(xdev.debugLayout, buffer, offset, count);
  }

  method ReadIpLayout(xdev: XoclDev, buffer: array<byte>, offset: int, count: nat) returns (nread: nat)
    requires |xdev.layout| < U32_LIMIT
    requires LOFF_MIN <= offset < LOFF_LIMIT && count <= buffer.Length < U64_LIMIT
    modifies buffer
    ensures nread == ReadCount(|xdev.layout|, offset, count)
    ensures buffer[..nread] == Chunk(xdev.layout, offset, count)
    ensures buffer[nread..] == old(buffer[nread..])
  {
    nread := ReadSection(xdev.layout, buffer, offset, count);
  }

  method ReadConnectivity(xdev: XoclDev, buffer: array<byte>, offset: int, count: nat) returns (nread: nat)
    requires |xdev.connectivity| < U32_LIMIT
    requires LOFF_MIN <= offset < LOFF_LIMIT && count <= buffer.Length < U64_LIMIT
    modifies buffer
    ensures nread == ReadCount(|xdev.connectivity|, offset, count)
    ensures buffer[..nread] == Chunk(xdev.connectivity, offset, count)
    ensures buffer[nread..] == old(buffer[nread..])
  {
    nread := ReadSection(xdev.connectivity, buffer, offset, count);
  }

  method ReadMemTopology(xdev: XoclDev, buffer: array<byte>, offset: int, count: nat) returns (nread: nat)
    requires |xdev.topology| < U32_LIMIT
    requires LOFF_MIN <= offset < LOFF_LIMIT && count <= buffer.Length < U64_LIMIT
    modifies buffer
    ensures nread == ReadCount(|xdev.topology|, offset, count)
    ensures buffer[..nread] == Chunk(xdev.topology, offset, count)
    ensures buffer[nread..] == old(buffer[nread..])
  {
    nread := ReadSection(xdev.topology, buffer, offset, count);
  }

  /**
   * What a reader that starts at `offset` and advances by each return value
   * collects, stopping at the first read that returns 0.
   */
  function ReadToEnd(section: seq<byte>, offset: nat, count: nat): seq<byte>
    requires offset <= |section|
    decreases |section| - offset
  {
    var n := ReadCount(|section|, offset, count);
    if n == 0 then [] else Chunk(section, offset, count) + ReadToEnd(section, offset + n, count)
  }

  /** One step of the reader: a non-empty read followed by the reads after it. */
  lemma ReadToEndStep(section: seq<byte>, offset: nat, count: nat)
    requires offset <= |section| && 0 < ReadCount(|section|, offset, count)
    ensures var n := ReadCount(|section|, offset, count);
      offset + n <= |section| &&
      ReadToEnd(section, offset, count) == section[offset .. offset + n] + ReadToEnd(section, offset + n, count)
  {
  }

  /** Reading chunk by chunk from any offset yields exactly the rest of the section, and then 0. */
  lemma {:induction false} ReadToEndIsRest(section: seq<byte>, offset: nat, count: nat)
    requires offset <= |section| && 0 < count
    ensures ReadToEnd(section, offset, count) == section[offset..]
    decreases |section| - offset
  {
    var n := ReadCount(|section|, offset, count);
    if n > 0 {
      ReadToEndStep(section, offset, count);
      ReadToEndIsRest(section, offset + n, count);
      SplitAt(section, offset, offset + n);
    }
  }

  lemma SplitAt(s: seq<byte>, i: nat, j: nat)
    requires i <= j <= |s|
    ensures s[i..] == s[i..j] + s[j..]
  {
  }

  /** A whole attribute read from offset 0 with any positive chunk size is the section itself, and the next read returns 0. */
  lemma SequentialReadYieldsSection(section: seq<byte>, count: nat)
    requires 0 < count
    ensures ReadToEnd(section, 0, count) == section
    ensures ReadCount(|section|, |ReadToEnd(section, 0, count)|, count) == 0
  {
    ReadToEndIsRest(section, 0, count);
  }

  /**
   * A write to `reset`: the whole `count` when the hot reset returns 0,
   * and otherwise whatever the hot reset returned.
   */
  function ResetStore(hotResetResult: int, count: nat): (r: int)
    ensures hotResetResult == 0 ==> r == count
    ensures hotResetResult != 0 ==> r == hotResetResult
    ensures hotResetResult < 0 ==> r < 0
  {
    if hotResetResult == 0 then count else hotResetResult
  }
}
