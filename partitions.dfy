/**
 * `Process::storage_dev` and `Process::storage_partitions`: block devices
 * and their partitions as listed in /proc/partitions, with the mount point
 * and file system of each partition looked up in /proc/mounts.
 *
 * A row of /proc/partitions is `major minor #blocks name`.  The disk pattern
 * `^\s*(\d*)\s*(\d*)\s*(\d*)\s(\D*)$` takes the rows whose name has no digit,
 * the partition pattern `^\s*(\d*)\s*(\d*)\s*(\d*)\s(\w*\d+)$` the rows whose
 * name is word characters ending in a digit.  A /proc/mounts entry is taken
 * by `/dev/(\w*)\s(\S*)\s(\S*)`: device, mount point, file system.
 */
module Partitions {
  import opened Wrappers
  import opened Text
  import opened Numbers
  import opened Scan

  datatype Storage = Storage(name: string, major: U8, minor: U8, size: nat)

  datatype Partition = Partition(
    name: string, major: U8, minor: U8, size: nat, filesystem: string, mountpoint: string)

  // ---------------------------------------------------------------------
  // Rows of /proc/partitions
  // ---------------------------------------------------------------------

  /** Three numbers and a name. */
  predicate IsRow(line: string) {
    var fs := Fields(line);
    |fs| == 4 && IsNumeral(fs[0]) && IsNumeral(fs[1]) && IsNumeral(fs[2])
  }

  function RowName(line: string): string {
    Nth(Fields(line), 3)
  }

  /** `\D*` */
  predicate IsDiskName(name: string) {
    forall k :: 0 <= k < |name| ==> !IsDigit(name[k])
  }

  /** `\w*\d+` */
  predicate IsPartitionName(name: string) {
    |name| > 0 && AllWordChars(name) && IsDigit(name[|name| - 1])
  }

  predicate IsDiskRow(line: string) {
    IsRow(line) && IsDiskName(RowName(line))
  }

  predicate IsPartitionRow(line: string) {
    IsRow(line) && IsPartitionName(RowName(line))
  }

  /** A device reported by storage_dev: numbers that do not fit are 0, the
      size is the block count times 1024. */
  function StorageOf(line: string): Storage {
    var fs := Fields(line);
    Storage(RowName(line), U8Or0(Nth(fs, 0)), U8Or0(Nth(fs, 1)), U64Or0(Nth(fs, 2)) * 1024)
  }

  /** The body of one disk match as the source writes it: a fresh record
      whose fields are assigned one by one.  StorageOf is the same record as
      one expression. */
  method ReadStorage(line: string) returns (storage: Storage)
    ensures storage == StorageOf(line)
  {
    var fs := Fields(line);
    storage := Storage("", 0, 0, 0);
    var major := U8Or0(Nth(fs, 0));
    var minor := U8Or0(Nth(fs, 1));
    var blocks: nat := U64Or0(Nth(fs, 2));
    var storageName := Nth(fs, 3);
    storage := storage.(name := storageName);
    storage := storage.(major := major, minor := minor, size := blocks * 1024);
  }

  /** `storage_dev`: the disks in file order, none when /proc/partitions
      cannot be read. */
  method StorageDev(table: Option<seq<string>>) returns (devices: seq<Storage>)
    ensures table.None? ==> devices == []
    ensures table.Some? ==> devices == Keep(table.value, IsDiskRow, StorageOf)
  {
    devices := [];
    match table {
      case None =>
      case Some(lines) =>
        for i := 0 to |lines|
          invariant devices == Keep(lines[..i], IsDiskRow, StorageOf)
        {
          if IsDiskRow(lines[i]) {
            var storage := ReadStorage(lines[i]);
            devices := devices + [storage];
          }
          KeepStep(lines, i, IsDiskRow, StorageOf);
        }
        assert lines[..|lines|] == lines;
    }
  }

  /** The fields of a row laid out by the kernel: one space before the
      name, any whitespace before the numbers. */
  lemma RowFields(line: string, gaps: seq<string>, major: nat, minor: nat, blocks: nat, name: string)
    requires |gaps| == 4 && GoodGaps(gaps) && gaps[3] == " "
    requires IsToken(name)
    requires line == Spaced(gaps, [Decimal(major), Decimal(minor), Decimal(blocks), name])
    ensures Fields(line) == [Decimal(major), Decimal(minor), Decimal(blocks), name]
    ensures IsRow(line) && RowName(line) == name
  {
    var ts := [Decimal(major), Decimal(minor), Decimal(blocks), name];
    forall k | 0 <= k < |ts| ensures IsToken(ts[k]) {
      if k < 3 {
        assert IsNumeral(ts[k]);
      }
    }
    FieldsSpaced(gaps, ts);
  }

  /** A disk row gives one device with its name, its numbers when they fit in
      a byte (else 0: a major number 259 reads as 0) and blocks * 1024 bytes;
      the partition pattern does not take it. */
  lemma DiskRowOf(line: string, gaps: seq<string>, major: nat, minor: nat, blocks: nat, name: string)
    requires |gaps| == 4 && GoodGaps(gaps) && gaps[3] == " "
    requires IsToken(name) && IsDiskName(name)
    requires line == Spaced(gaps, [Decimal(major), Decimal(minor), Decimal(blocks), name])
    requires blocks < U64_LIMIT
    ensures IsDiskRow(line) && !IsPartitionRow(line)
    ensures StorageOf(line)
         == Storage(name, if major < U8_LIMIT then major else 0, if minor < U8_LIMIT then minor else 0, blocks * 1024)
  {
    RowFields(line, gaps, major, minor, blocks, name);
    ParseDecimal(major);
    ParseDecimal(minor);
    ParseDecimal(blocks);
    assert !IsDigit(name[|name| - 1]);
  }

  // ---------------------------------------------------------------------
  // Entries of /proc/mounts
  // ---------------------------------------------------------------------

  const DevPrefix: string := "/dev/"

  /** A line the mount pattern matches: a device under /dev/ whose name is
      word characters, then a mount point and a file system. */
  predicate IsDevEntry(line: string) {
    var fs := Fields(line);
    |fs| >= 3 && |fs[0]| >= |DevPrefix| && fs[0][..|DevPrefix|] == DevPrefix
    && AllWordChars(fs[0][|DevPrefix|..])
  }

  /** An entry for the device called name. */
  predicate MountsAs(line: string, name: string) {
    IsDevEntry(line) && Fields(line)[0][|DevPrefix|..] == name
  }

  /** Mount point and file system of the first entry for name, or two empty
      strings when there is none. */
  function FirstMount(mounts: seq<string>, name: string): (r: (string, string))
    decreases |mounts|
  {
    if mounts == [] then ("", "")
    else if MountsAs(mounts[0], name) then (Fields(mounts[0])[1], Fields(mounts[0])[2])
    else FirstMount(mounts[1..], name)
  }

  /** The first entry for name decides; without one both strings are empty. */
  lemma {:induction false} FirstMountIsFirst(mounts: seq<string>, name: string)
    ensures (forall i :: 0 <= i < |mounts| ==> !MountsAs(mounts[i], name)) ==> FirstMount(mounts, name) == ("", "")
    ensures forall i :: 0 <= i < |mounts| && MountsAs(mounts[i], name)
                        && (forall j :: 0 <= j < i ==> !MountsAs(mounts[j], name))
                        ==> FirstMount(mounts, name) == (Fields(mounts[i])[1], Fields(mounts[i])[2])
    decreases |mounts|
  {
    if mounts != [] {
      FirstMountIsFirst(mounts[1..], name);
      forall i | 0 <= i < |mounts| && MountsAs(mounts[i], name)
                 && (forall j :: 0 <= j < i ==> !MountsAs(mounts[j], name))
        ensures FirstMount(mounts, name) == (Fields(mounts[i])[1], Fields(mounts[i])[2])
      {
        if i > 0 {
          assert mounts[1..][i - 1] == mounts[i];
          forall j | 0 <= j < i - 1 ensures !MountsAs(mounts[1..][j], name) {
            assert mounts[1..][j] == mounts[j + 1];
          }
        }
      }
      if forall i :: 0 <= i < |mounts| ==> !MountsAs(mounts[i], name) {
        forall j | 0 <= j < |mounts[1..]| ensures !MountsAs(mounts[1..][j], name) {
          assert mounts[1..][j] == mounts[j + 1];
        }
      }
    }
  }

  /** The scan of /proc/mounts for one partition: a non-matching entry
      clears both strings, the matching one sets them and ends the scan, so
      a value once found is never cleared. */
  method ScanMounts(mounts: seq<string>, name: string) returns (mountpoint: string, filesystem: string)
    ensures (mountpoint, filesystem) == FirstMount(mounts, name)
  {
    mountpoint, filesystem := "", "";
    var i := 0;
    while i < |mounts|
      invariant 0 <= i <= |mounts|
      invariant FirstMount(mounts, name) == FirstMount(mounts[i..], name)
      invariant mountpoint == "" && filesystem == ""
    {
      var line := mounts[i];
      if IsDevEntry(line) {
        var fs := Fields(line);
        if fs[0][|DevPrefix|..] == name {
          mountpoint := fs[1];
          filesystem := fs[2];
          break;
        } else {
          mountpoint := "";
          filesystem := "";
        }
      }
      assert mounts[i..][1..] == mounts[i + 1..];
      i := i + 1;
    }
  }

  /** A /proc/mounts line `/dev/<name> <mountpoint> <filesystem> ...` is an
      entry for name. */
  lemma MountLineOf(line: string, gaps: seq<string>, name: string, mountpoint: string, filesystem: string, more: seq<string>)
    requires |gaps| == 3 + |more| && GoodGaps(gaps)
    requires |name| > 0 && AllWordChars(name) && IsToken(mountpoint) && IsToken(filesystem)
    requires forall k :: 0 <= k < |more| ==> IsToken(more[k])
    requires line == Spaced(gaps, [DevPrefix + name, mountpoint, filesystem] + more)
    ensures MountsAs(line, name)
    ensures Fields(line)[1] == mountpoint && Fields(line)[2] == filesystem
  {
    var ts := [DevPrefix + name, mountpoint, filesystem] + more;
    forall k | 0 <= k < |ts| ensures IsToken(ts[k]) {
      if k >= 3 {
        assert ts[k] == more[k - 3];
      }
    }
    FieldsSpaced(gaps, ts);
    assert ts[0][|DevPrefix|..] == name;
  }

  // ---------------------------------------------------------------------
  // Partitions of each device
  // ---------------------------------------------------------------------

  /** A partition row of device d: the first three characters of its name
      are d's name. */
  predicate BelongsTo(line: string, d: string) {
    IsPartitionRow(line) && |RowName(line)| >= 3 && RowName(line)[..3] == d
  }

  function InDevice(d: string): string -> bool {
    line => BelongsTo(line, d)
  }

  /** A partition read from its row, with its first entry in /proc/mounts. */
  function PartitionOf(line: string, mounts: seq<string>): Partition {
    var fs := Fields(line);
    var name := RowName(line);
    var (mountpoint, filesystem) := FirstMount(mounts, name);
    Partition(name, U8Or0(Nth(fs, 0)), U8Or0(Nth(fs, 1)), U64Or0(Nth(fs, 2)) * 1024, filesystem, mountpoint)
  }

  function MountedFrom(mounts: seq<string>): string -> Partition {
    line => PartitionOf(line, mounts)
  }

  /** The partitions of d in file order; none when /proc/mounts cannot be
      read, because a partition is only stored after a successful read. */
  function PartitionsOf(d: string, lines: seq<string>, mounts: Option<seq<string>>): seq<Partition> {
    match mounts
    case None => []
    case Some(data) => Keep(lines, InDevice(d), MountedFrom(data))
  }

  /** Each device's name mapped to its partitions; a later device of the
      same name replaces an earlier one. */
  function PartitionMap(storage: seq<Storage>, lines: seq<string>, mounts: Option<seq<string>>): map<string, seq<Partition>> {
    if storage == [] then map[]
    else
      var d := storage[|storage| - 1].name;
      PartitionMap(storage[..|storage| - 1], lines, mounts)[d := PartitionsOf(d, lines, mounts)]
  }

  /** Result of storage_partitions: empty when /proc/partitions cannot be
      read. */
  function StoragePartitionsOf(storage: seq<Storage>, table: Option<seq<string>>, mounts: Option<seq<string>>): map<string, seq<Partition>> {
    match table
    case None => map[]
    case Some(lines) => PartitionMap(storage, lines, mounts)
  }

  /** The names of the devices. */
  function Names(storage: seq<Storage>): set<string> {
    set k | 0 <= k < |storage| :: storage[k].name
  }

  /** Every device is a key, even one without partitions, and no other
      name is; each key maps to the partitions of that name. */
  lemma {:induction false} PartitionMapKeys(storage: seq<Storage>, lines: seq<string>, mounts: Option<seq<string>>)
    ensures PartitionMap(storage, lines, mounts).Keys == Names(storage)
    ensures forall d :: d in Names(storage) ==> PartitionMap(storage, lines, mounts)[d] == PartitionsOf(d, lines, mounts)
  {
    if storage != [] {
      var init := storage[..|storage| - 1];
      PartitionMapKeys(init, lines, mounts);
      assert Names(storage) == Names(init) + {storage[|storage| - 1].name} by {
        forall d | d in Names(storage) ensures d in Names(init) + {storage[|storage| - 1].name} {
          var k :| 0 <= k < |storage| && storage[k].name == d;
          if k < |storage| - 1 {
            assert init[k] == storage[k];
          }
        }
        forall d | d in Names(init) ensures d in Names(storage) {
          var k :| 0 <= k < |init| && init[k].name == d;
          assert storage[k] == init[k];
        }
      }
    }
  }

  /** Without /proc/mounts every device is still a key, and maps to no
      partitions. */
  lemma {:induction false} MountsUnavailable(storage: seq<Storage>, lines: seq<string>)
    ensures var devices := StoragePartitionsOf(storage, Some(lines), None);
      devices.Keys == Names(storage) && forall d :: d in devices ==> devices[d] == []
  {
    PartitionMapKeys(storage, lines, None);
  }

  /** The body of one partition match when /proc/mounts was read, as the
      source writes it: a fresh partition whose mount fields come from the
      scan and whose other fields are then assigned one by one.
      PartitionOf is the same record as one expression. */
  method ReadPartition(line: string, mounts: seq<string>) returns (partition: Partition)
    ensures partition == PartitionOf(line, mounts)
  {
    var fs := Fields(line);
    partition := Partition("", 0, 0, 0, "", "");
    var major := U8Or0(Nth(fs, 0));
    var minor := U8Or0(Nth(fs, 1));
    var blocks: nat := U64Or0(Nth(fs, 2));
    var partitionName := Nth(fs, 3);
    var mountpoint, filesystem := ScanMounts(mounts, partitionName);
    partition := partition.(mountpoint := mountpoint, filesystem := filesystem);
    partition := partition.(name := partitionName, major := major, minor := minor, size := blocks * 1024);
  }

  /** The inner loop of storage_partitions: the rows of one device. */
  method DevicePartitions(d: string, lines: seq<string>, mounts: Option<seq<string>>) returns (partitions: seq<Partition>)
    requires forall i :: 0 <= i < |lines| && IsPartitionRow(lines[i]) ==> |RowName(lines[i])| >= 3
    ensures partitions == PartitionsOf(d, lines, mounts)
  {
    partitions := [];
    for i := 0 to |lines|
      invariant partitions == PartitionsOf(d, lines[..i], mounts)
    {
      var line := lines[i];
      if IsPartitionRow(line) && RowName(line)[..3] == d {
        match mounts {
          case Some(data) =>
            var partition := ReadPartition(line, data);
            partitions := partitions + [partition];
          case None =>
        }
      }
      if mounts.Some? {
        KeepStep(lines, i, InDevice(d), MountedFrom(mounts.value));
      }
    }
    assert lines[..|lines|] == lines;
  }

  /** `storage_partitions`: for every device of storage_dev, its
      partitions. */
  method StoragePartitions(storage: seq<Storage>, table: Option<seq<string>>, mounts: Option<seq<string>>)
    returns (devices: map<string, seq<Partition>>)
    requires table.Some? && storage != [] ==>
      forall i :: 0 <= i < |table.value| && IsPartitionRow(table.value[i]) ==> |RowName(table.value[i])| >= 3
    ensures devices == StoragePartitionsOf(storage, table, mounts)
    ensures devices.Keys == if table.None? then {} else Names(storage)
  {
    devices := map[];
    match table {
      case None =>
      case Some(lines) =>
        for j := 0 to |storage|
          invariant devices == PartitionMap(storage[..j], lines, mounts)
        {
          var devName := storage[j].name;
          var partitions := DevicePartitions(devName, lines, mounts);
          devices := devices[devName := partitions];
          assert storage[..j + 1][..j] == storage[..j];
        }
        assert storage[..|storage|] == storage;
        PartitionMapKeys(storage, lines, mounts);
    }
  }

  /** What a partition of d holds: a row of /proc/partitions that belongs to
      d, read in file order, with the first mount entry of its name. */
  lemma PartitionsOfDevice(d: string, lines: seq<string>, mounts: seq<string>)
    ensures var ps, idx := PartitionsOf(d, lines, Some(mounts)), KeptIndices(lines, InDevice(d));
      && |ps| == |idx|
      && (forall k :: 0 <= k < |ps| ==>
            && idx[k] < |lines| && IsPartitionRow(lines[idx[k]])
            && ps[k] == PartitionOf(lines[idx[k]], mounts)
            && IsPartitionName(ps[k].name) && |ps[k].name| >= 3 && ps[k].name[..3] == d
            && (ps[k].mountpoint, ps[k].filesystem) == FirstMount(mounts, ps[k].name))
      && (forall k, l :: 0 <= k < l < |idx| ==> idx[k] < idx[l])
      && (forall i :: 0 <= i < |lines| && BelongsTo(lines[i], d) ==> i in idx)
  {
    KeepInFileOrder(lines, InDevice(d), MountedFrom(mounts));
  }

  /** The prefix test compares three characters, so a device whose name is
      not three characters long (e.g. "nvme0n1", "vd") gets no partitions. */
  lemma NotThreeChars(d: string, lines: seq<string>, mounts: Option<seq<string>>)
    requires |d| != 3
    ensures PartitionsOf(d, lines, mounts) == []
  {
    if mounts.Some? {
      KeepNothing(lines, InDevice(d), MountedFrom(mounts.value));
    }
  }

  /** A partition row `major minor blocks name` of device name[..3]: the
      partition has the row's numbers and the first mount entry of name. */
  lemma PartitionRowOf(line: string, gaps: seq<string>, major: nat, minor: nat, blocks: nat, name: string, mounts: seq<string>)
    requires |gaps| == 4 && GoodGaps(gaps) && gaps[3] == " "
    requires IsPartitionName(name) && |name| >= 3
    requires line == Spaced(gaps, [Decimal(major), Decimal(minor), Decimal(blocks), name])
    requires blocks < U64_LIMIT
    ensures BelongsTo(line, name[..3]) && !IsDiskRow(line)
    ensures PartitionOf(line, mounts)
         == Partition(name, if major < U8_LIMIT then major else 0, if minor < U8_LIMIT then minor else 0, blocks * 1024,
                      FirstMount(mounts, name).1, FirstMount(mounts, name).0)
  {
    assert IsToken(name) by {
      forall k | 0 <= k < |name| ensures IsNonSpace(name[k]) {
        assert IsWordChar(name[k]);
      }
    }
    RowFields(line, gaps, major, minor, blocks, name);
    ParseDecimal(major);
    ParseDecimal(minor);
    ParseDecimal(blocks);
  }
}
