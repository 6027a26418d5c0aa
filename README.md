# symon — a Dafny model of the /proc parsers

symon prints a summary of a Linux machine: processor model, memory and swap,
network interfaces, block devices and their partitions with mount points.
Everything it reports is read from files under /proc and turned into records
by a handful of parsers in `src/lib.rs`; `src/utils.rs` holds the helpers that
turn byte counts, percentages and uptimes into display units.

This project models those parsers and helpers and proves what they compute:

* **Text**, **Numbers** — the pieces the regular expressions and
  `str::parse` provide: greedy runs of a character class, the first
  occurrence of a literal, whitespace-separated fields, decimal numerals and
  the `u64`/`u8` parses with their `Err(_) => 0` fallback.
* **Scan** — the shape shared by every `captures_iter` loop: one record per
  matching line, in file order (`Keep`).
* **Meminfo** — `MemInfo::from`: for each of `MemTotal:`, `MemFree:`,
  `SwapTotal:`, `SwapFree:` the digit run after the first occurrence of the
  label and its whitespace, times 1024.
* **Cpuinfo** — `cpu_info`: the rest of the line after the first
  `model name<whitespace>: `.
* **Netdev** — `network_dev`: per interface line, the word before the colon,
  the first counter (received bytes) and the ninth (transmitted bytes).
* **Partitions** — `storage_dev` (rows of /proc/partitions whose name has no
  digit) and `storage_partitions` (for each device, the partition rows whose
  name starts with the device's three-character name, each with the mount
  point and file system of the first /proc/mounts entry for it).
* **Utils** — `conv_p`, the unit band of `conv_b` and the decomposition of
  `conv_t`.

Every file read becomes a parameter: /proc/meminfo and /proc/cpuinfo are
whole strings; /proc/net/dev, /proc/partitions and /proc/mounts are sequences
of lines. A read that fails is `None`. The `unwrap()` calls that can panic
become preconditions: every memory label must occur (`src/lib.rs:41`), the
cpuinfo pattern must match (`src/lib.rs:214`), and, when there is at least one
device, every partition name must have at least three characters
(`src/lib.rs:322`).

The loops of the source are methods (`Meminfo.FromText`,
`Netdev.NetworkDev`, `Partitions.StorageDev`, `Partitions.StoragePartitions`
with its inner loop `Partitions.DevicePartitions` and its mount scan
`Partitions.ScanMounts`), each proved equal to a specification function, and
the properties are proved as lemmas about those functions.

The mount scan clears the mount point and file system on every entry that
names another device, but stops at the first entry for the partition, so a
value once found is never cleared again: `Partitions.ScanMounts` keeps both
the clearing and the `break` and is proved to return the first entry's
fields, or two empty strings when there is none.

## Model

| member | source | states |
|---|---|---|
| Text.SpanFrom | src/lib.rs:34-37 | a greedy `\s*` or `\d*` from a position stops at the first character outside the class or at the end |
| Text.SpanBack | src/lib.rs:253 | the `[\d\w]*` run ending at a position starts right after the last character outside the class |
| Text.IndexOf | src/lib.rs:41 | an unanchored literal matches at its first occurrence: the result is an occurrence and none lies before it; None only when it occurs nowhere |
| Text.FieldsSpaced | src/lib.rs:253 | tokenising a line laid out as whitespace-separated fields gives back exactly those fields |
| Numbers.ParseU64 | src/lib.rs:42 | `parse::<u64>` succeeds exactly on a non-empty digit string whose value is below 2^64, and yields that value |
| Numbers.ParseU8 | src/lib.rs:285-288 | `parse::<u8>` succeeds exactly on a non-empty digit string whose value is below 256 |
| Numbers.ParseDecimal | src/lib.rs:285-296 | with the `Err(_) => 0` fallback a written number reads as itself when it fits (u8: below 256, so 259 reads as 0) and as 0 otherwise; an empty capture is an error |
| Scan.KeepInFileOrder | src/lib.rs:254-267 | a captures_iter loop yields one record per matching line, the k-th built from the k-th matching line, in file order, and misses no matching line |
| Scan.KeepNothing | src/lib.rs:321-322 | a loop whose test holds on no line pushes nothing |
| Utils.ConvP | src/utils.rs:1-3 | 0 when total is 0; otherwise the floor of free*100/total (percent*total <= free*100 < (percent+1)*total), at most 100 when free <= total |
| Utils.ConvB | src/utils.rs:5-24 | exactly one unit satisfies the band bounds (B below 1024, KB, MB, GB, TB from 1024^4 on); the whole part satisfies whole*1024^k <= bytes < (whole+1)*1024^k and lies in [1, 1024) for KB, MB and GB |
| Utils.ConvT | src/utils.rs:26-46 | the band is chosen by sec < 60, < 3600, < 216000, else days; the components recompose to sec; minutes and seconds are below 60, hours below 60 in the hours band and below 24 in the days band, days at least 2 |
| Meminfo.Capture | src/lib.rs:34-41 | the capture of `<label>\s*(\d*)` is a digit string |
| Meminfo.ReadField | src/lib.rs:41-45 | one loop pass pushes 1024 times the parsed capture, or 0 when it does not parse |
| Meminfo.FromText | src/lib.rs:31-48 | the four fields are, in order, the byte values of MemTotal:, MemFree:, SwapTotal:, SwapFree: |
| Meminfo.CaptureOf | src/lib.rs:34-41 | in text where the label first occurs after a prefix, followed by whitespace and a digit run, the capture is that digit run |
| Meminfo.LabelBytesOf | src/lib.rs:41-45 | the field is 1024 times the value of the digit run; an empty run or a value beyond u64 gives 0 |
| Meminfo.LabelBytesOfDecimal | src/lib.rs:33-47 | a line `MemTotal:   n kB` (first occurrence of the label) gives n*1024 bytes |
| Cpuinfo.FirstMatchFrom | src/lib.rs:213-214 | the match found is the leftmost place where `model name\s*: ` matches |
| Cpuinfo.ValueStart | src/lib.rs:213 | the capture of the match at i starts right after `model name`, the whitespace run that follows it (all whitespace) and the `: ` separator |
| Cpuinfo.CpuInfo | src/lib.rs:210-222 | "" when the file cannot be read; otherwise the text from the separator of the first match up to the end of its line, containing no newline |
| Cpuinfo.CpuInfoOf | src/lib.rs:213-215 | for text whose first match is `model name<ws>: value`, cpu_info returns value verbatim, inner spaces included |
| Netdev.ReadInterface | src/lib.rs:255-267 | one loop pass builds the record of the matched line |
| Netdev.NetworkDev | src/lib.rs:249-276 | no records when /proc/net/dev cannot be read; otherwise one record per line with a colon, in file order |
| Netdev.NameBeforeColon | src/lib.rs:253 | the name is the run of word characters just before the colon |
| Netdev.InterfaceOf | src/lib.rs:253-266 | for `<name>:` followed by at least nine counters the record has that name, the first counter as received bytes and the ninth as transmitted bytes (each 0 when it does not fit in u64) |
| Partitions.ReadStorage | src/lib.rs:284-301 | one loop pass builds the record of a disk row |
| Partitions.StorageDev | src/lib.rs:278-311 | no devices when /proc/partitions cannot be read; otherwise one per disk row (name without digits), in file order |
| Partitions.DiskRowOf | src/lib.rs:282-301 | a disk row gives its name, its major and minor numbers when below 256 and 0 otherwise, and blocks*1024 bytes; the partition pattern does not take it |
| Partitions.MountLineOf | src/lib.rs:340 | a line `/dev/<name> <mountpoint> <filesystem> ...` is an entry for name with those two fields |
| Partitions.FirstMountIsFirst | src/lib.rs:341-352 | the first mount entry for the name supplies mount point and file system; with no entry both are empty |
| Partitions.ScanMounts | src/lib.rs:341-354 | the scan with its clearing else-branch and its break returns the first entry's fields, or two empty strings |
| Partitions.ReadPartition | src/lib.rs:323-359 | one loop pass builds the partition of a row with the scanned mount fields |
| Partitions.DevicePartitions | src/lib.rs:319-368 | the partitions of one device are its rows in file order; none when /proc/mounts cannot be read |
| Partitions.StoragePartitions | src/lib.rs:313-378 | an empty map when /proc/partitions cannot be read; otherwise the keys are exactly the device names and each maps to its partitions |
| Partitions.PartitionMapKeys | src/lib.rs:317-370 | every device is a key, also one without partitions, no other name is, and each key maps to the partitions of that name |
| Partitions.MountsUnavailable | src/lib.rs:338-365 | without /proc/mounts every device still is a key and maps to an empty sequence |
| Partitions.PartitionsOfDevice | src/lib.rs:320-359 | every partition under d comes from a partition row, has a name ending in a digit whose first three characters are d, and the first mount entry of that name; they are in file order and no row of d is missed |
| Partitions.NotThreeChars | src/lib.rs:322 | a device whose name is not three characters long gets no partitions |
| Partitions.PartitionRowOf | src/lib.rs:320-358 | a partition row belongs to the device named by its first three characters, is no disk row, and gives its name, u8-or-0 numbers, blocks*1024 bytes and its first mount entry |

## Left out

- File reads (`Process::get`, every `fs::read_to_string`): the contents are parameters, a failed read is `None`.
- The `println!` diagnostics on error paths: logging only.
- `cpu_clock`: a floating-point sum and mean of the `cpu MHz` lines.
- `Uptime::from`: floating-point parsing of /proc/uptime.
- `PcInfo::new`, all `Display` implementations and the report template: presentation and I/O glue.
- `src/bin/symon.rs` is not part of this model (command-line check and logo).
- Regular-expression engine behaviour across line boundaries: `\s*` spanning newlines (on the kernel's layout this gives the same captures as the line-by-line reading), `\D*` taking the final newline of the last digit-free row (this does happen on the kernel's own text, see `Partitions.StorageDev` below), and `/dev/(\w*)` matching inside a mount point such as `tmpfs /dev/shm` (a standard line; its capture `shm` never equals a partition name, which ends in a digit, so the mount scan's result is unchanged). Line-based patterns are modelled as the field tokenisation they perform; the lemmas `Netdev.InterfaceOf`, `Partitions.DiskRowOf`, `Partitions.PartitionRowOf` and `Partitions.MountLineOf` state, as preconditions, the well-formed layout under which that tokenisation is what the pattern captures.
- `\s`, `\d` and `\w` are the ASCII classes; the Unicode classes of the regex crate are not modelled.
- `str::parse` accepting a leading `+`: the captures are digit runs, so it cannot occur.
- Netdev.NetworkDev: records are built from the whitespace fields after the first colon, so it matches the pattern's captures only on lines of the kernel's layout.
- Meminfo.FromText: `n * 1024` is computed on unbounded integers; the u64 overflow (a panic or wrap-around) for counts of 2^54 kB or more is not modelled.
- Partitions.StorageDev: when the last row of /proc/partitions is a disk (a name without digits, such as an unpartitioned `sdb` listed last), the source's `\D*$` also takes the newline that ends the file and stores the name `"sdb\n"`, which `storage_partitions` then uses as that device's map key; the model reads rows line by line and gives `"sdb"`.
- Partitions.StorageDev: `blocks * 1024` is computed on unbounded integers; the u64 overflow is not modelled.
- Partitions.StoragePartitions: /proc/mounts is read once per partition in the source; the model reads it once, as one parameter, so a file that changes between reads is not modelled.
- Utils.ConvP: `free * 100` is unbounded; the u64 overflow for free of 2^64/100 or more is not modelled.
- Utils.ConvB: the result is the unit and the whole part of the scaled value; the two-decimal rendering of the fraction and the f64 conversion of very large counts are not modelled.
- Utils.ConvT: works on whole seconds; the fractional seconds and the float printing of the first band are not modelled.
