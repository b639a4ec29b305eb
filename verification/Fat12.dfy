/** The serial console helper disk: a 1440 KiB FAT12 image with a few files in
    its root directory, and a reader that follows the Microsoft FAT
    Specification, sections 3 (BPB), 4 (FAT) and 6 (directory structure). */
module Fat12 {
  import opened Shared

  const SECTOR := 512
  const TOTAL_SECTORS := 2880
  const RESERVED_SECTORS := 1
  const FATS := 2
  const ROOT_ENTRIES := 224
  const SECTORS_PER_FAT := 9
  const MEDIA := 0xF0
  const ROOT_SECTORS := ROOT_ENTRIES * 32 / SECTOR
  const DATA_SECTOR := RESERVED_SECTORS + FATS * SECTORS_PER_FAT + ROOT_SECTORS
  const DATA_CLUSTERS := TOTAL_SECTORS - DATA_SECTOR
  const FAT_BYTES := SECTORS_PER_FAT * SECTOR
  const FAT_DATE := 46 * 512 + 33
  const END_OF_CHAIN := 0xFFF

  function Zeros(n: nat): (z: seq<byte>)
    ensures |z| == n
  {
    seq(n, _ => 0)
  }

  /** `s` filled up to `n` bytes with `fill`; longer sequences stay as they are. */
  function Pad(s: seq<byte>, n: nat, fill: byte): (r: seq<byte>)
    ensures |r| == if |s| < n then n else |s|
    ensures r[..|s|] == s
  {
    if |s| < n then s + seq(n - |s|, _ => fill) else s
  }

  function Le16(v: nat): (b: seq<byte>)
    requires v < 0x1_0000
    ensures |b| == 2
  {
    [v % 256, v / 256]
  }

  function Le32(v: nat): (b: seq<byte>)
    requires v < 0x1_0000_0000
    ensures |b| == 4
  {
    [v % 256, v / 256 % 256, v / 0x1_0000 % 256, v / 0x100_0000]
  }

  function Get16(s: seq<byte>, at: nat): nat
    requires at + 2 <= |s|
  {
    s[at] as int + s[at + 1] as int * 256
  }

  function Get32(s: seq<byte>, at: nat): nat
    requires at + 4 <= |s|
  {
    s[at] as int + s[at + 1] as int * 256 + s[at + 2] as int * 0x1_0000 + s[at + 3] as int * 0x100_0000
  }

  // ------------------------------------------------------ packing the table

  function EntryOr0(entries: seq<nat>, i: nat): nat {
    if i < |entries| then entries[i] else 0
  }

  /** Byte `p` of the packed table: two entries share three bytes. */
  function PackedByte(entries: seq<nat>, p: nat): byte {
    var a, b := EntryOr0(entries, p / 3 * 2), EntryOr0(entries, p / 3 * 2 + 1);
    if p % 3 == 0 then a % 256
    else if p % 3 == 1 then a / 256 % 16 + b % 16 * 16
    else b / 16 % 256
  }

  function Packed(entries: seq<nat>): (t: seq<byte>)
    ensures |t| == FAT_BYTES
  {
    seq(FAT_BYTES, p requires 0 <= p < FAT_BYTES => PackedByte(entries, p))
  }

  /** fat12: three bytes for each pair of entries, then zeros. */
  method PackFat(entries: seq<nat>) returns (t: seq<byte>)
    requires |entries| <= DATA_CLUSTERS + 2
    ensures t == Packed(entries)
  {
    var out: seq<byte> := [];
    var i := 0;
    while i < |entries|
      invariant i % 2 == 0 && i <= |entries| + 1
      invariant |out| == i / 2 * 3
      invariant forall p :: 0 <= p < |out| ==> out[p] == PackedByte(entries, p)
    {
      var a := entries[i];
      var b := if i + 1 < |entries| then entries[i + 1] else 0;
      out := out + [a % 256, a / 256 % 16 + b % 16 * 16, b / 16 % 256];
      i := i + 2;
    }
    t := Pad(out, FAT_BYTES, 0);
    forall p | 0 <= p < FAT_BYTES ensures t[p] == PackedByte(entries, p) {
      if p < |out| {
        assert t[p] == t[..|out|][p];
      }
    }
  }

  /** Entry `n` of a packed table, as a reader takes it out. */
  function FatEntry(t: seq<byte>, n: nat): nat
    requires n / 2 * 3 + 2 < |t|
  {
    var p := n / 2 * 3;
    if n % 2 == 0 then t[p] as int + t[p + 1] as int % 16 * 256
    else t[p + 1] as int / 16 + t[p + 2] as int * 16
  }

  lemma Nibbles(x: nat, y: nat)
    requires x < 16
    ensures (x + y * 16) % 16 == x && (x + y * 16) / 16 == y
  {
  }

  lemma LowEntry(a: nat, b: nat)
    requires a < 4096
    ensures a % 256 + (a / 256 % 16 + b % 16 * 16) % 16 * 256 == a
  {
    Nibbles(a / 256 % 16, b % 16);
  }

  lemma HighEntry(a: nat, b: nat)
    requires b < 4096
    ensures (a / 256 % 16 + b % 16 * 16) / 16 + b / 16 % 256 * 16 == b
  {
    Nibbles(a / 256 % 16, b % 16);
  }

  /** The reader takes out what was packed. */
  lemma PackedEntry(entries: seq<nat>, n: nat)
    requires n < |entries| && n / 2 * 3 + 2 < FAT_BYTES && entries[n] < 4096
    ensures FatEntry(Packed(entries), n) == entries[n]
  {
    var g := n / 2;
    var a, b := EntryOr0(entries, g * 2), EntryOr0(entries, g * 2 + 1);
    Group(entries, g);
    if n % 2 == 0 {
      LowEntry(a, b);
    } else {
      HighEntry(a, b);
    }
  }

  /** The three bytes of a pair of entries. */
  lemma Group(entries: seq<nat>, g: nat)
    requires g * 3 + 2 < FAT_BYTES
    ensures var t := Packed(entries);
      var a, b := EntryOr0(entries, g * 2), EntryOr0(entries, g * 2 + 1);
      t[g * 3] == a % 256 && t[g * 3 + 1] == a / 256 % 16 + b % 16 * 16 && t[g * 3 + 2] == b / 16 % 256
  {
    assert g * 3 / 3 == g && (g * 3 + 1) / 3 == g && (g * 3 + 2) / 3 == g;
    assert g * 3 % 3 == 0 && (g * 3 + 1) % 3 == 1 && (g * 3 + 2) % 3 == 2;
  }

  // -------------------------------------------------------------- the files

  /** A file with its 8.3 name in two parts, as ASCII. */
  datatype File = File(base: seq<byte>, ext: seq<byte>, content: seq<byte>)

  predicate Upper(b: byte) { 65 <= b <= 90 }
  predicate Lower(b: byte) { 97 <= b <= 122 }

  /** At least one letter, and none in lower case. */
  predicate IsUpper(s: seq<byte>) {
    HasUpper(s, |s|) && NoLower(s, |s|)
  }

  predicate HasUpper(s: seq<byte>, n: nat)
    requires n <= |s|
  {
    n > 0 && (Upper(s[n - 1]) || HasUpper(s, n - 1))
  }

  predicate NoLower(s: seq<byte>, n: nat)
    requires n <= |s|
  {
    n > 0 ==> !Lower(s[n - 1]) && NoLower(s, n - 1)
  }

  predicate Short(f: File) {
    |f.base| <= 8 && |f.ext| <= 3
  }

  predicate NameOk(f: File) {
    IsUpper(f.base) && IsUpper(f.ext) && Short(f)
  }

  /** Clusters a content needs. */
  function Count(content: seq<byte>): nat {
    (|content| + SECTOR - 1) / SECTOR
  }

  /** Clusters of the first `n` files together. */
  function Clusters(files: seq<File>, n: nat): nat
    requires n <= |files|
  {
    if n == 0 then 0 else Clusters(files, n - 1) + Count(files[n - 1].content)
  }

  /** The first cluster of file `i`, if it has any. */
  function First(files: seq<File>, i: nat): nat
    requires i < |files|
  {
    if Count(files[i].content) == 0 then 0 else 2 + Clusters(files, i)
  }

  /** The table entries of a chain of `count` clusters that starts at `first`. */
  function Links(first: nat, count: nat): (l: seq<nat>)
    ensures |l| == count
  {
    seq(count, k requires 0 <= k < count => if k + 1 < count then first + k + 1 else END_OF_CHAIN)
  }

  /** The table with the first `n` files. */
  function Table(files: seq<File>, n: nat): (t: seq<nat>)
    requires n <= |files|
    ensures |t| == 2 + Clusters(files, n)
  {
    if n == 0 then [0xF00 + MEDIA, 0xFFF]
    else Table(files, n - 1) + Links(2 + Clusters(files, n - 1), Count(files[n - 1].content))
  }

  /** The data area with the first `n` files. */
  function Data(files: seq<File>, n: nat): (d: seq<byte>)
    requires n <= |files|
    ensures |d| == Clusters(files, n) * SECTOR
  {
    if n == 0 then []
    else Data(files, n - 1) + Pad(files[n - 1].content, Count(files[n - 1].content) * SECTOR, 0)
  }

  /** A 32-byte directory entry. */
  function DirEntry(name: seq<byte>, ext: seq<byte>, attr: byte, ntres: byte, cluster: nat, size: nat): (d: seq<byte>)
    requires |name| == 8 && |ext| == 3 && cluster < 0x1_0000 && size < 0x1_0000_0000
    ensures |d| == 32
  {
    name + ext + ([attr, ntres, 0] + Le16(0) + Le16(FAT_DATE) + Le16(FAT_DATE) + Le16(0) + Le16(0) + Le16(FAT_DATE))
      + (Le16(cluster) + Le32(size))
  }

  const LABEL: seq<byte> := [78, 65, 78, 79, 75, 86, 77, 32, 32, 32, 32]

  /** The volume label's directory entry. */
  function LabelEntry(): (d: seq<byte>)
    ensures |d| == 32
  {
    DirEntry(LABEL[..8], LABEL[8..], 8, 0, 0, 0)
  }

  /** The name field of a file's directory entry. */
  function NameField(f: File): (n: seq<byte>)
    requires Short(f)
    ensures |n| == 11
  {
    Pad(f.base, 8, 32) + Pad(f.ext, 3, 32)
  }

  /** A file's directory entry; the display name is lower case. */
  function FileEntry(f: File, first: nat): (d: seq<byte>)
    requires Short(f) && first < 0x1_0000 && |f.content| < 0x1_0000_0000
    ensures |d| == 32
  {
    DirEntry(Pad(f.base, 8, 32), Pad(f.ext, 3, 32), 0x20, 0x18, first, |f.content|)
  }

  /** The directory entry of file `i`. */
  function EntryOf(files: seq<File>, i: nat): (d: seq<byte>)
    requires i < |files| && Short(files[i]) && Clusters(files, |files|) <= DATA_CLUSTERS
    ensures |d| == 32
  {
    ClustersBefore(files, i, |files|);
    FileEntry(files[i], First(files, i))
  }

  /** The names fit their fields and the contents the data area. */
  predicate Fits(files: seq<File>) {
    (forall i :: 0 <= i < |files| ==> Short(files[i])) && Clusters(files, |files|) <= DATA_CLUSTERS
  }

  /** What build accepts: the names must be in upper case, too. */
  predicate Accepted(files: seq<File>) {
    (forall i :: 0 <= i < |files| ==> NameOk(files[i])) && Clusters(files, |files|) <= DATA_CLUSTERS
  }

  function Concat(blocks: seq<seq<byte>>): seq<byte> {
    if blocks == [] then [] else Concat(blocks[..|blocks| - 1]) + blocks[|blocks| - 1]
  }

  /** The entries of the directory: the volume label and the first `n` files. */
  function Entries(files: seq<File>, n: nat): (e: seq<seq<byte>>)
    requires n <= |files| && Fits(files)
    ensures |e| == n + 1 && forall k :: 0 <= k <= n ==> |e[k]| == 32
  {
    seq(n + 1, k requires 0 <= k <= n => if k == 0 then LabelEntry() else EntryOf(files, k - 1))
  }

  /** The directory with the first `n` files. */
  function Root(files: seq<File>, n: nat): (r: seq<byte>)
    requires n <= |files| && Fits(files)
    ensures |r| == 32 * (n + 1)
  {
    Blocks(Entries(files, n), n);
    Concat(Entries(files, n))
  }

  lemma {:induction false} Blocks(blocks: seq<seq<byte>>, k: nat)
    requires forall i :: 0 <= i < |blocks| ==> |blocks[i]| == 32
    requires k < |blocks|
    ensures |Concat(blocks)| == 32 * |blocks| && Concat(blocks)[32 * k..32 * (k + 1)] == blocks[k]
    decreases |blocks|
  {
    var n := |blocks| - 1;
    var init := blocks[..n];
    var whole, a, b := Concat(blocks), Concat(init), blocks[n];
    assert whole == a + b;
    if k < n {
      Blocks(init, k);
      SliceOfSum(a, b, 32 * k, 32 * (k + 1));
    } else if n > 0 {
      Blocks(init, 0);
      SliceOfSum(a, b, 0, 0);
    }
  }

  lemma SliceOfSum<T>(a: seq<T>, b: seq<T>, from: nat, to: nat)
    requires from <= to <= |a|
    ensures (a + b)[from..to] == a[from..to] && (a + b)[|a|..|a| + |b|] == b
  {
  }

  lemma RootGrows(files: seq<File>, i: nat)
    requires Fits(files) && i < |files|
    ensures Root(files, i + 1) == Root(files, i) + EntryOf(files, i)
  {
    assert Entries(files, i + 1)[..i + 1] == Entries(files, i);
  }

  lemma RootStarts(files: seq<File>)
    requires Fits(files)
    ensures Root(files, 0) == LabelEntry()
  {
    assert Entries(files, 0)[..0] == [];
  }

  lemma RootHolds(files: seq<File>, n: nat, i: nat)
    requires Fits(files) && i < n <= |files|
    ensures Root(files, n)[32 * (i + 1)..32 * (i + 2)] == EntryOf(files, i)
  {
    Blocks(Entries(files, n), i + 1);
    assert Entries(files, n)[i + 1] == EntryOf(files, i);
  }

  /** Consecutive files take consecutive clusters. */
  lemma {:induction false} ClustersBefore(files: seq<File>, i: nat, n: nat)
    requires i < n <= |files|
    ensures Clusters(files, i) + Count(files[i].content) <= Clusters(files, n)
    ensures |files[i].content| <= Count(files[i].content) * SECTOR
    decreases n
  {
    if i < n - 1 {
      ClustersBefore(files, i, n - 1);
    }
  }

  lemma {:induction false} EntrySmall(files: seq<File>, i: nat)
    requires i < |files| && Clusters(files, |files|) <= DATA_CLUSTERS
    ensures First(files, i) < 0x1_0000 && |files[i].content| < 0x1_0000_0000
  {
    ClustersBefore(files, i, |files|);
  }

  // -------------------------------------------------------------- the image

  /** Python slice assignment: the bytes at `start` are replaced, and the array
      grows if they reach beyond its end. */
  function Store(image: seq<byte>, start: nat, bytes: seq<byte>): (r: seq<byte>)
    requires start <= |image|
    ensures start + |bytes| <= |image| ==> |r| == |image|
  {
    image[..start] + bytes + (if start + |bytes| <= |image| then image[start + |bytes|..] else [])
  }

  /** The BIOS parameter block, the boot code and the signature. */
  function BootSector(code: seq<byte>): (b: seq<byte>)
    requires |code| <= 448
    ensures |b| == SECTOR
  {
    Bpb() + Pad(code, 448, 0) + [0x55, 0xAA]
  }

  function Bpb(): (b: seq<byte>)
    ensures |b| == 0x3E
  {
    ([0xEB, 0x3C, 0x90] + [78, 65, 78, 79, 75, 86, 77, 32])
      + (Le16(SECTOR) + [1] + Le16(RESERVED_SECTORS) + [FATS] + Le16(ROOT_ENTRIES) + Le16(TOTAL_SECTORS) + [MEDIA]
         + Le16(SECTORS_PER_FAT) + Le16(18) + Le16(2) + Le32(0) + Le32(0))
      + ([0, 0, 0x29] + Le32(0x4E4B564D) + LABEL + [70, 65, 84, 49, 50, 32, 32, 32])
  }

  const FAT_START := RESERVED_SECTORS * SECTOR
  const ROOT_START := (RESERVED_SECTORS + FATS * SECTORS_PER_FAT) * SECTOR
  const DATA_START := DATA_SECTOR * SECTOR
  const IMAGE_BYTES := TOTAL_SECTORS * SECTOR

  function Image(files: seq<File>, code: seq<byte>): seq<byte>
    requires Fits(files) && |code| <= 448
  {
    var fat := Packed(Table(files, |files|));
    var blank := Store(Zeros(IMAGE_BYTES), 0, BootSector(code));
    var fats := Store(Store(blank, FAT_START, fat), FAT_START + FAT_BYTES, fat);
    Store(Store(fats, ROOT_START, Root(files, |files|)), DATA_START, Data(files, |files|))
  }

  /** build: None where an assertion or struct.pack stops it. */
  method Build(files: seq<File>, code: seq<byte>) returns (image: Option<seq<byte>>)
    requires |code| <= 448
    ensures image.Some? <==> Accepted(files)
    ensures image.Some? ==> Fits(files) && image.value == Image(files, code)
  {
    var ok, fat, root, data := Allocate(files);
    if !ok || |fat| - 2 > DATA_CLUSTERS {
      return None;
    }
    var bytes := Compose(fat, root, data, code);
    return Some(bytes);
  }

  predicate RootSoFar(files: seq<File>, n: nat, root: seq<byte>)
    requires n <= |files|
  {
    Fits(files) ==> root == Root(files, n)
  }

  lemma {:induction false} RootStep(files: seq<File>, i: nat, root: seq<byte>, entry: seq<byte>)
    requires i < |files| && Short(files[i]) && RootSoFar(files, i, root)
    requires Clusters(files, |files|) <= DATA_CLUSTERS ==> entry == EntryOf(files, i)
    ensures RootSoFar(files, i + 1, root + entry)
  {
    if Fits(files) {
      RootGrows(files, i);
    }
  }

  /** The loop over the files: the table, the directory and the data grow. */
  method Allocate(files: seq<File>) returns (ok: bool, fat: seq<nat>, root: seq<byte>, data: seq<byte>)
    ensures Accepted(files) ==> ok
    ensures ok ==> (forall i :: 0 <= i < |files| ==> NameOk(files[i])) && fat == Table(files, |files|)
                   && data == Data(files, |files|)
    ensures ok && Fits(files) ==> root == Root(files, |files|)
  {
    fat, data := [0xF00 + MEDIA, 0xFFF], [];
    root := LabelEntry();
    var next := 2;
    if Fits(files) {
      RootStarts(files);
    }
    for i := 0 to |files|
      invariant forall j :: 0 <= j < i ==> NameOk(files[j])
      invariant next == 2 + Clusters(files, i) && fat == Table(files, i) && data == Data(files, i)
      invariant RootSoFar(files, i, root)
    {
      var entry;
      ok, next, fat, data, entry := AddFile(files, i, next, fat, data);
      if !ok {
        return;
      }
      RootStep(files, i, root, entry);
      root := root + entry;
    }
    ok := true;
  }

  /** One turn of the loop: the file takes the next clusters, or none. */
  method AddFile(files: seq<File>, i: nat, next: nat, fat: seq<nat>, data: seq<byte>)
    returns (ok: bool, next': nat, fat': seq<nat>, data': seq<byte>, entry: seq<byte>)
    requires i < |files| && next == 2 + Clusters(files, i) && fat == Table(files, i) && data == Data(files, i)
    ensures NameOk(files[i]) && Clusters(files, |files|) <= DATA_CLUSTERS ==> ok
    ensures ok ==> NameOk(files[i])
    ensures ok ==> next' == 2 + Clusters(files, i + 1) && fat' == Table(files, i + 1) && data' == Data(files, i + 1)
    ensures ok && Clusters(files, |files|) <= DATA_CLUSTERS ==> entry == EntryOf(files, i)
  {
    var f := files[i];
    next', fat', data', entry := next, fat, data, [];
    var count := Count(f.content);
    var first := if count == 0 then 0 else next;
    ok := NameOk(f) && first < 0x1_0000 && |f.content| < 0x1_0000_0000;
    if Clusters(files, |files|) <= DATA_CLUSTERS {
      EntrySmall(files, i);
    }
    if ok {
      if count != 0 {
        fat' := fat + Links(first, count);
        next' := next + count;
        data' := data + Pad(f.content, count * SECTOR, 0);
      }
      entry := FileEntry(f, first);
    }
  }

  /** The image, filled slice by slice. */
  method Compose(fat: seq<nat>, root: seq<byte>, data: seq<byte>, code: seq<byte>) returns (image: seq<byte>)
    requires |fat| <= DATA_CLUSTERS + 2 && |code| <= 448 && |data| <= DATA_CLUSTERS * SECTOR
    ensures var packed := Packed(fat);
      var fats := Store(Store(Store(Zeros(IMAGE_BYTES), 0, BootSector(code)), FAT_START, packed), FAT_START + FAT_BYTES,
                        packed);
      image == Store(Store(fats, ROOT_START, root), DATA_START, data)
  {
    image := Store(Zeros(IMAGE_BYTES), 0, BootSector(code));
    var packed := PackFat(fat);
    ghost var blank := image;
    for n := 0 to FATS
      invariant |image| == IMAGE_BYTES
      invariant n == 0 ==> image == blank
      invariant n == 1 ==> image == Store(blank, FAT_START, packed)
      invariant n == 2 ==> image == Store(Store(blank, FAT_START, packed), FAT_START + FAT_BYTES, packed)
    {
      var start := (RESERVED_SECTORS + n * SECTORS_PER_FAT) * SECTOR;
      image := Store(image, start, packed);
    }
    image := Store(image, ROOT_START, root);
    image := Store(image, DATA_START, data);
  }

  // -------------------------------------------------------------- the reader

  /** What a reader takes from the BIOS parameter block. */
  datatype Geometry = Geometry(sector: nat, perCluster: nat, reserved: nat, fats: nat, rootEntries: nat, total: nat,
                               perFat: nat)

  function GeometryOf(image: seq<byte>): Geometry
    requires |image| >= SECTOR
  {
    Geometry(Get16(image, 11), image[13], Get16(image, 14), image[16], Get16(image, 17), Get16(image, 19),
             Get16(image, 22))
  }

  const FLOPPY := Geometry(SECTOR, 1, RESERVED_SECTORS, FATS, ROOT_ENTRIES, TOTAL_SECTORS, SECTORS_PER_FAT)

  /** Bytes in `units` units of `size` bytes. */
  function Area(units: nat, size: nat): nat {
    if units == 0 then 0 else Area(units - 1, size) + size
  }

  lemma {:induction false} AreaIs(units: nat, size: nat)
    ensures Area(units, size) == units * size
  {
    if units > 0 {
      AreaIs(units - 1, size);
    }
  }

  function RootAt(g: Geometry): nat {
    Area(g.reserved + Area(g.fats, g.perFat), g.sector)
  }

  function DataAt(g: Geometry): nat {
    RootAt(g) + g.rootEntries * 32
  }

  /** The bytes of cluster `c`; none if it is not in the image. */
  function ClusterAt(image: seq<byte>, g: Geometry, c: nat): seq<byte> {
    if c < 2 then []
    else
      var size := Area(g.perCluster, g.sector);
      var at := DataAt(g) + Area(c - 2, size);
      if at + size > |image| then [] else image[at..at + size]
  }

  /** The chain of clusters from `c` on, at most `fuel` of them. */
  function Chain(fat: seq<byte>, c: nat, fuel: nat): seq<nat>
    decreases fuel
  {
    if fuel == 0 || c < 2 || c >= 0xFF7 || c / 2 * 3 + 2 >= |fat| then []
    else [c] + Chain(fat, FatEntry(fat, c), fuel - 1)
  }

  /** The bytes of the first `n` clusters of a chain. */
  function JoinFirst(image: seq<byte>, g: Geometry, chain: seq<nat>, n: nat): seq<byte>
    requires n <= |chain|
  {
    if n == 0 then [] else JoinFirst(image, g, chain, n - 1) + ClusterAt(image, g, chain[n - 1])
  }

  function JoinClusters(image: seq<byte>, g: Geometry, chain: seq<nat>): seq<byte> {
    JoinFirst(image, g, chain, |chain|)
  }

  /** What a reader finds behind root entry `i`: its name, chain and content. */
  datatype Found = Found(name: seq<byte>, chain: seq<nat>, content: seq<byte>)

  function ReadEntry(image: seq<byte>, g: Geometry, i: nat): Option<Found>
    requires |image| >= SECTOR
  {
    var fatAt, fatEnd := Area(g.reserved, g.sector), Area(g.reserved, g.sector) + Area(g.perFat, g.sector);
    if i >= g.rootEntries || DataAt(g) > |image| || fatEnd > RootAt(g) then None
    else
      var at := RootAt(g) + 32 * i;
      if at + 32 > |image| then None
      else EntryAt(image, g, image[fatAt..fatEnd], at)
  }

  /** What the directory entry at byte `at` leads to, through the table `fat`. */
  function EntryAt(image: seq<byte>, g: Geometry, fat: seq<byte>, at: nat): Option<Found>
    requires at + 32 <= |image|
  {
    var chain := Chain(fat, Get16(image, at + 26), g.total);
    var bytes := JoinClusters(image, g, chain);
    var size := Get32(image, at + 28);
    if size > |bytes| then None else Some(Found(image[at..at + 11], chain, bytes[..size]))
  }

  // ---------------------------------------------------------- the round trip

  lemma StoreHere(image: seq<byte>, start: nat, bytes: seq<byte>)
    requires start <= |image|
    ensures |Store(image, start, bytes)| >= |image| && |Store(image, start, bytes)| >= start + |bytes|
    ensures Store(image, start, bytes)[start..start + |bytes|] == bytes
  {
  }

  lemma StoreElsewhere(image: seq<byte>, start: nat, bytes: seq<byte>, a: nat, b: nat)
    requires start <= |image| && a <= b <= |image| && (b <= start || start + |bytes| <= a)
    ensures |Store(image, start, bytes)| >= |image|
    ensures Store(image, start, bytes)[a..b] == image[a..b]
  {
  }

  /** How much of the directory lies in the root directory of the disk. */
  function Shown(n: nat): nat {
    if n < ROOT_ENTRIES * 32 then n else ROOT_ENTRIES * 32
  }

  /** The parts of an image and where they are. */
  ghost predicate Parts(image: seq<byte>, files: seq<File>, code: seq<byte>)
    requires Fits(files) && |code| <= 448
  {
    var root, data := Root(files, |files|), Data(files, |files|);
    && |image| >= IMAGE_BYTES && image[..SECTOR] == BootSector(code)
    && image[FAT_START..FAT_START + FAT_BYTES] == Packed(Table(files, |files|))
    && image[FAT_START + FAT_BYTES..ROOT_START] == Packed(Table(files, |files|))
    && image[ROOT_START..ROOT_START + Shown(|root|)] == root[..Shown(|root|)]
    && image[DATA_START..DATA_START + |data|] == data
  }

  /** Five stores: the directory, if it is too long, is cut where the data
      begins, and everything else is in its place. */
  lemma FiveStores(boot: seq<byte>, fat: seq<byte>, root: seq<byte>, data: seq<byte>)
    requires |boot| == SECTOR && |fat| == FAT_BYTES && DATA_START + |data| <= IMAGE_BYTES
    ensures var fats := Store(Store(Store(Zeros(IMAGE_BYTES), 0, boot), FAT_START, fat), FAT_START + FAT_BYTES, fat);
      var image := Store(Store(fats, ROOT_START, root), DATA_START, data);
      && |image| >= IMAGE_BYTES && (ROOT_START + |root| <= IMAGE_BYTES ==> |image| == IMAGE_BYTES)
          && image[..SECTOR] == boot
      && image[FAT_START..FAT_START + FAT_BYTES] == fat && image[FAT_START + FAT_BYTES..ROOT_START] == fat
      && image[ROOT_START..ROOT_START + Shown(|root|)] == root[..Shown(|root|)]
      && image[DATA_START..DATA_START + |data|] == data
  {
    var i0 := Zeros(IMAGE_BYTES);
    var i1 := Store(i0, 0, boot);
    var i2 := Store(i1, FAT_START, fat);
    var i3 := Store(i2, FAT_START + FAT_BYTES, fat);
    StoreHere(i0, 0, boot);
    StoreElsewhere(i1, FAT_START, fat, 0, SECTOR);
    StoreElsewhere(i2, FAT_START + FAT_BYTES, fat, 0, SECTOR);
    StoreHere(i1, FAT_START, fat);
    StoreElsewhere(i2, FAT_START + FAT_BYTES, fat, FAT_START, FAT_START + FAT_BYTES);
    StoreHere(i2, FAT_START + FAT_BYTES, fat);
    LastStores(i3, root, data);
  }

  /** The last two stores, into an image with boot sector and tables. */
  lemma LastStores(fats: seq<byte>, root: seq<byte>, data: seq<byte>)
    requires |fats| == IMAGE_BYTES && DATA_START + |data| <= IMAGE_BYTES
    ensures var image := Store(Store(fats, ROOT_START, root), DATA_START, data);
      && |image| >= IMAGE_BYTES && (ROOT_START + |root| <= IMAGE_BYTES ==> |image| == IMAGE_BYTES)
      && image[..SECTOR] == fats[..SECTOR]
      && image[FAT_START..FAT_START + FAT_BYTES] == fats[FAT_START..FAT_START + FAT_BYTES]
      && image[FAT_START + FAT_BYTES..ROOT_START] == fats[FAT_START + FAT_BYTES..ROOT_START]
      && image[ROOT_START..ROOT_START + Shown(|root|)] == root[..Shown(|root|)]
      && image[DATA_START..DATA_START + |data|] == data
  {
    var rooted := Store(fats, ROOT_START, root);
    StoreHere(fats, ROOT_START, root);
    StoreHere(rooted, DATA_START, data);
    StoreElsewhere(fats, ROOT_START, root, 0, SECTOR);
    StoreElsewhere(rooted, DATA_START, data, 0, SECTOR);
    StoreElsewhere(fats, ROOT_START, root, FAT_START, FAT_START + FAT_BYTES);
    StoreElsewhere(rooted, DATA_START, data, FAT_START, FAT_START + FAT_BYTES);
    StoreElsewhere(fats, ROOT_START, root, FAT_START + FAT_BYTES, ROOT_START);
    StoreElsewhere(rooted, DATA_START, data, FAT_START + FAT_BYTES, ROOT_START);
    Subslice(rooted, ROOT_START, root, 0, Shown(|root|));
    StoreElsewhere(rooted, DATA_START, data, ROOT_START, ROOT_START + Shown(|root|));
  }

  /** For every list that fits: tables and contents are in their places, also
      when the directory is too long. */
  lemma ImageParts(files: seq<File>, code: seq<byte>)
    requires Fits(files) && |code| <= 448
    ensures Parts(Image(files, code), files, code)
    ensures |files| < ROOT_ENTRIES ==> |Image(files, code)| == IMAGE_BYTES
  {
    FiveStores(BootSector(code), Packed(Table(files, |files|)), Root(files, |files|), Data(files, |files|));
  }

  lemma BootGeometry(image: seq<byte>, code: seq<byte>)
    requires |image| >= SECTOR && |code| <= 448 && image[..SECTOR] == BootSector(code)
    ensures GeometryOf(image) == FLOPPY
  {
    var b := Bpb();
    assert forall i :: 0 <= i < 0x3E ==> image[i] == image[..SECTOR][i] && image[i] == b[i];
  }

  lemma AtEnd<T>(a: seq<T>, b: seq<T>, k: nat)
    requires k < |b|
    ensures (a + b)[|a| + k] == b[k]
  {
  }

  /** The table links the clusters of every file. */
  lemma {:induction false} TableLinks(files: seq<File>, n: nat, i: nat, c: nat)
    requires i < n <= |files| && 2 + Clusters(files, i) <= c < 2 + Clusters(files, i) + Count(files[i].content)
    ensures c < |Table(files, n)|
    ensures Table(files, n)[c] == if c + 1 < 2 + Clusters(files, i) + Count(files[i].content) then c + 1
        else END_OF_CHAIN
    decreases n
  {
    if i < n - 1 {
      TableLinks(files, n - 1, i, c);
    }
  }

  /** The data area holds the bytes of every file. */
  lemma {:induction false} DataByte(files: seq<File>, n: nat, i: nat, p: nat)
    requires i < n <= |files| && p < |files[i].content|
    ensures var at := Clusters(files, i) * SECTOR + p;
      at < |Data(files, n)| && Data(files, n)[at] == files[i].content[p]
    decreases n
  {
    var last := files[n - 1].content;
    var a, b := Data(files, n - 1), Pad(last, Count(last) * SECTOR, 0);
    if i < n - 1 {
      DataByte(files, n - 1, i, p);
    } else {
      assert b[p] == last[p] by {
        assert b[..|last|][p] == last[p];
      }
      AtEnd(a, b, p);
    }
  }

  function Range(first: nat, count: nat): (r: seq<nat>)
    ensures |r| == count
  {
    seq(count, k requires 0 <= k < count => first + k)
  }

  lemma InTable(c: nat)
    requires 2 <= c < 2 + DATA_CLUSTERS
    ensures c < 0xFF7 && c / 2 * 3 + 2 < FAT_BYTES
  {
  }

  /** A reader takes `entries` out of the table `fat`. */
  ghost predicate Decodes(fat: seq<byte>, entries: seq<nat>) {
    && |fat| == FAT_BYTES && |entries| <= 2 + DATA_CLUSTERS
    && forall n :: 2 <= n < |entries| ==> n / 2 * 3 + 2 < FAT_BYTES && FatEntry(fat, n) == entries[n]
  }

  /** `count` entries from `first` on link that many clusters to a chain. */
  ghost predicate Linked(entries: seq<nat>, first: nat, count: nat) {
    && 2 <= first && first + count <= |entries|
    && forall c :: first <= c < first + count ==> entries[c] == if c + 1 < first + count then c + 1 else END_OF_CHAIN
  }

  lemma RangeCons(first: nat, count: nat)
    requires count > 0
    ensures Range(first, count) == [first] + Range(first + 1, count - 1)
  {
  }

  /** A reader follows a linked chain to its end. */
  lemma {:induction false} ChainFollowed(fat: seq<byte>, entries: seq<nat>, first: nat, count: nat, fuel: nat)
    requires Decodes(fat, entries) && Linked(entries, first, count) && 0 < count < fuel
    ensures Chain(fat, first, fuel) == Range(first, count)
    decreases count
  {
    InTable(first);
    RangeCons(first, count);
    assert FatEntry(fat, first) == entries[first];
    if count > 1 {
      ChainFollowed(fat, entries, first + 1, count - 1, fuel - 1);
    }
  }

  lemma {:induction false} TableDecodes(files: seq<File>)
    requires Clusters(files, |files|) <= DATA_CLUSTERS
    ensures Decodes(Packed(Table(files, |files|)), Table(files, |files|))
  {
    var entries := Table(files, |files|);
    forall n | 2 <= n < |entries| ensures n / 2 * 3 + 2 < FAT_BYTES && FatEntry(Packed(entries), n) == entries[n] {
      InTable(n);
      EntriesSmall(files, |files|, n);
      PackedEntry(entries, n);
    }
  }

  lemma {:induction false} EntriesSmall(files: seq<File>, n: nat, k: nat)
    requires n <= |files| && Clusters(files, n) <= DATA_CLUSTERS && k < |Table(files, n)|
    ensures Table(files, n)[k] < 4096
    decreases n
  {
    if n > 0 && k < |Table(files, n - 1)| {
      EntriesSmall(files, n - 1, k);
    }
  }

  lemma {:induction false} FileLinked(files: seq<File>, i: nat)
    requires i < |files| && Count(files[i].content) > 0
    ensures Linked(Table(files, |files|), 2 + Clusters(files, i), Count(files[i].content))
  {
    ClustersBefore(files, i, |files|);
    forall c | 2 + Clusters(files, i) <= c < 2 + Clusters(files, i) + Count(files[i].content)
      ensures c < |Table(files, |files|)|
      ensures Table(files, |files|)[c] == if c + 1 < 2 + Clusters(files, i) + Count(files[i].content) then c + 1
          else END_OF_CHAIN
    {
      TableLinks(files, |files|, i, c);
    }
    MakeLinked(Table(files, |files|), 2 + Clusters(files, i), Count(files[i].content));
  }

  lemma MakeLinked(entries: seq<nat>, first: nat, count: nat)
    requires 2 <= first && first + count <= |entries|
    requires forall c :: first <= c < first + count ==>
        entries[c] == if c + 1 < first + count then c + 1 else END_OF_CHAIN
    ensures Linked(entries, first, count)
  {
  }

  /** Byte offset of cluster `c` in the image. */
  function ClusterStart(c: nat): nat
    requires c >= 2
  {
    DATA_START + (c - 2) * SECTOR
  }

  /** The clusters lie where the layout of the floppy has them. */
  ghost predicate Regular(image: seq<byte>, g: Geometry)
    requires |image| >= IMAGE_BYTES
  {
    forall c :: 2 <= c < 2 + DATA_CLUSTERS ==> ClusterAt(image, g, c) == image[ClusterStart(c)..ClusterStart(c + 1)]
  }

  lemma RegularAt(image: seq<byte>, g: Geometry, c: nat)
    requires |image| >= IMAGE_BYTES && Regular(image, g) && 2 <= c < 2 + DATA_CLUSTERS
    ensures ClusterAt(image, g, c) == image[ClusterStart(c)..ClusterStart(c + 1)]
  {
  }

  /** Consecutive clusters, joined, are a slice of the image. */
  lemma {:induction false} JoinRange(image: seq<byte>, g: Geometry, first: nat, count: nat, n: nat)
    requires |image| >= IMAGE_BYTES && 2 <= first && n <= count && first + count <= 2 + DATA_CLUSTERS
        && Regular(image, g)
    ensures JoinFirst(image, g, Range(first, count), n) == image[ClusterStart(first)..ClusterStart(first + n)]
  {
    if n > 0 {
      JoinRange(image, g, first, count, n - 1);
      var c := first + n - 1;
      assert Range(first, count)[n - 1] == c;
      RegularAt(image, g, c);
      SliceJoin(image, ClusterStart(first), ClusterStart(c), ClusterStart(c + 1));
    }
  }

  lemma FloppyAreas()
    ensures RootAt(FLOPPY) == ROOT_START && DataAt(FLOPPY) == DATA_START
    ensures Area(1, SECTOR) == SECTOR && Area(RESERVED_SECTORS, SECTOR) == FAT_START
        && Area(SECTORS_PER_FAT, SECTOR) == FAT_BYTES
  {
    AreaIs(FATS, SECTORS_PER_FAT);
    AreaIs(RESERVED_SECTORS + Area(FATS, SECTORS_PER_FAT), SECTOR);
    AreaIs(1, SECTOR);
    AreaIs(SECTORS_PER_FAT, SECTOR);
  }

  lemma FloppyCluster(image: seq<byte>, c: nat)
    requires |image| >= IMAGE_BYTES && 2 <= c < 2 + DATA_CLUSTERS
    ensures ClusterAt(image, FLOPPY, c) == image[ClusterStart(c)..ClusterStart(c + 1)]
  {
    FloppyAreas();
    AreaIs(c - 2, SECTOR);
  }

  lemma SliceJoin<T>(s: seq<T>, a: nat, b: nat, c: nat)
    requires a <= b <= c <= |s|
    ensures s[a..b] + s[b..c] == s[a..c]
  {
  }

  lemma ThreeParts<T>(a: seq<T>, b: seq<T>, c: seq<T>)
    ensures (a + b + c)[..|a|] == a
    ensures forall k :: |a| <= k < |a| + |b| ==> (a + b + c)[k] == b[k - |a|]
    ensures forall k :: |a| + |b| <= k < |a| + |b| + |c| ==> (a + b + c)[k] == c[k - |a| - |b|]
  {
  }

  lemma Join16(v: nat)
    requires v < 0x1_0000
    ensures Get16(Le16(v), 0) == v
  {
  }

  lemma Join32(v: nat)
    requires v < 0x1_0000_0000
    ensures Get32(Le32(v), 0) == v
  {
  }

  /** The fields a reader uses are in their places. */
  lemma Fields(f: File, first: nat)
    requires Short(f) && first < 0x1_0000 && |f.content| < 0x1_0000_0000
    ensures var d := FileEntry(f, first);
      d[..11] == NameField(f) && Get16(d, 26) == first && Get32(d, 28) == |f.content|
  {
    var middle := [0x20, 0x18, 0] + Le16(0) + Le16(FAT_DATE) + Le16(FAT_DATE) + Le16(0) + Le16(0) + Le16(FAT_DATE);
    var low, high := Le16(first), Le32(|f.content|);
    var tail := low + high;
    ThreeParts(NameField(f), middle, tail);
    Join16(first);
    Join32(|f.content|);
    var d := NameField(f) + middle + tail;
    assert d == FileEntry(f, first);
    assert d[26] == tail[0] && d[27] == tail[1];
    assert d[28] == tail[2] && d[29] == tail[3] && d[30] == tail[4] && d[31] == tail[5];
  }

  /** What a reader must find behind the entry of file `i`. */
  function Wanted(files: seq<File>, i: nat): Found
    requires i < |files| && Short(files[i])
  {
    Found(NameField(files[i]), Range(First(files, i), Count(files[i].content)), files[i].content)
  }

  /** A reader finds every file of the list behind its own root entry. */
  ghost predicate Recovered(image: seq<byte>, files: seq<File>)
    requires |image| >= SECTOR && Fits(files)
  {
    forall i :: 0 <= i < |files| ==> ReadEntry(image, GeometryOf(image), i + 1) == Some(Wanted(files, i))
  }

  /** The 32 bytes of a directory entry in the image decode as they do alone. */
  lemma EntryInImage(image: seq<byte>, at: nat, d: seq<byte>)
    requires at + 32 <= |image| && |d| == 32 && image[at..at + 32] == d
    ensures image[at..at + 11] == d[..11] && Get16(image, at + 26) == Get16(d, 26)
        && Get32(image, at + 28) == Get32(d, 28)
  {
    assert d[26] == image[at + 26] && d[27] == image[at + 27];
    assert d[28] == image[at + 28] && d[29] == image[at + 29] && d[30] == image[at + 30] && d[31] == image[at + 31];
  }

  lemma EntryFields(image: seq<byte>, files: seq<File>, i: nat)
    requires Fits(files) && i < |files| && i + 1 < ROOT_ENTRIES && |image| >= IMAGE_BYTES
    requires var root := Root(files, |files|); image[ROOT_START..ROOT_START + Shown(|root|)] == root[..Shown(|root|)]
    ensures EntryIs(image, ROOT_START + 32 * (i + 1), NameField(files[i]), First(files, i), |files[i].content|)
  {
    var root := Root(files, |files|);
    EntrySmall(files, i);
    RootHolds(files, |files|, i);
    Fields(files[i], First(files, i));
    CutSlice(root, Shown(|root|), 32 * (i + 1), 32 * (i + 2));
    SliceFields(image, root[..Shown(|root|)], i, EntryOf(files, i));
  }

  lemma CutSlice<T>(s: seq<T>, n: nat, from: nat, to: nat)
    requires from <= to <= n <= |s|
    ensures s[..n][from..to] == s[from..to]
  {
  }

  lemma SliceFields(image: seq<byte>, root: seq<byte>, i: nat, d: seq<byte>)
    requires |d| == 32 && 32 * (i + 2) <= |root| && root[32 * (i + 1)..32 * (i + 2)] == d
    requires ROOT_START + |root| <= |image| && image[ROOT_START..ROOT_START + |root|] == root
    ensures var at := ROOT_START + 32 * (i + 1);
      image[at..at + 11] == d[..11] && Get16(image, at + 26) == Get16(d, 26) && Get32(image, at + 28) == Get32(d, 28)
  {
    Subslice(image, ROOT_START, root, 32 * (i + 1), 32 * (i + 2));
    EntryInImage(image, ROOT_START + 32 * (i + 1), d);
  }

  lemma Subslice<T>(s: seq<T>, at: nat, part: seq<T>, from: nat, to: nat)
    requires at + |part| <= |s| && s[at..at + |part|] == part && from <= to <= |part|
    ensures s[at + from..at + to] == part[from..to]
  {
    forall j | 0 <= j < to - from ensures s[at + from..at + to][j] == part[from..to][j] {
      assert s[at..at + |part|][from + j] == s[at + from + j];
    }
  }

  /** A reader follows the chain of file `i`. */
  lemma {:induction false} ChainRead(files: seq<File>, i: nat)
    requires Clusters(files, |files|) <= DATA_CLUSTERS && i < |files|
    ensures Chain(Packed(Table(files, |files|)), First(files, i), TOTAL_SECTORS)
        == Range(First(files, i), Count(files[i].content))
  {
    var count := Count(files[i].content);
    if count > 0 {
      ClustersBefore(files, i, |files|);
      TableDecodes(files);
      FileLinked(files, i);
      ChainFollowed(Packed(Table(files, |files|)), Table(files, |files|), First(files, i), count, TOTAL_SECTORS);
    }
  }

  /** A content found at byte `at` of a slice is found in the image. */
  lemma Begins(image: seq<byte>, start: nat, data: seq<byte>, at: nat, content: seq<byte>)
    requires start + |data| <= |image| && image[start..start + |data|] == data && at + |content| <= |data|
    requires forall p :: 0 <= p < |content| ==> content[p] == data[at + p]
    ensures image[start + at..start + at + |content|] == content
  {
    Subslice(image, start, data, at, at + |content|);
    assert data[at..at + |content|] == content;
  }

  /** The data area holds the content of file `i` where its clusters start. */
  lemma DataSlice(files: seq<File>, i: nat, at: nat)
    requires i < |files| && at == Clusters(files, i) * SECTOR
    ensures at + |files[i].content| <= |Data(files, |files|)|
    ensures forall p :: 0 <= p < |files[i].content| ==> files[i].content[p] == Data(files, |files|)[at + p]
  {
    ClustersBefore(files, i, |files|);
    forall p | 0 <= p < |files[i].content|
      ensures at + p < |Data(files, |files|)| && files[i].content[p] == Data(files, |files|)[at + p] {
      DataByte(files, |files|, i, p);
    }
  }

  /** The clusters of file `i` begin with its content. */
  lemma {:induction false} ContentRead(image: seq<byte>, files: seq<File>, i: nat)
    requires Clusters(files, |files|) <= DATA_CLUSTERS && i < |files| && |image| >= IMAGE_BYTES
    requires image[DATA_START..DATA_START + |Data(files, |files|)|] == Data(files, |files|)
    ensures BeginsWith(JoinClusters(image, FLOPPY, Range(First(files, i), Count(files[i].content))), files[i].content)
  {
    var content := files[i].content;
    ClustersBefore(files, i, |files|);
    if Count(content) > 0 {
      DataSlice(files, i, Clusters(files, i) * SECTOR);
      Begins(image, DATA_START, Data(files, |files|), Clusters(files, i) * SECTOR, content);
      ClusterPrefix(image, First(files, i), Count(content), content);
    }
  }

  lemma ClusterPrefix(image: seq<byte>, first: nat, count: nat, content: seq<byte>)
    requires |image| >= IMAGE_BYTES && 2 <= first && first + count <= 2 + DATA_CLUSTERS && |content| <= count * SECTOR
    requires image[ClusterStart(first)..ClusterStart(first) + |content|] == content
    ensures BeginsWith(JoinClusters(image, FLOPPY, Range(first, count)), content)
  {
    forall c | 2 <= c < 2 + DATA_CLUSTERS
      ensures ClusterAt(image, FLOPPY, c) == image[ClusterStart(c)..ClusterStart(c + 1)] {
      FloppyCluster(image, c);
    }
    JoinRange(image, FLOPPY, first, count, count);
  }

  /** ReadEntry, with the geometry of the floppy. */
  lemma ReadFloppy(image: seq<byte>, i: nat)
    requires |image| >= IMAGE_BYTES && i < ROOT_ENTRIES
    ensures ReadEntry(image, FLOPPY, i)
        == EntryAt(image, FLOPPY, image[FAT_START..FAT_START + FAT_BYTES], ROOT_START + 32 * i)
  {
    FloppyAreas();
  }

  /** Entry, chain and content of file `i` are where a reader finds them. */
  ghost predicate Located(image: seq<byte>, fat: seq<byte>, files: seq<File>, i: nat)
    requires i < |files| && Short(files[i])
  {
    var first, count := First(files, i), Count(files[i].content);
    && EntryIs(image, ROOT_START + 32 * (i + 1), NameField(files[i]), first, |files[i].content|)
    && Chain(fat, first, TOTAL_SECTORS) == Range(first, count)
    && BeginsWith(JoinClusters(image, FLOPPY, Range(first, count)), files[i].content)
  }

  lemma PartsLocated(image: seq<byte>, files: seq<File>, code: seq<byte>, i: nat)
    requires Fits(files) && |code| <= 448 && i < |files| && i + 1 < ROOT_ENTRIES && Parts(image, files, code)
    ensures Located(image, image[FAT_START..FAT_START + FAT_BYTES], files, i)
  {
    EntryFields(image, files, i);
    ChainRead(files, i);
    ContentRead(image, files, i);
  }

  lemma EntryRecovered(image: seq<byte>, files: seq<File>, i: nat)
    requires i < |files| && i + 1 < ROOT_ENTRIES && Short(files[i]) && |image| >= IMAGE_BYTES
    requires Located(image, image[FAT_START..FAT_START + FAT_BYTES], files, i)
    ensures ReadEntry(image, FLOPPY, i + 1) == Some(Wanted(files, i))
  {
    ReadFloppy(image, i + 1);
    Behind(image, image[FAT_START..FAT_START + FAT_BYTES], ROOT_START + 32 * (i + 1), First(files, i),
           Wanted(files, i));
  }

  /** The entry at byte `at` has this name, first cluster and size. */
  predicate EntryIs(image: seq<byte>, at: nat, name: seq<byte>, first: nat, size: nat) {
    at + 32 <= |image| && image[at..at + 11] == name && Get16(image, at + 26) == first && Get32(image, at + 28) == size
  }

  predicate BeginsWith(bytes: seq<byte>, content: seq<byte>) {
    |content| <= |bytes| && bytes[..|content|] == content
  }

  /** What makes an entry lead to `f`. */
  lemma {:induction false} Behind(image: seq<byte>, fat: seq<byte>, at: nat, first: nat, f: Found)
    requires EntryIs(image, at, f.name, first, |f.content|)
    requires Chain(fat, first, TOTAL_SECTORS) == f.chain
    requires BeginsWith(JoinClusters(image, FLOPPY, f.chain), f.content)
    ensures EntryAt(image, FLOPPY, fat, at) == Some(f)
  {
  }

  /** In every built image a reader that follows boot sector, table and directory
      finds each of the first 223 files, name, chain and bytes, and none of the
      others: their entries are outside the root directory. */
  lemma EachRecovered(files: seq<File>, code: seq<byte>, i: nat)
    requires Fits(files) && |code| <= 448 && i < |files|
    ensures var image := Image(files, code);
      |image| >= SECTOR && ReadEntry(image, GeometryOf(image), i + 1) == if i + 1 < ROOT_ENTRIES
          then Some(Wanted(files, i)) else None
  {
    var image := Image(files, code);
    ImageParts(files, code);
    BootGeometry(image, code);
    if i + 1 < ROOT_ENTRIES {
      PartsLocated(image, files, code, i);
      EntryRecovered(image, files, i);
    }
  }

  /** So the reader gets exactly the files that the image was built from if and
      only if there are fewer than 224. */
  lemma RoundTrip(files: seq<File>, code: seq<byte>)
    requires Fits(files) && |code| <= 448
    ensures |Image(files, code)| >= SECTOR
    ensures |files| < ROOT_ENTRIES <==> Recovered(Image(files, code), files)
  {
    ImageParts(files, code);
    var image := Image(files, code);
    if |files| < ROOT_ENTRIES {
      forall i | 0 <= i < |files| ensures ReadEntry(image, GeometryOf(image), i + 1) == Some(Wanted(files, i)) {
        EachRecovered(files, code, i);
      }
    } else {
      var last := ROOT_ENTRIES - 1;
      EachRecovered(files, code, last);
      assert ReadEntry(image, GeometryOf(image), last + 1) != Some(Wanted(files, last));
    }
  }

  /** However long the directory is, the content of every file is in the clusters
      of its chain. */
  lemma ContentsInPlace(files: seq<File>, code: seq<byte>, i: nat)
    requires Fits(files) && |code| <= 448 && i < |files|
    ensures BeginsWith(JoinClusters(Image(files, code), FLOPPY, Wanted(files, i).chain), files[i].content)
  {
    ImageParts(files, code);
    ContentRead(Image(files, code), files, i);
  }

  /** Both copies of the table are equal, and no cluster is in two chains. */
  lemma ChainsDisjoint(files: seq<File>, code: seq<byte>, i: nat, j: nat)
    requires Fits(files) && |code| <= 448 && i < j < |files|
    ensures var image := Image(files, code);
      && |image| >= IMAGE_BYTES
      && image[FAT_START..FAT_START + FAT_BYTES] == image[FAT_START + FAT_BYTES..FAT_START + 2 * FAT_BYTES]
      && forall c :: c in Wanted(files, i).chain ==> c !in Wanted(files, j).chain
  {
    ImageParts(files, code);
    ClustersBefore(files, i, j);
    ClustersBefore(files, j, |files|);
  }

  // ------------------------------------------------ what else a reader sees

  lemma {:induction false} UpperMeans(s: seq<byte>, n: nat)
    requires n <= |s|
    ensures HasUpper(s, n) <==> exists i :: 0 <= i < n && 65 <= s[i] <= 90
    ensures NoLower(s, n) <==> forall i :: 0 <= i < n ==> !(97 <= s[i] <= 122)
  {
    if n > 0 {
      UpperMeans(s, n - 1);
    }
  }

  /** Which names are accepted: eight and three characters at most, each with a
      letter and none in lower case. */
  lemma NamesExactly(f: File)
    ensures NameOk(f) <==>
      && |f.base| <= 8 && |f.ext| <= 3
      && (exists i :: 0 <= i < |f.base| && 65 <= f.base[i] <= 90)
          && (exists i :: 0 <= i < |f.ext| && 65 <= f.ext[i] <= 90)
      && (forall i :: 0 <= i < |f.base| ==> !(97 <= f.base[i] <= 122))
      && (forall i :: 0 <= i < |f.ext| ==> !(97 <= f.ext[i] <= 122))
  {
    UpperMeans(f.base, |f.base|);
    UpperMeans(f.ext, |f.ext|);
  }

  /** The first sector starts with a jump to the code behind the parameter block,
      names the disk and the file system, and ends with the boot signature. */
  lemma BootFields(image: seq<byte>, code: seq<byte>)
    requires |image| >= SECTOR && |code| <= 448 && image[..SECTOR] == BootSector(code)
    ensures image[0] == 0xEB && 2 + image[1] as int == 0x3E && image[2] == 0x90 && image[0x3E..0x3E + |code|] == code
    ensures image[3..11] == [78, 65, 78, 79, 75, 86, 77, 32] && image[43..54] == LABEL
    ensures image[54..62] == [70, 65, 84, 49, 50, 32, 32, 32]
    ensures Get16(image, 24) == 18 && Get16(image, 26) == 2 && Get32(image, 28) == 0 && Get32(image, 32) == 0
    ensures image[36] == 0 && image[37] == 0 && image[38] == 0x29 && Get32(image, 39) == 0x4E4B564D
    ensures image[21] == 0xF0 && image[510] == 0x55 && image[511] == 0xAA
  {
    var b, boot := Bpb(), BootSector(code);
    assert forall i :: 0 <= i < 0x3E ==> image[i] == image[..SECTOR][i] && image[i] == b[i];
    assert forall i :: 0 <= i < SECTOR ==> image[i] == image[..SECTOR][i] && image[i] == boot[i];
    forall i | 0 <= i < |code| ensures image[0x3E + i] == code[i] {
      assert boot[0x3E + i] == Pad(code, 448, 0)[i];
      assert Pad(code, 448, 0)[..|code|][i] == code[i];
    }
    BpbFields();
  }

  lemma BpbFields()
    ensures var b := Bpb();
      && b[3..11] == [78, 65, 78, 79, 75, 86, 77, 32] && b[43..54] == LABEL
          && b[54..62] == [70, 65, 84, 49, 50, 32, 32, 32]
      && Get16(b, 24) == 18 && Get16(b, 26) == 2 && Get32(b, 28) == 0 && Get32(b, 32) == 0 && Get32(b, 39) == 0x4E4B564D
  {
  }

  /** The date is the first of January 2026. */
  predicate NewYear(d: nat) {
    1980 + d / 512 == 2026 && d / 32 % 16 == 1 && d % 32 == 1
  }

  /** The rest of a file's entry: an archive file whose name and extension are
      shown in lower case, dated, at midnight. */
  lemma EntryDated(f: File, first: nat)
    requires Short(f) && first < 0x1_0000 && |f.content| < 0x1_0000_0000
    ensures var d := FileEntry(f, first);
      && d[11] == 0x20 && d[12] == 0x08 + 0x10 && d[13] == 0 && Get16(d, 14) == 0 && Get16(d, 20) == 0
          && Get16(d, 22) == 0
      && NewYear(Get16(d, 16)) && NewYear(Get16(d, 18)) && NewYear(Get16(d, 24))
  {
    Middled(Pad(f.base, 8, 32), Pad(f.ext, 3, 32), 0x20, 0x18, first, |f.content|);
  }

  /** The first entry is the volume label, with neither cluster nor size. */
  lemma LabelDated()
    ensures var d := LabelEntry();
      && d[..11] == LABEL && d[11] == 8 && d[12] == 0 && Get16(d, 26) == 0 && Get32(d, 28) == 0
      && NewYear(Get16(d, 16)) && NewYear(Get16(d, 18)) && NewYear(Get16(d, 24))
  {
    Middled(LABEL[..8], LABEL[8..], 8, 0, 0, 0);
    assert LabelEntry()[..11] == LABEL[..8] + LABEL[8..] == LABEL;
  }

  lemma Middled(name: seq<byte>, ext: seq<byte>, attr: byte, ntres: byte, cluster: nat, size: nat)
    requires |name| == 8 && |ext| == 3 && cluster < 0x1_0000 && size < 0x1_0000_0000
    ensures var d := DirEntry(name, ext, attr, ntres, cluster, size);
      && d[11] == attr && d[12] == ntres && d[13] == 0 && Get16(d, 14) == 0 && Get16(d, 20) == 0 && Get16(d, 22) == 0
      && Get16(d, 16) == FAT_DATE && Get16(d, 18) == FAT_DATE && Get16(d, 24) == FAT_DATE
      && Get16(d, 26) == cluster && Get32(d, 28) == size
  {
    var middle := [attr, ntres, 0] + Le16(0) + Le16(FAT_DATE) + Le16(FAT_DATE) + Le16(0) + Le16(0) + Le16(FAT_DATE);
    var low, high := Le16(cluster), Le32(size);
    ThreeParts(name + ext, middle, low + high);
    Join16(cluster);
    Join32(size);
    Join16(FAT_DATE);
    Join16(0);
    var d := name + ext + middle + (low + high);
    assert d == DirEntry(name, ext, attr, ntres, cluster, size);
    assert forall k :: 0 <= k < 15 ==> d[11 + k] == middle[k];
    assert d[26] == low[0] && d[27] == low[1] && d[28] == high[0] && d[29] == high[1] && d[30] == high[2]
        && d[31] == high[3];
  }

  /** Every entry that is inside the root directory is there in full: the label,
      then the files. */
  lemma EntriesInPlace(files: seq<File>, code: seq<byte>, i: nat)
    requires Fits(files) && |code| <= 448 && i <= |files| && i < ROOT_ENTRIES
    ensures var image, at := Image(files, code), ROOT_START + 32 * i;
      |image| >= at + 32 && image[at..at + 32] == if i == 0 then LabelEntry() else EntryOf(files, i - 1)
  {
    ImageParts(files, code);
    EntryInPlace(Image(files, code), files, i);
  }

  lemma EntryInPlace(image: seq<byte>, files: seq<File>, i: nat)
    requires Fits(files) && i <= |files| && i < ROOT_ENTRIES && |image| >= IMAGE_BYTES
    requires var root := Root(files, |files|); image[ROOT_START..ROOT_START + Shown(|root|)] == root[..Shown(|root|)]
    ensures var at := ROOT_START + 32 * i;
      image[at..at + 32] == if i == 0 then LabelEntry() else EntryOf(files, i - 1)
  {
    var root := Root(files, |files|);
    RootEntry(files, i);
    ShownCovers(|files|, i);
    SliceShown(image, root, Shown(|root|), i);
  }

  lemma SliceShown(image: seq<byte>, root: seq<byte>, shown: nat, i: nat)
    requires 32 * (i + 1) <= shown <= |root| && ROOT_START + shown <= |image|
    requires image[ROOT_START..ROOT_START + shown] == root[..shown]
    ensures image[ROOT_START + 32 * i..ROOT_START + 32 * i + 32] == root[32 * i..32 * (i + 1)]
  {
    CutSlice(root, shown, 32 * i, 32 * (i + 1));
    SliceInside(image, ROOT_START, root[..shown], 32 * i, 32 * (i + 1));
  }

  lemma ShownCovers(n: nat, i: nat)
    requires i <= n && i < ROOT_ENTRIES
    ensures 32 * (i + 1) <= Shown(32 * (n + 1)) <= 32 * (n + 1) && ROOT_START + Shown(32 * (n + 1)) <= IMAGE_BYTES
  {
  }

  lemma RootEntry(files: seq<File>, i: nat)
    requires Fits(files) && i <= |files|
    ensures |Root(files, |files|)| == 32 * (|files| + 1)
    ensures Root(files, |files|)[32 * i..32 * (i + 1)] == if i == 0 then LabelEntry() else EntryOf(files, i - 1)
  {
    Blocks(Entries(files, |files|), i);
  }

  lemma SliceInside<T>(s: seq<T>, at: nat, part: seq<T>, from: nat, to: nat)
    requires from <= to <= |part| && at + |part| <= |s| && s[at..at + |part|] == part
    ensures s[at + from..at + to] == part[from..to]
  {
    forall k | from <= k < to ensures s[at + k] == part[k] {
      assert s[at..at + |part|][k] == part[k];
    }
    assert forall k {:trigger part[from..to][k]} ::
      0 <= k < to - from ==> s[at + from..at + to][k] == part[from..to][k];
  }
}
