/** The migration of a stock SD card: new boot and root filesystems are staged
    inside the old root partition, then one sector, the MBR, is replaced. */
module StockLayout {
  import opened Shared

  type u32 = x: int | 0 <= x < 0x1_0000_0000

  const ALIGN := 8192
  const BOOT_SECTORS: u32 := 131072
  const MIN_ROOT := 1572864
  const U32_MAX := 0xFFFF_FFFF

  /** A sector of a card. */
  type Sector = m: seq<byte> | |m| == 512 witness seq(512, _ => 0)

  // ---------------------------------------------------- little-endian words

  function Get32(p: seq<byte>, at: nat): u32
    requires at + 4 <= |p|
  {
    var b0: int, b1: int, b2: int, b3: int := p[at], p[at + 1], p[at + 2], p[at + 3];
    b0 + b1 * 0x100 + b2 * 0x1_0000 + b3 * 0x100_0000
  }

  function Shift(i: nat): nat
    requires i < 4
  {
    if i == 0 then 1 else if i == 1 then 0x100 else if i == 2 then 0x1_0000 else 0x100_0000
  }

  function Bytes32(v: u32): (b: seq<byte>)
    ensures |b| == 4 && Get32(b, 0) == v
  {
    [v % 0x100, v / 0x100 % 0x100, v / 0x1_0000 % 0x100, v / 0x100_0000]
  }

  /** Stores `v` in the four bytes at `at`. */
  method Put32(p: array<byte>, at: nat, v: u32)
    requires at + 4 <= p.Length
    modifies p
    ensures p[..] == Over(old(p[..]), at, Bytes32(v))
  {
    for i := 0 to 4
      invariant forall j :: 0 <= j < p.Length ==> p[j] == if at <= j < at + i then Bytes32(v)[j - at] else old(p[j])
    {
      p[at + i] := v / Shift(i) % 0x100;
    }
    assert p[..] == Over(old(p[..]), at, Bytes32(v));
  }

  /** `m` with the bytes at `at` replaced by `b`. */
  function Over(m: seq<byte>, at: nat, b: seq<byte>): (r: seq<byte>)
    requires at + |b| <= |m|
    ensures |r| == |m|
    ensures forall j :: 0 <= j < |m| ==> r[j] == if at <= j < at + |b| then b[j - at] else m[j]
  {
    m[..at] + b + m[at + |b|..]
  }

  // ------------------------------------------------------------ the planner

  function EntryAt(i: nat): nat {
    446 + 16 * i
  }

  function Start(m: Sector, i: nat): u32
    requires i < 4
  {
    Get32(m, EntryAt(i) + 8)
  }

  function Size(m: Sector, i: nat): u32
    requires i < 4
  {
    Get32(m, EntryAt(i) + 12)
  }

  function End(m: Sector, i: nat): nat
    requires i < 4
  {
    Start(m, i) + Size(m, i)
  }

  /** Where the new boot partition would begin: the first aligned sector of the
      old root. */
  function BootStart(m: Sector): nat {
    (Start(m, 1) + ALIGN - 1) / ALIGN * ALIGN
  }

  function RootStart(m: Sector): nat {
    BootStart(m) + BOOT_SECTORS
  }

  predicate EntryOk(m: Sector, sectors: nat, i: nat)
    requires i < 3
  {
    && Start(m, i) > 0 && Size(m, i) > 0 && End(m, i) <= sectors
    && (m[EntryAt(i)] == 0 || m[EntryAt(i)] == 0x80)
    && (i > 0 ==> Start(m, i) >= End(m, i - 1))
  }

  /** A card the migration accepts. */
  predicate Accepted(m: Sector, sectors: nat) {
    && m[510] == 0x55 && m[511] == 0xaa
    && (forall i :: 0 <= i < 3 ==> EntryOk(m, sectors, i))
    && (forall i :: 494 <= i < 510 ==> m[i] == 0)
    && (m[450] == 0x06 || m[450] == 0x0e || m[450] == 0x0b || m[450] == 0x0c)
    && m[466] == 0x83 && (m[482] == 0x83 || m[482] == 0x07)
    && RootStart(m) <= U32_MAX && RootStart(m) + MIN_ROOT <= End(m, 1)
  }

  /** The three partitions found, and the new boot and root. */
  datatype Layout = Layout(start: seq<u32>, size: seq<u32>, boot: u32, root: u32, rootsize: u32)

  /** The 64-bit sums as they are kept, cut to 32 bits. */
  function LayoutOf(m: Sector): Layout {
    Layout([Start(m, 0), Start(m, 1), Start(m, 2)], [Size(m, 0), Size(m, 1), Size(m, 2)],
           BootStart(m) % 0x1_0000_0000, RootStart(m) % 0x1_0000_0000, (End(m, 1) - RootStart(m)) % 0x1_0000_0000)
  }

  /** None where the tool refuses the card. */
  method Plan(m: Sector, sectors: nat) returns (l: Option<Layout>)
    ensures l == if Accepted(m, sectors) then Some(LayoutOf(m)) else None
  {
    if m[510] != 0x55 || m[511] != 0xaa {
      return None;
    }
    var ok, start, size := ReadEntries(m, sectors);
    if !ok {
      return None;
    }
    for i := 494 to 510
      invariant forall j :: 494 <= j < i ==> m[j] == 0
    {
      if m[i] != 0 {
        return None;
      }
    }
    if m[450] != 0x06 && m[450] != 0x0e && m[450] != 0x0b && m[450] != 0x0c {
      return None;
    }
    if m[466] != 0x83 || (m[482] != 0x83 && m[482] != 0x07) {
      return None;
    }
    var boot := (start[1] as int + ALIGN - 1) / ALIGN * ALIGN;
    var root := boot + BOOT_SECTORS;
    var end := start[1] as int + size[1] as int;
    if root > U32_MAX || end < root + MIN_ROOT {
      return None;
    }
    return Some(Layout(start, size, boot % 0x1_0000_0000, root % 0x1_0000_0000, (end - root) % 0x1_0000_0000));
  }

  /** The loop over the first three entries. */
  method ReadEntries(m: Sector, sectors: nat) returns (ok: bool, start: seq<u32>, size: seq<u32>)
    ensures ok <==> forall i :: 0 <= i < 3 ==> EntryOk(m, sectors, i)
    ensures ok ==> start == [Start(m, 0), Start(m, 1), Start(m, 2)] && size == [Size(m, 0), Size(m, 1), Size(m, 2)]
  {
    start, size := [], [];
    for i := 0 to 3
      invariant |start| == |size| == i
      invariant forall j :: 0 <= j < i ==> start[j] == Start(m, j) && size[j] == Size(m, j)
      invariant forall j :: 0 <= j < i ==> EntryOk(m, sectors, j)
    {
      var p := EntryAt(i);
      var s, n := Get32(m, p + 8), Get32(m, p + 12);
      assert s == Start(m, i) && n == Size(m, i);
      if || s == 0 || n == 0 || s as int + n as int > sectors
         || (m[p] != 0 && m[p] != 0x80)
         || (i > 0 && s < start[i - 1] as int + size[i - 1] as int)
      {
        assert !EntryOk(m, sectors, i);
        return false, start, size;
      }
      assert EntryOk(m, sectors, i);
      start, size := start + [s], size + [n];
    }
    ok := true;
  }

  /** The sums of the planner, for a partition of `size` sectors at `start`. */
  lemma PlanSums(start: nat, size: nat)
    ensures var boot := (start + ALIGN - 1) / ALIGN * ALIGN;
      && start <= boot < start + ALIGN && boot % ALIGN == 0 && (boot + BOOT_SECTORS) % ALIGN == 0
    ensures start + size - ((start + ALIGN - 1) / ALIGN * ALIGN + BOOT_SECTORS) <= size
  {
    var boot := (start + ALIGN - 1) / ALIGN * ALIGN;
    assert (boot + 16 * ALIGN) % ALIGN == 0;
  }

  /** The new boot and root of every accepted card are aligned, adjacent, wholly
      inside the old root, clear of the old boot and data partitions, and none
      of their numbers lost bits. */
  lemma PlanSound(m: Sector, sectors: nat)
    requires Accepted(m, sectors)
    ensures var l := LayoutOf(m);
      && l.boot % ALIGN == 0 && l.root % ALIGN == 0
      && l.boot == BootStart(m) && l.root == l.boot + BOOT_SECTORS
      && l.root as int + l.rootsize as int == End(m, 1) && l.rootsize >= MIN_ROOT
      && Start(m, 1) <= l.boot < Start(m, 1) + ALIGN
      && 0 < End(m, 0) <= l.boot && End(m, 1) <= Start(m, 2) && End(m, 2) <= sectors
  {
    assert EntryOk(m, sectors, 0) && EntryOk(m, sectors, 1) && EntryOk(m, sectors, 2);
    var start: nat, size: nat := Start(m, 1), Size(m, 1);
    PlanSums(start, size);
    KeepsBits(BootStart(m));
    KeepsBits(RootStart(m));
    KeepsBits(End(m, 1) - RootStart(m));
  }

  lemma KeepsBits(x: nat)
    ensures x <= U32_MAX ==> x % 0x1_0000_0000 == x
  {
  }

  // -------------------------------------------------------- the replacement

  /** A partition entry with saturated cylinder addresses. */
  function Entry(active: byte, kind: byte, start: u32, size: u32): (e: seq<byte>)
    ensures |e| == 16 && e[0] == active && e[4] == kind && Get32(e, 8) == start && Get32(e, 12) == size
  {
    var e := [active, 0xfe, 0xff, 0xff, kind, 0xfe, 0xff, 0xff] + Bytes32(start) + Bytes32(size);
    assert e[8..12] == Bytes32(start) && e[12..16] == Bytes32(size);
    assert forall i :: 0 <= i < 4 ==> e[8 + i] == Bytes32(start)[i] && e[12 + i] == Bytes32(size)[i];
    e
  }

  /** memset of the 16 bytes of an entry. */
  method ClearEntry(p: array<byte>, at: nat)
    requires at + 16 <= p.Length
    modifies p
    ensures forall j :: 0 <= j < p.Length ==> p[j] == if at <= j < at + 16 then 0 else old(p[j])
  {
    for i := 0 to 16
      invariant forall j :: 0 <= j < p.Length ==> p[j] == if at <= j < at + i then 0 else old(p[j])
    {
      p[at + i] := 0;
    }
  }

  /** The MBR that installs the plan of `saved`. */
  function Next(saved: Sector): Sector {
    var l := LayoutOf(saved);
    Over(Over(saved, 446, Entry(0x80, 0x0c, l.boot, BOOT_SECTORS)), 462, Entry(0, 0x83, l.root, l.rootsize))
  }

  method WriteEntry(p: array<byte>, at: nat, active: byte, kind: byte, start: u32, size: u32)
    requires at + 16 <= p.Length
    modifies p
    ensures p[..] == Over(old(p[..]), at, Entry(active, kind, start, size))
  {
    ClearEntry(p, at);
    p[at], p[at + 4] := active, kind;
    p[at + 1], p[at + 5] := 0xfe, 0xfe;
    p[at + 2], p[at + 3], p[at + 6], p[at + 7] := 0xff, 0xff, 0xff, 0xff;
    Put32(p, at + 8, start);
    Put32(p, at + 12, size);
    ghost var e := Entry(active, kind, start, size);
    forall j | 0 <= j < p.Length ensures p[j] == if at <= j < at + 16 then e[j - at] else old(p[j]) {
      assert at + 8 <= j < at + 12 ==> p[j] == Bytes32(start)[j - at - 8];
      assert at + 12 <= j < at + 16 ==> p[j] == Bytes32(size)[j - at - 12];
    }
  }

  method Replace(m: array<byte>, l: Layout)
    requires m.Length == 512 && l == LayoutOf(m[..])
    modifies m
    ensures m[..] == Next(old(m[..]))
  {
    WriteEntry(m, 446, 0x80, 0x0c, l.boot, BOOT_SECTORS);
    WriteEntry(m, 462, 0, 0x83, l.root, l.rootsize);
  }

  lemma GetOver(m: seq<byte>, at: nat, b: seq<byte>, i: nat)
    requires at + |b| <= |m| && i + 4 <= |b|
    ensures Get32(Over(m, at, b), at + i) == Get32(b, i)
  {
  }

  lemma GetApart(m: seq<byte>, at: nat, b: seq<byte>, i: nat)
    requires at + |b| <= |m| && i + 4 <= |m| && (i + 4 <= at || at + |b| <= i)
    ensures Get32(Over(m, at, b), i) == Get32(m, i)
  {
  }

  /** The installed table differs from the saved one, only in the first two
      entries, and these decode back to the plan. */
  lemma NextDecodes(saved: Sector, sectors: nat)
    requires Accepted(saved, sectors)
    ensures var l, next := LayoutOf(saved), Next(saved);
      && next != saved
      && (forall i :: 0 <= i < 512 && !(446 <= i < 478) ==> next[i] == saved[i])
      && Start(next, 0) == l.boot && Size(next, 0) == BOOT_SECTORS && next[446] == 0x80 && next[450] == 0x0c
      && Start(next, 1) == l.root && Size(next, 1) == l.rootsize && next[462] == 0 && next[466] == 0x83
      && Start(next, 2) == Start(saved, 2) && Size(next, 2) == Size(saved, 2)
  {
    var l := LayoutOf(saved);
    var boot, root := Entry(0x80, 0x0c, l.boot, BOOT_SECTORS), Entry(0, 0x83, l.root, l.rootsize);
    var half := Over(saved, 446, boot);
    GetOver(saved, 446, boot, 8);
    GetOver(saved, 446, boot, 12);
    GetApart(half, 462, root, 454);
    GetApart(half, 462, root, 458);
    GetOver(half, 462, root, 8);
    GetOver(half, 462, root, 12);
    PlanSound(saved, sectors);
    assert EntryOk(saved, sectors, 0);
    assert Start(Next(saved), 0) > Start(saved, 0);
  }

  // ------------------------------------------------- the commands, over runs

  datatype Range = Range(start: nat, size: nat)

  predicate Within(at: nat, r: Range) {
    r.start <= at < r.start + r.size
  }

  /** The card, and the ranges attached to loop devices until the next boot. */
  datatype World = World(disk: seq<Sector>, mapped: set<Range>)

  /** A run of the tool with the saved MBR, a write through an attached loop
      device, or a restart. `written` and `reported` are whether the sector
      reached the card and whether pwrite, fsync and the flush succeeded. */
  datatype Op =
    | Commit(written: bool, reported: bool)
    | MapBoot
    | MapRoot
    | EmitBootSector
    | Stage(at: nat, data: Sector)
    | Restart

  /** What an accepted saved MBR asks for: the table to install and the two
      ranges to stage into. */
  datatype Target = Target(saved: Sector, next: Sector, boot: Range, root: Range)

  function TargetOf(saved: Sector): Target {
    var l := LayoutOf(saved);
    Target(saved, Next(saved), Range(l.boot, BOOT_SECTORS), Range(l.root, l.rootsize))
  }

  datatype Status = Stock | Installed | Refused

  /** What the tool finds on the card before it acts. */
  function StatusOf(disk: seq<Sector>, t: Target): Status
    requires disk != []
  {
    if disk[0] == t.saved then Stock else if disk[0] == t.next then Installed else Refused
  }

  /** The boot sector with its hidden-sector count corrected, if it is the one
      the installer writes. */
  function Corrected(sector: Sector, boot: u32): Option<Sector> {
    var hidden := Get32(sector, 28);
    if || sector[510] != 0x55 || sector[511] != 0xaa || sector[11] != 0 || sector[12] != 2
       || sector[13] != 4 || sector[14] != 4 || sector[15] != 0 || sector[16] != 2
       || Get32(sector, 32) != BOOT_SECTORS || sector[54..62] != [0x46, 0x41, 0x54, 0x31, 0x36, 0x20, 0x20, 0x20]
       || (hidden != 0 && hidden != boot)
    then None
    else Some(Over(sector, 28, Bytes32(boot)))
  }

  /** The world after the operation, and whether the tool reported success. */
  function Perform(w: World, t: Target, op: Op): (World, bool)
    requires w.disk != []
  {
    var status := StatusOf(w.disk, t);
    match op
    case Commit(written, reported) =>
      if status.Refused? then (w, false)
      else if status.Installed? then (w, reported)
      else
        var disk := if written then w.disk[0 := t.next] else w.disk;
        (w.(disk := disk), reported && disk[0] == t.next)
    case MapBoot => if status.Stock? then (w.(mapped := w.mapped + {t.boot}), true) else (w, false)
    case MapRoot => if status.Stock? then (w.(mapped := w.mapped + {t.root}), true) else (w, false)
    case EmitBootSector =>
      (w, && status.Stock? && t.boot.start < |w.disk| && t.boot.start <= U32_MAX
          && Corrected(w.disk[t.boot.start], t.boot.start).Some?)
    case Stage(at, data) =>
      if at < |w.disk| && exists r :: r in w.mapped && Within(at, r) then (w.(disk := w.disk[at := data]), true)
          else (w, false)
    case Restart => (w.(mapped := {}), true)
  }

  /** The commit command: plan the saved MBR, compare, write one sector, read
      back. It refuses a saved MBR it cannot plan. */
  method CommitCard(w: World, saved: Sector, written: bool, reported: bool) returns (w': World, ok: bool)
    requires w.disk != []
    ensures !Accepted(saved, |w.disk|) ==> w' == w && !ok
    ensures Accepted(saved, |w.disk|) ==> (w', ok) == Perform(w, TargetOf(saved), Commit(written, reported))
    ensures Accepted(saved, |w.disk|) ==>
      var installs := (w.disk[0] == saved && written) || w.disk[0] == Next(saved);
      w' == (if installs then w.(disk := w.disk[0 := Next(saved)]) else w) && ok == (installs && reported)
  {
    w' := w;
    var current := w.disk[0];
    var plan := Plan(saved, |w.disk|);
    if plan.None? {
      return w, false;
    }
    var next := new byte[512](i requires 0 <= i < 512 => saved[i]);
    assert next[..] == saved;
    Replace(next, plan.value);
    var isOld, done := current == saved, current == next[..];
    if !isOld && !done {
      return w, false;
    }
    NextDecodes(saved, |w.disk|);
    if isOld {
      if written {
        w' := w.(disk := w.disk[0 := next[..]]);
      }
      if !reported {
        return w', false;
      }
    }
    current := w'.disk[0];
    ok := reported && current == next[..];
    assert done ==> w.disk[0 := Next(saved)] == w.disk;
  }

  /** What a run of operations from `w` leads to. */
  function Run(w: World, t: Target, ops: seq<Op>): World
    requires w.disk != []
    ensures |Run(w, t, ops).disk| == |w.disk|
    decreases |ops|
  {
    if ops == [] then w else Perform(Run(w, t, ops[..|ops| - 1]), t, ops[|ops| - 1]).0
  }

  /** `v` is `w` with the saved or the installed table and changes inside the
      sectors from `low` to `high` at most. */
  predicate Contained(w: World, t: Target, low: nat, high: nat, v: World) {
    && w.disk != [] && |v.disk| == |w.disk|
    && (v.disk[0] == t.saved || v.disk[0] == t.next)
    && (forall r :: r in v.mapped ==> low <= r.start && r.start + r.size <= high)
    && (forall at :: 1 <= at < |w.disk| && !(low <= at < high) ==> v.disk[at] == w.disk[at])
  }

  predicate Inside(r: Range, low: nat, high: nat) {
    low <= r.start && r.start + r.size <= high
  }

  lemma ContainedStep(w: World, t: Target, low: nat, high: nat, v: World, op: Op)
    requires Contained(w, t, low, high, v) && 0 < low && Inside(t.boot, low, high) && Inside(t.root, low, high)
    ensures Contained(w, t, low, high, Perform(v, t, op).0)
  {
    var next := Perform(v, t, op).0;
    assert forall r :: r in next.mapped ==> r in v.mapped || r == t.boot || r == t.root;
  }

  lemma {:induction false} RunContained(w: World, t: Target, low: nat, high: nat, ops: seq<Op>)
    requires w.disk != [] && w.disk[0] == t.saved && w.mapped == {}
    requires 0 < low && Inside(t.boot, low, high) && Inside(t.root, low, high)
    ensures Contained(w, t, low, high, Run(w, t, ops))
    decreases |ops|
  {
    if ops != [] {
      RunContained(w, t, low, high, ops[..|ops| - 1]);
      ContainedStep(w, t, low, high, Run(w, t, ops[..|ops| - 1]), ops[|ops| - 1]);
    }
  }

  /** Over every run of commands, staging writes, failures and restarts that
      begins with an accepted MBR on the card: the table is exactly the saved or
      the installed one, only ranges inside the old root are ever mapped, and no
      other sector changes; so the old boot and the data partition keep their
      contents. */
  lemma {:induction false} RunSafe(w: World, saved: Sector, ops: seq<Op>)
    requires w.disk != [] && Accepted(saved, |w.disk|) && w.disk[0] == saved && w.mapped == {}
    ensures var v := Run(w, TargetOf(saved), ops);
      && (v.disk[0] == saved || v.disk[0] == Next(saved))
      && (forall r :: r in v.mapped ==> Inside(r, Start(saved, 1), End(saved, 1)))
      && (forall at :: 1 <= at < |w.disk| && !(Start(saved, 1) <= at < End(saved, 1)) ==> v.disk[at] == w.disk[at])
      && (forall at :: 1 <= at < |w.disk| && (at < End(saved, 0) || Start(saved, 2) <= at) ==> v.disk[at] == w.disk[at])
  {
    PlanSound(saved, |w.disk|);
    EntriesOrdered(saved, |w.disk|);
    RunContained(w, TargetOf(saved), Start(saved, 1), End(saved, 1), ops);
  }

  lemma EntriesOrdered(m: Sector, sectors: nat)
    requires Accepted(m, sectors)
    ensures 0 < Start(m, 1) && End(m, 0) <= Start(m, 1) && End(m, 1) <= Start(m, 2)
  {
    assert EntryOk(m, sectors, 0) && EntryOk(m, sectors, 1) && EntryOk(m, sectors, 2);
  }

  /** Once the table is installed it stays installed, nothing can be mapped or
      patched any more, and a further commit changes nothing. */
  lemma InstalledIsFinal(w: World, t: Target, op: Op)
    requires w.disk != [] && t.saved != t.next && StatusOf(w.disk, t).Installed?
    requires forall r :: r in w.mapped ==> r.start > 0
    ensures var (v, ok) := Perform(w, t, op);
      && StatusOf(v.disk, t).Installed?
      && (op.MapBoot? || op.MapRoot? || op.EmitBootSector? ==> !ok && v == w)
      && (op.Commit? ==> v == w && ok == op.reported)
  {
  }

  /** Over every run: once some prefix of it installed the table, every longer
      prefix has it installed and refuses to map or patch. */
  lemma {:induction false} InstalledForever(w: World, saved: Sector, ops: seq<Op>, k: nat)
    requires w.disk != [] && Accepted(saved, |w.disk|) && w.disk[0] == saved && w.mapped == {} && k <= |ops|
    requires Run(w, TargetOf(saved), ops[..k]).disk[0] == Next(saved)
    ensures var v := Run(w, TargetOf(saved), ops);
      && v.disk[0] == Next(saved)
      && forall op: Op :: op.MapBoot? || op.MapRoot? || op.EmitBootSector? ==> !Perform(v, TargetOf(saved), op).1
    decreases |ops|
  {
    var t := TargetOf(saved);
    NextDecodes(saved, |w.disk|);
    if k == |ops| {
      assert ops[..k] == ops;
    } else {
      var init := ops[..|ops| - 1];
      assert init[..k] == ops[..k];
      InstalledForever(w, saved, init, k);
      RunSafe(w, saved, init);
      EntriesOrdered(saved, |w.disk|);
      InstalledIsFinal(Run(w, t, init), t, ops[|ops| - 1]);
    }
  }

  /** A commit installs the table if and only if the card is stock and the sector
      gets written, or it was installed before; it is reported as done exactly if
      that is so and nothing failed. Nothing else changes. */
  lemma CommitExact(w: World, t: Target, written: bool, reported: bool)
    requires w.disk != [] && t.saved != t.next
    ensures var (v, ok) := Perform(w, t, Commit(written, reported));
      var installs := (w.disk[0] == t.saved && written) || w.disk[0] == t.next;
      && (v.disk[0] == t.next <==> installs) && (ok <==> installs && reported)
      && (installs ==> v.disk == w.disk[0 := t.next]) && (!installs ==> v == w) && v.mapped == w.mapped
      && (StatusOf(w.disk, t).Refused? <==> StatusOf(v.disk, t).Refused?)
  {
    assert w.disk[0] == t.next ==> w.disk[0 := t.next] == w.disk;
  }

  /** After any run on an accepted card, a commit that works installs the table,
      and leaves every other sector as it was staged. */
  lemma {:induction false} CommitInstalls(w: World, saved: Sector, ops: seq<Op>)
    requires w.disk != [] && Accepted(saved, |w.disk|) && w.disk[0] == saved && w.mapped == {}
    ensures var v, v' := Run(w, TargetOf(saved), ops), Run(w, TargetOf(saved), ops + [Commit(true, true)]);
      && v'.disk[0] == Next(saved) && v'.mapped == v.mapped
      && forall at :: 1 <= at < |w.disk| ==> v'.disk[at] == v.disk[at]
  {
    var all := ops + [Commit(true, true)];
    assert all[..|all| - 1] == ops;
    RunSafe(w, saved, ops);
    NextDecodes(saved, |w.disk|);
    CommitExact(Run(w, TargetOf(saved), ops), TargetOf(saved), true, true);
  }

  /** What is mapped for staging is exactly what the installed table will call
      its first and second partition; nothing else is ever mapped. */
  lemma MapsExactly(w: World, saved: Sector, op: Op)
    requires w.disk != [] && Accepted(saved, |w.disk|)
    ensures var (v, ok) := Perform(w, TargetOf(saved), op);
      var boot := Range(Start(Next(saved), 0), Size(Next(saved), 0));
      var root := Range(Start(Next(saved), 1), Size(Next(saved), 1));
      && v.mapped == (if op.Restart? then {}
                      else if op.MapBoot? && w.disk[0] == saved then w.mapped + {boot}
                      else if op.MapRoot? && w.disk[0] == saved then w.mapped + {root} else w.mapped)
      && (op.MapBoot? || op.MapRoot? ==> v.disk == w.disk && ok == (w.disk[0] == saved))
  {
    NextDecodes(saved, |w.disk|);
  }

  /** A write through a loop device reaches the card exactly inside what is
      mapped. */
  lemma StagesExactly(w: World, t: Target, at: nat, data: Sector)
    requires w.disk != []
    ensures var (v, ok) := Perform(w, t, Stage(at, data));
      && (ok <==> at < |w.disk| && exists r :: r in w.mapped && r.start <= at < r.start + r.size)
      && v.mapped == w.mapped && v.disk == if ok then w.disk[at := data] else w.disk
  {
    assert forall r :: Within(at, r) <==> r.start <= at < r.start + r.size;
  }

  function Get16(p: seq<byte>, at: nat): nat
    requires at + 2 <= |p|
  {
    p[at] as int + p[at + 1] as int * 0x100
  }

  /** The boot sector is taken for the one of the new boot partition exactly if it
      is a FAT16 one of this geometry, whose hidden sectors are not set yet or
      are right. */
  lemma CorrectedExactly(sector: Sector, boot: u32)
    ensures Corrected(sector, boot).Some? <==>
      && Get16(sector, 510) == 0xaa55
      && Get16(sector, 11) == 512 && sector[13] == 4 && Get16(sector, 14) == 4 && sector[16] == 2
      && Get32(sector, 32) == 131072 && sector[54..62] == [0x46, 0x41, 0x54, 0x31, 0x36, 0x20, 0x20, 0x20]
      && (Get32(sector, 28) == 0 || Get32(sector, 28) == boot)
  {
  }

  /** Correcting the boot sector changes only its hidden-sector count, to the
      partition's own start, and correcting it again changes nothing. */
  lemma CorrectedOnce(sector: Sector, boot: u32)
    requires Corrected(sector, boot).Some?
    ensures var c := Corrected(sector, boot).value;
      && Get32(c, 28) == boot
      && (forall i :: 0 <= i < 512 && !(28 <= i < 32) ==> c[i] == sector[i])
      && Corrected(c, boot) == Some(c)
  {
    var c := Corrected(sector, boot).value;
    GetOver(sector, 28, Bytes32(boot), 0);
    GetApart(sector, 28, Bytes32(boot), 32);
    assert c[54..62] == sector[54..62];
    assert Over(c, 28, Bytes32(boot)) == c;
  }
}
