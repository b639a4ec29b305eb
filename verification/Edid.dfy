/** Monitor EDIDs of the capture card: the Video Capability Data Block that
    lets a source send full-range RGB (CTA-861-G, section 7.5.6) is inserted by
    the build and removed again to recognise profiles of earlier releases; and
    an EDID is checked for modes a Cube receiver cannot capture. */
module Edid {
  import opened Shared

  /** Tag and length of a data block header. */
  function Tag(b: byte): int { b / 32 }
  function Len(b: byte): int { b % 32 }

  const VCDB_TAG := 7
  const VCDB_EXT: byte := 0
  const CAPABILITY: byte := 0x4A
  const HEADER: seq<byte> := [0, 255, 255, 255, 255, 255, 255, 0]

  function Sum(s: seq<byte>): nat {
    if s == [] then 0 else Sum(s[..|s| - 1]) + s[|s| - 1]
  }

  predicate ChecksumOk(block: seq<byte>) {
    Sum(block) % 256 == 0
  }

  /** The last byte that makes a block's sum a multiple of 256. */
  function Checksum(body: seq<byte>): (c: byte)
    ensures (Sum(body) + c) % 256 == 0
  {
    (256 - Sum(body) % 256) % 256
  }

  /** A 128-byte block of an EDID. */
  type Block = b: seq<byte> | |b| == 128 witness seq(128, _ => 0)

  function BlockAt(e: seq<byte>, i: nat): Block
    requires (i + 1) * 128 <= |e|
  {
    e[i * 128..(i + 1) * 128]
  }

  /** Header present and every announced block there with a correct checksum. */
  predicate Valid(e: seq<byte>) {
    && |e| >= 128 && |e| % 128 == 0 && e[..8] == HEADER
    && (e[126] + 1) * 128 <= |e|
    && forall i :: 0 <= i <= e[126] ==> ChecksumOk(BlockAt(e, i))
  }

  // ------------------------------------------------- walking the data blocks

  /** A walk over the data blocks of a CTA extension from `pos` to `end`. */
  datatype Walk = Truncated | Found(pos: nat) | Reached

  /** Finds the first Video Capability Data Block, of any content. */
  function FindVcdb(x: Block, pos: nat, end: nat): (w: Walk)
    requires 4 <= pos && end <= 127
    ensures w.Found? ==> pos <= w.pos && w.pos + 2 < end && Tag(x[w.pos]) == VCDB_TAG && x[w.pos + 1] == VCDB_EXT
    decreases end - pos
  {
    if pos >= end then Reached
    else if pos + 1 + Len(x[pos]) > end then Truncated
    else if Tag(x[pos]) == VCDB_TAG && Len(x[pos]) >= 2 && x[pos + 1] == VCDB_EXT then Found(pos)
    else FindVcdb(x, pos + 1 + Len(x[pos]), end)
  }

  /** Finds the first block that is exactly the inserted one. */
  function FindInserted(x: Block, pos: nat, end: nat): (w: Walk)
    requires 4 <= pos && end <= 127
    ensures w.Found? ==> pos <= w.pos && w.pos + 2 < end
    decreases end - pos
  {
    if pos >= end then Reached
    else if pos + 1 + Len(x[pos]) > end then Truncated
    else if Tag(x[pos]) == VCDB_TAG && Len(x[pos]) == 2 && x[pos + 1] == VCDB_EXT
        && x[pos + 2] == CAPABILITY then Found(pos)
    else FindInserted(x, pos + 1 + Len(x[pos]), end)
  }

  /** Whether a block declares the RGB range selectable (QS, bit 6). */
  predicate DeclaresFrom(x: Block, pos: nat, end: nat)
    requires 4 <= pos && end <= 127
    decreases end - pos
  {
    pos < end && pos + 1 + Len(x[pos]) <= end &&
    ( || (Tag(x[pos]) == 7 && Len(x[pos]) >= 2 && x[pos + 1] == 0 && x[pos + 2] / 64 % 2 == 1)
      || DeclaresFrom(x, pos + 1 + Len(x[pos]), end))
  }

  // --------------------------------------------------------------- insertion

  /** The end of the detailed timings that follow the data blocks. */
  function TimingsEnd(x: Block, pos: nat): (dtd: nat)
    requires pos <= 127
    ensures pos <= dtd <= 127 && (dtd - pos) % 18 == 0
    decreases 127 - pos
  {
    if pos + 18 <= 127 && !(x[pos] == 0 && x[pos + 1] == 0) then TimingsEnd(x, pos + 18) else pos
  }

  const VCDB: seq<byte> := [VCDB_TAG * 32 + 2, VCDB_EXT, CAPABILITY]

  function Zeros(n: nat): (z: seq<byte>)
    ensures |z| == n && forall i :: 0 <= i < n ==> z[i] == 0
  {
    seq(n, _ => 0)
  }

  predicate AllZero(s: seq<byte>) {
    forall i :: 0 <= i < |s| ==> s[i] == 0
  }

  /** The first 127 bytes of the extension with the block inserted at `end`,
      before its timings, and the boundary moved. */
  function InsertedBody(x: Block, end: nat, dtd: nat): (body: seq<byte>)
    requires 4 <= end <= dtd && dtd + 3 <= 127
    ensures |body| == 127
  {
    seq(127, i requires 0 <= i < 127 =>
      if i == 2 then end + 3
      else if i < end then x[i]
      else if i < end + 3 then VCDB[i - end]
      else if i < dtd + 3 then x[i - 3]
      else 0)
  }

  function Inserted(x: Block, end: nat, dtd: nat): Block
    requires 4 <= end <= dtd && dtd + 3 <= 127
  {
    InsertedBody(x, end, dtd) + [Checksum(InsertedBody(x, end, dtd))]
  }

  /** A 256-byte EDID with one CTA revision 3 extension and valid checksums. */
  predicate Editable(e: seq<byte>) {
    && |e| == 256 && e[..8] == HEADER && e[126] == 1
    && ChecksumOk(BlockAt(e, 0)) && ChecksumOk(BlockAt(e, 1))
    && e[128] == 2 && e[129] == 3 && 4 <= e[130] <= 127
  }

  /** with_rgb_range: None where it raises. */
  function WithRgbRange(e: seq<byte>): Option<seq<byte>> {
    if !Editable(e) then None
    else
      var x := BlockAt(e, 1);
      var end: nat := x[2];
      match FindVcdb(x, 4, end)
      case Truncated => None
      case Found(pos) => if x[pos + 2] == CAPABILITY then Some(e) else None
      case Reached =>
        var dtd := TimingsEnd(x, end);
        if !AllZero(x[dtd..127]) || dtd + 3 > 127 then None
        else Some(e[..128] + Inserted(x, end, dtd))
  }

  /** The EDID carries no Video Capability Data Block and has room for one. */
  predicate CanInsert(e: seq<byte>) {
    && Editable(e)
    && var x := BlockAt(e, 1);
    && FindVcdb(x, 4, x[2]).Reached?
    && AllZero(x[TimingsEnd(x, x[2])..127]) && TimingsEnd(x, x[2]) + 3 <= 127
  }

  // ----------------------------------------------------------------- removal

  /** The first 127 bytes of the extension with the three bytes at `pos` taken
      out, the rest moved up, and the boundary moved back. */
  function RemovedBody(x: Block, pos: nat, end: nat): (body: seq<byte>)
    requires 4 <= pos && pos + 2 < end <= 127
    ensures |body| == 127
  {
    seq(127, i requires 0 <= i < 127 =>
      if i == 2 then end - 3 else if i < pos then x[i] else if i < 124 then x[i + 3] else 0)
  }

  function Removed(x: Block, pos: nat, end: nat): Block
    requires 4 <= pos && pos + 2 < end <= 127
  {
    RemovedBody(x, pos, end) + [Checksum(RemovedBody(x, pos, end))]
  }

  /** profileWithoutRGBRange: None where it returns nil. */
  function WithoutRgbRange(e: seq<byte>): Option<seq<byte>> {
    if |e| != 256 || !Valid(e) || e[126] != 1 || e[128] != 2 || !(4 <= e[130] <= 127) then None
    else
      var x := BlockAt(e, 1);
      match FindInserted(x, 4, x[2])
      case Found(pos) => Some(e[..128] + Removed(x, pos, x[2]))
      case _ => None
  }

  /** edidDeclaresRGBRange, from block `i` on. */
  predicate Declares(e: seq<byte>, i: nat)
    requires |e| >= 128
    decreases |e| - i
  {
    i <= e[126] && (i + 1) * 128 <= |e| &&
    (var x := BlockAt(e, i);
     || (x[0] == 2 && 4 <= x[2] <= 127 && DeclaresFrom(x, 4, x[2]))
     || Declares(e, i + 1))
  }

  // ------------------------------------------------------ the Cube's limits

  /** A mode the receiver cannot capture. */
  datatype Mode = Timing(h: int, v: int, hz: real) | Vic(code: int) | Hdmi4k | Ycc420

  const CUBE_MAX_PIXEL_RATE := 1920 * 1080 * 61

  predicate TooFast(h: int, v: int, hz: real) {
    h > 1920 || v > 1080 || (h * v) as real * hz > CUBE_MAX_PIXEL_RATE as real
  }

  /** The mode of a detailed timing, if it is beyond the receiver. */
  function Detailed(d: seq<byte>): Option<Mode>
    requires |d| == 18
  {
    var clock := d[0] as int + d[1] as int * 256;
    var h, hb := d[2] as int + d[4] as int / 16 * 256, d[3] as int + d[4] as int % 16 * 256;
    var v, vb := d[5] as int + d[7] as int / 16 * 256, d[6] as int + d[7] as int % 16 * 256;
    if clock == 0 || h + hb == 0 || v + vb == 0 then None
    else
      var hz := RefreshRate(clock, h + hb, v + vb);
      if TooFast(h, v, hz) then Some(Timing(h, v, hz)) else None
  }

  /** Frames per second of a raster at a pixel clock in units of 10 kHz. */
  function RefreshRate(clock: nat, width: nat, height: nat): real
    requires width > 0 && height > 0
  {
    (clock * 10000) as real / width as real / height as real
  }

  predicate UnsafeVic(vic: int) {
    vic == 63 || vic == 64 || vic == 77 || vic == 78 || vic == 85 || vic == 113
    || 86 <= vic <= 107 || 114 <= vic <= 127 || 193 <= vic <= 219
  }

  function BeyondVideo(body: seq<byte>, j: nat): Option<Mode>
    requires j <= |body|
    decreases |body| - j
  {
    if j == |body| then None
    else
      var svd: int := body[j];
      var vic := if svd >= 128 && 1 <= svd % 128 <= 64 then svd % 128 else svd;
      if UnsafeVic(vic) then Some(Vic(vic)) else BeyondVideo(body, j + 1)
  }

  /** What one data block with this tag and body announces. */
  function BeyondBlock(tag: int, body: seq<byte>): Option<Mode> {
    if tag == 2 then BeyondVideo(body, 0)
    else if tag == 3 && |body| >= 8 && body[0] == 3 && body[1] == 12 && body[2] == 0 then
      var flags := body[7];
      var j := 8 + (if flags / 128 == 1 then 2 else 0) + (if flags / 64 % 2 == 1 then 2 else 0);
      if flags / 32 % 2 == 1 && j + 1 < |body| && body[j + 1] / 32 != 0 then Some(Hdmi4k) else None
    else if tag == 7 && |body| > 1 && body[0] == 14 then Some(Ycc420)
    else None
  }

  function BeyondBlocks(x: Block, pos: nat, end: nat): Option<Mode>
    requires 4 <= pos && end <= 127
    decreases end - pos
  {
    if pos >= end || pos + 1 + Len(x[pos]) > end then None
    else
      var mode := BeyondBlock(Tag(x[pos]), x[pos + 1..pos + 1 + Len(x[pos])]);
      if mode.Some? then mode else BeyondBlocks(x, pos + 1 + Len(x[pos]), end)
  }

  function BeyondTimings(x: Block, offset: nat): Option<Mode>
    decreases 128 - offset
  {
    if offset < 4 || offset + 18 > 127 then None
    else
      var mode := Detailed(x[offset..offset + 18]);
      if mode.Some? then mode else BeyondTimings(x, offset + 18)
  }

  function BeyondExtension(x: Block): Option<Mode> {
    if x[0] != 2 then None
    else
      var end: nat := if 4 <= x[2] <= 127 then x[2] else 4;
      var mode := BeyondBlocks(x, 4, end);
      if mode.Some? then mode else BeyondTimings(x, x[2])
  }

  function BeyondStandard(x: Block, offset: nat): Option<Mode>
    requires 38 <= offset <= 54 && offset % 2 == 0
    decreases 54 - offset
  {
    if offset == 54 then None
    else
      var b1: int, b2: int := x[offset], x[offset + 1];
      if (b1 == 1 && b2 == 1) || (b1 == 0 && b2 == 0) then BeyondStandard(x, offset + 2)
      else
        var h := (b1 + 31) * 8;
        var aspect := b2 / 64;
        var v := if aspect == 0 then h * 10 / 16 else if aspect == 1 then h * 3 / 4 else if aspect == 2 then h * 4 / 5
            else h * 9 / 16;
        var hz := (b2 % 64 + 60) as real;
        if TooFast(h, v, hz) then Some(Timing(h, v, hz)) else BeyondStandard(x, offset + 2)
  }

  function BeyondDescriptors(x: Block, offset: nat): Option<Mode>
    requires offset == 54 || offset == 72 || offset == 90 || offset == 108 || offset == 126
    decreases 126 - offset
  {
    if offset == 126 then None
    else
      var mode := Detailed(x[offset..offset + 18]);
      if mode.Some? then mode else BeyondDescriptors(x, offset + 18)
  }

  function BeyondBase(x: Block): Option<Mode> {
    var mode := BeyondDescriptors(x, 54);
    if mode.Some? then mode else BeyondStandard(x, 38)
  }

  /** edidBeyondCube over the extensions, from block `i` on. */
  function BeyondExtensions(e: seq<byte>, i: nat): Option<Mode>
    requires |e| >= 128
    decreases |e| - i
  {
    if i > e[126] || (i + 1) * 128 > |e| then None
    else
      var mode := BeyondExtension(BlockAt(e, i));
      if mode.Some? then mode else BeyondExtensions(e, i + 1)
  }

  /** edidBeyondCube: the first mode beyond the receiver, if any. */
  function BeyondCube(e: seq<byte>): Option<Mode> {
    if |e| < 128 then None
    else
      var mode := BeyondBase(BlockAt(e, 0));
      if mode.Some? then mode else BeyondExtensions(e, 1)
  }

  // -------------------------------------------------- insertion and removal

  lemma {:induction false} SumLast(body: seq<byte>, c: byte)
    ensures Sum(body + [c]) == Sum(body) + c
  {
    assert (body + [c])[..|body|] == body;
  }

  /** A block with a correct checksum ends with the checksum of the rest. */
  lemma ChecksumUnique(x: Block)
    requires ChecksumOk(x)
    ensures x == x[..127] + [Checksum(x[..127])]
  {
    assert x == x[..127] + [x[127]];
    SumLast(x[..127], x[127]);
  }

  /** Where everything is in an extension after insertion. */
  lemma InsertedShape(x: Block, end: nat, dtd: nat)
    requires 4 <= end <= dtd && dtd + 3 <= 127 && AllZero(x[dtd..127])
    ensures var y := Inserted(x, end, dtd);
      && y[0] == x[0] && y[1] == x[1] && y[2] == end + 3
      && (forall i :: 3 <= i < end ==> y[i] == x[i])
      && y[end] == VCDB_TAG * 32 + 2 && y[end + 1] == VCDB_EXT && y[end + 2] == CAPABILITY
      && (forall i :: end <= i < 124 ==> y[i + 3] == x[i])
      && ChecksumOk(y)
  {
    var body := InsertedBody(x, end, dtd);
    SumLast(body, Checksum(body));
    forall i | end <= i < 124 ensures Inserted(x, end, dtd)[i + 3] == x[i] {
      if i >= dtd {
        assert x[i] == x[dtd..127][i - dtd];
      }
    }
  }

  /** `y` is `x` with one more block, at `end`, that is the inserted one. */
  predicate Extends(x: Block, y: Block, end: nat) {
    && 4 <= end <= 124
    && (forall i :: 3 <= i < end ==> y[i] == x[i])
    && y[end] == VCDB_TAG * 32 + 2 && y[end + 1] == VCDB_EXT && y[end + 2] == CAPABILITY
  }

  /** Every walk that crosses `x` without meeting a capability block meets the
      inserted one at its end in `y`; the Cube's walk finds the same there. */
  lemma {:induction false} WalksCross(x: Block, y: Block, pos: nat, end: nat)
    requires Extends(x, y, end) && 4 <= pos <= end && FindVcdb(x, pos, end).Reached?
    ensures FindVcdb(y, pos, end + 3) == Found(end)
    ensures FindInserted(y, pos, end + 3) == Found(end)
    ensures DeclaresFrom(y, pos, end + 3) && !DeclaresFrom(x, pos, end)
    ensures BeyondBlocks(y, pos, end + 3) == BeyondBlocks(x, pos, end)
    decreases end - pos
  {
    if pos == end {
      assert BeyondBlock(7, y[end + 1..end + 3]).None?;
      assert BeyondBlocks(y, end + 3, end + 3).None?;
    } else {
      var n := Len(x[pos]);
      assert y[pos + 1..pos + 1 + n] == x[pos + 1..pos + 1 + n];
      WalksCross(x, y, pos + 1 + n, end);
    }
  }

  lemma ZeroTiming(d: seq<byte>)
    requires |d| == 18 && AllZero(d)
    ensures Detailed(d).None?
  {
  }

  /** The detailed timings, moved by three bytes, announce the same modes. */
  lemma {:induction false} TimingsMoved(x: Block, y: Block, end: nat, dtd: nat, offset: nat)
    requires 4 <= end <= offset && end <= dtd <= 124 && AllZero(x[dtd..127])
    requires forall i :: end <= i < 124 ==> y[i + 3] == x[i]
    requires offset >= dtd || (dtd - offset) % 18 == 0
    ensures BeyondTimings(y, offset + 3) == BeyondTimings(x, offset)
    decreases 128 - offset
  {
    if offset + 18 <= 127 {
      var d := x[offset..offset + 18];
      if offset >= dtd {
        assert forall i :: 0 <= i < 18 ==> d[i] == x[dtd..127][offset + i - dtd];
        ZeroTiming(d);
      } else {
        assert offset + 18 <= dtd;
      }
      if offset + 21 <= 127 {
        assert y[offset + 3..offset + 21] == d;
      }
      TimingsMoved(x, y, end, dtd, offset + 18);
    }
  }

  lemma RemovedUndoes(x: Block, end: nat, dtd: nat)
    requires 4 <= end <= dtd && dtd + 3 <= 127 && AllZero(x[dtd..127]) && x[2] == end && ChecksumOk(x)
    ensures Removed(Inserted(x, end, dtd), end, end + 3) == x
  {
    var y := Inserted(x, end, dtd);
    InsertedShape(x, end, dtd);
    var body := RemovedBody(y, end, end + 3);
    forall i | 0 <= i < 127 ensures body[i] == x[i] {
      if i >= 124 {
        assert x[i] == x[dtd..127][i - dtd];
      }
    }
    assert body == x[..127];
    ChecksumUnique(x);
  }

  /** The result is a new EDID exactly when the block can be inserted; otherwise
      it is the original, which already carries the block, or a refusal. */
  lemma InsertedExactlyWhen(e: seq<byte>)
    ensures var r := WithRgbRange(e);
      && (CanInsert(e) ==> r.Some? && r.value != e)
      && (!CanInsert(e) ==> r.None? || r == Some(e))
  {
    if CanInsert(e) {
      var x := BlockAt(e, 1);
      InsertedShape(x, x[2], TimingsEnd(x, x[2]));
      assert WithRgbRange(e).value[130] == x[2] + 3;
    }
  }

  /** The two blocks of an EDID after insertion. */
  lemma InsertedBlocks(e: seq<byte>)
    requires CanInsert(e)
    ensures var x := BlockAt(e, 1);
      var end: nat := x[2];
      var y := Inserted(x, end, TimingsEnd(x, end));
      var r := e[..128] + y;
      && WithRgbRange(e) == Some(r)
      && BlockAt(r, 0) == BlockAt(e, 0) && BlockAt(r, 1) == y && r[..128] == e[..128] && e == e[..128] + x
      && Editable(r) && Extends(x, y, end) && y[0] == x[0] && y[2] == end + 3
  {
    var x := BlockAt(e, 1);
    var end: nat := x[2];
    var r := e[..128] + Inserted(x, end, TimingsEnd(x, end));
    InsertedShape(x, end, TimingsEnd(x, end));
    assert r[..8] == e[..8];
  }

  lemma EditableValid(e: seq<byte>)
    requires Editable(e)
    ensures Valid(e)
  {
  }

  lemma InsertionReversed(e: seq<byte>)
    requires CanInsert(e) && WithRgbRange(e).Some?
    ensures WithoutRgbRange(WithRgbRange(e).value) == Some(e)
  {
    var x := BlockAt(e, 1);
    var end: nat := x[2];
    var dtd := TimingsEnd(x, end);
    var y := Inserted(x, end, dtd);
    InsertedBlocks(e);
    EditableValid(e[..128] + y);
    WalksCross(x, y, 4, end);
    RemovedUndoes(x, end, dtd);
  }

  lemma InsertionStable(e: seq<byte>)
    requires CanInsert(e) && WithRgbRange(e).Some?
    ensures var r := WithRgbRange(e).value; WithRgbRange(r) == Some(r)
  {
    var x := BlockAt(e, 1);
    InsertedBlocks(e);
    WalksCross(x, Inserted(x, x[2], TimingsEnd(x, x[2])), 4, x[2]);
  }

  lemma {:induction false} InsertionDeclares(e: seq<byte>)
    requires CanInsert(e) && WithRgbRange(e).Some?
    ensures |WithRgbRange(e).value| == 256 && Declares(WithRgbRange(e).value, 1) && !Declares(e, 1)
  {
    var x := BlockAt(e, 1);
    InsertedBlocks(e);
    WalksCross(x, Inserted(x, x[2], TimingsEnd(x, x[2])), 4, x[2]);
    assert !Declares(e, 2);
  }

  lemma {:induction false} ExtensionJudgedSame(x: Block, end: nat, dtd: nat)
    requires 4 <= end <= dtd && dtd + 3 <= 127 && AllZero(x[dtd..127]) && (dtd - end) % 18 == 0
    requires x[2] == end && FindVcdb(x, 4, end).Reached?
    ensures BeyondExtension(Inserted(x, end, dtd)) == BeyondExtension(x)
  {
    var y := Inserted(x, end, dtd);
    InsertedShape(x, end, dtd);
    WalksCross(x, y, 4, end);
    TimingsMoved(x, y, end, dtd, end);
  }

  lemma JudgedByBlocks(e: seq<byte>)
    requires |e| == 256 && e[126] == 1
    ensures BeyondCube(e) == if BeyondBase(BlockAt(e, 0)).Some? then BeyondBase(BlockAt(e, 0))
        else BeyondExtension(BlockAt(e, 1))
  {
    assert BeyondExtensions(e, 2).None?;
  }

  lemma InsertionJudgedSame(e: seq<byte>)
    requires CanInsert(e) && WithRgbRange(e).Some?
    ensures BeyondCube(WithRgbRange(e).value) == BeyondCube(e)
  {
    var x := BlockAt(e, 1);
    InsertedBlocks(e);
    ExtensionJudgedSame(x, x[2], TimingsEnd(x, x[2]));
    JudgedByBlocks(e);
    JudgedByBlocks(WithRgbRange(e).value);
  }

  /** Insertion is undone by removal, byte for byte; its result is a valid EDID
      that declares the RGB range, which the original did not; inserting again
      changes nothing; and the receiver's limits are judged the same. */
  lemma {:induction false} InsertionUndone(e: seq<byte>)
    requires CanInsert(e)
    ensures WithRgbRange(e).Some? && |WithRgbRange(e).value| == 256
    ensures var r := WithRgbRange(e).value;
      && Valid(r) && WithoutRgbRange(r) == Some(e) && WithRgbRange(r) == Some(r)
      && Declares(r, 1) && !Declares(e, 1) && BeyondCube(r) == BeyondCube(e)
  {
    InsertedBlocks(e);
    EditableValid(WithRgbRange(e).value);
    InsertionReversed(e);
    InsertionStable(e);
    InsertionDeclares(e);
    InsertionJudgedSame(e);
  }

  // ------------------------------------------------------- the loops as written

  /** The byte sum of `edid[from..to]`, as the loops add it up. */
  method SumBytes(edid: seq<byte>, from: nat, to: nat) returns (sum: byte)
    requires from <= to <= |edid|
    ensures sum == Sum(edid[from..to]) % 256
  {
    sum := 0;
    for i := from to to
      invariant sum == Sum(edid[from..i]) % 256
    {
      assert edid[from..i + 1] == edid[from..i] + [edid[i]];
      SumLast(edid[from..i], edid[i]);
      sum := (sum as int + edid[i] as int) % 256;
    }
  }

  method EdidValid(edid: seq<byte>) returns (ok: bool)
    ensures ok == Valid(edid)
  {
    if |edid| < 128 || |edid| % 128 != 0 || edid[..8] != HEADER {
      return false;
    }
    var blocks := edid[126] as int + 1;
    if blocks * 128 > |edid| {
      return false;
    }
    for block := 0 to blocks
      invariant forall i :: 0 <= i < block ==> ChecksumOk(BlockAt(edid, i))
    {
      var sum := SumBytes(edid, block * 128, (block + 1) * 128);
      if sum != 0 {
        assert !ChecksumOk(BlockAt(edid, block));
        return false;
      }
    }
    return true;
  }

  /** Copies `bytes` into `data` at `at`, as a slice assignment of equal length. */
  method Assign(data: array<byte>, at: nat, bytes: seq<byte>)
    requires at + |bytes| <= data.Length
    modifies data
    ensures forall j :: 0 <= j < data.Length ==>
        data[j] == if at <= j < at + |bytes| then bytes[j - at] else old(data[j])
  {
    for i := 0 to |bytes|
      invariant forall j :: 0 <= j < data.Length ==> data[j] == if at <= j < at + i then bytes[j - at] else old(data[j])
    {
      data[at + i] := bytes[i];
    }
  }

  /** Inserts the block into a copy of `original`; None where the script raises. */
  method InsertRgbRange(original: seq<byte>) returns (r: Option<seq<byte>>)
    ensures r == WithRgbRange(original)
  {
    if |original| != 256 || original[..8] != HEADER {
      return None;
    }
    var first := SumBytes(original, 0, 128);
    var second := SumBytes(original, 128, 256);
    if original[126] != 1 || first != 0 || second != 0 {
      return None;
    }
    if original[128] != 2 || original[129] != 3 {
      return None;
    }
    var end: nat := original[130];
    if !(4 <= end <= 127) {
      return None;
    }
    assert Editable(original);
    var x: Block := original[128..];
    assert x == BlockAt(original, 1);
    var found := SearchVcdb(x, end);
    if found.Truncated? {
      return None;
    }
    if found.Found? {
      if x[found.pos + 2] != CAPABILITY {
        return None;
      }
      return Some(original);
    }
    var dtd := SearchTimingsEnd(x, end);
    if !AllZero(x[dtd..127]) || dtd + 3 > 127 {
      return None;
    }
    var data := Edit(original, end, dtd);
    return Some(data);
  }

  method SearchVcdb(x: Block, end: nat) returns (w: Walk)
    requires 4 <= end <= 127
    ensures w == FindVcdb(x, 4, end)
  {
    var pos := 4;
    while pos < end
      invariant 4 <= pos && FindVcdb(x, 4, end) == FindVcdb(x, pos, end)
    {
      var tag, length := Tag(x[pos]), Len(x[pos]);
      if pos + 1 + length > end {
        return Truncated;
      }
      if tag == VCDB_TAG && length >= 2 && x[pos + 1] == VCDB_EXT {
        return Found(pos);
      }
      pos := pos + 1 + length;
    }
    return Reached;
  }

  method SearchTimingsEnd(x: Block, end: nat) returns (dtd: nat)
    requires end <= 127
    ensures dtd == TimingsEnd(x, end)
  {
    dtd := end;
    while dtd + 18 <= 127 && !(x[dtd] == 0 && x[dtd + 1] == 0)
      invariant end <= dtd <= 127 && TimingsEnd(x, end) == TimingsEnd(x, dtd)
    {
      dtd := dtd + 18;
    }
  }

  /** The edit in place but for the sum: the block and the timings behind the
      new boundary. */
  method EditBody(original: seq<byte>, end: nat, dtd: nat) returns (data: array<byte>)
    requires |original| == 256 && 4 <= end <= dtd && dtd + 3 <= 127
    ensures fresh(data) && data.Length == 256
    ensures data[..128] == original[..128] && data[128..255] == InsertedBody(BlockAt(original, 1), end, dtd)
  {
    ghost var x := BlockAt(original, 1);
    data := new byte[256](i requires 0 <= i < 256 => original[i]);
    var tail := VCDB + original[128 + end..128 + dtd] + Zeros(124 - dtd);
    Assign(data, 128 + end, tail);
    data[130] := end + |VCDB|;
    ghost var body := InsertedBody(x, end, dtd);
    forall i | 0 <= i < 127 ensures data[128 + i] == body[i] {
      assert i >= end ==> data[128 + i] == tail[i - end];
    }
  }

  /** The edit in place. */
  method Edit(original: seq<byte>, end: nat, dtd: nat) returns (r: seq<byte>)
    requires |original| == 256 && 4 <= end <= dtd && dtd + 3 <= 127
    ensures r == original[..128] + Inserted(BlockAt(original, 1), end, dtd)
  {
    var data := EditBody(original, end, dtd);
    ghost var body := InsertedBody(BlockAt(original, 1), end, dtd);
    assert data[..][128..255] == body;
    var sum := SumBytes(data[..], 128, 255);
    data[255] := Complement(sum);
    assert data[..128] == original[..128];
    assert data[128..255] == body;
    r := data[..];
    assert r == data[..128] + data[128..255] + [data[255]];
  }

  /** The negative of a byte, modulo 256. */
  function Complement(sum: byte): byte {
    if sum == 0 then 0 else 256 - sum
  }

  /** Removes the block from a copy of `edid`; None where the function returns nil. */
  method RemoveRgbRange(edid: seq<byte>) returns (r: Option<seq<byte>>)
    ensures r == WithoutRgbRange(edid)
  {
    var valid := EdidValid(edid);
    if |edid| != 256 || !valid || edid[126] != 1 || edid[128] != 2 {
      return None;
    }
    var end: nat := edid[130];
    if end < 4 || end > 127 {
      return None;
    }
    ghost var x := BlockAt(edid, 1);
    var pos := 4;
    while pos < end
      invariant 4 <= pos && FindInserted(x, 4, end) == FindInserted(x, pos, end)
    {
      var header := edid[128 + pos];
      var length := Len(header);
      if pos + 1 + length > end {
        return None;
      }
      if Tag(header) == 7 && length == 2 && edid[128 + pos + 1] == 0 && edid[128 + pos + 2] == CAPABILITY {
        assert FindInserted(x, 4, end) == Found(pos);
        var profile := Cut(edid, pos, end);
        return Some(profile);
      }
      pos := pos + 1 + length;
    }
    return None;
  }

  /** The edit in place: the bytes after the block move up over it. */
  method Cut(edid: seq<byte>, pos: nat, end: nat) returns (r: seq<byte>)
    requires |edid| == 256 && 4 <= pos && pos + 2 < end <= 127
    ensures r == edid[..128] + Removed(BlockAt(edid, 1), pos, end)
  {
    ghost var body := RemovedBody(BlockAt(edid, 1), pos, end);
    var data := new byte[256](i requires 0 <= i < 256 => edid[i]);
    Assign(data, 128 + pos, edid[128 + pos + 3..128 + 127]);
    data[128 + 124], data[128 + 125], data[128 + 126] := 0, 0, 0;
    data[130] := end - 3;
    forall i | 0 <= i < 127 ensures data[128 + i] == body[i] {
    }
    assert data[..][128..255] == body;
    var sum := SumBytes(data[..], 128, 255);
    data[255] := Complement(sum);
    assert data[..128] == edid[..128];
    assert data[128..255] == body;
    r := data[..];
    assert r == data[..128] + data[128..255] + [data[255]];
  }

  method DeclaresRgbRange(edid: seq<byte>) returns (declared: bool)
    requires |edid| >= 128
    ensures declared == Declares(edid, 1)
  {
    var block := 1;
    while block <= edid[126] && (block + 1) * 128 <= |edid|
      invariant 1 <= block && Declares(edid, 1) == Declares(edid, block)
      decreases |edid| - block
    {
      var x := BlockAt(edid, block);
      var end: nat := x[2];
      if x[0] == 2 && end >= 4 && end <= 127 {
        var i := 4;
        while i < end && i + 1 + Len(x[i]) <= end
          invariant 4 <= i && DeclaresFrom(x, 4, end) == DeclaresFrom(x, i, end)
          decreases end - i
        {
          if Tag(x[i]) == 7 && Len(x[i]) >= 2 && x[i + 1] == 0 && x[i + 2] / 64 % 2 == 1 {
            return true;
          }
          i := i + 1 + Len(x[i]);
        }
      }
      block := block + 1;
    }
    return false;
  }

  // -------------------------------------------- what the receiver cannot capture

  /** A detailed timing: pixel clock in units of 10 kHz, active and blanking
      pixels and lines. */
  datatype Raster = Raster(clock: nat, h: nat, hb: nat, v: nat, vb: nat)

  predicate RasterOk(r: Raster) {
    0 < r.clock < 65536 && r.h < 4096 && r.hb < 4096 && r.v < 4096 && r.vb < 4096 && r.h + r.hb > 0 && r.v + r.vb > 0
  }

  /** How a timing is written: twelve-bit numbers share their upper bits. */
  function TimingBytes(r: Raster): (b: seq<byte>)
    requires RasterOk(r)
    ensures |b| == 8
  {
    [r.clock % 256, r.clock / 256, r.h % 256, r.hb % 256, r.h / 256 * 16 + r.hb / 256,
     r.v % 256, r.vb % 256, r.v / 256 * 16 + r.vb / 256]
  }

  /** More pixels a second than 1920 x 1080 at 61 Hz, in whole numbers. */
  predicate TooMany(r: Raster) {
    r.h * r.v * (r.clock * 10000) > CUBE_MAX_PIXEL_RATE * ((r.h + r.hb) * (r.v + r.vb))
  }

  /** The bytes are a timing that the receiver cannot capture. */
  ghost predicate FastTiming(d: seq<byte>)
    requires |d| == 18
  {
    exists r :: RasterOk(r) && d[..8] == TimingBytes(r) && (r.h > 1920 || r.v > 1080 || TooMany(r))
  }

  lemma RateInWhole(area: nat, clock: nat, width: nat, height: nat)
    requires width > 0 && height > 0
    ensures area as real * RefreshRate(clock, width, height) > CUBE_MAX_PIXEL_RATE as real <==>
            area * (clock * 10000) > CUBE_MAX_PIXEL_RATE * (width * height)
  {
    var q, n := RefreshRate(clock, width, height), width * height;
    assert q * height as real == (clock * 10000) as real / width as real;
    assert q * height as real * width as real == (clock * 10000) as real;
    assert height as real * width as real == n as real;
    assert q * n as real == (clock * 10000) as real;
    ScaleOver(area as real * q, CUBE_MAX_PIXEL_RATE as real, n as real);
    assert area as real * q * n as real == area as real * (q * n as real);
    assert area as real * (clock * 10000) as real == (area * (clock * 10000)) as real;
    assert CUBE_MAX_PIXEL_RATE as real * n as real == (CUBE_MAX_PIXEL_RATE * n) as real;
  }

  lemma ScaleOver(a: real, b: real, n: real)
    requires n > 0.0
    ensures a > b <==> a * n > b * n
  {
  }

  /** A detailed timing is judged by what it says. */
  lemma TimingsExactly(d: seq<byte>)
    requires |d| == 18
    ensures Detailed(d).Some? <==> FastTiming(d)
  {
    var r := RasterOf(d);
    DetailedIs(d);
    if RasterOk(r) {
      RasterRead(d);
    }
    forall q | RasterOk(q) && d[..8] == TimingBytes(q) ensures q == r {
      RasterUnique(q, d);
    }
  }

  lemma DetailedIs(d: seq<byte>)
    requires |d| == 18
    ensures var r := RasterOf(d);
      Detailed(d).Some? <==> RasterOk(r) && (r.h > 1920 || r.v > 1080 || TooMany(r))
  {
    var r := RasterOf(d);
    if RasterOk(r) {
      RasterFast(r);
    }
  }

  lemma RasterFast(r: Raster)
    requires RasterOk(r)
    ensures TooFast(r.h, r.v, RefreshRate(r.clock, r.h + r.hb, r.v + r.vb)) <==>
            r.h > 1920 || r.v > 1080 || TooMany(r)
  {
    RateInWhole(r.h * r.v, r.clock, r.h + r.hb, r.v + r.vb);
  }

  /** The timing at this offset of a block is one the receiver cannot capture. */
  ghost predicate FastAt(x: Block, at: nat) {
    at + 18 <= 128 && FastTiming(x[at..at + 18])
  }

  function RasterOf(d: seq<byte>): Raster
    requires |d| == 18
  {
    Raster(d[0] as int + d[1] as int * 256, d[2] as int + d[4] as int / 16 * 256, d[3] as int + d[4] as int % 16 * 256,
           d[5] as int + d[7] as int / 16 * 256, d[6] as int + d[7] as int % 16 * 256)
  }

  lemma RasterRead(d: seq<byte>)
    requires |d| == 18 && RasterOk(RasterOf(d))
    ensures d[..8] == TimingBytes(RasterOf(d))
  {
    TwelveBits(d[2], d[3], d[4]);
    TwelveBits(d[5], d[6], d[7]);
    assert (d[0] as int + d[1] as int * 256) / 256 == d[1] as int;
  }

  lemma TwelveBits(a: byte, b: byte, upper: byte)
    ensures var x, y := a as int + upper as int / 16 * 256, b as int + upper as int % 16 * 256;
      x % 256 == a as int && y % 256 == b as int && x / 256 * 16 + y / 256 == upper as int
  {
    var x, y := a as int + upper as int / 16 * 256, b as int + upper as int % 16 * 256;
    assert x / 256 == upper as int / 16 && y / 256 == upper as int % 16;
  }

  lemma RasterUnique(r: Raster, d: seq<byte>)
    requires |d| == 18 && RasterOk(r) && d[..8] == TimingBytes(r)
    ensures r == RasterOf(d)
  {
    var b := TimingBytes(r);
    assert d[0] == b[0] && d[1] == b[1] && d[2] == b[2] && d[3] == b[3] && d[4] == b[4] && d[5] == b[5];
    assert d[6] == b[6] && d[7] == b[7];
    Halves(r.h, r.hb);
    Halves(r.v, r.vb);
  }

  lemma Halves(x: nat, y: nat)
    requires x < 4096 && y < 4096
    ensures var upper := x / 256 * 16 + y / 256;
      x == x % 256 + upper / 16 * 256 && y == y % 256 + upper % 16 * 256
  {
    assert y / 256 < 16;
  }

  /** The aspect ratios of standard timings, in the order of their codes. */
  datatype Aspect = A16x10 | A4x3 | A5x4 | A16x9

  function Code(a: Aspect): int {
    match a case A16x10 => 0 case A4x3 => 1 case A5x4 => 2 case A16x9 => 3
  }

  /** `v` is the height of `h` pixels at the aspect ratio, rounded down. */
  predicate HeightAt(a: Aspect, h: nat, v: nat) {
    match a
    case A16x10 => 16 * v <= 10 * h < 16 * v + 16
    case A4x3 => 4 * v <= 3 * h < 4 * v + 4
    case A5x4 => 5 * v <= 4 * h < 5 * v + 5
    case A16x9 => 16 * v <= 9 * h < 16 * v + 16
  }

  /** The two bytes of a standard timing: 248 and more pixels in steps of eight,
      60 Hz and more. Both 1, or both 0, are none. */
  predicate StandardIs(b1: byte, b2: byte, a: Aspect, h: nat, v: nat, hz: nat) {
    && h == 8 * (b1 as int + 31) && b2 as int == 64 * Code(a) + (hz - 60) && 60 <= hz < 124 && HeightAt(a, h, v)
    && !(b1 == b2 && b1 <= 1)
  }

  predicate FastMode(h: nat, v: nat, hz: nat) {
    h > 1920 || v > 1080 || h * v * hz > CUBE_MAX_PIXEL_RATE
  }

  lemma ModeFast(h: nat, v: nat, hz: nat)
    ensures FastMode(h, v, hz) <==> TooFast(h, v, hz as real)
  {
    assert (h * v) as real * hz as real == (h * v * hz) as real;
  }

  ghost predicate FastStandard(b1: byte, b2: byte) {
    exists a, h: nat, v: nat, hz: nat :: StandardIs(b1, b2, a, h, v, hz) && FastMode(h, v, hz)
  }

  lemma AspectRead(b1: byte, b2: byte) returns (a: Aspect, h: nat, v: nat, hz: nat)
    requires !(b1 == b2 && b1 <= 1)
    ensures StandardIs(b1, b2, a, h, v, hz)
    ensures h == (b1 as int + 31) * 8 && hz == b2 as int % 64 + 60
    ensures v == (if b2 / 64 == 0 then h * 10 / 16 else if b2 / 64 == 1 then h * 3 / 4
                  else if b2 / 64 == 2 then h * 4 / 5
                  else h * 9 / 16)
    ensures forall a', h': nat, v': nat, hz': nat :: StandardIs(b1, b2, a', h', v', hz') ==>
        h' == h && v' == v && hz' == hz
  {
    h, hz := (b1 as int + 31) * 8, b2 as int % 64 + 60;
    if b2 / 64 == 0 {
      a, v := A16x10, h * 10 / 16;
    } else if b2 / 64 == 1 {
      a, v := A4x3, h * 3 / 4;
    } else if b2 / 64 == 2 {
      a, v := A5x4, h * 4 / 5;
    } else {
      a, v := A16x9, h * 9 / 16;
    }
  }

  /** One standard timing is judged by what it says. */
  lemma StandardOne(b1: byte, b2: byte)
    requires !(b1 == b2 && b1 <= 1)
    ensures var h := (b1 as int + 31) * 8;
      var v := if b2 / 64 == 0 then h * 10 / 16 else if b2 / 64 == 1 then h * 3 / 4 else if b2 / 64 == 2 then h * 4 / 5
               else h * 9 / 16;
      FastStandard(b1, b2) <==> TooFast(h, v, (b2 as int % 64 + 60) as real)
  {
    var a, h, v, hz := AspectRead(b1, b2);
    ModeFast(h, v, hz);
  }

  lemma StandardFirst(x: Block, offset: nat)
    requires 38 <= offset < 54 && offset % 2 == 0
    ensures BeyondStandard(x, offset).Some? <==>
            FastStandard(x[offset], x[offset + 1]) || BeyondStandard(x, offset + 2).Some?
  {
    if x[offset] == x[offset + 1] && x[offset] <= 1 {
      assert !FastStandard(x[offset], x[offset + 1]);
    } else {
      StandardOne(x[offset], x[offset + 1]);
    }
  }

  lemma {:induction false} StandardExactly(x: Block, offset: nat)
    requires 38 <= offset <= 54 && offset % 2 == 0
    ensures BeyondStandard(x, offset).Some? <==>
            exists at :: offset <= at < 54 && at % 2 == 0 && FastStandard(x[at], x[at + 1])
    decreases 54 - offset
  {
    if offset < 54 {
      StandardExactly(x, offset + 2);
      StandardFirst(x, offset);
    }
  }

  predicate IsDescriptor(at: nat) {
    at == 54 || at == 72 || at == 90 || at == 108
  }

  lemma {:induction false} DescriptorsExactly(x: Block, offset: nat)
    requires offset == 54 || offset == 72 || offset == 90 || offset == 108 || offset == 126
    ensures BeyondDescriptors(x, offset).Some? <==>
            exists at: nat :: offset <= at && IsDescriptor(at) && FastAt(x, at)
    decreases 126 - offset
  {
    if offset < 126 {
      DescriptorsExactly(x, offset + 18);
      TimingsExactly(x[offset..offset + 18]);
      assert Detailed(x[offset..offset + 18]).Some? <==> FastAt(x, offset);
    }
  }

  /** Where the detailed timings from `offset` on begin. */
  function TimingStarts(offset: nat): set<nat>
    decreases 128 - offset
  {
    if offset + 18 > 127 then {} else {offset} + TimingStarts(offset + 18)
  }

  lemma {:induction false} ExtensionTimingsExactly(x: Block, offset: nat)
    requires offset >= 4
    ensures BeyondTimings(x, offset).Some? <==> exists at :: at in TimingStarts(offset) && FastAt(x, at)
    decreases 128 - offset
  {
    if offset + 18 <= 127 {
      ExtensionTimingsExactly(x, offset + 18);
      TimingsExactly(x[offset..offset + 18]);
      assert Detailed(x[offset..offset + 18]).Some? <==> FastAt(x, offset);
      assert offset in TimingStarts(offset) && TimingStarts(offset + 18) <= TimingStarts(offset);
    }
  }

  /** The video code of a short descriptor: 129 to 192 are 1 to 64, preferred. */
  function VicOf(svd: byte): int {
    if 129 <= svd <= 192 then svd as int - 128 else svd as int
  }

  lemma {:induction false} VideoExactly(body: seq<byte>, j: nat)
    requires j <= |body|
    ensures BeyondVideo(body, j).Some? <==> exists k :: j <= k < |body| && UnsafeVic(VicOf(body[k]))
    decreases |body| - j
  {
    if j < |body| {
      VideoExactly(body, j + 1);
    }
  }

  /** In a vendor block the latencies, which flags announce, come before the
      lengths of the 4K codes and the 3D modes. */
  lemma HdmiExactly(head: seq<byte>, flags: byte, latency: seq<byte>, interlaced: seq<byte>, d3: byte, lengths: byte,
                    rest: seq<byte>)
    requires |head| == 7 && head[..3] == [3, 12, 0]
    requires |latency| == (if flags >= 128 then 2 else 0) && |interlaced| == (if flags % 128 >= 64 then 2 else 0)
    ensures BeyondBlock(3, head + [flags] + latency + interlaced + [d3, lengths] + rest)
         == if flags % 64 >= 32 && lengths >= 32 then Some(Hdmi4k) else None
  {
    var body := head + [flags] + latency + interlaced + [d3, lengths] + rest;
    assert body[0] == head[..3][0] && body[1] == head[..3][1] && body[2] == head[..3][2];
    assert body[7] == flags && body[8 + |latency| + |interlaced| + 1] == lengths;
  }

  /** The picture of a video code of CTA-861-G, table 3: width, height and whole
      pictures a second; interlaced modes have half as many pictures as fields,
      and repeated pixels count once. */
  function VicMode(vic: nat): (nat, nat, nat)
    requires 1 <= vic <= 127 || 193 <= vic <= 219
  {
    if vic <= 59 || vic == 63 || vic == 64 then EarlyMode(vic)
    else if vic <= 71 then (1280, 720, Rate(vic))
    else if vic <= 78 then (1920, 1080, Rate(vic))
    else if vic <= 85 then (1680, 720, Rate(vic))
    else if vic <= 92 then (2560, 1080, Rate(vic))
    else if vic <= 107 then (if 98 <= vic <= 102 then 4096 else 3840, 2160, Rate(vic))
    else if vic <= 113 then LaterMode(vic)
    else if vic == 115 then (4096, 2160, 48)
    else if vic <= 120 then (3840, 2160, if vic == 114 || vic == 116 then 48 else if vic == 117 || vic == 119 then 100
                             else 120)
    else if vic <= 193 then (5120, 2160, Rate(vic))
    else if vic <= 209 then (7680, 4320, Rate(vic))
    else if vic <= 217 then (10240, 4320, Rate(vic))
    else (4096, 2160, if vic == 218 then 100 else 120)
  }

  /** The rates of the series of seven or eight modes. */
  function Rate(vic: nat): nat {
    if vic in {60, 65, 72, 79, 86, 93, 98, 103, 121, 194, 202, 210} then 24
    else if vic in {61, 66, 73, 80, 87, 94, 99, 104, 122, 195, 203, 211} then 25
    else if vic in {62, 67, 74, 81, 88, 95, 100, 105, 123, 196, 204, 212} then 30
    else if vic in {124, 197, 205, 213} then 48
    else if vic in {68, 75, 82, 89, 96, 101, 106, 125, 198, 206, 214} then 50
    else if vic in {69, 76, 83, 90, 97, 102, 107, 126, 199, 207, 215} then 60
    else if vic in {70, 77, 84, 91, 127, 200, 208, 216} then 100
    else 120
  }

  function EarlyMode(vic: nat): (nat, nat, nat)
    requires 1 <= vic <= 59 || vic == 63 || vic == 64
  {
    if vic == 1 then (640, 480, 60)
    else if vic in {4, 19, 41, 47}
        then (1280, 720, if vic == 4 then 60 else if vic == 19 then 50 else if vic == 41 then 100 else 120)
    else if vic in {5, 20, 39, 40, 46}
        then (1920, 1080, if vic == 5 then 30 else if vic == 40 then 50 else if vic == 46 then 60 else 25)
    else if vic == 16 || 31 <= vic <= 34 then
      (1920, 1080, if vic == 16 then 60 else if vic == 31 then 50 else if vic == 32 then 24 else if vic == 33 then 25
       else 30)
    else if vic >= 63 then (1920, 1080, if vic == 63 then 120 else 100)
    else if vic in {14, 15} then (1440, 480, 60)
    else if vic in {29, 30} then (1440, 576, 50)
    else if vic < 17 || 35 <= vic <= 36 || 48 <= vic <= 51
        || vic >= 56 then (720, 480, if vic >= 56 then 240 else if vic >= 48 then 120 else 60)
    else (720, 576, if vic >= 52 then 200 else if vic >= 42 then 100 else 50)
  }

  function LaterMode(vic: nat): (nat, nat, nat)
    requires 108 <= vic <= 113
  {
    (if vic <= 109 then 1280 else if vic == 110 then 1680 else if vic == 113 then 2560 else 1920,
     if vic <= 110 then 720 else 1080, 48)
  }

  /** The video codes refused are exactly those of modes beyond the receiver. */
  lemma CodesExactly(vic: nat)
    requires 1 <= vic <= 127 || 193 <= vic <= 219
    ensures var (h, v, hz) := VicMode(vic); UnsafeVic(vic) <==> FastMode(h, v, hz)
  {
    if vic <= 107 {
      CodesBefore(vic);
    }
  }

  lemma CodesBefore(vic: nat)
    requires 1 <= vic <= 107
    ensures var (h, v, hz) := VicMode(vic); UnsafeVic(vic) <==> FastMode(h, v, hz)
  {
  }

  /** Other data blocks are not looked at; the block of 4:2:0 modes is refused if
      it names any. */
  lemma BlocksOther(tag: int, body: seq<byte>)
    ensures tag == 7 ==> (BeyondBlock(tag, body).Some? <==> |body| >= 2 && body[0] == 14)
    ensures tag !in {2, 3, 7} || (tag == 3 && (|body| < 8 || body[..3] != [3, 12, 0])) ==>
        BeyondBlock(tag, body) == None
  {
    if tag == 3 && |body| >= 8 && body[..3] != [3, 12, 0] {
      assert body[..3] == [body[0], body[1], body[2]];
    }
  }

  /** Where the data blocks begin. */
  function BlockStarts(x: Block, pos: nat, end: nat): set<nat>
    requires 4 <= pos && end <= 127
    decreases end - pos
  {
    if pos >= end || pos + 1 + Len(x[pos]) > end then {} else {pos} + BlockStarts(x, pos + 1 + Len(x[pos]), end)
  }

  predicate BadBlock(x: Block, pos: nat) {
    pos < 128 && pos + 1 + Len(x[pos]) <= 128 && BeyondBlock(Tag(x[pos]), x[pos + 1..pos + 1 + Len(x[pos])]).Some?
  }

  lemma {:induction false} BlocksExactly(x: Block, pos: nat, end: nat)
    requires 4 <= pos && end <= 127
    ensures forall at :: at in BlockStarts(x, pos, end) ==> pos <= at < end
    ensures BeyondBlocks(x, pos, end).Some? <==> exists at :: at in BlockStarts(x, pos, end) && BadBlock(x, at)
    decreases end - pos
  {
    if pos < end && pos + 1 + Len(x[pos]) <= end {
      var next := pos + 1 + Len(x[pos]);
      BlocksExactly(x, next, end);
      assert BlockStarts(x, pos, end) == {pos} + BlockStarts(x, next, end) && pos in BlockStarts(x, pos, end);
      assert BadBlock(x, pos) <==> BeyondBlock(Tag(x[pos]), x[pos + 1..next]).Some?;
      if at :| at in BlockStarts(x, next, end) && BadBlock(x, at) {
        assert at in BlockStarts(x, pos, end);
      }
    }
  }

  /** A CTA extension announces a mode beyond the receiver, in a data block or in
      a detailed timing. */
  ghost predicate FastExtension(x: Block) {
    var end: nat := if 4 <= x[2] <= 127 then x[2] else 4;
    && x[0] == 2
    && (|| (exists at :: at in BlockStarts(x, 4, end) && BadBlock(x, at))
        || (x[2] >= 4 && exists at :: at in TimingStarts(x[2]) && FastAt(x, at)))
  }

  lemma ExtensionExactly(x: Block)
    ensures BeyondExtension(x).Some? <==> FastExtension(x)
  {
    if x[0] == 2 {
      BlocksExactly(x, 4, if 4 <= x[2] <= 127 then x[2] else 4);
      if x[2] >= 4 {
        ExtensionTimingsExactly(x, x[2]);
      }
    }
  }

  lemma {:induction false} ExtensionsExactly(e: seq<byte>, i: nat)
    requires |e| >= 128
    ensures BeyondExtensions(e, i).Some? <==>
            exists b: nat :: i <= b <= e[126] && (b + 1) * 128 <= |e| && FastExtension(BlockAt(e, b))
    decreases |e| - i
  {
    if i <= e[126] && (i + 1) * 128 <= |e| {
      ExtensionsExactly(e, i + 1);
      ExtensionExactly(BlockAt(e, i));
    }
  }

  /** An EDID is beyond the receiver if and only if a detailed or standard timing
      of its base block or one of its CTA extensions is. */
  lemma BeyondExactly(e: seq<byte>)
    ensures BeyondCube(e).Some? <==>
      && |e| >= 128
      && var x := BlockAt(e, 0);
      || (exists at: nat :: IsDescriptor(at) && FastAt(x, at))
      || (exists at :: 38 <= at < 54 && at % 2 == 0 && FastStandard(x[at], x[at + 1]))
      || (exists b: nat :: 1 <= b <= e[126] && (b + 1) * 128 <= |e| && FastExtension(BlockAt(e, b)))
  {
    if |e| >= 128 {
      DescriptorsExactly(BlockAt(e, 0), 54);
      StandardExactly(BlockAt(e, 0), 38);
      ExtensionsExactly(e, 1);
    }
  }

  /** The mode reported is the first: of the detailed timings, of the standard
      timings, or of the first extension that announces one. */
  lemma FirstReported(e: seq<byte>, at: nat)
    requires |e| >= 128
    ensures var x := BlockAt(e, 0);
      && (IsDescriptor(at) && FastAt(x, at) && (forall k: nat :: IsDescriptor(k) && k < at ==> !FastAt(x, k)) ==>
            BeyondCube(e) == Detailed(x[at..at + 18]))
      && (FirstStandard(x, 38, at) && (forall k: nat :: IsDescriptor(k) ==> !FastAt(x, k)) ==>
            StandardReported(x[at], x[at + 1], BeyondCube(e)))
      && (BeyondBase(x).None? && FirstExtension(e, 1, at) ==> BeyondCube(e) == BeyondExtension(BlockAt(e, at)))
  {
    var x := BlockAt(e, 0);
    DescriptorsExactly(x, 54);
    if IsDescriptor(at) && FastAt(x, at) && (forall k: nat :: IsDescriptor(k) && k < at ==> !FastAt(x, k)) {
      FirstOfDescriptors(x, 54, at);
      TimingsExactly(x[at..at + 18]);
    }
    if FirstStandard(x, 38, at) {
      FirstOfStandard(x, 38, at);
    }
    if FirstExtension(e, 1, at) {
      FirstOfExtensions(e, 1, at);
      ExtensionExactly(BlockAt(e, at));
    }
  }

  /** The mode is what a fast standard timing says. */
  ghost predicate StandardReported(b1: byte, b2: byte, mode: Option<Mode>) {
    exists a, h: nat, v: nat, hz: nat ::
      StandardIs(b1, b2, a, h, v, hz) && FastMode(h, v, hz) && mode == Some(Timing(h, v, hz as real))
  }

  ghost predicate FirstStandard(x: Block, from: nat, at: nat) {
    && from <= at < 54 && at % 2 == 0 && FastStandard(x[at], x[at + 1])
    && forall k :: from <= k < at && k % 2 == 0 ==> !FastStandard(x[k], x[k + 1])
  }

  ghost predicate FirstExtension(e: seq<byte>, from: nat, at: nat)
    requires |e| >= 128
  {
    && from <= at <= e[126] && (at + 1) * 128 <= |e| && FastExtension(BlockAt(e, at))
    && forall b: nat :: from <= b < at && (b + 1) * 128 <= |e| ==> !FastExtension(BlockAt(e, b))
  }

  lemma {:induction false} FirstOfDescriptors(x: Block, offset: nat, at: nat)
    requires offset == 54 || offset == 72 || offset == 90 || offset == 108
    requires offset <= at && IsDescriptor(at) && FastAt(x, at)
    requires forall k: nat :: IsDescriptor(k) && k < at ==> !FastAt(x, k)
    ensures BeyondDescriptors(x, offset) == Detailed(x[at..at + 18])
    decreases at - offset
  {
    TimingsExactly(x[offset..offset + 18]);
    assert FastAt(x, offset) <==> Detailed(x[offset..offset + 18]).Some?;
    if offset < at {
      assert IsDescriptor(offset);
      FirstOfDescriptors(x, offset + 18, at);
    }
  }

  lemma {:induction false} FirstOfStandard(x: Block, offset: nat, at: nat)
    requires 38 <= offset < 54 && offset % 2 == 0 && FirstStandard(x, offset, at)
    ensures StandardReported(x[at], x[at + 1], BeyondStandard(x, offset))
    decreases at - offset
  {
    var b1, b2 := x[offset], x[offset + 1];
    if b1 == b2 && b1 <= 1 {
      assert !FastStandard(b1, b2);
      FirstOfStandard(x, offset + 2, at);
    } else {
      StandardOne(b1, b2);
      var a, h, v, hz := AspectRead(b1, b2);
      if offset == at {
        ModeFast(h, v, hz);
        assert StandardReported(b1, b2, BeyondStandard(x, offset));
      } else {
        FirstOfStandard(x, offset + 2, at);
      }
    }
  }

  lemma {:induction false} FirstOfExtensions(e: seq<byte>, i: nat, at: nat)
    requires |e| >= 128 && FirstExtension(e, i, at)
    ensures BeyondExtensions(e, i) == BeyondExtension(BlockAt(e, at))
    decreases at - i
  {
    ExtensionExactly(BlockAt(e, i));
    if i < at {
      FirstOfExtensions(e, i + 1, at);
    }
  }

  method EdidBeyondCube(edid: seq<byte>) returns (mode: Option<Mode>)
    ensures mode == BeyondCube(edid)
  {
    if |edid| < 128 {
      return None;
    }
    mode := BaseBeyondCube(BlockAt(edid, 0));
    if mode.Some? {
      return;
    }
    var block := 1;
    while block <= edid[126] && (block + 1) * 128 <= |edid|
      invariant 1 <= block && BeyondExtensions(edid, 1) == BeyondExtensions(edid, block)
      decreases |edid| - block
    {
      mode := ExtensionBeyondCube(BlockAt(edid, block));
      if mode.Some? {
        return;
      }
      block := block + 1;
    }
    return None;
  }

  method BaseBeyondCube(x: Block) returns (mode: Option<Mode>)
    ensures mode == BeyondBase(x)
  {
    mode := DescriptorsBeyondCube(x);
    if mode.None? {
      mode := StandardBeyondCube(x);
    }
  }

  /** The loop over the four detailed descriptors. */
  method DescriptorsBeyondCube(x: Block) returns (mode: Option<Mode>)
    ensures mode == BeyondDescriptors(x, 54)
  {
    var offset := 54;
    while offset < 126
      invariant offset == 54 || offset == 72 || offset == 90 || offset == 108 || offset == 126
      invariant BeyondDescriptors(x, 54) == BeyondDescriptors(x, offset)
    {
      mode := Detailed(x[offset..offset + 18]);
      if mode.Some? {
        return;
      }
      offset := offset + 18;
    }
    return None;
  }

  /** The loop over the standard timings. */
  method StandardBeyondCube(x: Block) returns (mode: Option<Mode>)
    ensures mode == BeyondStandard(x, 38)
  {
    var offset := 38;
    while offset < 54
      invariant 38 <= offset <= 54 && offset % 2 == 0
      invariant BeyondStandard(x, 38) == BeyondStandard(x, offset)
    {
      var b1: int, b2: int := x[offset], x[offset + 1];
      if !((b1 == 1 && b2 == 1) || (b1 == 0 && b2 == 0)) {
        var h := (b1 + 31) * 8;
        var v := [h * 10 / 16, h * 3 / 4, h * 4 / 5, h * 9 / 16][b2 / 64];
        var hz := (b2 % 64 + 60) as real;
        if TooFast(h, v, hz) {
          return Some(Timing(h, v, hz));
        }
      }
      offset := offset + 2;
    }
    return None;
  }

  method ExtensionBeyondCube(x: Block) returns (mode: Option<Mode>)
    ensures mode == BeyondExtension(x)
  {
    if x[0] != 2 {
      return None;
    }
    var end: nat := x[2];
    if end < 4 || end > 127 {
      end := 4;
    }
    var i := 4;
    while i < end && i + 1 + Len(x[i]) <= end
      invariant 4 <= i && BeyondBlocks(x, 4, end) == BeyondBlocks(x, i, end)
      decreases end - i
    {
      var length := Len(x[i]);
      mode := BeyondBlock(Tag(x[i]), x[i + 1..i + 1 + length]);
      if mode.Some? {
        return;
      }
      i := i + 1 + length;
    }
    var offset: nat := x[2];
    while offset >= 4 && offset + 18 <= 127
      invariant offset >= x[2] && BeyondTimings(x, x[2]) == BeyondTimings(x, offset)
      decreases 128 - offset
    {
      mode := Detailed(x[offset..offset + 18]);
      if mode.Some? {
        return;
      }
      offset := offset + 18;
    }
    return None;
  }
}
