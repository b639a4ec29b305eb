/** Assembling an access unit from the packs a native read hands to its sink:
    the C slot of the capture worker followed by the Go copy of that slot, and
    the direct Go path that stores each pack as it comes. */
module VideoPacks {
  import opened Shared

  const MAX_FRAME := 64 * 1024 * 1024

  /** One call of the sink: the borrowed bytes (None is a null pointer), and the
      offset and total it claims, both unsigned. */
  datatype Pack = Pack(data: Option<seq<byte>>, offset: nat, total: nat)

  function Zeros(n: nat): (z: seq<byte>)
    ensures |z| == n
  {
    seq(n, i => 0)
  }

  // ------------------------------------------------------ what is assembled

  /** An access unit while it is assembled: its bytes so far, the total all its
      packs must agree on (0: none yet), and whether a pack was refused. */
  datatype Unit = Unit(bytes: seq<byte>, total: nat, failed: bool)

  const EMPTY := Unit([], 0, false)

  /** The pack continues the unit. */
  predicate Fits(u: Unit, p: Pack) {
    && !u.failed && p.data.Some? && |p.data.value| > 0
    && 0 < p.total <= MAX_FRAME
    && p.offset == |u.bytes| && p.offset + |p.data.value| <= p.total
    && (u.total == 0 || u.total == p.total)
  }

  function Add(u: Unit, p: Pack): Unit {
    if Fits(u, p) then Unit(u.bytes + p.data.value, p.total, false) else u.(failed := true)
  }

  function Assemble(u: Unit, packs: seq<Pack>): Unit
    decreases packs
  {
    if packs == [] then u else Assemble(Add(u, packs[0]), packs[1..])
  }

  predicate Complete(u: Unit) {
    !u.failed && u.total > 0 && |u.bytes| == u.total
  }

  function Body(p: Pack): seq<byte> {
    if p.data.Some? then p.data.value else []
  }

  /** The bytes of all packs, in the order they came. */
  function Joined(packs: seq<Pack>): seq<byte> {
    if packs == [] then [] else Body(packs[0]) + Joined(packs[1..])
  }

  /** Storage, its data part and the result code, as both paths return them.
      Storage and data are nil together. */
  datatype Read = Read(storage: Option<seq<byte>>, data: Option<seq<byte>>, result: int)

  /** The result both paths must give for the packs of one native read. */
  function Expected(packs: seq<Pack>, headroom: int, result: int): Read {
    var u := Assemble(EMPTY, packs);
    if result < 0 then Read(None, None, result)
    else if !Complete(u) || headroom < 0 || headroom > MAX_FRAME then Read(None, None, -2)
    else Read(Some(Zeros(headroom) + u.bytes), Some(u.bytes), result)
  }

  lemma {:induction false} AssembleAppend(u: Unit, packs: seq<Pack>, p: Pack)
    ensures Assemble(u, packs + [p]) == Add(Assemble(u, packs), p)
    decreases packs
  {
    if packs == [] {
      assert packs + [p] == [p];
      assert Assemble(Add(u, p), [p][1..]) == Add(u, p);
    } else {
      assert (packs + [p])[1..] == packs[1..] + [p];
      AssembleAppend(Add(u, packs[0]), packs[1..], p);
    }
  }

  /** Pack `i` is in its place: it starts where the packs before it end, fits,
      and claims the same total as the first. */
  ghost predicate Placed(packs: seq<Pack>, i: nat)
    requires i < |packs|
  {
    var p := packs[i];
    && p.data.Some? && |p.data.value| > 0 && 0 < p.total <= MAX_FRAME
    && p.offset == |Joined(packs[..i])| && p.offset + |p.data.value| <= p.total
    && p.total == packs[0].total
  }

  ghost predicate InOrder(packs: seq<Pack>) {
    forall i :: 0 <= i < |packs| ==> Placed(packs, i)
  }

  lemma {:induction false} JoinedAppend(packs: seq<Pack>, p: Pack)
    ensures Joined(packs + [p]) == Joined(packs) + Body(p)
  {
    if packs == [] {
      assert packs + [p] == [p];
    } else {
      var head, tail := packs[0], packs[1..];
      calc {
        Joined(packs + [p]);
        { assert (packs + [p])[1..] == tail + [p]; }
        Body(head) + Joined(tail + [p]);
        { JoinedAppend(tail, p); }
        Body(head) + (Joined(tail) + Body(p));
        (Body(head) + Joined(tail)) + Body(p);
      }
    }
  }

  lemma PlacedBefore(packs: seq<Pack>, p: Pack, i: nat)
    requires i < |packs|
    ensures Placed(packs + [p], i) == Placed(packs, i)
  {
    assert (packs + [p])[..i] == packs[..i];
  }

  /** A unit is assembled without refusal exactly when its packs are in order,
      and then its bytes are theirs, joined. */
  lemma {:induction false} AssembledIffInOrder(packs: seq<Pack>)
    ensures var u := Assemble(EMPTY, packs);
      && (u.failed <==> !InOrder(packs))
      && (!u.failed ==> u.bytes == Joined(packs) && u.total == (if packs == [] then 0 else packs[0].total)
                        && |u.bytes| <= u.total <= MAX_FRAME && (u.bytes == [] <==> u.total == 0))
    decreases |packs|
  {
    if packs != [] {
      var n := |packs| - 1;
      var init, p := packs[..n], packs[n];
      assert packs == init + [p];
      AssembledIffInOrder(init);
      AssembleAppend(EMPTY, init, p);
      JoinedAppend(init, p);
      forall i | 0 <= i < n ensures Placed(packs, i) == Placed(init, i) {
        PlacedBefore(init, p, i);
      }
      assert InOrder(packs) <==> InOrder(init) && Placed(packs, n);
      assert packs[..n] == init;
      if InOrder(init) {
        assert n > 0 ==> Placed(init, 0) && packs[0] == init[0];
        assert Placed(packs, n) <==> Fits(Assemble(EMPTY, init), p);
      }
    }
  }

  /** Data is returned exactly for a successful read whose packs are in order
      and add up to their total, with an acceptable headroom; it is then their
      concatenation of exactly `total` bytes, behind that many zero bytes. */
  lemma {:induction false} DataExactlyWhenWhole(packs: seq<Pack>, headroom: int, result: int)
    ensures var r := Expected(packs, headroom, result);
      && (r.data.Some? <==> result >= 0 && packs != [] && InOrder(packs) && |Joined(packs)| == packs[0].total
                            && 0 <= headroom <= MAX_FRAME)
      && (r.data.Some? ==> r.data.value == Joined(packs) && r.storage == Some(Zeros(headroom) + Joined(packs))
                           && r.result == result)
      && (r.data.None? ==> r.storage.None? && r.result == if result < 0 then result else -2)
  {
    AssembledIffInOrder(packs);
    if packs != [] && InOrder(packs) {
      assert Placed(packs, 0);
    }
  }

  // ------------------------------------------------------------ the Go side

  /** videoPackStorage: one allocation of headroom and access unit. */
  class PackStorage {
    const headroom: int
    var storage: array?<byte>
    var total: int
    var next: int
    var failed: bool

    constructor (headroom: int)
      ensures this.headroom == headroom && Valid() && Value() == EMPTY && storage == null
    {
      this.headroom := headroom;
      storage, total, next, failed := null, 0, 0, false;
    }

    ghost predicate Valid()
      reads this, storage
    {
      if storage == null then total == 0 && next == 0
      else
        && 0 <= headroom <= MAX_FRAME && 0 < total <= MAX_FRAME && 0 <= next <= total
        && storage.Length == headroom + total
        && (forall i :: 0 <= i < headroom ==> storage[i] == 0)
        && (forall i :: headroom + next <= i < storage.Length ==> storage[i] == 0)
    }

    /** The access unit stored so far. */
    ghost function Value(): Unit
      reads this, storage
      requires Valid()
    {
      if storage == null then Unit([], 0, failed) else Unit(storage[headroom..headroom + next], total, failed)
    }

    /** Stores one pack. It refuses what does not continue the unit, and also
        every pack when the headroom is unacceptable. */
    method AppendPack(pack: seq<byte>, offset: int, total: int) returns (ok: bool)
      requires Valid() && offset >= 0 && total >= 0
      modifies this`storage, this`total, this`next, this`failed, storage
      ensures Valid() && (storage == old(storage) || fresh(storage))
      ensures ok == !failed
      ensures Value() == if 0 <= headroom <= MAX_FRAME then Add(old(Value()), Pack(Some(pack), offset, total))
                         else old(Value()).(failed := true)
    {
      if failed || total <= 0 || total > MAX_FRAME || headroom < 0 || headroom > MAX_FRAME
         || offset != next || |pack| == 0 || offset > total || |pack| > total - offset {
        failed := true;
        return false;
      }
      if storage == null {
        this.total := total;
        storage := new byte[headroom + total](i => 0);
      }
      if this.total != total {
        failed := true;
        return false;
      }
      Store(pack);
      return true;
    }

    method Store(pack: seq<byte>)
      requires Valid() && storage != null && next + |pack| <= total
      modifies this`next, storage
      ensures Valid() && Value() == old(Value()).(bytes := old(Value()).bytes + pack)
    {
      ghost var before := storage[headroom..headroom + next];
      Copy(storage, headroom + next, pack);
      assert storage[headroom..headroom + next] == before;
      assert storage[headroom + next..headroom + next + |pack|] == pack;
      next := next + |pack|;
      assert storage[headroom..headroom + next] == before + pack;
    }

    method IsComplete() returns (complete: bool)
      requires Valid()
      ensures complete == Complete(Value())
    {
      return !failed && total > 0 && next == total;
    }

    /** Native result codes are kept; a successful read without a complete unit
        is reported as -2. */
    method VideoResult(result: int) returns (r: Read)
      requires Valid()
      ensures r == if result < 0 then Read(None, None, result)
                   else if !Complete(Value()) then Read(None, None, -2)
                   else Read(Some(Zeros(headroom) + Value().bytes), Some(Value().bytes), result)
    {
      if result < 0 {
        return Read(None, None, result);
      }
      var complete := IsComplete();
      if !complete {
        return Read(None, None, -2);
      }
      assert storage[..] == Zeros(headroom) + storage[headroom..];
      assert storage[headroom..] == storage[headroom..headroom + next];
      return Read(Some(storage[..]), Some(storage[headroom..]), result);
    }
  }

  /** Copies `src` into `dst` at `at`. */
  method Copy(dst: array<byte>, at: nat, src: seq<byte>)
    requires at + |src| <= dst.Length
    modifies dst
    ensures forall i :: 0 <= i < dst.Length ==> dst[i] == if at <= i < at + |src| then src[i - at] else old(dst[i])
  {
    for i := 0 to |src|
      invariant forall j :: 0 <= j < dst.Length ==> dst[j] == if at <= j < at + i then src[j - at] else old(dst[j])
    {
      dst[at + i] := src[i];
    }
  }

  // ------------------------------------------------------------- the C side

  /** A capture slot and the flag of the read that fills it. Its buffer grows
      and is kept from read to read. */
  class Slot {
    var data: array<byte>
    var size: nat
    var total: nat
    var result: int
    var failed: bool

    constructor ()
      ensures Valid() && fresh(data)
    {
      data := new byte[0];
      size, total, result, failed := 0, 0, 0, false;
    }

    ghost predicate Valid()
      reads this
    {
      size <= total <= data.Length
    }

    ghost function Value(): Unit
      reads this, data
      requires Valid()
    {
      Unit(data[..size], total, failed)
    }

    /** Copies one borrowed pack into the slot; `memory` is whether realloc
        succeeds if it is needed. */
    method AssemblePack(p: Pack, memory: bool) returns (code: int)
      requires Valid()
      modifies this`data, this`size, this`total, this`failed, data
      ensures Valid() && (data == old(data) || fresh(data)) && data.Length >= old(data.Length)
      ensures code == if failed then -1 else 0
      ensures var refused := old(total) == 0 && old(data.Length) < p.total && !memory;
        Value() == if refused then old(Value()).(failed := true) else Add(old(Value()), p)
    {
      if failed || p.data.None? || |p.data.value| == 0 || p.total == 0 || p.total > MAX_FRAME
         || p.offset != size || p.offset > p.total || |p.data.value| > p.total - p.offset
         || (total != 0 && total != p.total) {
        failed := true;
        return -1;
      }
      if total == 0 {
        if data.Length < p.total {
          if !memory {
            failed := true;
            return -1;
          }
          data := Grow(data, p.total);
        }
        total := p.total;
      }
      ghost var before := data[..size];
      Copy(data, p.offset, p.data.value);
      assert data[..size] == before;
      assert data[size..size + |p.data.value|] == p.data.value;
      size := size + |p.data.value|;
      assert data[..size] == before + p.data.value;
      return 0;
    }

    /** The sink calls of one native read, then its result code. */
    method ReadAccessUnit(packs: seq<Pack>, code: int, memory: bool)
      requires Valid()
      modifies this, data
      ensures Valid() && result == code && (data == old(data) || fresh(data))
      ensures memory ==> Filled(Assemble(EMPTY, packs))
      ensures !memory ==> size == 0 || Filled(Assemble(EMPTY, packs))
    {
      size, total, failed := 0, 0, false;
      ghost var refused := false;
      for i := 0 to |packs|
        invariant Valid() && (data == old(data) || fresh(data))
        invariant refused ==> failed && !memory
        invariant !refused ==> Value() == Assemble(EMPTY, packs[..i])
      {
        assert packs[..i + 1] == packs[..i] + [packs[i]];
        AssembleAppend(EMPTY, packs[..i], packs[i]);
        refused := refused || (total == 0 && data.Length < packs[i].total && !memory);
        var _ := AssemblePack(packs[i], memory);
      }
      assert packs[..|packs|] == packs;
      result := code;
      if failed {
        size := 0;
      }
    }

    /** The slot as it is published for the unit `u`: empty if a pack was refused. */
    ghost predicate Filled(u: Unit)
      reads this, data
      requires Valid()
    {
      if u.failed then size == 0 else data[..size] == u.bytes && total == u.total
    }
  }

  /** realloc: a longer buffer that begins with the bytes of the old one. */
  method Grow(data: array<byte>, length: nat) returns (grown: array<byte>)
    requires data.Length <= length
    ensures fresh(grown) && grown.Length == length && grown[..data.Length] == data[..]
  {
    grown := new byte[length](i => 0);
    Copy(grown, 0, data[..]);
  }

  // ---------------------------------------------------------- the two paths

  /** The worker path: C assembles the packs of a read into its slot, whatever
      the slot held before; take copies the slot into Go storage. */
  method WorkerPath(slot: Slot, packs: seq<Pack>, headroom: int, code: int, memory: bool) returns (r: Read)
    requires slot.Valid()
    modifies slot, slot.data
    ensures slot.Valid()
    ensures memory ==> r == Expected(packs, headroom, code)
    ensures !memory ==> r == Expected(packs, headroom, code) || r == Expected([], headroom, code)
  {
    slot.ReadAccessUnit(packs, code, memory);
    var state := new PackStorage(headroom);
    ghost var u := Assemble(EMPTY, packs);
    AssembledIffInOrder(packs);
    if slot.size > 0 {
      assert [] + slot.data[..slot.size] == slot.data[..slot.size];
      var _ := state.AppendPack(slot.data[..slot.size], 0, slot.total);
    }
    r := state.VideoResult(slot.result);
  }

  /** The direct path: every pack goes to Go storage as the read hands it out. */
  method DirectPath(packs: seq<Pack>, headroom: int, code: int) returns (r: Read)
    ensures r == Expected(packs, headroom, code)
  {
    var state := new PackStorage(headroom);
    for i := 0 to |packs|
      invariant state.Valid() && (state.storage == null || fresh(state.storage))
      invariant 0 <= headroom <= MAX_FRAME ==> state.Value() == Assemble(EMPTY, packs[..i])
      invariant !(0 <= headroom <= MAX_FRAME) ==> !Complete(state.Value())
    {
      assert packs[..i + 1] == packs[..i] + [packs[i]];
      AssembleAppend(EMPTY, packs[..i], packs[i]);
      var p := packs[i];
      if p.data.None? || |p.data.value| == 0 || |p.data.value| > MAX_FRAME {
        state.failed := true;
      } else {
        var _ := state.AppendPack(p.data.value, p.offset, p.total);
      }
    }
    assert packs[..|packs|] == packs;
    r := state.VideoResult(code);
  }
}
