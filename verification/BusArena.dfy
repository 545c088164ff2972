/** The payload arena: a 256 KiB ring of bytes in which payloads are placed one after the other. */
module BusArena {
  import opened Wrappers
  import LittleEndian

  type Byte = LittleEndian.Byte

  const CAPACITY: nat := 0x4_0000
  const MAX_PAYLOAD: nat := 0x1000

  datatype Slice = Slice(offset: nat, len: nat)

  datatype Arena = Arena(bytes: seq<Byte>, cursor: nat)

  predicate ArenaOk(a: Arena) { |a.bytes| == CAPACITY && a.cursor <= CAPACITY }

  /** Where the next payload goes: behind the last one, or at the start if it does not fit there. */
  function Offset(a: Arena, len: nat): nat { if a.cursor + len > CAPACITY then 0 else a.cursor }

  function Write(bytes: seq<Byte>, offset: nat, data: seq<Byte>): (r: seq<Byte>)
    requires offset + |data| <= |bytes|
    ensures |r| == |bytes|
  {
    bytes[..offset] + data + bytes[offset + |data|..]
  }

  predicate Fits(data: seq<Byte>) { 0 < |data| <= MAX_PAYLOAD }

  /** A payload of 1 to 4096 bytes is copied in; anything else is refused. */
  function Place(a: Arena, data: seq<Byte>): (Arena, Option<Slice>)
    requires ArenaOk(a)
  {
    if !Fits(data) then (a, None)
    else
      var offset := Offset(a, |data|);
      (Arena(Write(a.bytes, offset, data), offset + |data|), Some(Slice(offset, |data|)))
  }

  function Blank(): seq<Byte> { seq(CAPACITY, _ => 0) }

  function Get(a: Arena, s: Slice): seq<Byte>
    requires s.offset + s.len <= |a.bytes|
  {
    a.bytes[s.offset..s.offset + s.len]
  }

  lemma PlaceOk(a: Arena, data: seq<Byte>)
    requires ArenaOk(a)
    ensures var (r, s) := Place(a, data);
      && ArenaOk(r) && (s.Some? <==> Fits(data))
      && (s.Some? ==> s.value.offset + s.value.len <= CAPACITY && Get(r, s.value) == data
                      && r.cursor == s.value.offset + s.value.len)
  {
  }

  /** The arena after a list of payloads. */
  function PlaceAll(a: Arena, ds: seq<seq<Byte>>): (r: Arena)
    requires ArenaOk(a)
    ensures ArenaOk(r)
    decreases |ds|
  {
    if ds == [] then a else Place(PlaceAll(a, ds[..|ds| - 1]), ds[|ds| - 1]).0
  }

  /** How many of the payloads are accepted. */
  function Accepted(ds: seq<seq<Byte>>): nat
    decreases |ds|
  {
    if ds == [] then 0 else Accepted(ds[..|ds| - 1]) + if Fits(ds[|ds| - 1]) then 1 else 0
  }

  lemma WriteElsewhere(bytes: seq<Byte>, offset: nat, data: seq<Byte>, s: Slice)
    requires offset + |data| <= |bytes| && s.offset + s.len <= |bytes|
    requires offset + |data| <= s.offset || s.offset + s.len <= offset
    ensures Write(bytes, offset, data)[s.offset..s.offset + s.len] == bytes[s.offset..s.offset + s.len]
  {
  }

  /** Where the cursor can be after n payloads placed behind slice s: still behind it, or wrapped around and then still
      in front of it as long as n is at most 62. */
  ghost predicate Behind(a: Arena, s: Slice, n: nat)
  {
    || (s.offset + s.len <= a.cursor <= s.offset + s.len + n * MAX_PAYLOAD)
    || a.cursor + CAPACITY < s.offset + s.len + (n + 1) * MAX_PAYLOAD
  }

  /** A slice reads back its bytes through any 62 later payloads, of any sizes. */
  lemma {:induction false} SliceSurvives(a: Arena, s: Slice, ds: seq<seq<Byte>>)
    requires ArenaOk(a) && s.offset + s.len <= CAPACITY && s.len <= MAX_PAYLOAD && a.cursor == s.offset + s.len
    requires Accepted(ds) <= 62
    ensures Get(PlaceAll(a, ds), s) == Get(a, s) && Behind(PlaceAll(a, ds), s, Accepted(ds))
    decreases |ds|
  {
    if ds != [] {
      var init, d := ds[..|ds| - 1], ds[|ds| - 1];
      SliceSurvives(a, s, init);
      var b := PlaceAll(a, init);
      if Fits(d) {
        WriteElsewhere(b.bytes, Offset(b, |d|), d, s);
      }
    }
  }

  /** A payload can be read back through any 62 later ones. */
  lemma PayloadSurvives(a: Arena, data: seq<Byte>, ds: seq<seq<Byte>>)
    requires ArenaOk(a) && Fits(data) && Accepted(ds) <= 62
    ensures var (b, s) := Place(a, data);
      s.Some? && ArenaOk(b) && s.value.offset + s.value.len <= CAPACITY && Get(PlaceAll(b, ds), s.value) == data
  {
    PlaceOk(a, data);
    var (b, s) := Place(a, data);
    SliceSurvives(b, s.value, ds);
  }

  // ----- 63 can overwrite it

  function Page(b: Byte): seq<Byte> { seq(MAX_PAYLOAD, _ => b) }

  function Pages(b: Byte, n: nat): seq<seq<Byte>> { seq(n, _ => Page(b)) }

  lemma {:induction false} CursorAfterPages(a: Arena, b: Byte, n: nat)
    requires ArenaOk(a) && a.cursor + n * MAX_PAYLOAD <= CAPACITY
    ensures PlaceAll(a, Pages(b, n)).cursor == a.cursor + n * MAX_PAYLOAD && Accepted(Pages(b, n)) == n
    decreases n
  {
    if n > 0 {
      assert Pages(b, n)[..n - 1] == Pages(b, n - 1);
      CursorAfterPages(a, b, n - 1);
    }
  }

  /** The bound is tight: behind one byte and a full-size payload in a new arena, the 63rd full-size payload overwrites
      that one. */
  lemma SixtyThreeOverwrite(start: Arena, n: nat)
    requires ArenaOk(start) && start.cursor == 0 && n == 63
    ensures var a := Place(start, [0]).0;
      && ArenaOk(a)
      && var (b, s) := Place(a, Page(0));
        && s.Some? && ArenaOk(b) && s.value.offset + s.value.len <= CAPACITY && Accepted(Pages(1, n)) == n
        && Get(PlaceAll(b, Pages(1, n)), s.value) != Page(0)
  {
    PlaceOk(start, [0]);
    OverwrittenFromOne(Place(start, [0]).0, n);
  }

  lemma OverwrittenFromOne(a: Arena, n: nat)
    requires ArenaOk(a) && a.cursor == 1 && n == 63
    ensures var (b, s) := Place(a, Page(0));
      && s.Some? && ArenaOk(b) && s.value.offset + s.value.len <= CAPACITY && Accepted(Pages(1, n)) == n
      && Get(PlaceAll(b, Pages(1, n)), s.value) != Page(0)
  {
    PlaceOk(a, Page(0));
    var (b, s) := Place(a, Page(0));
    assert s.value == Slice(1, MAX_PAYLOAD) && b.cursor == MAX_PAYLOAD + 1;
    CursorAfterPages(b, 1, n - 1);
    assert Pages(1, n)[..n - 1] == Pages(1, n - 1);
    var c := PlaceAll(b, Pages(1, n - 1));
    assert Offset(c, MAX_PAYLOAD) == 0;
    var d := PlaceAll(b, Pages(1, n));
    assert d.bytes[1] == Page(1)[1];
    assert Get(d, s.value)[0] == 1 && Page(0)[0] == 0;
  }

  // ----- the arena

  class PayloadArena {
    const buffer: array<Byte>
    var cursor: nat

    ghost predicate Valid()
      reads this
    {
      buffer.Length == CAPACITY && cursor <= CAPACITY
    }

    ghost function Abs(): Arena
      requires Valid()
      reads this, buffer
    {
      Arena(buffer[..], cursor)
    }

    constructor ()
      ensures Valid() && fresh(buffer) && cursor == 0
    {
      buffer := new Byte[CAPACITY](_ => 0);
      cursor := 0;
    }

    /** A zeroed buffer, written from its start. */
    method Init()
      requires Valid()
      modifies this`cursor, buffer
      ensures Valid() && Abs() == Arena(Blank(), 0)
    {
      forall i | 0 <= i < buffer.Length {
        buffer[i] := 0;
      }
      cursor := 0;
    }

    method CopyIn(offset: nat, data: seq<Byte>)
      requires Valid() && offset + |data| <= CAPACITY
      modifies buffer
      ensures buffer[..] == Write(old(buffer[..]), offset, data)
    {
      ghost var was := buffer[..];
      for i := 0 to |data|
        invariant buffer[..] == was[..offset] + data[..i] + was[offset + i..]
      {
        buffer[offset + i] := data[i];
      }
    }

    method Allocate(data: seq<Byte>) returns (r: Option<Slice>)
      requires Valid()
      modifies this`cursor, buffer
      ensures Valid() && (Abs(), r) == Place(old(Abs()), data)
    {
      if |data| == 0 || |data| > MAX_PAYLOAD {
        return None;
      }
      var offset := cursor;
      if offset + |data| > CAPACITY {
        offset := 0;
      }
      CopyIn(offset, data);
      cursor := offset + |data|;
      return Some(Slice(offset, |data|));
    }
  }
}
