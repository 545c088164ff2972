/** The end of a Poly1305 computation, full reduction and packing, and the authenticator itself. */
module Poly1305Mac {
  import opened Bits
  import opened LittleEndian
  import opened ModArith
  import opened Poly1305
  import opened Wrappers

  const W32: int := 0x1_0000_0000
  const ONES: int := 0xffff_ffff

  // ----- the last carry

  predicate Exact(h: Limbs)
  {
    h.a0 < B26 && h.a1 < B26 && h.a2 < B26 && h.a3 < B26 && h.a4 < B26
  }

  // The limbs as the second carry chain reaches them.
  function E2(h: Limbs): nat { h.a2 + h.a1 / B26 }
  function E3(h: Limbs): nat { h.a3 + E2(h) / B26 }
  function E4(h: Limbs): nat { h.a4 + E3(h) / B26 }
  function E0(h: Limbs): nat { h.a0 + E4(h) / B26 * 5 }

  /** The carry chain after the last block. A carry reaches limb 1 again only if limb 1 gave one away. */
  function FinalCarry(h: Limbs): (h': Limbs)
    requires Reduced(h)
    ensures Exact(h')
  {
    FinalCarryFits(h);
    Limbs(E0(h) % B26, h.a1 % B26 + E0(h) / B26, E2(h) % B26, E3(h) % B26, E4(h) % B26)
  }

  lemma FinalCarryFits(h: Limbs)
    requires Reduced(h)
    ensures h.a1 % B26 + E0(h) / B26 < B26
  {
    if h.a1 < B26 {
      assert E2(h) == h.a2 && E3(h) == h.a3 && E4(h) == h.a4 && E0(h) == h.a0;
    } else {
      assert h.a1 % B26 < 64;
      assert E4(h) / B26 <= 1;
    }
  }

  lemma FinalCarryModP(h: Limbs)
    requires Reduced(h)
    ensures Val(FinalCarry(h)) % P == Val(h) % P
  {
    AddMultiple(Val(FinalCarry(h)), P, E4(h) / B26);
  }

  // ----- the conditional subtraction

  // The limbs of h + 5 as the carry reaches them.
  function G0(h: Limbs): nat { h.a0 + 5 }
  function G1(h: Limbs): nat { h.a1 + G0(h) / B26 }
  function G2(h: Limbs): nat { h.a2 + G1(h) / B26 }
  function G3(h: Limbs): nat { h.a3 + G2(h) / B26 }
  /** The top limb of h + 5 - 2^130, wrapping on underflow. */
  function G4(h: Limbs): nat { (h.a4 + G3(h) / B26 + (W32 - B26)) % W32 }

  /** All ones when bit 26 of the top limb is clear. */
  function SelectMask(g4: nat): nat { if And(g4, B26) != 0 then 0 else ONES }

  function Select(mask: nat, h: nat, g: nat): nat
    requires mask <= ONES
  {
    Or(And(h, ONES - mask), And(g, mask))
  }

  lemma SelectIs(mask: nat, h: U32, g: U32)
    requires mask == 0 || mask == ONES
    ensures Select(mask, h, g) == if mask == 0 then h else g
  {
    Pow32();
    AndFullMask(h, 32, Pow2(32) - 1);
    AndFullMask(g, 32, Pow2(32) - 1);
    AndZero(h);
    AndZero(g);
    OrZero(h);
    OrZero(g);
  }

  function Freeze(h: Limbs): Limbs
    requires Exact(h)
  {
    var mask := SelectMask(G4(h));
    SelectIs(mask, h.a0, G0(h) % B26);
    SelectIs(mask, h.a1, G1(h) % B26);
    SelectIs(mask, h.a2, G2(h) % B26);
    SelectIs(mask, h.a3, G3(h) % B26);
    SelectIs(mask, h.a4, G4(h));
    Limbs(Select(mask, h.a0, G0(h) % B26), Select(mask, h.a1, G1(h) % B26), Select(mask, h.a2, G2(h) % B26),
          Select(mask, h.a3, G3(h) % B26), Select(mask, h.a4, G4(h)))
  }

  lemma TestBit26(x: nat, q: nat, low: nat)
    requires low < B26 && x == B26 * q + low
    ensures And(x, B26) == if q % 2 == 1 then B26 else 0
  {
    Pow26();
    DivUnique(x, B26, q, low);
    AndTestsBit(x, 26);
  }

  /** Bit 26 tells whether the subtraction went below zero. */
  lemma MaskTells(h: Limbs)
    requires Exact(h)
    ensures SelectMask(G4(h)) == if h.a4 + G3(h) / B26 < B26 then 0 else ONES
    ensures h.a4 + G3(h) / B26 >= B26 ==> G4(h) == 0
  {
    var top := h.a4 + G3(h) / B26;
    assert top <= B26;
    if top < B26 {
      TestBit26(G4(h), 63, top);
    } else {
      TestBit26(G4(h), 0, 0);
    }
  }

  lemma FreezeVal(h: Limbs)
    requires Exact(h)
    ensures Exact(Freeze(h)) && Val(Freeze(h)) == Val(h) % P
  {
    var mask := SelectMask(G4(h));
    MaskTells(h);
    SelectIs(mask, h.a0, G0(h) % B26);
    SelectIs(mask, h.a1, G1(h) % B26);
    SelectIs(mask, h.a2, G2(h) % B26);
    SelectIs(mask, h.a3, G3(h) % B26);
    SelectIs(mask, h.a4, G4(h));
    if mask == 0 {
      DivUnique(Val(h), P, 0, Val(h));
    } else {
      DivUnique(Val(h), P, 1, Val(Freeze(h)));
    }
  }

  // ----- packing

  function Pack(h: Limbs): Words
    requires Exact(h)
  {
    PackIs(h);
    Words(Join(h.a0, h.a1, 26), Join(h.a1 / 64, h.a2, 20), Join(h.a2 / 0x1000, h.a3, 14),
          Join(h.a3 / 0x4_0000, h.a4, 8))
  }

  lemma PackIs(h: Limbs)
    requires Exact(h)
    ensures Join(h.a0, h.a1, 26) == h.a0 + B26 * (h.a1 % 64)
    ensures Join(h.a1 / 64, h.a2, 20) == h.a1 / 64 + 0x10_0000 * (h.a2 % 0x1000)
    ensures Join(h.a2 / 0x1000, h.a3, 14) == h.a2 / 0x1000 + 0x4000 * (h.a3 % 0x4_0000)
    ensures Join(h.a3 / 0x4_0000, h.a4, 8) == h.a3 / 0x4_0000 + 256 * (h.a4 % 0x100_0000)
  {
    SmallPowers();
    JoinIs(h.a0, h.a1, 26);
    JoinIs(h.a1 / 64, h.a2, 20);
    JoinIs(h.a2 / 0x1000, h.a3, 14);
    JoinIs(h.a3 / 0x4_0000, h.a4, 8);
  }

  lemma WordsBound(t: Words)
    ensures WordsVal(t) < B128
  {
  }

  lemma PackVal(h: Limbs)
    requires Exact(h)
    ensures WordsVal(Pack(h)) == Val(h) % B128
  {
    PackIs(h);
    WordsBound(Pack(h));
    DivUnique(Val(h), B128, h.a4 / 0x100_0000, WordsVal(Pack(h)));
  }

  // The 64-bit sums of the packed words and the second half of the key, with their carries.
  function S0(f: Words, s: Words): nat { f.t0 + s.t0 }
  function S1(f: Words, s: Words): nat { f.t1 + s.t1 + S0(f, s) / W32 }
  function S2(f: Words, s: Words): nat { f.t2 + s.t2 + S1(f, s) / W32 }
  function S3(f: Words, s: Words): nat { f.t3 + s.t3 + S2(f, s) / W32 }

  function AddWords(f: Words, s: Words): Words
  {
    Words(S0(f, s) % W32, S1(f, s) % W32, S2(f, s) % W32, S3(f, s) % W32)
  }

  lemma AddWordsVal(f: Words, s: Words)
    ensures WordsVal(AddWords(f, s)) == (WordsVal(f) + WordsVal(s)) % B128
  {
    WordsBound(AddWords(f, s));
    DivUnique(WordsVal(f) + WordsVal(s), B128, S3(f, s) / W32, WordsVal(AddWords(f, s)));
  }

  // ----- bytes of the tag

  function Bytes(w: Words): seq<Byte>
  {
    ToLe(w.t0, 4) + ToLe(w.t1, 4) + ToLe(w.t2, 4) + ToLe(w.t3, 4)
  }

  /** A 32-bit word below the rest of a number, as bytes. */
  lemma WordThenRest(w: U32, rest: nat, b: nat)
    ensures ToLe(w + W32 * rest, 4 + b) == ToLe(w, 4) + ToLe(rest, b)
  {
    Pow32();
    DivUnique(w + W32 * rest, W32, rest, w);
    ToLeSplit(w + W32 * rest, 4, b);
  }

  lemma BytesAreLe(w: Words)
    ensures Bytes(w) == ToLe(WordsVal(w), 16)
  {
    var x2 := w.t2 + W32 * w.t3;
    var x1 := w.t1 + W32 * x2;
    WordThenRest(w.t2, w.t3, 4);
    WordThenRest(w.t1, x2, 8);
    WordThenRest(w.t0, x1, 12);
    assert WordsVal(w) == w.t0 + W32 * x1;
  }

  // ----- the authenticator

  /** The tag bytes from the final accumulator and the second half of the key. */
  function Finish(h: Limbs, s: Words): seq<Byte>
    requires Reduced(h)
  {
    FreezeVal(FinalCarry(h));
    Bytes(AddWords(Pack(Freeze(FinalCarry(h))), s))
  }

  lemma PackedSum(f: Limbs, s: Words)
    requires Exact(f)
    ensures WordsVal(AddWords(Pack(f), s)) == (Val(f) + WordsVal(s)) % B128
  {
    PackVal(f);
    AddWordsVal(Pack(f), s);
    SumMod(Val(f), WordsVal(s), B128);
  }

  lemma SumMod(a: int, b: int, m: int)
    requires m > 0
    ensures (a % m + b) % m == (a + b) % m
  {
    ModIdempotent(a, m);
    ModAdd(a % m, a, b, b, m);
  }

  lemma FinishPacked(f: Limbs, s: Words)
    requires Exact(f)
    ensures Bytes(AddWords(Pack(f), s)) == TagOf(Val(f), WordsVal(s))
  {
    PackedSum(f, s);
    BytesAreLe(AddWords(Pack(f), s));
  }

  lemma FinishFrozen(e: Limbs, s: Words, acc: nat)
    requires Exact(e) && Val(e) % P == acc
    ensures Exact(Freeze(e)) && Bytes(AddWords(Pack(Freeze(e)), s)) == TagOf(acc, WordsVal(s))
  {
    FreezeVal(e);
    FinishPacked(Freeze(e), s);
  }

  lemma FinishIs(h: Limbs, s: Words, acc: nat)
    requires Reduced(h) && Val(h) % P == acc
    ensures Finish(h, s) == TagOf(acc, WordsVal(s))
  {
    FinalCarryModP(h);
    FinishFrozen(FinalCarry(h), s, acc);
  }

  lemma BlockValue(chunk: seq<Byte>)
    requires |chunk| <= 16
    ensures WordsVal(LoadWords(Buffer(chunk), 0)) + (if |chunk| == 16 then B128 else 0) == Padded(chunk)
  {
    LoadWordsVal(Buffer(chunk), 0);
    BufferVal(chunk);
    assert Buffer(chunk)[0..16] == Buffer(chunk)[..16];
  }

  lemma BlockKeeps(h: Limbs, r: Limbs, chunk: seq<Byte>, acc: nat)
    requires Reduced(h) && Multiplier(r) && Val(h) % P == acc && |chunk| <= 16
    ensures Val(BlockStep(h, r, LoadWords(Buffer(chunk), 0), |chunk| == 16)) % P == Next(acc, chunk, Val(r))
  {
    BlockValue(chunk);
    BlockStepModP(h, r, LoadWords(Buffer(chunk), 0), |chunk| == 16);
    AccumulateStep(Val(h), acc, chunk, Val(r));
  }

  lemma NextChunk(msg: seq<Byte>, i: nat)
    requires i < |msg|
    ensures Chunk(msg[i..]) == msg[i..Least(i + 16, |msg|)]
    ensures msg[i..][|Chunk(msg[i..])|..] == msg[Least(i + 16, |msg|)..]
  {
  }

  /** The accumulator over all blocks of the message. */
  method Process(msg: seq<Byte>, r: Limbs) returns (h: Limbs)
    requires Multiplier(r)
    ensures Reduced(h) && Val(h) % P == Accumulate(msg, Val(r), 0)
  {
    h := Limbs(0, 0, 0, 0, 0);
    ghost var acc := 0;
    var i := 0;
    while i < |msg|
      invariant 0 <= i
      invariant Reduced(h) && Val(h) % P == acc
      invariant Accumulate(msg, Val(r), 0) == Accumulate(msg[Least(i, |msg|)..], Val(r), acc)
    {
      var end := if i + 16 < |msg| then i + 16 else |msg|;
      var chunk := msg[i..end];
      NextChunk(msg, i);
      BlockKeeps(h, r, chunk, acc);
      h := BlockStep(h, r, LoadWords(Buffer(chunk), 0), |chunk| == 16);
      acc := Next(acc, chunk, Val(r));
      i := i + 16;
    }
  }

  lemma ClampedKey(key: seq<Byte>)
    requires |key| == 32
    ensures Val(ClampLimbs(LoadWords(key, 0))) == KeyR(key)
  {
    assert key[0..16] == key[..16];
    LoadWordsVal(key, 0);
    ClampVal(LoadWords(key, 0));
  }

  lemma AddedKey(key: seq<Byte>)
    requires |key| == 32
    ensures WordsVal(LoadWords(key, 16)) == KeyS(key)
  {
    assert key[16..32] == key[16..];
    LoadWordsVal(key, 16);
  }

  /** The tag of section 2.5 of RFC 8439, for every key and message. */
  method Mac(key: seq<Byte>, msg: seq<Byte>) returns (tag: seq<Byte>)
    requires |key| == 32
    ensures tag == Tag(key, msg)
  {
    var r := ClampLimbs(LoadWords(key, 0));
    var s := LoadWords(key, 16);
    ClampIsMultiplier(LoadWords(key, 0));
    var h := Process(msg, r);
    ClampedKey(key);
    AddedKey(key);
    FinishIs(h, s, Accumulate(msg, KeyR(key), 0));
    tag := Finish(h, s);
  }
}
