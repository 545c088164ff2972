/** The X25519 function, against its definition in section 5 of RFC 7748. */
module X25519Spec {
  import opened Bits
  import opened Field25519
  import opened LittleEndian

  /** The four coordinates of the ladder and its pending swap. */
  datatype Ladder = Ladder(x2: nat, z2: nat, x3: nat, z3: nat, swap: bool)

  function Start(u: nat): Ladder
  {
    Ladder(1, 0, u % P, 1, false)
  }

  function Swapped(s: Ladder, swap: bool): Ladder
  {
    if swap then s.(x2 := s.x3, x3 := s.x2, z2 := s.z3, z3 := s.z2) else s
  }

  /** A differential addition and a doubling on the coordinates. */
  function Mixed(u: nat, c: Ladder): Ladder
  {
    var a, b := FAdd(c.x2, c.z2), FSub(c.x2, c.z2);
    var aa, bb := FMul(a, a), FMul(b, b);
    var e := FSub(aa, bb);
    var da, cb := FMul(FSub(c.x3, c.z3), a), FMul(FAdd(c.x3, c.z3), b);
    var sum, diff := FAdd(da, cb), FSub(da, cb);
    Ladder(FMul(aa, bb), FMul(e, FAdd(aa, FMul(121665, e))), FMul(sum, sum), FMul(u % P, FMul(diff, diff)), c.swap)
  }

  /** One step, for one bit of the scalar. */
  function Step(u: nat, bit: bool, s: Ladder): Ladder
  {
    Mixed(u, Swapped(s, s.swap != bit)).(swap := bit)
  }

  /** The steps for bits n - 1 down to 0 of the scalar k. */
  function Climb(u: nat, k: nat, n: nat, s: Ladder): Ladder
  {
    if n == 0 then s else Climb(u, k, n - 1, Step(u, Bit(k, n - 1), s))
  }

  /** The x coordinate of k times the point with x coordinate u, over the low bits of k. */
  ghost function Multiply(bits: nat, k: nat, u: nat): nat
  {
    var s := Climb(u, k, bits, Start(u));
    var c := Swapped(s, s.swap);
    FMul(c.x2, FPow(c.z2, P - 2))
  }

  function Clamped(k: seq<Byte>): seq<Byte>
    requires |k| == 32
  {
    k[0 := ClampFirst(k[0])][31 := ClampLast(k[31])]
  }

  /** The three low bits cleared. */
  function ClampFirst(b: Byte): Byte { b / 8 * 8 }

  /** The top bit cleared and the one below it set. */
  function ClampLast(b: Byte): Byte { b % 64 + 64 }

  function DecodeScalar(k: seq<Byte>): nat
    requires |k| == 32
  {
    Le(Clamped(k))
  }

  /** The coordinate with the top bit of its last byte masked off. */
  function DecodeCoordinate(u: seq<Byte>): nat
    requires |u| == 32
  {
    Le(u[31 := u[31] % 128])
  }

  /** All 255 bits of the scalar below the cleared one are used. */
  ghost function X25519(k: seq<Byte>, u: seq<Byte>): seq<Byte>
    requires |k| == 32 && |u| == 32
  {
    ToLe(Multiply(8 * |k| - 1, DecodeScalar(k), DecodeCoordinate(u)), 32)
  }
}
