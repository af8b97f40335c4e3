/** The machine integers of the assembler: addresses and expression values are
    32-bit words that wrap around, memory cells are bytes. */
module Words {
  datatype Option<+T> = None | Some(value: T)

  const TWO_TO_THE_32: int := 0x1_0000_0000

  type U32 = x: int | 0 <= x < 0x1_0000_0000

  type Byte = x: int | 0 <= x < 0x100

  /** A memory image: only the addresses that were written are present. */
  type Memory = map<U32, Byte>

  /** The sentinel of "no byte emitted on this line yet". */
  const ADDR_INVALID: U32 := 0xffff_ffff

  function Wrap(x: int): U32 {
    x % 0x1_0000_0000
  }

  function Inc(a: U32): U32 {
    Wrap(a + 1)
  }

  /** `v & 0xff` */
  function Low(v: U32): Byte {
    v % 0x100
  }

  /** `(v >> 8) & 0xff` */
  function High(v: U32): Byte {
    (v / 0x100) % 0x100
  }

  /** Reinterprets a word as a two's complement number (`static_cast<int32_t>`). */
  function Signed32(v: U32): int {
    if v < 0x8000_0000 then v else v - 0x1_0000_0000
  }

  /** What the processor does with the operand byte of a branch. */
  function SignExtend(b: Byte): int {
    if b < 0x80 then b else b - 0x100
  }

  /** A `char` widened to `uint32_t`, on the assumption that the compiler's plain `char` is signed. */
  function CharValue(c: Byte): U32 {
    Wrap(SignExtend(c))
  }

  predicate InSpan(k: U32, a: U32, n: nat) {
    a <= k < a + n
  }

  /** The addresses `a, a + 1, ... a + n - 1` that exist. */
  function Span(a: U32, n: nat): (s: set<U32>)
    ensures forall k: U32 :: k in s <==> a <= k < a + n
  {
    set k: U32 | InSpan(k, a, n)
  }

  /** The memory that holds `bytes` from address `a` on. */
  function Block(a: U32, bytes: seq<Byte>): Memory {
    map k: U32 | k in Span(a, |bytes|) :: bytes[k - a]
  }

  lemma Assoc<T>(a: seq<T>, b: seq<T>, c: seq<T>)
    ensures (a + b) + c == a + (b + c)
  {
  }

  /** Elements `i` to `j` of what follows a head. */
  lemma SliceAfter<T>(head: seq<T>, rest: seq<T>, i: nat, j: nat)
    requires i <= j <= |rest|
    ensures (head + rest)[|head| + i..|head| + j] == rest[i..j]
  {
  }

  lemma SliceWithin<T>(head: seq<T>, rest: seq<T>, i: nat, j: nat)
    requires i <= j <= |head|
    ensures (head + rest)[i..j] == head[i..j]
  {
  }

  lemma WrapAbsorbs(x: int, n: int)
    ensures Wrap(Wrap(x) + n) == Wrap(x + n)
  {
  }

  /** Two's complement: the one number between -2^31 and 2^31 - 1 that wraps to the word. */
  lemma SignedIsTwosComplement(v: U32, n: int)
    ensures n == Signed32(v) <==> -0x8000_0000 <= n <= 0x7fff_ffff && Wrap(n) == v
  {
  }

  /** A signed distance leads back to where it was measured to, round the end if need be. */
  lemma SignedRestores(from: int, dest: U32)
    ensures Wrap(from + Signed32(Wrap(dest - from))) == dest
  {
  }

  ghost predicate AgreeAt(m: Memory, m': Memory, a: U32) {
    && (a in m <==> a in m')
    && (a in m ==> m[a] == m'[a])
  }

  lemma AgreeEverywhere(m: Memory, m': Memory)
    requires forall a: U32 :: AgreeAt(m, m', a)
    ensures m == m'
  {
    forall a | a in m ensures a in m' && m'[a] == m[a] { assert AgreeAt(m, m', a); }
    forall a | a in m' ensures a in m { assert AgreeAt(m, m', a); }
    assert m.Keys == m'.Keys;
  }
}
