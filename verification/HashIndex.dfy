/** Hash values, bucket indices and the sizing fields of the chained hash table. */
module HashIndex {
  import opened Bits

  const MULTIPLIER: nat := 1103515245
  const REBUILD_MULTIPLIER: nat := 3
  const SMALL_TABLE: nat := 4
  const WORD_SIZE: nat := 8
  const INT_SIZE: nat := 4

  type SChar = c: int | -128 <= c < 128 && c != 0 witness 1
  type UByte = b: int | 0 <= b < 256
  type UWord = w: int | 0 <= w < 0x1_0000_0000_0000_0000

  /** A key in one of the three forms an entry can hold; a string excludes its terminator. */
  datatype Key = StringKey(chars: seq<SChar>) | WordKey(word: UWord) | ArrayKey(bytes: seq<UByte>)

  /** The kind of keys a table was initialized for; `len` is the normalized key length. */
  datatype KeyKind = Strings | OneWord | Arrays(len: nat)
  {
    predicate Fits(key: Key) {
      match this
      case Strings => key.StringKey?
      case OneWord => key.WordKey?
      case Arrays(len) => key.ArrayKey? && |key.bytes| == len
    }
  }

  function KindOf(keyLen: nat): KeyKind {
    if keyLen == 0 then Strings else if keyLen <= WORD_SIZE then OneWord else Arrays(keyLen)
  }

  // ---------------------------------------------------------------- hash values

  // The string as a number written with "digits" to base 9, most significant first.
  function Base9(s: seq<SChar>): int {
    if s == [] then 0 else 9 * Base9(s[..|s| - 1]) + s[|s| - 1]
  }

  function StringHash(s: seq<SChar>): (h: nat)
    ensures h < TWO32
  {
    U32(Base9(s))
  }

  lemma Times9(ret: nat, c: int)
    ensures U32(ret + U32(U32(ret * 8) + U32(c))) == U32(9 * ret + c)
  {
    U32Inner(ret * 8, U32(c), 1);
    U32Inner(c, ret * 8, 1);
    U32Inner(ret * 8 + c, ret, 1);
  }

  /** The 32-bit loop "ret += (ret << 3) + c" computes the base-9 value modulo 2^32. */
  method HashString(s: seq<SChar>) returns (ret: nat)
    ensures ret == StringHash(s)
  {
    ret := 0;
    var i := 0;
    while i < |s|
      invariant 0 <= i <= |s| && ret == StringHash(s[..i])
    {
      ghost var before := ret;
      var shifted := U32(ret * 8);
      var added := U32(s[i]);
      ret := U32(ret + U32(shifted + added));
      Times9(before, s[i]);
      assert s[..i + 1][..i] == s[..i];
      U32Inner(Base9(s[..i]), s[i], 9);
      assert Base9(s[..i + 1]) == 9 * Base9(s[..i]) + s[i];
      i := i + 1;
    }
    assert s[..|s|] == s;
  }

  // The bytes b[i..j) as a little-endian number.
  function LittleEndian(b: seq<UByte>): nat {
    if b == [] then 0 else b[0] + 256 * LittleEndian(b[1..])
  }

  // Sum of the first n 32-bit words of b.
  function WordSum(b: seq<UByte>, n: nat): nat
    requires n * INT_SIZE <= |b|
  {
    if n == 0 then 0
    else WordSum(b, n - 1) + LittleEndian(b[(n - 1) * INT_SIZE..n * INT_SIZE])
  }

  function ArrayHash(b: seq<UByte>): (h: nat)
    ensures h < TWO32
  {
    U32(LittleEndian(b[|b| / INT_SIZE * INT_SIZE..]) + WordSum(b, |b| / INT_SIZE))
  }

  /** Sums the key's 32-bit words, starting from the left-over bytes, modulo 2^32. */
  method HashArray(b: seq<UByte>) returns (ret: nat)
    ensures ret == ArrayHash(b)
  {
    var keyIntLen := |b| / INT_SIZE;
    var keyModLen := |b| % INT_SIZE;
    ret := 0;
    if keyModLen > 0 {
      ret := U32(LittleEndian(b[keyIntLen * INT_SIZE..]));
    }
    ghost var tail := LittleEndian(b[keyIntLen * INT_SIZE..]);
    var i := 0;
    while i < keyIntLen
      invariant 0 <= i <= keyIntLen && ret == U32(tail + WordSum(b, i))
    {
      ghost var sum, word := tail + WordSum(b, i), LittleEndian(b[i * INT_SIZE..(i + 1) * INT_SIZE]);
      ret := U32(ret + LittleEndian(b[i * INT_SIZE..(i + 1) * INT_SIZE]));
      U32Inner(sum, word, 1);
      assert tail + WordSum(b, i + 1) == sum + word;
      i := i + 1;
    }
  }

  // ---------------------------------------------------------------- table geometry

  /** The four sizing fields of a table; all are unsigned 32-bit. */
  datatype Geometry = Geometry(numBuckets: nat, rebuildSize: nat, downShift: nat, mask: nat)

  const INITIAL: Geometry := Geometry(SMALL_TABLE, SMALL_TABLE * REBUILD_MULTIPLIER, 28, 3)

  /** What a rebuild does to the sizing fields, in 32-bit arithmetic. */
  function Grow(g: Geometry): Geometry {
    Geometry(U32(g.numBuckets * 4), U32(g.rebuildSize * 4), U32(g.downShift - 2), U32(U32(g.mask * 4) + 3))
  }

  function GrowTimes(k: nat): Geometry {
    if k == 0 then INITIAL else Grow(GrowTimes(k - 1))
  }

  const MAX_LEVEL: nat := 14

  // The sizing fields after `level` rebuilds, as exact numbers.
  function Ideal(level: nat): Geometry
    requires level <= MAX_LEVEL
  {
    Geometry(Pow2(2 * level + 2), 3 * Pow2(2 * level + 2), 28 - 2 * level, Pow2(2 * level + 2) - 1)
  }

  lemma {:induction false} PowBound(m: nat, n: nat)
    requires m <= n
    ensures Pow2(m) <= Pow2(n)
    decreases n
  {
    if m == n {
    } else {
      PowBound(m, n - 1);
    }
  }

  lemma LevelBound(level: nat)
    requires level <= MAX_LEVEL
    ensures 4 <= Pow2(2 * level + 2) <= 0x4000_0000
  {
    Pow2Values();
    PowBound(2, 2 * level + 2);
    PowBound(2 * level + 2, 30);
    assert Pow2(2) == 4;
  }

  lemma GrowIdeal(level: nat)
    requires level < MAX_LEVEL
    ensures Grow(Ideal(level)) == Ideal(level + 1)
    ensures Ideal(level + 1).rebuildSize == 4 * Ideal(level).rebuildSize
  {
    LevelBound(level + 1);
    Pow2Quad(2 * level + 2);
    assert 2 * (level + 1) + 2 == 2 * level + 2 + 2;
    GrowExact(Pow2(2 * level + 2), 28 - 2 * level);
  }

  lemma GrowExact(buckets: nat, shift: nat)
    requires 0 < buckets <= 0x1000_0000 && 2 <= shift < TWO32
    ensures Grow(Geometry(buckets, 3 * buckets, shift, buckets - 1))
         == Geometry(4 * buckets, 12 * buckets, shift - 2, 4 * buckets - 1)
  {}

  // Up to level 14, in exact numbers.
  lemma {:induction false} GrowTimesIdeal(k: nat)
    requires k <= MAX_LEVEL
    ensures GrowTimes(k) == Ideal(k)
  {
    if k == 0 {
      assert Pow2(2) == 4;
    } else {
      GrowTimesIdeal(k - 1);
      GrowIdeal(k - 1);
    }
  }

  lemma GrowShift(g: Geometry, shift: int)
    requires g.downShift == U32(shift)
    ensures Grow(g).downShift == U32(shift - 2)
  {
    U32Inner(shift, -2, 1);
  }

  lemma {:induction false} ShiftWraps(k: nat)
    ensures GrowTimes(k).downShift == U32(28 - 2 * k)
  {
    if k == 0 {
    } else {
      ShiftWraps(k - 1);
      GrowShift(GrowTimes(k - 1), 28 - 2 * (k - 1));
    }
  }

  lemma WrapAround(g: Geometry)
    ensures g.numBuckets in {0, 0x4000_0000} ==> Grow(g).numBuckets == 0
    ensures g.rebuildSize in {0, 0xC000_0000} ==> Grow(g).rebuildSize == 0
    ensures g.mask in {0x3FFF_FFFF, 0xFFFF_FFFF} ==> Grow(g).mask == 0xFFFF_FFFF
  {}

  /**
   * The sizing fields hold their intended values exactly as long as at most MAX_LEVEL rebuilds happened. The
   * next rebuild, reached when 12 * 4^14 entries are held, leaves no buckets, wraps the rebuild size and the
   * shift, and fills the mask up.
   */
  lemma {:induction false} GeometryExact(k: nat)
    ensures k <= MAX_LEVEL ==> GrowTimes(k) == Ideal(k)
    ensures k > MAX_LEVEL ==> GrowTimes(k) == Geometry(0, 0, U32(28 - 2 * k), 0xFFFF_FFFF)
  {
    if k <= MAX_LEVEL {
      GrowTimesIdeal(k);
    } else {
      GeometryExact(k - 1);
      LastGeometry();
      WrapAround(GrowTimes(k - 1));
      ShiftWraps(k);
    }
  }

  lemma LastGeometry()
    ensures Ideal(MAX_LEVEL) == Geometry(0x4000_0000, 0xC000_0000, 0, 0x3FFF_FFFF)
  {
    Pow2Values();
  }

  // ---------------------------------------------------------------- bucket index

  function RandomIndex(i: nat, g: Geometry): nat {
    And(U32(U64(i * MULTIPLIER) / Pow2(g.downShift)), g.mask)
  }

  function Index(g: Geometry, key: Key): nat {
    match key
    case StringKey(s) => And(StringHash(s), g.mask)
    case WordKey(w) => RandomIndex(w, g)
    case ArrayKey(b) => RandomIndex(ArrayHash(b), g)
  }

  // The number a word or array key is scrambled from.
  function Seed(key: Key): nat
    requires !key.StringKey?
  {
    match key
    case WordKey(w) => w
    case ArrayKey(b) => ArrayHash(b)
  }

  // The 30 low bits of the scrambled product.
  function Scramble(i: nat): nat {
    i * MULTIPLIER % 0x4000_0000
  }

  // Masking keeps the n low bits, the 32-bit truncation before it notwithstanding.
  lemma MaskLow(y: nat, n: nat)
    requires n <= 30
    ensures And(U32(y), Pow2(n) - 1) == y % Pow2(n) < Pow2(n)
  {
    AndMask(U32(y), n);
    MaskU32(y, n);
  }

  // Shifting right by s and masking n bits, s + n == 30, selects a window of the 30 low bits.
  lemma Window(p: nat, s: nat, n: nat)
    requires s + n == 30
    ensures And(U32(p / Pow2(s)), Pow2(n) - 1) == p % 0x4000_0000 / Pow2(s) < Pow2(n)
  {
    WindowProduct(s, n);
    DivMod(p, Pow2(s), Pow2(n), 0x4000_0000);
    DivNat(p, Pow2(s));
    MaskLow(p / Pow2(s), n);
  }

  lemma WindowProduct(s: nat, n: nat)
    requires s + n == 30
    ensures Pow2(s) * Pow2(n) == 0x4000_0000
  {
    Pow2Values();
    Pow2Sum(s, n);
  }

  lemma MaskU32(y: nat, n: nat)
    requires n <= 32
    ensures U32(y) % Pow2(n) == y % Pow2(n)
  {
    Pow2Values();
    Pow2Sum(n, 32 - n);
    ModMod(y, Pow2(n), Pow2(32 - n));
  }

  lemma LowBits(x: nat)
    ensures U64(x) % 0x4000_0000 == x % 0x4000_0000
  {}

  /** The index always is bits downShift..29 of the product, whatever the level. */
  lemma RandomIndexBits(i: nat, level: nat)
    requires level <= MAX_LEVEL
    ensures RandomIndex(i, Ideal(level)) == Scramble(i) / Pow2(28 - 2 * level) < Pow2(2 * level + 2)
  {
    Window(U64(i * MULTIPLIER), 28 - 2 * level, 2 * level + 2);
    LowBits(i * MULTIPLIER);
  }

  /** Every computed index is a valid bucket number. */
  lemma IndexInRange(key: Key, level: nat)
    requires level <= MAX_LEVEL
    ensures Index(Ideal(level), key) < Ideal(level).numBuckets
  {
    match key
    case StringKey(s) => AndMask(StringHash(s), 2 * level + 2);
    case _ => RandomIndexBits(Seed(key), level);
  }

  /**
   * A rebuild splits chains: word and array keys of bucket b go to buckets 4b..4b+3, and string keys
   * of bucket b to buckets congruent to b modulo the old bucket count.
   */
  lemma SplitOnGrow(key: Key, level: nat)
    requires level < MAX_LEVEL
    ensures !key.StringKey? ==> Index(Ideal(level + 1), key) / 4 == Index(Ideal(level), key)
    ensures key.StringKey? ==>
              Index(Ideal(level + 1), key) % Ideal(level).numBuckets == Index(Ideal(level), key)
  {
    match key
    case StringKey(s) =>
      StringSplit(StringHash(s), level);
    case _ =>
      WindowSplit(Seed(key), level);
  }

  lemma StringSplit(h: nat, level: nat)
    requires level < MAX_LEVEL
    ensures And(h, Ideal(level + 1).mask) % Ideal(level).numBuckets == And(h, Ideal(level).mask)
  {
    assert 2 * (level + 1) + 2 == 2 * level + 2 + 2;
    MaskSplit(h, 2 * level + 2);
  }

  lemma MaskSplit(h: nat, n: nat)
    ensures And(h, Pow2(n + 2) - 1) % Pow2(n) == And(h, Pow2(n) - 1)
  {
    AndMask(h, n);
    AndMask(h, n + 2);
    Pow2Quad(n);
    ModMod(h, Pow2(n), 4);
  }

  lemma WindowSplit(i: nat, level: nat)
    requires level < MAX_LEVEL
    ensures RandomIndex(i, Ideal(level + 1)) / 4 == RandomIndex(i, Ideal(level))
  {
    RandomIndexBits(i, level);
    RandomIndexBits(i, level + 1);
    assert Pow2(28 - 2 * level) == Pow2(26 - 2 * level) * 4;
    DivDiv(Scramble(i), Pow2(26 - 2 * level), 4);
  }
}
