/** 64-bit unsigned machine words, as `size_t` and `index_t` are on the modelled platform.
    A counter is kept as an unbounded integer; what the machine stores is its image under `Word`. */
module Words {

  const WORD: int := 0x1_0000_0000_0000_0000
  const HALF: int := 0x8000_0000_0000_0000

  /** The machine image of an integer: unsigned wrap-around. */
  function Word(x: int): int {
    x % WORD
  }

  /** Two's complement reading of a word. */
  function Signed(w: int): int {
    if w < HALF then w else w - WORD
  }

  /** Comparison of wrapping counters (strictly more than half a word below zero). */
  predicate CircularLess(a: int, b: int) {
    Word(a - b) > HALF
  }

  lemma WordShift(x: int, k: int)
    ensures Word(x + k * WORD) == Word(x)
  {
    assert x + k * WORD == WORD * (x / WORD + k) + x % WORD;
    DivModUnique(x + k * WORD, WORD, x / WORD + k, x % WORD);
  }

  lemma MulBounds(c: int, e: int)
    requires c > 0
    ensures e > 0 ==> c * e >= c
    ensures e < 0 ==> c * e <= -c
  {
  }

  lemma DivModUnique(x: int, c: int, q: int, r: int)
    requires c > 0 && 0 <= r < c && x == c * q + r
    ensures x / c == q && x % c == r
  {
    var e := x / c - q;
    assert c * (x / c) + x % c == c * q + r;
    assert c * e == r - x % c by {
      assert c * e == c * (x / c) - c * q;
    }
    MulBounds(c, e);
  }

  /** Position x on a ring of c slots. */
  function Ring(x: int, c: nat): (r: nat)
    requires c > 0
    ensures r < c
  {
    x % c
  }

  lemma RingSmall(x: int, c: nat)
    requires 0 <= x < c
    ensures Ring(x, c) == x
  {
    DivModUnique(x, c, 0, x);
  }

  lemma RingLap(x: int, c: nat)
    requires c > 0
    ensures Ring(x + c, c) == Ring(x, c)
  {
    DivModUnique(x + c, c, x / c + 1, x % c);
  }

  lemma RingAdd(x: int, y: int, c: nat)
    requires c > 0
    ensures Ring(Ring(x, c) + y, c) == Ring(x + y, c)
  {
    ModAdd(x, y, c);
  }

  lemma RingDistinct(x: int, y: int, c: nat)
    requires x != y && x - y < c && y - x < c
    ensures Ring(x, c) != Ring(y, c)
  {
    ModDistinct(x, y, c);
  }

  /** A difference of images is the image of the difference. */
  lemma WordDiff(a: int, b: int)
    ensures Word(Word(a) - Word(b)) == Word(a - b)
  {
    assert Word(a) - Word(b) == (a - b) + (b / WORD - a / WORD) * WORD;
    WordShift(a - b, b / WORD - a / WORD);
  }

  lemma WordAdd(x: int, y: int)
    ensures Word(Word(x) + y) == Word(x + y)
  {
    ModAdd(x, y, WORD);
  }

  lemma WordSmall(x: int)
    requires 0 <= x < WORD
    ensures Word(x) == x
  {
  }

  /** The exact meaning of the comparison on wrapped counters. */
  lemma CircularLessExact(a: int, b: int)
    ensures CircularLess(Word(a), Word(b)) <==> 0 < Word(b - a) < HALF
  {
    WordDiff(a, b);
    var r := Word(b - a);
    var q := (b - a) / WORD;
    assert a - b == -r + (-q) * WORD;
    WordShift(-r, -q);
    if r != 0 { WordShift(WORD - r, -1); }
  }

  /** For counters less than one word apart, the comparison is the integer order
      exactly when they are less than half a word apart. */
  lemma CircularLessIsOrder(a: int, b: int)
    requires -WORD < b - a < WORD
    ensures (CircularLess(Word(a), Word(b)) <==> a < b) <==> -HALF <= b - a < HALF
  {
    CircularLessExact(a, b);
    if b - a < 0 { WordShift(b - a, 1); }
  }

  /** Reducing a word modulo a divisor of the word size is reducing the counter itself. */
  lemma WordMod(x: int, c: int)
    requires c > 0 && WORD % c == 0
    ensures Word(x) % c == x % c
  {
    var k := WORD / c;
    assert c * k == WORD;
    var y := Word(x);
    var q := x / WORD;
    assert x == c * (k * q + y / c) + y % c by {
      assert WORD * q == c * (k * q);
      assert y == c * (y / c) + y % c;
      assert c * (k * q + y / c) == c * (k * q) + c * (y / c);
    }
    DivModUnique(x, c, k * q + y / c, y % c);
  }

  /** Signed reading recovers a small difference. */
  lemma SignedOfWord(x: int)
    requires -HALF <= x < HALF
    ensures Signed(Word(x)) == x
  {
    if x < 0 { WordShift(x, 1); }
  }

  /** Distinct positions less than c apart fall on distinct residues. */
  lemma ModDistinct(x: int, y: int, c: int)
    requires c > 0 && x != y && -c < x - y < c
    ensures x % c != y % c
  {
    if x % c == y % c {
      assert x - y == c * (x / c - y / c) by {
        assert x == c * (x / c) + x % c;
        assert y == c * (y / c) + y % c;
        assert c * (x / c - y / c) == c * (x / c) - c * (y / c);
      }
      MulBounds(c, x / c - y / c);
    }
  }

  lemma ModAdd(x: int, y: int, c: int)
    requires c > 0
    ensures (x % c + y) % c == (x + y) % c
  {
    var z := x % c + y;
    assert x + y == c * (x / c + z / c) + z % c by {
      assert z == c * (z / c) + z % c;
      assert x == c * (x / c) + x % c;
      assert c * (x / c + z / c) == c * (x / c) + c * (z / c);
    }
    DivModUnique(x + y, c, x / c + z / c, z % c);
  }

  predicate PowerOfTwo(c: nat) {
    c == 1 || (c > 1 && c % 2 == 0 && PowerOfTwo(c / 2))
  }

  /** Of two powers of two, the smaller divides the larger. */
  lemma {:induction false} PowersDivide(c: nat, w: nat)
    requires PowerOfTwo(c) && PowerOfTwo(w) && c <= w
    ensures w % c == 0
    decreases w
  {
    if c > 1 {
      PowersDivide(c / 2, w / 2);
      var k := (w / 2) / (c / 2);
      assert w / 2 == (c / 2) * k;
      assert w == c * k;
      DivModUnique(w, c, k, 0);
    } else {
      DivModUnique(w, 1, w, 0);
    }
  }

  lemma TwiceIsPower(c: nat)
    requires PowerOfTwo(c)
    ensures PowerOfTwo(2 * c)
  {
  }

  lemma {:induction false} PowersMultiply(a: nat, b: nat)
    requires PowerOfTwo(a) && PowerOfTwo(b)
    ensures PowerOfTwo(a * b)
  {
    if a > 1 {
      var h := a / 2;
      PowersMultiply(h, b);
      TwiceIsPower(h * b);
      assert a * b == 2 * (h * b);
    } else {
      assert a * b == b;
    }
  }

  lemma FourIsPower()
    ensures PowerOfTwo(4)
  {
    assert PowerOfTwo(2);
  }

  lemma WordIsPower()
    ensures PowerOfTwo(WORD)
  {
    hide PowerOfTwo;
    FourIsPower();
    PowersMultiply(4, 4);
    PowersMultiply(0x10, 0x10);
    PowersMultiply(0x100, 0x100);
    PowersMultiply(0x1_0000, 0x1_0000);
    PowersMultiply(0x1_0000_0000, 0x1_0000_0000);
  }

  lemma PowerDividesWord(c: nat)
    requires PowerOfTwo(c) && c <= WORD
    ensures WORD % c == 0
  {
    hide PowerOfTwo;
    WordIsPower();
    PowersDivide(c, WORD);
  }

  function BitAnd(a: nat, b: nat): nat {
    if a == 0 || b == 0 then 0
    else 2 * BitAnd(a / 2, b / 2) + if a % 2 == 1 && b % 2 == 1 then 1 else 0
  }

  lemma RingHalves(x: nat, h: nat)
    requires h > 0
    ensures Ring(x, 2 * h) == 2 * Ring(x / 2, h) + x % 2
  {
    var q, r := x / 2 / h, Ring(x / 2, h);
    assert x / 2 == h * q + r;
    assert (2 * h) * q == 2 * (h * q);
    DivModUnique(x, 2 * h, q, 2 * r + x % 2);
  }

  /** Masking with a power of two minus one is the position on the ring. */
  lemma {:induction false} MaskIsRing(x: nat, c: nat)
    requires PowerOfTwo(c)
    ensures BitAnd(x, c - 1) == Ring(x, c)
  {
    if c == 1 || x == 0 {
      DivModUnique(x, c, if c == 1 then x else 0, 0);
    } else {
      MaskIsRing(x / 2, c / 2);
      RingHalves(x, c / 2);
      hide Ring;
      assert (c - 1) / 2 == c / 2 - 1 && (c - 1) % 2 == 1;
    }
  }

  /** A mask with a zero below its top bit leaves out some slot: no position is masked to it. */
  lemma {:induction false} UnreachedSlot(w: nat) returns (slot: nat)
    requires !PowerOfTwo(w + 1)
    ensures slot <= w && forall x: nat :: BitAnd(x, w) != slot
  {
    if w % 2 == 0 {
      slot := 1;
    } else {
      assert (w + 1) / 2 == w / 2 + 1;
      var half := UnreachedSlot(w / 2);
      slot := 2 * half + 1;
    }
  }

  ghost predicate Reached(slot: nat, mask: nat) {
    exists x: nat :: BitAnd(x, mask) == slot
  }

  /** Masking reaches every slot up to the mask exactly when their number is a power of two. */
  lemma MaskReachesAllIff(mask: nat)
    ensures PowerOfTwo(mask + 1) <==> forall slot: nat :: slot <= mask ==> Reached(slot, mask)
  {
    if PowerOfTwo(mask + 1) {
      forall slot: nat | slot <= mask ensures Reached(slot, mask) {
        MaskIsRing(slot, mask + 1);
        RingSmall(slot, mask + 1);
        assert BitAnd(slot, mask) == slot;
      }
    } else {
      var slot := UnreachedSlot(mask);
      assert !Reached(slot, mask);
    }
  }

  /** `x & (c - 1)`, as the hash maps and queues find their slot. */
  function Masked(x: nat, c: nat): (slot: nat)
    requires PowerOfTwo(c)
    ensures slot == Ring(x, c) < c
  {
    MaskIsRing(x, c);
    BitAnd(x, c - 1)
  }

  /** A power-of-two ring does not notice that its positions are stored as words. */
  lemma WordRing(x: int, c: nat)
    requires PowerOfTwo(c) && c <= WORD
    ensures c > 0 && Ring(Word(x), c) == Ring(x, c)
  {
    PowerDividesWord(c);
    WordMod(x, c);
  }
}
