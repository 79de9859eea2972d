/** Fixed-width machine values and the optional value used throughout the project. */
module Basics {
  const TWO16 := 0x1_0000
  const TWO31 := 0x8000_0000
  const TWO32 := 0x1_0000_0000
  const TWO63 := 0x8000_0000_0000_0000
  const TWO64 := 0x1_0000_0000_0000_0000

  type byte = b: int | 0 <= b < 256
  type u16 = x: int | 0 <= x < TWO16
  type u31 = x: int | 0 <= x < TWO31
  type u32 = x: int | 0 <= x < TWO32
  type u64 = x: int | 0 <= x < TWO64
  type i32 = x: int | -TWO31 <= x < TWO31

  datatype Option<+T> = None | Some(value: T)

  function Min(a: int, b: int): int {
    if a <= b then a else b
  }

  function Max(a: int, b: int): int {
    if a >= b then a else b
  }

  /** A big-endian 16-bit number at the front of some bytes, and the two bytes of one. */
  function Word16(b: seq<byte>): u16
    requires |b| >= 2
  {
    var high: int := b[0];
    high * 256 + b[1]
  }

  function Bytes16(x: nat): (b: seq<byte>)
    ensures |b| == 2
    ensures x < TWO16 ==> Word16(b) == x
  {
    [x / 256 % 256, x % 256]
  }

  /** The high byte stands first. */
  lemma BigEndian(x: nat, b: seq<byte>)
    requires x < TWO16 && |b| >= 2
    ensures Bytes16(x) == [x / 256, x % 256]
    ensures Word16(b) / 256 == b[0] && Word16(b) % 256 == b[1]
  {
  }

  lemma ProperMultiple(n: nat, k: int, m: int)
    requires 0 < m < n
    ensures n * k != m && n * k != -m
  {
    if k >= 1 {
      assert n * k >= n;
    } else if k <= -1 {
      assert n * k <= 0 - n;
    }
  }

  lemma NonZeroMultiple(n: nat, k: int)
    requires n > 0 && k != 0
    ensures n * k != 0
  {
    if k > 0 {
      assert n * k >= n;
    } else {
      assert n * k <= 0 - n;
    }
  }

  /** A number written as quotient and remainder has that quotient and that remainder. */
  lemma DivMod(q: nat, n: nat, r: nat)
    requires r < n
    ensures (n * q + r) / n == q && (n * q + r) % n == r
  {
    var x := n * q + r;
    var q', r' := x / n, x % n;
    assert n * (q' - q) == r - r';
    if r' < r {
      ProperMultiple(n, q' - q, r - r');
    } else if r < r' {
      ProperMultiple(n, q' - q, r' - r);
    } else if q' != q {
      NonZeroMultiple(n, q' - q);
    }
  }

  lemma RowAndColumn(m: nat, n: nat, r: nat, c: nat)
    requires r < n && c < m
    ensures m * r + c < m * n
  {
    assert m * n == m * r + m * (n - r);
    assert m * (n - r) >= m by {
      assert m * (n - r) == m + m * (n - r - 1);
    }
  }

  lemma DivideTwice(x: nat, m: nat, n: nat)
    requires m > 0 && n > 0
    ensures m * n > 0 && x / m / n == x / (m * n)
  {
    var y, c := x / m, x % m;
    var q, r := y / n, y % n;
    assert y == n * q + r && x == m * y + c;
    assert m * (n * q + r) == m * n * q + m * r;
    RowAndColumn(m, n, r, c);
    DivMod(q, m * n, m * r + c);
  }

  lemma TakeThenDrop<T>(s: seq<T>, k: nat, m: nat)
    requires m <= k <= |s|
    ensures s[..k][m..] == s[m..][..k - m]
  {
    var x, y := s[..k][m..], s[m..][..k - m];
    assert |x| == |y|;
    forall i | 0 <= i < |x|
      ensures x[i] == y[i]
    {
      assert x[i] == s[..k][m + i] == s[m + i];
      assert y[i] == s[m..][i] == s[m + i];
    }
  }
}
