/** The packed edge key of the lineage builder, bit by bit. */
module LineageBits {
  import opened LineageIndex
  import opened Scores

  /** Bit k of a number, in two's complement. */
  function Bit(x: int, k: nat): bool
    decreases k
  {
    if k == 0 then x % 2 == 1 else Bit(x / 2, k - 1)
  }

  lemma {:induction false} OrBits(a: nat, b: nat, k: nat)
    ensures Bit(BitOr(a, b), k) == (Bit(a, k) || Bit(b, k))
    decreases k
  {
    if a == 0 && b == 0 {
      NoBits(k);
    } else {
      var c := BitOr(a / 2, b / 2);
      assert BitOr(a, b) / 2 == c;
      if k > 0 {
        OrBits(a / 2, b / 2, k - 1);
      }
    }
  }

  lemma {:induction false} NoBits(k: nat)
    ensures !Bit(0, k)
  {
    if k > 0 {
      NoBits(k - 1);
    }
  }

  lemma {:induction false} PowPositive(n: nat)
    ensures Pow2(n) >= 1
  {
    if n > 0 {
      PowPositive(n - 1);
    }
  }

  /** The lower n bits. */
  lemma {:induction false} LowBits(x: int, n: nat, k: nat)
    requires k < n
    ensures Pow2(n) >= 1 && Bit(x % Pow2(n), k) == Bit(x, k)
    decreases k
  {
    PowPositive(n);
    PowPositive(n - 1);
    HalfMod(x, Pow2(n - 1));
    if k > 0 {
      LowBits(x / 2, n - 1, k - 1);
    }
  }

  lemma HalfMod(x: int, m: int)
    requires m >= 1
    ensures (x % (2 * m)) / 2 == (x / 2) % m && (x % (2 * m)) % 2 == x % 2
  {
    var q, r := x / (2 * m), x % (2 * m);
    assert x == m * (2 * q) + r;
    assert x / 2 == m * q + r / 2;
    ModUnique(x / 2, m, q, r / 2);
  }

  lemma ModUnique(x: int, m: int, q: int, r: int)
    requires m >= 1 && x == m * q + r && 0 <= r < m
    ensures x % m == r
  {
    var p, s := x / m, x % m;
    Distribute(m, p, q);
    if p > q {
      AtLeast(m, p - q);
    } else if p < q {
      Distribute(m, q, p);
      AtLeast(m, q - p);
    }
  }

  lemma Distribute(m: int, p: int, q: int)
    ensures m * (p - q) == m * p - m * q
  {
  }

  lemma AtLeast(m: int, d: int)
    requires m >= 1 && d >= 1
    ensures m * d >= m
  {
  }

  /** The upper bits. */
  lemma {:induction false} HighBits(x: int, n: nat, k: nat)
    ensures Pow2(n) >= 1 && Bit(x / Pow2(n), k) == Bit(x, n + k)
    decreases n
  {
    PowPositive(n);
    if n > 0 {
      PowPositive(n - 1);
      HighBits(x / 2, n - 1, k);
      HalfDiv(x, Pow2(n - 1));
    }
  }

  lemma HalfDiv(x: int, m: int)
    requires m >= 1
    ensures x / (2 * m) == (x / 2) / m
  {
    HalfMod(x, m);
    var q, r := x / (2 * m), x % (2 * m);
    assert x == m * (2 * q) + r;
    assert x / 2 == m * q + r / 2;
    var p := (x / 2) / m;
    Distribute(m, p, q);
    if p > q {
      AtLeast(m, p - q);
    } else if p < q {
      Distribute(m, q, p);
      AtLeast(m, q - p);
    }
  }

  lemma Pow32()
    ensures Pow2(32) == TWO32
  {
    assert Pow2(8) == 256;
    assert Pow2(16) == 256 * Pow2(8);
    assert Pow2(24) == 256 * Pow2(16);
  }

  /** The key is (ppid << 32) | pid in 64 bits: its lower half is that of the PID, its upper half that of the parent
      with the upper half of the PID or-ed in. */
  lemma PackBits(ppid: int, pid: int, k: nat)
    requires k < 32
    ensures Bit(Pack(ppid, pid).lo, k) == Bit(pid, k)
    ensures Bit(Pack(ppid, pid).hi, k) == (Bit(ppid, k) || Bit(pid, 32 + k))
    ensures 0 <= Pack(ppid, pid).lo < TWO32
  {
    hide Bit, BitOr, Pow2;
    Pow32();
    LowBits(pid, 32, k);
    LowBits(ppid, 32, k);
    HighBits(pid, 32, k);
    LowBits(pid / TWO32, 32, k);
    OrBits(ppid % TWO32, (pid / TWO32) % TWO32, k);
  }
}
