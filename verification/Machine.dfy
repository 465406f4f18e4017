/** The machine integers of the server: 8-bit bytes, 32-bit int and unsigned, 64-bit size_t. */
module Machine {
  type Byte = b: int | 0 <= b < 0x100
  type Path = seq<Byte>

  const TWO31 := 0x8000_0000
  const TWO32 := 0x1_0000_0000
  const TWO64 := 0x1_0000_0000_0000_0000

  function ToUint32(n: int): (r: int)
    ensures 0 <= r < TWO32
  {
    n % TWO32
  }

  /** Conversion to a 32-bit int keeps the low 32 bits. */
  function ToInt32(n: int): (r: int)
    ensures -TWO31 <= r < TWO31
    ensures r % TWO32 == n % TWO32
  {
    var u := n % TWO32;
    if u < TWO31 then u else u - TWO32
  }

  function ToSize(n: int): (r: int)
    ensures 0 <= r < TWO64
  {
    n % TWO64
  }

  predicate IsInt(n: int) {
    -TWO31 <= n < TWO31
  }

  lemma ToInt32Exact(n: int)
    ensures ToInt32(n) == n <==> -TWO31 <= n < TWO31
  {
  }

  lemma ToSizeExact(n: int)
    ensures ToSize(n) == n <==> 0 <= n < TWO64
  {
  }

  lemma ToUint32Wraps(n: int)
    ensures ToUint32(n) == n <==> 0 <= n < TWO32
    ensures ToUint32(n + TWO32) == ToUint32(n)
    ensures ToUint32(ToUint32(n) + 1) == ToUint32(n + 1)
  {
  }

  lemma SameLowBits(a: int, b: int, k: int)
    requires a == b + k * TWO32
    ensures ToInt32(a) == ToInt32(b)
  {
  }

  lemma LowBitsOfSize(n: int)
    ensures ToSize(n) % TWO32 == n % TWO32
    ensures ToInt32(ToSize(n)) == ToInt32(n)
  {
    var k := n / TWO64;
    assert ToSize(n) == n - k * TWO64 == n + -k * TWO32 * TWO32;
    assert ToSize(n) % TWO32 == n % TWO32 by {
      hide ToInt32, ToSize;
      SameRemainder(n, -k * TWO32);
    }
  }

  lemma SameRemainder(n: int, k: int)
    ensures (n + k * TWO32) % TWO32 == n % TWO32
  {
  }
}
