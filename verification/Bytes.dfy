/** Octets, the four-byte message size in host order, and a few facts about sequences. */
module Bytes {

  newtype byte = b: int | 0 <= b < 256

  const U32_LIMIT := 0x1_0000_0000

  datatype Option<+T> = None | Some(value: T)

  /** The value of a uint32_t whose four bytes lie in memory as `b` (least significant first). */
  function U32(b: seq<byte>): (n: nat)
    requires |b| == 4
    ensures n < U32_LIMIT
  {
    b[0] as int + 0x100 * (b[1] as int) + 0x1_0000 * (b[2] as int) + 0x100_0000 * (b[3] as int)
  }

  /** The four bytes of a uint32_t, as the client hands them to send. */
  function U32Bytes(n: nat): (b: seq<byte>)
    requires n < U32_LIMIT
    ensures |b| == 4
  {
    [(n % 0x100) as byte, (n / 0x100 % 0x100) as byte, (n / 0x1_0000 % 0x100) as byte, (n / 0x100_0000) as byte]
  }

  lemma U32RoundTrip(n: nat)
    requires n < U32_LIMIT
    ensures U32(U32Bytes(n)) == n
  {
    var q1, q2 := n / 0x100, n / 0x1_0000;
    assert q2 == q1 / 0x100;
    assert n / 0x100_0000 == q2 / 0x100;
  }

  lemma BytesRoundTrip(b: seq<byte>)
    requires |b| == 4
    ensures U32Bytes(U32(b)) == b
  {
    var n := U32(b);
    assert n / 0x1_0000 == b[2] as int + 0x100 * (b[3] as int);
    assert n / 0x100 == b[1] as int + 0x100 * (n / 0x1_0000);
    assert n / 0x100_0000 == b[3] as int;
  }

  /** Only four zero bytes are a zero size. */
  lemma ZeroSize(b: seq<byte>)
    requires |b| == 4
    ensures U32(b) == 0 <==> b == [0, 0, 0, 0]
  {
  }

  const WEIGHTS: seq<nat> := [1, 0x100, 0x1_0000, 0x100_0000]

  /** Byte k counts 256^k times. */
  lemma DigitCounts(b: seq<byte>, k: nat, v: byte)
    requires |b| == 4 && k < 4
    ensures U32(b[k := v]) - U32(b) == (v as int - b[k] as int) * WEIGHTS[k]
  {
  }

  function Flatten(pieces: seq<seq<byte>>): seq<byte>
  {
    if pieces == [] then [] else pieces[0] + Flatten(pieces[1..])
  }

  lemma {:induction false} FlattenSnoc(pieces: seq<seq<byte>>, last: seq<byte>)
    ensures Flatten(pieces + [last]) == Flatten(pieces) + last
  {
    if pieces == [] {
      assert [last][1..] == [];
    } else {
      FlattenSnoc(pieces[1..], last);
      assert (pieces + [last])[1..] == pieces[1..] + [last];
    }
  }

  /** What a call has read from the socket, given what had been read before it. */
  function Since(before: seq<byte>, now: seq<byte>): (piece: seq<byte>)
    requires before <= now
    ensures now == before + piece
  {
    now[|before|..]
  }

  /** A buffer after `piece` has been stored at index `at`. */
  function Store(buffer: seq<byte>, at: nat, piece: seq<byte>): (b: seq<byte>)
    requires at + |piece| <= |buffer|
    ensures |b| == |buffer|
  {
    buffer[..at] + piece + buffer[at + |piece|..]
  }

  lemma StoreTwice(buffer: seq<byte>, at: nat, p: seq<byte>, q: seq<byte>)
    requires at + |p| + |q| <= |buffer|
    ensures Store(Store(buffer, at, p), at + |p|, q) == Store(buffer, at, p + q)
  {
  }

  /** What malloc(size) hands out: its contents are whatever `junk` says. */
  function Malloc(size: nat, junk: seq<byte>): (m: seq<byte>)
    ensures |m| == size
  {
    seq(size, i requires 0 <= i < size => if i < |junk| then junk[i] else 0)
  }

  /** memcpy(dst + at, data, |data|). */
  method MemCopy(dst: array<byte>, at: nat, data: seq<byte>)
    requires at + |data| <= dst.Length
    modifies dst
    ensures dst[..] == Store(old(dst[..]), at, data)
  {
    for i := 0 to |data|
      invariant forall k :: 0 <= k < dst.Length ==> dst[k] == if at <= k < at + i then data[k - at] else old(dst[k])
    {
      dst[at + i] := data[i];
    }
  }

  /** Quotient and remainder of a number given as j * m + o. */
  lemma DivModOf(j: nat, m: nat, o: nat)
    requires o < m
    ensures (j * m + o) / m == j && (j * m + o) % m == o
  {
    var x := j * m + o;
    var q, r := x / m, x % m;
    assert x == q * m + r;
    if q < j {
      MulLe(q + 1, j, m);
      assert false;
    } else if j < q {
      MulLe(j + 1, q, m);
      assert false;
    }
  }

  /** Numbers less than `size` apart have different remainders. */
  lemma Apart(a: nat, b: nat, size: nat)
    requires a < b < a + size
    ensures a % size != b % size
  {
    if a % size == b % size {
      var p, q := a / size, b / size;
      assert a == p * size + a % size && b == q * size + b % size;
      assert b - a == (q - p) * size;
      if q <= p { MulLe(q, p, size); } else { MulLe(1, q - p, size); }
      assert false;
    }
  }

  lemma MulLe(a: nat, b: nat, m: nat)
    requires a <= b
    ensures a * m <= b * m
  {
  }

  /** The sum of the weights of the elements. */
  function Total<T>(xs: seq<T>, weight: T -> nat): nat {
    if xs == [] then 0 else weight(xs[0]) + Total(xs[1..], weight)
  }

  lemma {:induction false} TotalUpdate<T>(xs: seq<T>, i: nat, x: T, weight: T -> nat)
    requires i < |xs|
    ensures Total(xs[i := x], weight) + weight(xs[i]) == Total(xs, weight) + weight(x)
  {
    if i == 0 {
      assert xs[0 := x][1..] == xs[1..];
    } else {
      TotalUpdate(xs[1..], i - 1, x, weight);
      assert xs[i := x][1..] == xs[1..][i - 1 := x];
    }
  }

  lemma {:induction false} TotalPush<T>(xs: seq<T>, x: T, weight: T -> nat)
    ensures Total(xs + [x], weight) == Total(xs, weight) + weight(x)
  {
    if xs == [] {
      assert [x][1..] == [];
    } else {
      TotalPush(xs[1..], x, weight);
      assert (xs + [x])[1..] == xs[1..] + [x];
    }
  }

  lemma {:induction false} TotalBounds<T>(xs: seq<T>, low: T -> nat, high: T -> nat)
    requires forall i | 0 <= i < |xs| :: low(xs[i]) <= high(xs[i])
    ensures Total(xs, low) <= Total(xs, high)
  {
    if xs == [] {
      assert Total(xs, low) == 0;
    } else {
      TotalBounds(xs[1..], low, high);
    }
  }

  lemma {:induction false} TotalOfOnes<T>(xs: seq<T>, weight: T -> nat)
    requires forall i | 0 <= i < |xs| :: weight(xs[i]) == 1
    ensures Total(xs, weight) == |xs|
  {
    if xs == [] {
      assert Total(xs, weight) == 0;
    } else {
      TotalOfOnes(xs[1..], weight);
    }
  }
}
