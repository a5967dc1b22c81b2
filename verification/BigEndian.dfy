/** Big-endian integers of a fixed width, shared by the tensor frames and the tunnel records. */
module BigEndian {
  import opened Prelude

  function Pow256(width: nat): (p: nat)
    ensures p > 0
  {
    if width == 0 then 1 else 256 * Pow256(width - 1)
  }

  /** The low bytes of n, most significant first. */
  function Put(n: nat, width: nat): (b: Bytes)
    ensures |b| == width
  {
    if width == 0 then [] else Put(n / 256, width - 1) + [n % 256]
  }

  function Get(b: Bytes): nat {
    if b == [] then 0 else 256 * Get(b[..|b| - 1]) + b[|b| - 1]
  }

  lemma {:induction false} DivideTwice(n: nat, p: nat)
    requires p > 0
    ensures n / 256 / p == n / (256 * p)
  {
    var q, r := n / 256 / p, n / 256 % p;
    assert n == 256 * (q * p + r) + n % 256;
    assert 256 * (q * p) == q * (256 * p);
    assert 0 <= 256 * r + n % 256 < 256 * p;
    QuotientIsUnique(256 * p, n / (256 * p), n % (256 * p), q, 256 * r + n % 256);
  }

  /** Byte i of width carries the digit of weight 256^(width - 1 - i): the most significant comes first. */
  lemma {:induction false} PutDigit(n: nat, width: nat, i: nat)
    requires i < width
    ensures Put(n, width)[i] == n / Pow256(width - 1 - i) % 256
    decreases width
  {
    if i < width - 1 {
      PutDigit(n / 256, width - 1, i);
      DivideTwice(n, Pow256(width - 2 - i));
    }
  }

  lemma {:induction false} Widths()
    ensures Pow256(4) == 0x1_0000_0000 && Pow256(8) == TWO64
  {
  }

  lemma {:induction false} GetPut(n: nat, width: nat)
    requires n < Pow256(width)
    ensures Get(Put(n, width)) == n
  {
    if width > 0 {
      GetPut(n / 256, width - 1);
      assert Put(n, width)[..width - 1] == Put(n / 256, width - 1);
    }
  }

  lemma {:induction false} PutGet(b: Bytes)
    ensures Get(b) < Pow256(|b|)
    ensures Put(Get(b), |b|) == b
  {
    if b != [] {
      PutGet(b[..|b| - 1]);
      assert b == b[..|b| - 1] + [b[|b| - 1]];
    }
  }

  /** Different numbers of the same width have different encodings. */
  lemma {:induction false} PutIsInjective(m: nat, n: nat, width: nat)
    requires m < Pow256(width) && n < Pow256(width) && Put(m, width) == Put(n, width)
    ensures m == n
  {
    GetPut(m, width);
    GetPut(n, width);
  }

  lemma {:induction false} PutStep(rest: nat, i: nat, written: Bytes)
    requires i > 0
    ensures Put(rest, i) + written == Put(rest / 256, i - 1) + ([rest % 256] + written)
  {
  }

  /** Writes n over width bytes of a buffer, as the binary package does. */
  method PutAt(buffer: array<Byte>, at: nat, n: nat, width: nat)
    requires at + width <= buffer.Length
    modifies buffer
    ensures buffer[..at + width] == old(buffer[..at]) + Put(n, width)
    ensures forall j :: at + width <= j < buffer.Length ==> buffer[j] == old(buffer[j])
  {
    var rest, i := n, width;
    ghost var written: Bytes := [];
    while i > 0
      invariant 0 <= i <= width
      invariant |written| == width - i && Put(n, width) == Put(rest, i) + written
      invariant forall j :: 0 <= j < at ==> buffer[j] == old(buffer[j])
      invariant forall j :: at + width <= j < buffer.Length ==> buffer[j] == old(buffer[j])
      invariant buffer[at + i..at + width] == written
    {
      buffer[at + i - 1] := rest % 256;
      assert buffer[at + i - 1..at + width] == [rest % 256] + written;
      PutStep(rest, i, written);
      written := [rest % 256] + written;
      rest, i := rest / 256, i - 1;
    }
    assert buffer[..at + width] == buffer[..at] + buffer[at..at + width];
    assert buffer[..at] == old(buffer[..at]);
  }
}
