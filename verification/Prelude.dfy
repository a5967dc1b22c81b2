/** Small vocabulary shared by the other modules. */
module Prelude {

  datatype Option<+T> = None | Some(value: T)

  datatype Result<+T, +E> = Ok(value: T) | Err(error: E)

  /** 2^64, the modulus of the unsigned counters. */
  const TWO64: int := 0x1_0000_0000_0000_0000

  type Uint64 = x: int | 0 <= x < TWO64

  type Uint32 = x: int | 0 <= x < 0x1_0000_0000

  type Byte = x: int | 0 <= x < 256

  type Bytes = seq<Byte>

  function Max(a: int, b: int): int { if a < b then b else a }

  function Min(a: int, b: int): int { if a < b then a else b }

  function Abs(a: int): int { if a < 0 then -a else a }

  /** The program's string order: the first difference decides, and a proper prefix comes first. */
  predicate StringLess(a: string, b: string)
    decreases |a|
  {
    b != [] && (a == [] || a[0] < b[0] || (a[0] == b[0] && StringLess(a[1..], b[1..])))
  }

  lemma {:induction false} StringLessIsTotal(a: string, b: string)
    ensures a == b || StringLess(a, b) || StringLess(b, a)
    ensures !(StringLess(a, b) && StringLess(b, a))
    decreases |a|
  {
    if a != [] && b != [] && a[0] == b[0] {
      StringLessIsTotal(a[1..], b[1..]);
      assert a == [a[0]] + a[1..] && b == [b[0]] + b[1..];
    }
  }

  lemma {:induction false} StringLessIsTransitive(a: string, b: string, c: string)
    requires StringLess(a, b) && StringLess(b, c)
    ensures StringLess(a, c)
    decreases |a|
  {
    if a != [] && a[0] == b[0] == c[0] {
      StringLessIsTransitive(a[1..], b[1..], c[1..]);
    }
  }

  /** a comes before b at position k: the strings agree up to there, and a ends or has the smaller character. */
  predicate LessAt(a: string, b: string, k: nat) {
    k <= |a| && k < |b| && a[..k] == b[..k] && (k == |a| || a[k] < b[k])
  }

  lemma {:induction false} LessAtTail(a: string, b: string, k: nat)
    requires a != [] && b != [] && a[0] == b[0]
    ensures LessAt(a[1..], b[1..], k) <==> LessAt(a, b, k + 1)
  {
    assert a == [a[0]] + a[1..] && b == [b[0]] + b[1..];
    if k < |a| && k < |b| {
      assert a[..k + 1] == [a[0]] + a[1..][..k] && b[..k + 1] == [b[0]] + b[1..][..k];
    }
  }

  /** That is what the order means. */
  lemma {:induction false} StringLessMeans(a: string, b: string)
    ensures StringLess(a, b) <==> exists k: nat :: LessAt(a, b, k)
    decreases |a|
  {
    if a == [] || b == [] || a[0] != b[0] {
      if StringLess(a, b) {
        assert LessAt(a, b, 0);
      }
    } else {
      StringLessMeans(a[1..], b[1..]);
      if StringLess(a, b) {
        var k: nat :| LessAt(a[1..], b[1..], k);
        LessAtTail(a, b, k);
      }
      forall k: nat | LessAt(a, b, k) ensures StringLess(a, b) {
        LessAtTail(a, b, k - 1);
      }
    }
  }

  // ---------------------------------------------------------------- division

  lemma {:induction false} NextMultiple(n: nat, q: int, q': int)
    requires q < q'
    ensures q * n + n <= q' * n
    decreases q' - q
  {
    assert (q' - 1) * n + n == q' * n;
    if q < q' - 1 {
      NextMultiple(n, q, q' - 1);
    }
  }

  lemma {:induction false} QuotientIsUnique(n: nat, q: int, r: int, q': int, r': int)
    requires 0 <= r < n && 0 <= r' < n && q * n + r == q' * n + r'
    ensures q == q' && r == r'
  {
    if q < q' {
      NextMultiple(n, q, q');
    } else if q' < q {
      NextMultiple(n, q', q);
    }
  }

  // ---------------------------------------------------------------- connections that may fail

  /** room is the number of bytes a connection still takes before it fails, None if it does not. */
  predicate Fits(n: nat, room: Option<nat>) { room.None? || n <= room.value }

  /** What a connection takes of the data written to it. */
  function Taken(data: Bytes, room: Option<nat>): Bytes { if Fits(|data|, room) then data else data[..room.value] }

  function Less(room: Option<nat>, n: nat): Option<nat> {
    if room.None? then None else Some(Max(room.value - n, 0))
  }

  /** Two writes, the second only if the first succeeds, are taken as one. */
  lemma {:induction false} TakenTwice(a: Bytes, b: Bytes, room: Option<nat>)
    ensures Taken(a + b, room) == if Fits(|a|, room) then a + Taken(b, Less(room, |a|)) else Taken(a, room)
    ensures Fits(|a + b|, room) <==> Fits(|a|, room) && Fits(|b|, Less(room, |a|))
  {
  }
}
