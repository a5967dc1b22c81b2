/**
 * GGUF size accounting: the storage size of a tensor, the per-layer totals of a file, and the share
 * of the non-layer bytes that the distributed manager adds to the first and last layer.
 */
module Gguf {
  import opened Prelude
  import opened Planner
  import opened PlannerTheorems

  const TWO63: int := 0x8000_0000_0000_0000

  datatype Tensor = Tensor(name: string, dims: seq<Uint64>, ggmlType: nat)

  datatype TensorError = InvalidDimensions | UnsupportedType | TooLarge

  datatype Traits = Traits(elements: nat, bytes: nat)

  /** Block elements and bytes per block of the supported GGML types. */
  function TraitsOf(ggmlType: nat): (r: Option<Traits>)
    ensures r.Some? ==> 1 <= r.value.elements <= 256 && 1 <= r.value.bytes <= 292
  {
    match ggmlType
    case 0 => Some(Traits(1, 4))
    case 1 => Some(Traits(1, 2))
    case 2 => Some(Traits(32, 18))
    case 3 => Some(Traits(32, 20))
    case 6 => Some(Traits(32, 22))
    case 7 => Some(Traits(32, 24))
    case 8 => Some(Traits(32, 34))
    case 9 => Some(Traits(32, 36))
    case 10 => Some(Traits(256, 84))
    case 11 => Some(Traits(256, 110))
    case 12 => Some(Traits(256, 144))
    case 13 => Some(Traits(256, 176))
    case 14 => Some(Traits(256, 210))
    case 15 => Some(Traits(256, 292))
    case 16 => Some(Traits(256, 66))
    case 17 => Some(Traits(256, 74))
    case 18 => Some(Traits(256, 98))
    case 19 => Some(Traits(256, 130))
    case 20 => Some(Traits(256, 162))
    case 21 => Some(Traits(256, 194))
    case 22 => Some(Traits(256, 226))
    case 23 => Some(Traits(256, 258))
    case 24 => Some(Traits(1, 1))
    case 25 => Some(Traits(1, 2))
    case 26 => Some(Traits(1, 4))
    case 27 => Some(Traits(1, 8))
    case 28 => Some(Traits(1, 8))
    case 30 => Some(Traits(1, 2))
    case _ => None
  }

  // ---------------------------------------------------------------- one tensor

  /** Product of the first n dimensions. */
  function Elements(dims: seq<Uint64>, n: nat): (p: nat)
    requires n <= |dims|
  {
    if n == 0 then 1 else Elements(dims, n - 1) * dims[n - 1]
  }

  lemma {:induction false} ElementsOfFront(dims: seq<Uint64>, d: Uint64, n: nat)
    requires n <= |dims|
    ensures Elements(dims + [d], n) == Elements(dims, n)
  {
    if n > 0 {
      ElementsOfFront(dims, d, n - 1);
    }
  }

  /** An empty product is one, and one more dimension multiplies it. */
  lemma {:induction false} ElementsOfOneMore(dims: seq<Uint64>, d: Uint64)
    ensures Elements(dims, 0) == 1
    ensures Elements(dims + [d], |dims| + 1) == Elements(dims + [d], |dims|) * d
    ensures Elements(dims + [d], |dims|) == Elements(dims, |dims|)
  {
    ElementsOfFront(dims, d, |dims|);
  }

  predicate Measurable(dims: seq<Uint64>) {
    (forall i :: 0 <= i < |dims| ==> dims[i] != 0) && Elements(dims, |dims|) < TWO64
  }

  /** The true number of blocks: the least one that holds all elements. */
  ghost predicate IsBlockCount(elements: nat, perBlock: nat, blocks: nat) {
    (blocks - 1) * perBlock < elements <= blocks * perBlock
  }

  /** The rounded-up division happens in 64 bits and wraps. */
  function WrappedBlocks(elements: nat, perBlock: nat): nat
    requires perBlock > 0
  {
    (elements + perBlock - 1) % TWO64 / perBlock
  }

  /** What tensorStorageBytes returns, stated without its loop. */
  function StorageBytes(dims: seq<Uint64>, ggmlType: nat): Result<nat, TensorError> {
    var traits := TraitsOf(ggmlType);
    if !Measurable(dims) then Err(InvalidDimensions)
    else if traits.None? then Err(UnsupportedType)
    else
      var bytes := WrappedBlocks(Elements(dims, |dims|), traits.value.elements) * traits.value.bytes;
      if bytes >= TWO63 then Err(TooLarge) else Ok(bytes)
  }

  lemma {:induction false} ProductGrows(a: nat, b: nat)
    requires a >= 1 && b >= 1
    ensures a * b >= a
  {
  }

  lemma {:induction false} ElementsGrow(dims: seq<Uint64>, n: nat, m: nat)
    requires n <= m <= |dims| && forall i :: 0 <= i < |dims| ==> dims[i] != 0
    ensures 1 <= Elements(dims, n) <= Elements(dims, m)
  {
    if n < m {
      ElementsGrow(dims, n, m - 1);
      ProductGrows(Elements(dims, m - 1), dims[m - 1]);
    } else if n > 0 {
      ElementsGrow(dims, n - 1, n - 1);
      ProductGrows(Elements(dims, n - 1), dims[n - 1]);
    }
  }

  lemma {:induction false} Scale(x: int, y: int, b: int)
    requires x <= y && b > 0
    ensures x * b <= y * b
  {
  }

  /** The overflow guards divide where the product itself could not be formed. */
  lemma {:induction false} QuotientGuard(a: int, b: int, limit: int)
    requires a >= 0 && b > 0 && limit >= 0
    ensures a > limit / b <==> a * b > limit
  {
    var q := limit / b;
    if a > q {
      Scale(q + 1, a, b);
    } else {
      Scale(a, q, b);
    }
  }

  /** The product of the dimensions, if none is zero and it fits in 64 bits. */
  method CountElements(dims: seq<Uint64>) returns (r: Option<nat>)
    ensures r == if Measurable(dims) then Some(Elements(dims, |dims|)) else None
  {
    var elements := 1;
    for i := 0 to |dims|
      invariant elements == Elements(dims, i) < TWO64
      invariant forall j :: 0 <= j < i ==> dims[j] != 0
    {
      if dims[i] == 0 {
        return None;
      }
      QuotientGuard(elements, dims[i], TWO64 - 1);
      if elements > (TWO64 - 1) / dims[i] {
        if forall j :: 0 <= j < |dims| ==> dims[j] != 0 {
          ElementsGrow(dims, i + 1, |dims|);
        }
        return None;
      }
      elements := elements * dims[i];
    }
    return Some(elements);
  }

  method TensorStorageBytes(dims: seq<Uint64>, ggmlType: nat) returns (r: Result<nat, TensorError>)
    ensures r == StorageBytes(dims, ggmlType)
  {
    var elements := CountElements(dims);
    if elements.None? {
      return Err(InvalidDimensions);
    }
    match TraitsOf(ggmlType)
    case None =>
      return Err(UnsupportedType);
    case Some(t) =>
      var blocks := (elements.value + t.elements - 1) % TWO64 / t.elements;
      QuotientGuard(blocks, t.bytes, TWO63 - 1);
      if blocks > (TWO63 - 1) / t.bytes {
        return Err(TooLarge);
      }
      return Ok(blocks * t.bytes);
  }

  lemma {:induction false} RoundedUpBlocks(elements: nat, perBlock: nat)
    requires elements > 0 && perBlock > 0
    ensures (elements + perBlock - 1) / perBlock >= 1
    ensures IsBlockCount(elements, perBlock, (elements + perBlock - 1) / perBlock)
  {
  }

  lemma {:induction false} BlockCountIsUnique(elements: nat, perBlock: nat, a: nat, b: nat)
    requires IsBlockCount(elements, perBlock, a) && IsBlockCount(elements, perBlock, b)
    ensures a == b
  {
  }

  lemma {:induction false} SmallQuotient(x: nat, p: nat)
    requires x < p
    ensures x / p == 0
  {
  }

  /** The wrapped division is right exactly when nothing wraps, and yields no block otherwise. */
  lemma {:induction false} WrappedBlocksAreExactUnlessTheyWrap(elements: nat, perBlock: nat, blocks: nat)
    requires 0 < elements < TWO64 && 1 <= perBlock <= 256 && IsBlockCount(elements, perBlock, blocks)
    ensures blocks >= 1
    ensures if elements + perBlock - 1 < TWO64 then WrappedBlocks(elements, perBlock) == blocks
            else WrappedBlocks(elements, perBlock) == 0
  {
    RoundedUpBlocks(elements, perBlock);
    BlockCountIsUnique(elements, perBlock, blocks, (elements + perBlock - 1) / perBlock);
    if elements + perBlock - 1 >= TWO64 {
      assert (elements + perBlock - 1) % TWO64 == elements + perBlock - 1 - TWO64;
      SmallQuotient(elements + perBlock - 1 - TWO64, perBlock);
    }
  }

  /**
   * An accepted size is the true block size exactly when elements + block - 1 fits in 64 bits.
   * Past that limit the sum wraps and the tensor is accepted as taking no bytes at all.
   */
  lemma {:induction false} SizeIsExactUnlessItWraps(dims: seq<Uint64>, ggmlType: nat, t: Traits, blocks: nat)
    requires Measurable(dims) && TraitsOf(ggmlType) == Some(t)
    requires IsBlockCount(Elements(dims, |dims|), t.elements, blocks)
    ensures var n, r := Elements(dims, |dims|), StorageBytes(dims, ggmlType);
            if n + t.elements - 1 < TWO64 then
              r == if blocks * t.bytes < TWO63 then Ok(blocks * t.bytes) else Err(TooLarge)
            else r == Ok(0) && blocks * t.bytes > 0
  {
    ElementsGrow(dims, 0, |dims|);
    WrappedBlocksAreExactUnlessTheyWrap(Elements(dims, |dims|), t.elements, blocks);
    assert blocks * t.bytes >= 1;
  }

  /** Which tensors are refused, before their size is looked at. */
  lemma {:induction false} RefusalsAreExact(dims: seq<Uint64>, ggmlType: nat)
    ensures StorageBytes(dims, ggmlType) == Err(InvalidDimensions) <==>
            (exists i :: 0 <= i < |dims| && dims[i] == 0) || Elements(dims, |dims|) > 0xFFFF_FFFF_FFFF_FFFF
    ensures StorageBytes(dims, ggmlType) != Err(InvalidDimensions) ==>
              (StorageBytes(dims, ggmlType) == Err(UnsupportedType) <==> TraitsOf(ggmlType).None?)
  {
  }

  /** Such a tensor exists: 2^64 - 1 elements of a 32-element block type are accepted with size 0. */
  lemma {:induction false} WrappedTensorExists()
    ensures StorageBytes([TWO64 - 1], 2) == Ok(0)
    ensures IsBlockCount(TWO64 - 1, 32, TWO64 / 32)
  {
    assert Elements([TWO64 - 1], 1) == Elements([TWO64 - 1], 0) * (TWO64 - 1);
  }

  // ---------------------------------------------------------------- tensor names

  predicate Occurs(s: string, pat: string, k: nat) { k + |pat| <= |s| && s[k..k + |pat|] == pat }

  /** First position of pat in s at or after from. */
  function IndexFrom(s: string, pat: string, from: nat): (r: Option<nat>)
    requires from <= |s|
    ensures r.Some? ==> from <= r.value && Occurs(s, pat, r.value)
    ensures forall k :: from <= k && (r.Some? ==> k < r.value) ==> !Occurs(s, pat, k)
    decreases |s| - from
  {
    if from + |pat| > |s| then None
    else if Occurs(s, pat, from) then Some(from)
    else if from == |s| then None
    else IndexFrom(s, pat, from + 1)
  }

  predicate AllDigits(s: string) { forall i :: 0 <= i < |s| ==> '0' <= s[i] <= '9' }

  function DigitsValue(s: string): nat
    requires AllDigits(s)
  {
    if s == "" then 0 else 10 * DigitsValue(s[..|s| - 1]) + (s[|s| - 1] as int - '0' as int)
  }

  /** Decimal integers with an optional sign. */
  function Atoi(s: string): Option<int> {
    var digits := if s != "" && (s[0] == '+' || s[0] == '-') then s[1..] else s;
    if digits == "" || !AllDigits(digits) then None
    else if s[0] == '-' then Some(-(DigitsValue(digits) as int))
    else Some(DigitsValue(digits))
  }

  /** Numbers are decimal: one more digit multiplies by ten, and signs are allowed in front. */
  lemma {:induction false} NumbersAreDecimal(s: string, c: char)
    requires AllDigits(s) && s != "" && '0' <= c <= '9'
    ensures AllDigits(s + [c]) && DigitsValue(s + [c]) == 10 * DigitsValue(s) + (c as int - '0' as int)
    ensures DigitsValue([c]) == c as int - '0' as int
    ensures Atoi(s) == Some(DigitsValue(s)) == Atoi("+" + s) && Atoi("-" + s) == Some(-(DigitsValue(s) as int))
  {
    assert (s + [c])[..|s|] == s;
    assert [c][..0] == "" && DigitsValue("") == 0;
    assert ("+" + s)[1..] == s && ("-" + s)[1..] == s;
  }

  function LayerAfter(name: string, marker: string, count: nat): (r: Option<nat>)
    ensures r.Some? ==> r.value < count
  {
    var at := IndexFrom(name, marker, 0);
    if at.None? then None
    else
      var rest := name[at.value + |marker|..];
      var end := IndexFrom(rest, ".", 0);
      if end.None? then None
      else
        var layer := Atoi(rest[..end.value]);
        if layer.Some? && 0 <= layer.value < count then Some(layer.value) else None
  }

  /** The layer that owns a tensor, or None for embeddings, output and the like. */
  function TensorLayer(name: string, count: nat): (r: Option<nat>)
    ensures r.Some? ==> r.value < count
  {
    var blk := LayerAfter(name, "blk.", count);
    if blk.Some? then blk else LayerAfter(name, "block.", count)
  }

  function Decimal(n: nat): (s: string)
    ensures AllDigits(s) && s != ""
    ensures DigitsValue(s) == n
  {
    var last := [(n % 10 + '0' as int) as char];
    if n < 10 then
      assert last[..0] == "";
      last
    else
      var s := Decimal(n / 10) + last;
      assert s[..|s| - 1] == Decimal(n / 10);
      s
  }

  /** The text up to the first '.', when it is a decimal number. */
  lemma {:induction false} NumberBeforeDot(n: nat, suffix: string)
    ensures IndexFrom(Decimal(n) + "." + suffix, ".", 0) == Some(|Decimal(n)|)
    ensures (Decimal(n) + "." + suffix)[..|Decimal(n)|] == Decimal(n)
  {
    var digits := Decimal(n);
    var rest := digits + "." + suffix;
    assert Occurs(rest, ".", |digits|);
    forall k | 0 <= k < |digits| ensures !Occurs(rest, ".", k) {
      assert rest[k..k + 1][0] == digits[k] != '.';
    }
  }

  lemma {:induction false} AtoiOfDecimal(n: nat)
    ensures Atoi(Decimal(n)) == Some(n)
  {
  }

  /** A tensor named for block n is counted for layer n, whatever follows in its name. */
  lemma {:induction false} BlockTensorsAreFound(n: nat, count: nat, suffix: string)
    requires n < count
    ensures TensorLayer("blk." + (Decimal(n) + "." + suffix), count) == Some(n)
  {
    var rest := Decimal(n) + "." + suffix;
    var name := "blk." + rest;
    assert Occurs(name, "blk.", 0);
    assert name[4..] == rest;
    NumberBeforeDot(n, suffix);
    AtoiOfDecimal(n);
  }

  /** Position k of the name starts a marker, and the text from there to the next dot is the number l. */
  predicate NamesLayer(name: string, marker: string, k: nat, e: nat, l: nat) {
    && Occurs(name, marker, k) && k + |marker| <= e < |name| && name[e] == '.'
    && Atoi(name[k + |marker|..e]) == Some(l)
  }

  lemma {:induction false} DotAfter(name: string, at: nat, end: nat)
    requires at <= |name| && Occurs(name[at..], ".", end)
    ensures at + end < |name| && name[at + end] == '.' && name[at..][..end] == name[at..at + end]
  {
    assert name[at..][end..end + 1][0] == '.';
  }

  lemma {:induction false} NamedFrom(name: string, marker: string, k: nat, end: nat, l: nat)
    requires Occurs(name, marker, k) && Occurs(name[k + |marker|..], ".", end)
    requires Atoi(name[k + |marker|..][..end]) == Some(l)
    ensures NamesLayer(name, marker, k, k + |marker| + end, l)
  {
    DotAfter(name, k + |marker|, end);
  }

  lemma {:induction false} LayerAfterIsNamed(name: string, marker: string, count: nat) returns (k: nat, e: nat)
    requires LayerAfter(name, marker, count).Some?
    ensures NamesLayer(name, marker, k, e, LayerAfter(name, marker, count).value)
  {
    k := IndexFrom(name, marker, 0).value;
    var end := IndexFrom(name[k + |marker|..], ".", 0).value;
    e := k + |marker| + end;
    NamedFrom(name, marker, k, end, LayerAfter(name, marker, count).value);
  }

  /** A tensor has a layer only if its name says so behind a marker, and without a marker it has none. */
  lemma {:induction false} LayersAreNamed(name: string, count: nat)
    ensures TensorLayer(name, count).Some? ==>
              exists k, e ::
                || NamesLayer(name, "blk.", k, e, TensorLayer(name, count).value)
                || NamesLayer(name, "block.", k, e, TensorLayer(name, count).value)
    ensures (forall k :: !Occurs(name, "blk.", k) && !Occurs(name, "block.", k)) ==> TensorLayer(name, count).None?
  {
    if LayerAfter(name, "blk.", count).Some? {
      var k, e := LayerAfterIsNamed(name, "blk.", count);
    } else if LayerAfter(name, "block.", count).Some? {
      var k, e := LayerAfterIsNamed(name, "block.", count);
    }
  }

  /** So does one named with the longer marker, unless the shorter one occurs in its name. */
  lemma {:induction false} LongBlockTensorsAreFound(n: nat, count: nat, suffix: string)
    requires n < count
    requires forall k :: !Occurs("block." + (Decimal(n) + "." + suffix), "blk.", k)
    ensures TensorLayer("block." + (Decimal(n) + "." + suffix), count) == Some(n)
  {
    var rest := Decimal(n) + "." + suffix;
    var name := "block." + rest;
    assert Occurs(name, "block.", 0);
    assert name[6..] == rest;
    NumberBeforeDot(n, suffix);
    AtoiOfDecimal(n);
  }

  // ---------------------------------------------------------------- a whole file

  datatype Sizes = Sizes(tensorBytes: int, nonLayerBytes: int, layerBytes: seq<int>)

  /** The value a signed 64-bit sum leaves behind. */
  function Wrap(x: int): (w: int)
    ensures -TWO63 <= w < TWO63 && (-TWO63 <= x < TWO63 ==> w == x)
  {
    (x + TWO63) % TWO64 - TWO63
  }

  predicate Congruent(a: int, b: int) { (a - b) % TWO64 == 0 }

  /** A measured tensor: its bytes and the layer they count for. */
  datatype Entry = Entry(layer: Option<nat>, bytes: nat)

  /** The error of the first tensor, among the first n, that cannot be measured. */
  function FirstError(tensors: seq<Tensor>, n: nat): Option<TensorError>
    requires n <= |tensors|
  {
    if n == 0 then None
    else if FirstError(tensors, n - 1).Some? then FirstError(tensors, n - 1)
    else
      var bytes := StorageBytes(tensors[n - 1].dims, tensors[n - 1].ggmlType);
      if bytes.Err? then Some(bytes.error) else None
  }

  lemma {:induction false} FirstErrorStays(tensors: seq<Tensor>, n: nat, m: nat)
    requires n <= m <= |tensors| && FirstError(tensors, n).Some?
    ensures FirstError(tensors, m) == FirstError(tensors, n)
  {
    if n < m {
      FirstErrorStays(tensors, n, m - 1);
    }
  }

  /** A tensor's entry; a tensor that cannot be measured makes Read fail, so its bytes never matter. */
  function EntryOf(t: Tensor, count: nat): Entry {
    var bytes := StorageBytes(t.dims, t.ggmlType);
    Entry(TensorLayer(t.name, count), if bytes.Ok? then bytes.value else 0)
  }

  predicate LayersBelow(es: seq<Entry>, count: nat) {
    forall i :: 0 <= i < |es| ==> es[i].layer.Some? ==> es[i].layer.value < count
  }

  function Entries(tensors: seq<Tensor>, count: nat): (es: seq<Entry>)
    ensures |es| == |tensors|
    ensures forall i :: 0 <= i < |tensors| ==> es[i] == EntryOf(tensors[i], count)
    ensures LayersBelow(es, count)
  {
    seq(|tensors|, i requires 0 <= i < |tensors| => EntryOf(tensors[i], count))
  }

  /** Bytes of the first n entries. */
  function TotalBytes(es: seq<Entry>, n: nat): nat
    requires n <= |es|
  {
    if n == 0 then 0 else TotalBytes(es, n - 1) + es[n - 1].bytes
  }

  /** Bytes of those of the first n entries that belong to the given layer, or to none. */
  function BytesOf(es: seq<Entry>, layer: Option<nat>, n: nat): (b: nat)
    requires n <= |es|
    ensures b <= TotalBytes(es, n)
  {
    if n == 0 then 0
    else BytesOf(es, layer, n - 1) + (if es[n - 1].layer == layer then es[n - 1].bytes else 0)
  }

  lemma {:induction false} SumBytesUpdate(layerBytes: seq<int>, k: nat, v: int, n: nat)
    requires k < |layerBytes| && n <= |layerBytes|
    ensures SumBytes(layerBytes[k := v], 0, n) ==
            SumBytes(layerBytes, 0, n) + (if k < n then v - layerBytes[k] else 0)
  {
    if n > 0 {
      SumBytesUpdate(layerBytes, k, v, n - 1);
    }
  }

  /** The two ways of keeping the books stay congruent through one signed 64-bit addition. */
  lemma {:induction false} AddKeepsBalance(sum: int, tensorBytes: int, entry: int, bytes: int)
    requires Congruent(sum, tensorBytes)
    ensures Congruent(sum + Wrap(entry + bytes) - entry, Wrap(tensorBytes + bytes))
  {
  }

  ghost predicate Exact(es: seq<Entry>, count: nat, n: nat, s: Sizes)
    requires n <= |es|
  {
    && |s.layerBytes| == count
    && s.tensorBytes == TotalBytes(es, n)
    && s.nonLayerBytes == BytesOf(es, None, n)
    && forall l :: 0 <= l < count ==> s.layerBytes[l] == BytesOf(es, Some(l), n)
  }

  /** The books of the first n entries: balanced modulo 2^64 always, and exact below 2^63 bytes. */
  ghost predicate Booked(es: seq<Entry>, count: nat, n: nat, s: Sizes)
    requires n <= |es|
  {
    && |s.layerBytes| == count
    && Congruent(SumBytes(s.layerBytes, 0, count) + s.nonLayerBytes, s.tensorBytes)
    && (TotalBytes(es, n) < TWO63 ==> Exact(es, count, n, s))
  }

  function Book(s: Sizes, e: Entry): Sizes
    requires e.layer.Some? ==> e.layer.value < |s.layerBytes|
  {
    var t := s.(tensorBytes := Wrap(s.tensorBytes + e.bytes));
    match e.layer
    case Some(l) => t.(layerBytes := s.layerBytes[l := Wrap(s.layerBytes[l] + e.bytes)])
    case None => t.(nonLayerBytes := Wrap(s.nonLayerBytes + e.bytes))
  }

  /** Book without the 64-bit limit. */
  function BookExactly(s: Sizes, e: Entry): Sizes
    requires e.layer.Some? ==> e.layer.value < |s.layerBytes|
  {
    var t := s.(tensorBytes := s.tensorBytes + e.bytes);
    match e.layer
    case Some(l) => t.(layerBytes := s.layerBytes[l := s.layerBytes[l] + e.bytes])
    case None => t.(nonLayerBytes := s.nonLayerBytes + e.bytes)
  }

  lemma {:induction false} BookDoesNotWrap(es: seq<Entry>, count: nat, n: nat, s: Sizes)
    requires n < |es| && LayersBelow(es, count) && Exact(es, count, n, s) && TotalBytes(es, n + 1) < TWO63
    ensures Book(s, es[n]) == BookExactly(s, es[n])
  {
  }

  lemma {:induction false} BookKeepsExact(es: seq<Entry>, count: nat, n: nat, s: Sizes)
    requires n < |es| && LayersBelow(es, count) && Exact(es, count, n, s)
    ensures Exact(es, count, n + 1, BookExactly(s, es[n]))
  {
  }

  lemma {:induction false} BookKeepsBooks(es: seq<Entry>, count: nat, n: nat, s: Sizes)
    requires n < |es| && LayersBelow(es, count) && Booked(es, count, n, s)
    ensures Booked(es, count, n + 1, Book(s, es[n]))
  {
    var e := es[n];
    var sum := SumBytes(s.layerBytes, 0, count) + s.nonLayerBytes;
    match e.layer {
      case Some(l) =>
        SumBytesUpdate(s.layerBytes, l, Wrap(s.layerBytes[l] + e.bytes), count);
        AddKeepsBalance(sum, s.tensorBytes, s.layerBytes[l], e.bytes);
      case None =>
        AddKeepsBalance(sum, s.tensorBytes, s.nonLayerBytes, e.bytes);
    }
    if TotalBytes(es, n + 1) < TWO63 {
      BookDoesNotWrap(es, count, n, s);
      BookKeepsExact(es, count, n, s);
    }
  }

  /** The books after the first n entries, in 64-bit sums. */
  function BookAll(es: seq<Entry>, count: nat, n: nat): (s: Sizes)
    requires n <= |es| && LayersBelow(es, count)
    ensures |s.layerBytes| == count
  {
    if n == 0 then Sizes(0, 0, seq(count, _ => 0)) else Book(BookAll(es, count, n - 1), es[n - 1])
  }

  /** Whatever the tensors, the books balance, and below 2^63 bytes every entry is exact. */
  lemma {:induction false} BooksBalance(es: seq<Entry>, count: nat, n: nat)
    requires n <= |es| && LayersBelow(es, count)
    ensures Booked(es, count, n, BookAll(es, count, n))
  {
    if n == 0 {
      EvenSum(BookAll(es, count, 0).layerBytes, 0, count);
    } else {
      BooksBalance(es, count, n - 1);
      BookKeepsBooks(es, count, n - 1, BookAll(es, count, n - 1));
    }
  }

  /** What a tensor adds to the given layer, or to none. */
  function Share(t: Tensor, count: nat, layer: Option<nat>): nat {
    var bytes := StorageBytes(t.dims, t.ggmlType);
    if TensorLayer(t.name, count) == layer && bytes.Ok? then bytes.value else 0
  }

  function SumUpTo(shares: seq<nat>, n: nat): nat
    requires n <= |shares|
  {
    if n == 0 then 0 else SumUpTo(shares, n - 1) + shares[n - 1]
  }

  /** Bytes of the tensors that are named for the given layer, or for none. */
  function TensorBytes(tensors: seq<Tensor>, count: nat, layer: Option<nat>): nat {
    SumUpTo(seq(|tensors|, i requires 0 <= i < |tensors| => Share(tensors[i], count, layer)), |tensors|)
  }

  lemma {:induction false} EntryCarriesShare(t: Tensor, count: nat, layer: Option<nat>)
    ensures Share(t, count, layer) == if EntryOf(t, count).layer == layer then EntryOf(t, count).bytes else 0
  {
  }

  lemma {:induction false} SharesAddUp(es: seq<Entry>, layer: Option<nat>, shares: seq<nat>, n: nat)
    requires n <= |es| == |shares|
    requires forall i :: 0 <= i < |es| ==> shares[i] == if es[i].layer == layer then es[i].bytes else 0
    ensures BytesOf(es, layer, n) == SumUpTo(shares, n)
  {
    if n > 0 {
      SharesAddUp(es, layer, shares, n - 1);
    }
  }

  lemma {:induction false} EntriesCarryTensors(tensors: seq<Tensor>, count: nat, layer: Option<nat>)
    ensures BytesOf(Entries(tensors, count), layer, |tensors|) == TensorBytes(tensors, count, layer)
  {
    var es := Entries(tensors, count);
    var shares: seq<nat> := seq(|tensors|, i requires 0 <= i < |tensors| => Share(tensors[i], count, layer));
    forall i | 0 <= i < |es| ensures shares[i] == if es[i].layer == layer then es[i].bytes else 0 {
      EntryCarriesShare(tensors[i], count, layer);
    }
    SharesAddUp(es, layer, shares, |tensors|);
  }

  /** Below 2^63 bytes, every layer's total is the sum of the tensors named for it, and the rest is the rest. */
  lemma {:induction false} BooksAreByLayer(tensors: seq<Tensor>, count: nat)
    requires TotalBytes(Entries(tensors, count), |tensors|) < TWO63
    ensures var s := BookAll(Entries(tensors, count), count, |tensors|);
            && s.nonLayerBytes == TensorBytes(tensors, count, None)
            && forall l :: 0 <= l < count ==> s.layerBytes[l] == TensorBytes(tensors, count, Some(l))
  {
    var es := Entries(tensors, count);
    BooksBalance(es, count, |tensors|);
    EntriesCarryTensors(tensors, count, None);
    forall l | 0 <= l < count
      ensures BookAll(es, count, |tensors|).layerBytes[l] == TensorBytes(tensors, count, Some(l))
    {
      EntriesCarryTensors(tensors, count, Some(l));
    }
  }

  method AddTensor(s: Sizes, layer: Option<nat>, bytes: nat) returns (t: Sizes)
    requires layer.Some? ==> layer.value < |s.layerBytes|
    ensures t == Book(s, Entry(layer, bytes))
  {
    t := s.(tensorBytes := Wrap(s.tensorBytes + bytes));
    if layer.Some? {
      t := t.(layerBytes := t.layerBytes[layer.value := Wrap(t.layerBytes[layer.value] + bytes)]);
    } else {
      t := t.(nonLayerBytes := Wrap(t.nonLayerBytes + bytes));
    }
  }

  /** One turn of the loop: the tensor's error, or the books with it. */
  method MeasureAndAdd(s: Sizes, t: Tensor, layerCount: nat) returns (r: Result<Sizes, TensorError>)
    requires |s.layerBytes| == layerCount
    ensures var bytes := StorageBytes(t.dims, t.ggmlType);
            r == if bytes.Err? then Err(bytes.error) else Ok(Book(s, EntryOf(t, layerCount)))
  {
    var bytes := TensorStorageBytes(t.dims, t.ggmlType);
    if bytes.Err? {
      return Err(bytes.error);
    }
    var layer := TensorLayer(t.name, layerCount);
    var next := AddTensor(s, layer, bytes.value);
    return Ok(next);
  }

  /** What Read has after the first n tensors: the first error, or the books so far. */
  function ReadUpTo(tensors: seq<Tensor>, count: nat, n: nat): (r: Result<Sizes, TensorError>)
    requires n <= |tensors|
    ensures r.Ok? ==> |r.value.layerBytes| == count
  {
    match FirstError(tensors, n)
    case Some(e) => Err(e)
    case None => Ok(BookAll(Entries(tensors, count), count, n))
  }

  lemma {:induction false} ReadOneMore(tensors: seq<Tensor>, count: nat, n: nat)
    requires n < |tensors| && ReadUpTo(tensors, count, n).Ok?
    ensures var t, s := tensors[n], ReadUpTo(tensors, count, n).value;
            var bytes := StorageBytes(t.dims, t.ggmlType);
            ReadUpTo(tensors, count, n + 1) == if bytes.Err? then Err(bytes.error) else Ok(Book(s, EntryOf(t, count)))
  {
  }

  lemma {:induction false} ErrorEndsRead(tensors: seq<Tensor>, count: nat, n: nat)
    requires n <= |tensors| && ReadUpTo(tensors, count, n).Err?
    ensures ReadUpTo(tensors, count, |tensors|) == ReadUpTo(tensors, count, n)
  {
    FirstErrorStays(tensors, n, |tensors|);
  }

  /** The accumulation loop of Read, from the parsed tensor infos on. */
  method Accumulate(tensors: seq<Tensor>, layerCount: nat) returns (r: Result<Sizes, TensorError>)
    requires layerCount > 0
    ensures r == ReadUpTo(tensors, layerCount, |tensors|)
    ensures r.Ok? ==> Booked(Entries(tensors, layerCount), layerCount, |tensors|, r.value)
  {
    var s := Sizes(0, 0, seq(layerCount, _ => 0));
    for i := 0 to |tensors|
      invariant ReadUpTo(tensors, layerCount, i) == Ok(s)
    {
      ReadOneMore(tensors, layerCount, i);
      var next := MeasureAndAdd(s, tensors[i], layerCount);
      if next.Err? {
        ErrorEndsRead(tensors, layerCount, i + 1);
        return Err(next.error);
      }
      s := next.value;
    }
    BooksBalance(Entries(tensors, layerCount), layerCount, |tensors|);
    return Ok(s);
  }

  // ---------------------------------------------------------------- from file to plan

  /** The larger half of the non-layer bytes on the first layer and the smaller half on the last. */
  function Shared(sizes: Sizes): (layerBytes: seq<int>)
    requires |sizes.layerBytes| > 0
    ensures |layerBytes| == |sizes.layerBytes|
  {
    var last, extra := |sizes.layerBytes| - 1, sizes.nonLayerBytes;
    if extra <= 0 then sizes.layerBytes
    else
      var more := sizes.layerBytes[0 := sizes.layerBytes[0] + (extra + 1) / 2];
      more[last := more[last] + extra / 2]
  }

  /** Sharing keeps the sum. */
  lemma {:induction false} SharedKeepsSum(sizes: Sizes)
    requires |sizes.layerBytes| > 0
    ensures var n := |sizes.layerBytes|;
            SumBytes(Shared(sizes), 0, n) == SumBytes(sizes.layerBytes, 0, n) + Max(sizes.nonLayerBytes, 0)
  {
    var n, extra := |sizes.layerBytes|, sizes.nonLayerBytes;
    if extra > 0 {
      var more := sizes.layerBytes[0 := sizes.layerBytes[0] + (extra + 1) / 2];
      SumBytesUpdate(sizes.layerBytes, 0, more[0], n);
      SumBytesUpdate(more, n - 1, more[n - 1] + extra / 2, n);
    }
  }

  /** Ensure: half of the non-layer bytes go to the first layer and half to the last. */
  method ShareNonLayerBytes(sizes: Sizes) returns (layerBytes: seq<int>)
    requires |sizes.layerBytes| > 0
    ensures layerBytes == Shared(sizes)
    ensures SumBytes(layerBytes, 0, |layerBytes|) ==
            SumBytes(sizes.layerBytes, 0, |layerBytes|) + Max(sizes.nonLayerBytes, 0)
    ensures forall l :: 0 < l < |layerBytes| - 1 ==> layerBytes[l] == sizes.layerBytes[l]
    ensures |layerBytes| > 1 && sizes.nonLayerBytes > 0 ==>
              var first := layerBytes[0] - sizes.layerBytes[0];
              var last := layerBytes[|layerBytes| - 1] - sizes.layerBytes[|layerBytes| - 1];
              0 <= last <= first <= last + 1
  {
    layerBytes := sizes.layerBytes;
    var extra := sizes.nonLayerBytes;
    if extra > 0 {
      layerBytes := layerBytes[0 := layerBytes[0] + (extra + 1) / 2];
      var last := |layerBytes| - 1;
      layerBytes := layerBytes[last := layerBytes[last] + extra / 2];
    }
    SharedKeepsSum(sizes);
  }

  /** The per-layer totals of the first n entries. */
  function LayerSums(es: seq<Entry>, count: nat, n: nat): (sums: seq<int>)
    requires n <= |es|
    ensures |sums| == count && forall l :: 0 <= l < count ==> sums[l] == BytesOf(es, Some(l), n)
  {
    seq(count, l requires 0 <= l < count => BytesOf(es, Some(l), n))
  }

  lemma {:induction false} BytesOfStep(es: seq<Entry>, layer: Option<nat>, n: nat)
    requires 0 < n <= |es|
    ensures BytesOf(es, layer, n) ==
            BytesOf(es, layer, n - 1) + (if es[n - 1].layer == layer then es[n - 1].bytes else 0)
  {
  }

  lemma {:induction false} LayerSumsUpdate(es: seq<Entry>, count: nat, n: nat, before: seq<int>)
    requires 0 < n <= |es| && LayersBelow(es, count) && before == LayerSums(es, count, n - 1)
    ensures LayerSums(es, count, n) ==
            match es[n - 1].layer
            case Some(l) => before[l := before[l] + es[n - 1].bytes]
            case None => before
  {
    var e := es[n - 1];
    forall l | 0 <= l < count
      ensures LayerSums(es, count, n)[l] == before[l] + (if e.layer == Some(l) then e.bytes else 0)
    {
      BytesOfStep(es, Some(l), n);
    }
  }

  lemma {:induction false} LayerSumsStep(es: seq<Entry>, count: nat, n: nat)
    requires 0 < n <= |es| && LayersBelow(es, count)
    ensures SumBytes(LayerSums(es, count, n), 0, count) ==
            SumBytes(LayerSums(es, count, n - 1), 0, count) + (if es[n - 1].layer.Some? then es[n - 1].bytes else 0)
  {
    var e, before := es[n - 1], LayerSums(es, count, n - 1);
    LayerSumsUpdate(es, count, n, before);
    if e.layer.Some? {
      SumBytesUpdate(before, e.layer.value, before[e.layer.value] + e.bytes, count);
    }
  }

  /** Per-layer totals and the bytes of no layer add up to all bytes. */
  lemma {:induction false} SumOfBooks(es: seq<Entry>, count: nat, n: nat)
    requires n <= |es| && LayersBelow(es, count)
    ensures SumBytes(LayerSums(es, count, n), 0, count) + BytesOf(es, None, n) == TotalBytes(es, n)
  {
    if n == 0 {
      EvenSum(LayerSums(es, count, n), 0, count);
    } else {
      SumOfBooks(es, count, n - 1);
      LayerSumsStep(es, count, n);
    }
  }

  /**
   * No byte is lost or invented between the file and the plan: below 2^63 bytes, the layer and
   * non-layer totals, the shares handed to the planner and the planned stages all add up to the
   * exact tensor bytes.
   */
  lemma {:induction false} BytesAreConserved(
    es: seq<Entry>, count: nat, candidates: seq<Candidate>, minNodes: int, maxNodes: int, stages: seq<Stage>)
    requires count > 0 && LayersBelow(es, count) && TotalBytes(es, |es|) < TWO63
    requires IsPlanOf(candidates, Shared(BookAll(es, count, |es|)), minNodes, maxNodes, Ok(stages))
    ensures var s := BookAll(es, count, |es|);
            SumBytes(s.layerBytes, 0, count) + s.nonLayerBytes == s.tensorBytes == TotalBytes(es, |es|)
    ensures StageBytes(stages, |stages|) == TotalBytes(es, |es|)
    ensures Contiguous(stages, count) && CoversOnce(stages, count)
  {
    var s := BookAll(es, count, |es|);
    BooksBalance(es, count, |es|);
    SumOfBooks(es, count, |es|);
    assert s.layerBytes == LayerSums(es, count, |es|);
    SharedKeepsSum(s);
    var usable :| IsSortOf(usable, candidates) && IsOutcome(usable, Shared(s), minNodes, maxNodes, Ok(stages));
    PlanIsPartition(usable, Shared(s), minNodes, maxNodes, stages);
  }

  datatype FilePlan = Unreadable(error: TensorError) | Unplanned(cause: PlanError) | Planned(stages: seq<Stage>)

  /** From the tensor infos of a file to its plan: every byte of the file is in exactly one stage. */
  method PlanFile(tensors: seq<Tensor>, layerCount: nat, candidates: seq<Candidate>, minNodes: int, maxNodes: int)
    returns (r: FilePlan)
    requires layerCount > 0
    ensures FirstError(tensors, |tensors|).Some? ==> r == Unreadable(FirstError(tensors, |tensors|).value)
    ensures FirstError(tensors, |tensors|).None? ==>
              var layerBytes := Shared(BookAll(Entries(tensors, layerCount), layerCount, |tensors|));
              match r
              case Unreadable(_) => false
              case Unplanned(cause) => IsPlanOf(candidates, layerBytes, minNodes, maxNodes, Err(cause))
              case Planned(stages) => IsPlanOf(candidates, layerBytes, minNodes, maxNodes, Ok(stages))
    ensures var total := TotalBytes(Entries(tensors, layerCount), |tensors|);
            r.Planned? && total < TWO63 ==>
              && StageBytes(r.stages, |r.stages|) == total
              && Contiguous(r.stages, layerCount) && CoversOnce(r.stages, layerCount)
  {
    var sizes := Accumulate(tensors, layerCount);
    if sizes.Err? {
      return Unreadable(sizes.error);
    }
    var layerBytes := ShareNonLayerBytes(sizes.value);
    var plan := PlanLayers(candidates, layerBytes, minNodes, maxNodes);
    if plan.Err? {
      return Unplanned(plan.error);
    }
    ghost var es := Entries(tensors, layerCount);
    if TotalBytes(es, |tensors|) < TWO63 {
      BytesAreConserved(es, layerCount, candidates, minNodes, maxNodes, plan.value);
    }
    return Planned(plan.value);
  }
}
