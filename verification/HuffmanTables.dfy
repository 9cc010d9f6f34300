/** Canonical Huffman tables built from code lengths (src/fmtool/src/deflate.rs). */
module HuffmanTables {
  import opened Wrappers
  import opened Bits
  import opened CanonicalCode

  const MAX_BITS: nat := 15

  /** The decoding table: how many codes each length has, and the symbols sorted by
      length and then by number. */
  datatype Huffman = Huffman(counts: seq<nat>, symbols: seq<nat>)

  ghost predicate AllShort(lengths: seq<nat>) {
    forall s :: 0 <= s < |lengths| ==> lengths[s] <= MAX_BITS
  }

  // ---------- the canonical code of a length vector ----------

  /** How many entries equal k. */
  ghost function CountIn(lengths: seq<nat>, k: nat): nat {
    if lengths == [] then 0
    else CountIn(lengths[..|lengths| - 1], k) + if lengths[|lengths| - 1] == k then 1 else 0
  }

  ghost function Counts(lengths: seq<nat>): (count: seq<nat>)
    ensures |count| == MAX_BITS + 1 && count[0] == 0
  {
    seq(MAX_BITS + 1, k requires 0 <= k <= MAX_BITS => if k == 0 then 0 else CountIn(lengths, k))
  }

  /** The canonical code word of symbol s: codes of one length are consecutive, in
      symbol order. */
  ghost function WordOf(lengths: seq<nat>, s: nat): Word
    requires AllShort(lengths) && s < |lengths|
  {
    if lengths[s] == 0 then Word(0, 0)
    else Word(First(Counts(lengths), lengths[s]) + CountIn(lengths[..s], lengths[s]), lengths[s])
  }

  ghost function Book(lengths: seq<nat>): (book: seq<Word>)
    requires AllShort(lengths)
    ensures |book| == |lengths|
    ensures forall s :: 0 <= s < |book| ==> book[s] == WordOf(lengths, s) && book[s].len == lengths[s]
  {
    seq(|lengths|, s requires 0 <= s < |lengths| => WordOf(lengths, s))
  }

  lemma {:induction false} CountInMonotone(lengths: seq<nat>, k: nat, i: nat, j: nat)
    requires i <= j <= |lengths|
    ensures CountIn(lengths[..i], k) <= CountIn(lengths[..j], k)
    ensures i < j && lengths[i] == k ==> CountIn(lengths[..i], k) < CountIn(lengths[..j], k)
  {
    if i < j {
      assert lengths[..j][..j - 1] == lengths[..j - 1];
      CountInMonotone(lengths, k, i, j - 1);
    }
  }

  /** The j-th symbol of length k, counting from zero. */
  lemma {:induction false} NthOfLength(lengths: seq<nat>, k: nat, j: nat) returns (s: nat)
    requires j < CountIn(lengths, k)
    ensures s < |lengths| && lengths[s] == k && CountIn(lengths[..s], k) == j
  {
    var n := |lengths| - 1;
    if lengths[n] == k && CountIn(lengths[..n], k) == j {
      s := n;
    } else {
      s := NthOfLength(lengths[..n], k, j);
      assert lengths[..n][..s] == lengths[..s];
    }
  }

  lemma WordWithinClass(lengths: seq<nat>, s: nat)
    requires AllShort(lengths) && s < |lengths| && lengths[s] != 0
    ensures WithinClass(WordOf(lengths, s), Counts(lengths))
  {
    CountInMonotone(lengths, lengths[s], s, |lengths|);
    assert lengths[..|lengths|] == lengths;
  }

  lemma SameWordSameSymbol(lengths: seq<nat>, s: nat, t: nat)
    requires AllShort(lengths) && s < |lengths| && t < |lengths| && lengths[s] != 0
    requires WordOf(lengths, s) == WordOf(lengths, t)
    ensures s == t
  {
    if s < t {
      CountInMonotone(lengths, lengths[s], s, t);
    } else if t < s {
      CountInMonotone(lengths, lengths[s], t, s);
    }
  }

  /** Every length vector yields a canonical, hence prefix-free, code. */
  lemma BookIsCanonical(lengths: seq<nat>)
    requires AllShort(lengths)
    ensures IsCanonical(Book(lengths), Counts(lengths))
  {
    var book, count := Book(lengths), Counts(lengths);
    forall s | 0 <= s < |book| && book[s].len != 0
      ensures WithinClass(book[s], count)
    {
      WordWithinClass(lengths, s);
    }
    forall s, t | 0 <= s < |book| && 0 <= t < |book| && book[s].len != 0 && book[s] == book[t]
      ensures s == t
    {
      SameWordSameSymbol(lengths, s, t);
    }
    forall k, c | 0 < k < |count| && First(count, k) <= c < Past(count, k)
      ensures Word(c, k) in book
    {
      var s := NthOfLength(lengths, k, c - First(count, k));
      assert book[s] == Word(c, k);
    }
  }

  // ---------- which length vectors give codes that fit ----------

  /** The Kraft sum, scaled by 2^15. */
  ghost function KraftSum(lengths: seq<nat>): nat
    requires AllShort(lengths)
  {
    if lengths == [] then 0
    else
      var last := lengths[|lengths| - 1];
      KraftSum(lengths[..|lengths| - 1]) + if last == 0 then 0 else Pow2(MAX_BITS - last)
  }

  lemma {:induction false} FirstBump(count: seq<nat>, k: nat, n: nat)
    requires k < |count| && n <= |count|
    ensures First(count[k := count[k] + 1], n) == First(count, n) + if k < n then Pow2(n - k) else 0
  {
    if n > 0 {
      FirstBump(count, k, n - 1);
    }
  }

  lemma CountsSnoc(lengths: seq<nat>, last: nat)
    requires last <= MAX_BITS
    ensures Counts(lengths + [last]) ==
            if last == 0 then Counts(lengths) else Counts(lengths)[last := Counts(lengths)[last] + 1]
  {
    assert (lengths + [last])[..|lengths|] == lengths;
  }

  /** The Kraft sum over the symbols is where the last length class ends. */
  lemma {:induction false} KraftSumIsPast(lengths: seq<nat>)
    requires AllShort(lengths)
    ensures KraftSum(lengths) == Past(Counts(lengths), MAX_BITS)
  {
    if lengths == [] {
      AllZero(Counts([]), MAX_BITS);
    } else {
      var front, last := lengths[..|lengths| - 1], lengths[|lengths| - 1];
      assert lengths == front + [last];
      KraftSumIsPast(front);
      CountsSnoc(front, last);
      if last != 0 {
        FirstBump(Counts(front), last, MAX_BITS);
      }
    }
  }

  lemma {:induction false} AllZero(count: seq<nat>, n: nat)
    requires n < |count| && forall k :: 0 <= k <= n ==> count[k] == 0
    ensures Past(count, n) == 0
  {
    if n > 0 {
      AllZero(count, n - 1);
    }
  }

  ghost predicate EveryCodeFits(lengths: seq<nat>)
    requires AllShort(lengths)
  {
    forall s :: 0 <= s < |lengths| && lengths[s] != 0 ==> Fits(WordOf(lengths, s))
  }

  lemma {:induction false} FittingPast(lengths: seq<nat>, k: nat)
    requires AllShort(lengths) && EveryCodeFits(lengths) && k <= MAX_BITS
    ensures Past(Counts(lengths), k) <= Pow2(k)
  {
    var count := Counts(lengths);
    if k > 0 {
      FittingPast(lengths, k - 1);
      if count[k] > 0 {
        var s := NthOfLength(lengths, k, count[k] - 1);
        assert Fits(WordOf(lengths, s));
      }
    }
  }

  /** Every canonical code fits its own length exactly when the code is not
      over-subscribed, that is when the Kraft sum is at most one. */
  lemma CodesFitIffKraft(lengths: seq<nat>)
    requires AllShort(lengths)
    ensures EveryCodeFits(lengths) <==> KraftSum(lengths) <= Pow2(15)
  {
    KraftSumIsPast(lengths);
    if KraftSum(lengths) <= Pow2(MAX_BITS) {
      forall s | 0 <= s < |lengths| && lengths[s] != 0
        ensures Fits(WordOf(lengths, s))
      {
        WordWithinClass(lengths, s);
        PastFits(Counts(lengths), lengths[s], MAX_BITS);
      }
    } else if EveryCodeFits(lengths) {
      FittingPast(lengths, MAX_BITS);
    }
  }

  // ---------- reading symbols ----------

  /** Symbol s can be written: it is used and its code fits its length. */
  ghost predicate Writable(lengths: seq<nat>, s: nat) {
    AllShort(lengths) && s < |lengths| && Fits(WordOf(lengths, s))
  }

  /** The bits that stand for symbol s (none if it cannot be written). */
  ghost function Code(lengths: seq<nat>, s: nat): (bits: seq<bit>) {
    if Writable(lengths, s) then WordBits(WordOf(lengths, s)) else []
  }

  /** Reads one symbol from the front of the bits. */
  ghost function ReadSymbol(lengths: seq<nat>, bits: seq<bit>): (r: Option<Symbol>)
    ensures r.Some? ==> |r.value.rest| < |bits|
  {
    if AllShort(lengths) then ReadWord(Book(lengths), bits) else None
  }

  /** A canonical code followed by any bits is read back as its symbol with exactly its own
      bits consumed, and whatever is read was written so. */
  lemma SymbolRoundTrip(lengths: seq<nat>, bits: seq<bit>, s: nat, rest: seq<bit>)
    requires AllShort(lengths)
    ensures ReadSymbol(lengths, bits) == Some(Symbol(s, rest)) <==>
            Writable(lengths, s) && bits == Code(lengths, s) + rest
  {
    hide IsCanonical, Counts, Fits, WordOf;
    BookIsCanonical(lengths);
    WordRoundTrip(Book(lengths), Counts(lengths), bits, s, rest);
  }

  /** A complete code (Kraft sum exactly one) reads a symbol from any 15 bits. */
  lemma CompleteCodeAlwaysReads(lengths: seq<nat>, bits: seq<bit>)
    requires AllShort(lengths) && KraftSum(lengths) == Pow2(MAX_BITS) && |bits| >= MAX_BITS
    ensures ReadSymbol(lengths, bits).Some?
  {
    BookIsCanonical(lengths);
    KraftSumIsPast(lengths);
    var s := CompleteCodeMatches(Book(lengths), Counts(lengths), bits);
    assert Heads(Book(lengths), bits, s);
  }

  // ---------- the table ----------

  /** Where the symbols of length k start in the sorted table. */
  ghost function Offset(count: seq<nat>, k: nat): nat
    requires k <= |count|
  {
    if k == 0 then 0 else Offset(count, k - 1) + count[k - 1]
  }

  /** The slot of symbol s in the sorted table. */
  ghost function Slot(lengths: seq<nat>, s: nat): nat
    requires AllShort(lengths) && s < |lengths|
  {
    Offset(Counts(lengths), lengths[s]) + CountIn(lengths[..s], lengths[s])
  }

  ghost predicate TableFor(table: Huffman, lengths: seq<nat>) {
    && AllShort(lengths)
    && table.counts == Counts(lengths)
    && |table.symbols| == Offset(Counts(lengths), MAX_BITS + 1)
    && forall s :: 0 <= s < |lengths| && lengths[s] != 0 ==>
         Slot(lengths, s) < |table.symbols| && table.symbols[Slot(lengths, s)] == s
  }

  lemma {:induction false} OffsetMonotone(count: seq<nat>, i: nat, j: nat)
    requires i < j <= |count|
    ensures Offset(count, i) + count[i] <= Offset(count, j)
  {
    if i < j - 1 {
      OffsetMonotone(count, i, j - 1);
    }
  }

  lemma SlotsDiffer(lengths: seq<nat>, s: nat, t: nat)
    requires AllShort(lengths) && s < t < |lengths| && lengths[s] != 0 && lengths[t] != 0
    ensures Slot(lengths, s) != Slot(lengths, t)
  {
    WordWithinClass(lengths, s);
    WordWithinClass(lengths, t);
    if lengths[s] == lengths[t] {
      CountInMonotone(lengths, lengths[s], s, t);
    } else if lengths[s] < lengths[t] {
      OffsetMonotone(Counts(lengths), lengths[s], lengths[t]);
    } else {
      OffsetMonotone(Counts(lengths), lengths[t], lengths[s]);
    }
  }

  lemma SlotInTable(lengths: seq<nat>, s: nat)
    requires AllShort(lengths) && s < |lengths| && lengths[s] != 0
    ensures Slot(lengths, s) < Offset(Counts(lengths), MAX_BITS + 1)
  {
    WordWithinClass(lengths, s);
    OffsetMonotone(Counts(lengths), lengths[s], MAX_BITS + 1);
  }

  lemma {:induction false} OffsetBump(count: seq<nat>, k: nat, n: nat)
    requires k < |count| && n <= |count|
    ensures Offset(count[k := count[k] + 1], n) == Offset(count, n) + if k < n then 1 else 0
  {
    if n > 0 {
      OffsetBump(count, k, n - 1);
    }
  }

  lemma {:induction false} OffsetAllZero(count: seq<nat>, n: nat)
    requires n <= |count| && forall k :: 0 <= k < n ==> count[k] == 0
    ensures Offset(count, n) == 0
  {
    if n > 0 {
      OffsetAllZero(count, n - 1);
    }
  }

  /** The used symbols are counted by the length classes. */
  lemma {:induction false} UsedSymbols(lengths: seq<nat>)
    requires AllShort(lengths)
    ensures Offset(Counts(lengths), MAX_BITS + 1) == |lengths| - CountIn(lengths, 0)
  {
    if lengths == [] {
      OffsetAllZero(Counts([]), MAX_BITS + 1);
    } else {
      var front, last := lengths[..|lengths| - 1], lengths[|lengths| - 1];
      assert lengths == front + [last];
      UsedSymbols(front);
      CountsSnoc(front, last);
      if last != 0 {
        OffsetBump(Counts(front), last, MAX_BITS + 1);
      }
    }
  }

  lemma CountInStep(lengths: seq<nat>, i: nat, k: nat)
    requires i < |lengths|
    ensures CountIn(lengths[..i + 1], k) == CountIn(lengths[..i], k) + if lengths[i] == k then 1 else 0
  {
    assert lengths[..i + 1][..i] == lengths[..i];
  }

  /** The counters after the first i lengths. */
  ghost predicate CountedUpTo(lengths: seq<nat>, i: nat, counts: seq<nat>)
    requires i <= |lengths|
  {
    && |counts| == MAX_BITS + 1
    && AllShort(lengths[..i])
    && forall k :: 0 <= k <= MAX_BITS ==> counts[k] == CountIn(lengths[..i], k)
  }

  lemma CountStep(lengths: seq<nat>, i: nat, counts: seq<nat>)
    requires i < |lengths| && CountedUpTo(lengths, i, counts) && lengths[i] <= MAX_BITS
    ensures CountedUpTo(lengths, i + 1, counts[lengths[i] := counts[lengths[i]] + 1])
  {
    forall k
      ensures CountIn(lengths[..i + 1], k) == CountIn(lengths[..i], k) + if lengths[i] == k then 1 else 0
    {
      CountInStep(lengths, i, k);
    }
    assert lengths[..i + 1] == lengths[..i] + [lengths[i]];
  }

  /** The next free slots and the table after the first i symbols are placed. */
  ghost predicate SortedUpTo(lengths: seq<nat>, i: nat, offsets: seq<nat>, symbols: seq<nat>)
    requires AllShort(lengths) && i <= |lengths|
  {
    && |offsets| == MAX_BITS + 1
    && (forall k :: 0 < k <= MAX_BITS ==> offsets[k] == Offset(Counts(lengths), k) + CountIn(lengths[..i], k))
    && (forall s :: 0 <= s < i && lengths[s] != 0 ==>
          Slot(lengths, s) < |symbols| && symbols[Slot(lengths, s)] == s)
  }

  lemma SortStep(lengths: seq<nat>, i: nat, offsets: seq<nat>, symbols: seq<nat>)
    requires AllShort(lengths) && i < |lengths| && SortedUpTo(lengths, i, offsets, symbols)
    requires |symbols| == Offset(Counts(lengths), MAX_BITS + 1)
    ensures lengths[i] == 0 ==> SortedUpTo(lengths, i + 1, offsets, symbols)
    ensures lengths[i] != 0 ==>
              var at := offsets[lengths[i]];
              at < |symbols| && SortedUpTo(lengths, i + 1, offsets[lengths[i] := at + 1], symbols[at := i])
  {
    forall k
      ensures CountIn(lengths[..i + 1], k) == CountIn(lengths[..i], k) + if lengths[i] == k then 1 else 0
    {
      CountInStep(lengths, i, k);
    }
    if lengths[i] != 0 {
      SlotInTable(lengths, i);
      forall s | 0 <= s < i && lengths[s] != 0
        ensures Slot(lengths, s) != Slot(lengths, i)
      {
        SlotsDiffer(lengths, s, i);
      }
    }
  }

  method CountLengths(lengths: seq<nat>) returns (ok: bool, counts: array<nat>)
    ensures fresh(counts) && counts.Length == MAX_BITS + 1
    ensures ok <==> AllShort(lengths)
    ensures ok ==> forall k :: 0 <= k <= MAX_BITS ==> counts[k] == CountIn(lengths, k)
  {
    counts := new nat[MAX_BITS + 1](_ => 0);
    for i := 0 to |lengths|
      invariant CountedUpTo(lengths, i, counts[..])
    {
      if lengths[i] > MAX_BITS {
        return false, counts;
      }
      CountStep(lengths, i, counts[..]);
      counts[lengths[i]] := counts[lengths[i]] + 1;
    }
    assert lengths[..|lengths|] == lengths;
    forall k | 0 <= k <= MAX_BITS
      ensures counts[k] == CountIn(lengths, k)
    {
      assert counts[..][k] == CountIn(lengths, k);
    }
    return true, counts;
  }

  method StartOffsets(counts: array<nat>) returns (offsets: array<nat>)
    requires counts.Length == MAX_BITS + 1 && counts[0] == 0
    ensures fresh(offsets) && offsets.Length == MAX_BITS + 1
    ensures forall k :: 0 < k <= MAX_BITS ==> offsets[k] == Offset(counts[..], k)
  {
    offsets := new nat[MAX_BITS + 1](_ => 0);
    ghost var count := counts[..];
    for len := 1 to MAX_BITS
      invariant forall k :: 0 < k <= len ==> offsets[k] == Offset(count, k)
    {
      offsets[len + 1] := offsets[len] + counts[len];
    }
  }

  method PlaceSymbols(lengths: seq<nat>, offsets: array<nat>, symbols: array<nat>)
    requires AllShort(lengths)
    requires offsets != symbols
    requires SortedUpTo(lengths, 0, offsets[..], symbols[..])
    requires symbols.Length == Offset(Counts(lengths), MAX_BITS + 1)
    modifies offsets, symbols
    ensures SortedUpTo(lengths, |lengths|, offsets[..], symbols[..])
  {
    for symbol := 0 to |lengths|
      invariant SortedUpTo(lengths, symbol, offsets[..], symbols[..])
    {
      SortStep(lengths, symbol, offsets[..], symbols[..]);
      var len := lengths[symbol];
      if len != 0 {
        symbols[offsets[len]] := symbol;
        offsets[len] := offsets[len] + 1;
      }
    }
  }

  /** Counting sort of the symbols by code length.  The source counts and stores
      symbols in 16 bits, so it is only called with fewer than 65536 lengths. */
  method NewHuffman(lengths: seq<nat>) returns (r: Option<Huffman>)
    requires |lengths| < 65536
    ensures r.Some? <==> AllShort(lengths)
    ensures r.Some? ==> TableFor(r.value, lengths)
  {
    var ok, counts := CountLengths(lengths);
    if !ok {
      return None;
    }
    var used := |lengths| - counts[0];
    UsedSymbols(lengths);
    counts[0] := 0;
    assert counts[..] == Counts(lengths);
    var offsets := StartOffsets(counts);
    var symbols := new nat[used](_ => 0);
    PlaceSymbols(lengths, offsets, symbols);
    return Some(Huffman(counts[..], symbols[..]));
  }
}
