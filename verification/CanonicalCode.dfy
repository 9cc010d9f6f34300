/** Canonical prefix codes (RFC 1951 section 3.2.2; the code of RFC 7541 Appendix B is
    one too).  A code book gives every symbol a word; `count[k]` is the number of words
    of length k, and the words of each length are consecutive numbers starting at `First`. */
module CanonicalCode {
  import opened Wrappers
  import opened Bits

  /** A code word: `len` bits whose value, most significant bit first, is `code`.
      Length zero marks a symbol that is not used. */
  datatype Word = Word(code: nat, len: nat)

  /** The smallest code of length k. */
  function First(count: seq<nat>, k: nat): nat
    requires k <= |count|
  {
    if k == 0 then 0 else 2 * (First(count, k - 1) + count[k - 1])
  }

  /** The first number of length k that is past every word of length k. */
  function Past(count: seq<nat>, k: nat): nat
    requires k < |count|
  {
    First(count, k) + count[k]
  }

  ghost predicate IsCanonical(book: seq<Word>, count: seq<nat>) {
    && 0 < |count| && count[0] == 0
    && (forall s :: 0 <= s < |book| && book[s].len != 0 ==> WithinClass(book[s], count))
    && (forall s, t :: 0 <= s < |book| && 0 <= t < |book| && book[s].len != 0 && book[s] == book[t] ==> s == t)
    && (forall k, c :: 0 < k < |count| && First(count, k) <= c < Past(count, k) ==> Word(c, k) in book)
  }

  ghost predicate WithinClass(w: Word, count: seq<nat>) {
    && w.len < |count|
    && First(count, w.len) <= w.code < Past(count, w.len)
  }

  /** The bits begin with this code word. */
  ghost predicate Matches(w: Word, bits: seq<bit>) {
    && 0 < w.len <= |bits|
    && MsbVal(bits[..w.len]) == w.code
  }

  /** Once a prefix of the bits falls below the end of its length class, every longer
      prefix stays below the first code of its own class. */
  lemma {:induction false} StaysBelow(count: seq<nat>, bits: seq<bit>, j: nat, k: nat)
    requires j < k < |count| && k <= |bits|
    requires MsbVal(bits[..j]) < Past(count, j)
    ensures MsbVal(bits[..k]) < First(count, k)
  {
    assert bits[..k][..k - 1] == bits[..k - 1];
    if j < k - 1 {
      StaysBelow(count, bits, j, k - 1);
    }
  }

  /** No bit string starts with the words of two symbols: the code is prefix-free.
      Nothing is asked of the lengths: an over-subscribed code is prefix-free on the
      words that fit their length, and the others match nothing. */
  lemma MatchIsUnique(book: seq<Word>, count: seq<nat>, bits: seq<bit>, s: nat, t: nat)
    requires IsCanonical(book, count)
    requires s < |book| && t < |book|
    requires Matches(book[s], bits) && Matches(book[t], bits)
    ensures s == t
  {
    var ws, wt := book[s], book[t];
    assert WithinClass(ws, count) && WithinClass(wt, count);
    if ws.len < wt.len {
      StaysBelow(count, bits, ws.len, wt.len);
    } else if wt.len < ws.len {
      StaysBelow(count, bits, wt.len, ws.len);
    }
  }

  /** No prefix shorter than k bits lies below the end of its length class. */
  ghost predicate AboveUpTo(count: seq<nat>, bits: seq<bit>, k: nat)
    requires k <= |count| && k <= |bits| + 1
  {
    forall j :: 0 <= j < k ==> Past(count, j) <= MsbVal(bits[..j])
  }

  /** If the first `k` bits lie below the end of class k and no shorter prefix lies below
      the end of its own class, those bits are a code word. */
  lemma FirstBelowIsAWord(book: seq<Word>, count: seq<nat>, bits: seq<bit>, k: nat) returns (s: nat)
    requires IsCanonical(book, count)
    requires 0 < k < |count| && k <= |bits|
    requires AboveUpTo(count, bits, k)
    requires MsbVal(bits[..k]) < Past(count, k)
    ensures s < |book| && Matches(book[s], bits) && book[s].len == k
  {
    assert bits[..k][..k - 1] == bits[..k - 1];
    assert First(count, k) <= MsbVal(bits[..k]);
    assert Word(MsbVal(bits[..k]), k) in book;
    s :| 0 <= s < |book| && book[s] == Word(MsbVal(bits[..k]), k);
  }

  /** If no prefix lies below the end of its class, no word matches. */
  lemma NoneBelowNoMatch(book: seq<Word>, count: seq<nat>, bits: seq<bit>)
    requires IsCanonical(book, count)
    requires AboveUpTo(count, bits, if |bits| < |count| then |bits| + 1 else |count|)
    ensures forall s :: 0 <= s < |book| ==> !Matches(book[s], bits)
  {
  }

  /** A code whose last class ends exactly at 2^maxLen is complete: every string of at
      least maxLen bits starts with the word of some symbol. */
  lemma CompleteCodeMatches(book: seq<Word>, count: seq<nat>, bits: seq<bit>) returns (s: nat)
    requires IsCanonical(book, count)
    requires |bits| >= |count| - 1
    requires Past(count, |count| - 1) >= Pow2(|count| - 1)
    ensures s < |book| && Matches(book[s], bits)
  {
    var k := 0;
    while Past(count, k) <= MsbVal(bits[..k])
      invariant 0 <= k < |count|
      invariant AboveUpTo(count, bits, k)
      decreases |count| - k
    {
      assert k != |count| - 1 by { assert |bits[..k]| == k; }
      k := k + 1;
    }
    assert k > 0 by { assert MsbVal(bits[..0]) == 0; }
    s := FirstBelowIsAWord(book, count, bits, k);
  }

  /** Classes that fit at the longest length fit at every length. */
  lemma {:induction false} PastFits(count: seq<nat>, k: nat, n: nat)
    requires k <= n < |count|
    requires Past(count, n) <= Pow2(n)
    ensures Past(count, k) <= Pow2(k)
    decreases n - k
  {
    if k < n {
      PastFits(count, k + 1, n);
      assert First(count, k + 1) == 2 * Past(count, k);
      assert Pow2(k + 1) == 2 * Pow2(k);
    }
  }

  /** The bits of a word, most significant bit first. */
  function WordBits(w: Word): (bits: seq<bit>)
    ensures |bits| == w.len
  {
    MsbBits(w.code, w.len)
  }

  predicate Fits(w: Word) {
    0 < w.len && w.code < Pow2(w.len)
  }

  /** A word that fits its length is matched at the head of its own bits. */
  lemma WordMatches(w: Word, rest: seq<bit>)
    requires Fits(w)
    ensures Matches(w, WordBits(w) + rest)
  {
    assert (WordBits(w) + rest)[..w.len] == WordBits(w);
    MsbRoundTrip(w.code, w.len);
  }

  /** A match means the word fits and its bits head the stream. */
  lemma MatchSplits(w: Word, bits: seq<bit>)
    requires Matches(w, bits)
    ensures Fits(w) && bits == WordBits(w) + bits[w.len..]
  {
    MsbBitsOfVal(bits[..w.len]);
  }

  // ---------- reading one symbol ----------

  /** The symbol whose word heads the bits, if any. */
  ghost predicate Heads(book: seq<Word>, bits: seq<bit>, s: nat) {
    s < |book| && Matches(book[s], bits)
  }

  ghost predicate NoneHeads(book: seq<Word>, bits: seq<bit>) {
    forall s: nat :: !Heads(book, bits, s)
  }

  /** The symbol whose word heads the bits, if there is one. */
  ghost function SymbolIn(book: seq<Word>, bits: seq<bit>): (r: Option<nat>)
    ensures r.Some? ==> Heads(book, bits, r.value)
    ensures r.None? ==> NoneHeads(book, bits)
  {
    if s: nat :| Heads(book, bits, s) then Some(s) else None
  }

  lemma SymbolInHead(book: seq<Word>, count: seq<nat>, bits: seq<bit>, s: nat)
    requires IsCanonical(book, count) && Heads(book, bits, s)
    ensures SymbolIn(book, bits) == Some(s)
  {
    MatchIsUnique(book, count, bits, s, SymbolIn(book, bits).value);
  }

  /** A symbol and the bits after its word. */
  datatype Symbol = Symbol(symbol: nat, rest: seq<bit>)

  /** Reads one symbol from the front of the bits. */
  ghost function ReadWord(book: seq<Word>, bits: seq<bit>): (r: Option<Symbol>)
    ensures r.Some? ==> |r.value.rest| < |bits| && r.value.symbol < |book|
  {
    match SymbolIn(book, bits)
    case None => None
    case Some(s) => Some(Symbol(s, bits[book[s].len..]))
  }

  /** Reading and writing symbols are inverse: a word followed by any bits is read back as
      its symbol with exactly its own bits consumed, and whatever is read was written so. */
  lemma WordRoundTrip(book: seq<Word>, count: seq<nat>, bits: seq<bit>, s: nat, rest: seq<bit>)
    requires IsCanonical(book, count)
    ensures ReadWord(book, bits) == Some(Symbol(s, rest)) <==>
            s < |book| && Fits(book[s]) && bits == WordBits(book[s]) + rest
  {
    if s < |book| && Fits(book[s]) && bits == WordBits(book[s]) + rest {
      WordMatches(book[s], rest);
      SymbolInHead(book, count, bits, s);
      assert bits[book[s].len..] == rest;
    }
    if ReadWord(book, bits) == Some(Symbol(s, rest)) {
      MatchSplits(book[s], bits);
    }
  }
}
