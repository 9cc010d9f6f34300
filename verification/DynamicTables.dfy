/** The header of a dynamic block (RFC 1951 section 3.2.7; src/fmtool/src/deflate.rs). */
module DynamicTables {
  import opened Wrappers
  import opened Bits
  import opened CanonicalCode
  import opened HuffmanTables

  const ORDER: seq<nat> := [16, 17, 18, 0, 8, 7, 9, 6, 10, 5, 11, 4, 12, 3, 13, 2, 14, 1, 15]

  function OrderAt(i: nat): (s: nat)
    requires i < 19
    ensures s < 19
  {
    ORDER[i]
  }

  /** A list of numbers and the bits after it. */
  datatype Lengths = Lengths(lengths: seq<nat>, rest: seq<bit>)

  // ---------- the code length code ----------

  /** Reads 3-bit numbers until there are n of them. */
  function ReadTriples(bits: seq<bit>, n: nat, got: seq<nat>): (r: Option<Lengths>)
    requires |got| <= n
    ensures r.Some? ==> |r.value.lengths| == n && |r.value.rest| <= |bits|
    decreases n - |got|
  {
    if |got| == n then Some(Lengths(got, bits))
    else
      match ReadNumber(bits, 3)
      case None => None
      case Some(Number(v, rest)) => ReadTriples(rest, n, got + [v])
  }

  function TriplesBits(vals: seq<nat>): seq<bit> {
    if vals == [] then [] else LsbBits(vals[0], 3) + TriplesBits(vals[1..])
  }

  predicate Triples(vals: seq<nat>) {
    forall i :: 0 <= i < |vals| ==> vals[i] < Pow2(3)
  }

  lemma {:induction false} TriplesRoundTrip(bits: seq<bit>, n: nat, got: seq<nat>, vals: seq<nat>, rest: seq<bit>)
    requires |got| <= n
    ensures ReadTriples(bits, n, got) == Some(Lengths(vals, rest)) <==>
            && |vals| == n && got <= vals && Triples(vals[|got|..])
            && bits == TriplesBits(vals[|got|..]) + rest
    decreases n - |got|
  {
    hide ReadNumber, LsbBits, Pow2;
    if |got| == n {
      assert TriplesBits([]) + rest == rest;
      if |vals| == n && got <= vals {
        assert vals == got && vals[|got|..] == [];
      }
    } else {
      if |vals| == n && got <= vals && Triples(vals[|got|..]) && bits == TriplesBits(vals[|got|..]) + rest {
        var v, tail := vals[|got|], vals[|got| + 1..];
        assert vals[|got|..][0] == v && vals[|got|..][1..] == tail;
        Assoc(LsbBits(v, 3), TriplesBits(tail), rest);
        NumberRoundTrip(bits, 3, v, TriplesBits(tail) + rest);
        TriplesRoundTrip(TriplesBits(tail) + rest, n, got + [v], vals, rest);
      }
      if ReadTriples(bits, n, got) == Some(Lengths(vals, rest)) {
        var Number(v, after) := ReadNumber(bits, 3).value;
        NumberRoundTrip(bits, 3, v, after);
        TriplesRoundTrip(after, n, got + [v], vals, rest);
        var tail := vals[|got| + 1..];
        assert vals[|got|..] == [v] + tail;
        assert (vals[|got|..])[1..] == tail;
        Assoc(LsbBits(v, 3), TriplesBits(tail), rest);
      }
    }
  }

  /** The code length code: the k-th number read is the length of symbol ORDER[k]. */
  function Placed(vals: seq<nat>): (lengths: seq<nat>)
    requires |vals| <= 19
    ensures |lengths| == 19
  {
    if vals == [] then seq(19, _ => 0)
    else Placed(vals[..|vals| - 1])[OrderAt(|vals| - 1) := vals[|vals| - 1]]
  }

  lemma {:induction false} PlacedShort(vals: seq<nat>)
    requires |vals| <= 19 && Triples(vals)
    ensures AllShort(Placed(vals))
  {
    assert Pow2(3) == 8;
    if vals != [] {
      PlacedShort(vals[..|vals| - 1]);
    }
  }

  // ---------- the run-length coded lengths ----------

  /** One code of the length alphabet: a length, "repeat the last one", "a few zeros",
      "many zeros", each repeat with its extra bits. */
  datatype Run =
    | Len(n: nat)
    | Repeat(extra: nat)
    | Zeros(extra: nat)
    | ManyZeros(extra: nat)

  function RunSymbol(r: Run): nat {
    match r
    case Len(n) => n
    case Repeat(_) => 16
    case Zeros(_) => 17
    case ManyZeros(_) => 18
  }

  function ExtraBits(symbol: nat): nat {
    if symbol == 16 then 2 else if symbol == 17 then 3 else if symbol == 18 then 7 else 0
  }

  function ExtraOf(r: Run): nat {
    if r.Len? then 0 else r.extra
  }

  predicate RunWellFormed(r: Run, lengths: seq<nat>) {
    match r
    case Len(n) => n <= 15
    case Repeat(e) => e < Pow2(2) && lengths != []
    case Zeros(e) => e < Pow2(3)
    case ManyZeros(e) => e < Pow2(7)
  }

  function Copies(v: nat, n: nat): (r: seq<nat>)
    ensures |r| == n && forall i :: 0 <= i < n ==> r[i] == v
  {
    seq(n, _ => v)
  }

  function ApplyRun(r: Run, lengths: seq<nat>): (all: seq<nat>)
    requires RunWellFormed(r, lengths)
    ensures |lengths| < |all|
  {
    match r
    case Len(n) => lengths + [n]
    case Repeat(e) => lengths + Copies(lengths[|lengths| - 1], 3 + e)
    case Zeros(e) => lengths + Copies(0, 3 + e)
    case ManyZeros(e) => lengths + Copies(0, 11 + e)
  }

  ghost function RunBits(header: seq<nat>, r: Run): seq<bit> {
    Code(header, RunSymbol(r)) + LsbBits(ExtraOf(r), ExtraBits(RunSymbol(r)))
  }

  /** The run that a symbol and its extra bits stand for. */
  function MakeRun(symbol: nat, extra: nat): Run {
    if symbol <= 15 then Len(symbol)
    else if symbol == 16 then Repeat(extra)
    else if symbol == 17 then Zeros(extra)
    else ManyZeros(extra)
  }

  /** One code of the length alphabet and the bits after it. */
  datatype RunRead = RunRead(run: Run, rest: seq<bit>)

  ghost function ReadRun(header: seq<nat>, bits: seq<bit>, lengths: seq<nat>): (r: Option<RunRead>)
    ensures r.Some? ==> |r.value.rest| < |bits| && RunWellFormed(r.value.run, lengths)
  {
    match ReadSymbol(header, bits)
    case None => None
    case Some(Symbol(symbol, afterCode)) =>
      if symbol > 18 || (symbol == 16 && lengths == []) then None
      else
        match ReadNumber(afterCode, ExtraBits(symbol))
        case None => None
        case Some(Number(extra, rest)) =>
          assert extra < Pow2(ExtraBits(symbol));
          Some(RunRead(MakeRun(symbol, extra), rest))
  }

  lemma RunRoundTrip(header: seq<nat>, bits: seq<bit>, lengths: seq<nat>, run: Run, rest: seq<bit>)
    requires AllShort(header)
    ensures ReadRun(header, bits, lengths) == Some(RunRead(run, rest)) <==>
            && RunWellFormed(run, lengths) && Writable(header, RunSymbol(run))
            && bits == RunBits(header, run) + rest
  {
    hide AllShort, ReadSymbol, Writable, Code, ReadNumber, LsbBits, Pow2;
    if RunWellFormed(run, lengths) && Writable(header, RunSymbol(run)) && bits == RunBits(header, run) + rest {
      var symbol := RunSymbol(run);
      var code, extra := Code(header, symbol), LsbBits(ExtraOf(run), ExtraBits(symbol));
      Assoc(code, extra, rest);
      SymbolRoundTrip(header, bits, symbol, extra + rest);
      assert Pow2(0) > 0;
      NumberRoundTrip(extra + rest, ExtraBits(symbol), ExtraOf(run), rest);
    }
    if ReadRun(header, bits, lengths) == Some(RunRead(run, rest)) {
      var Symbol(symbol, afterCode) := ReadSymbol(header, bits).value;
      SymbolRoundTrip(header, bits, symbol, afterCode);
      var Number(extra, after) := ReadNumber(afterCode, ExtraBits(symbol)).value;
      NumberRoundTrip(afterCode, ExtraBits(symbol), extra, after);
      assert symbol <= 15 ==> extra == 0 by { Pow2Zero(); }
      Assoc(Code(header, symbol), LsbBits(extra, ExtraBits(symbol)), rest);
    }
  }

  lemma Pow2Zero()
    ensures Pow2(0) == 1
  {
  }

  /** Reads codes until `count` lengths are there; overshooting is an error. */
  ghost function ReadRuns(header: seq<nat>, bits: seq<bit>, lengths: seq<nat>, count: nat): (r: Option<Lengths>)
    ensures r.Some? ==> |r.value.lengths| == count && |r.value.rest| <= |bits|
    decreases |bits|
  {
    if |lengths| >= count then if |lengths| == count then Some(Lengths(lengths, bits)) else None
    else
      match ReadRun(header, bits, lengths)
      case None => None
      case Some(RunRead(run, rest)) => ReadRuns(header, rest, ApplyRun(run, lengths), count)
  }

  /** The runs fill `lengths` up to exactly `count`, and no proper prefix of them does. */
  ghost predicate RunsFill(header: seq<nat>, runs: seq<Run>, lengths: seq<nat>, count: nat) {
    if runs == [] then |lengths| == count
    else
      && |lengths| < count
      && RunWellFormed(runs[0], lengths) && Writable(header, RunSymbol(runs[0]))
      && RunsFill(header, runs[1..], ApplyRun(runs[0], lengths), count)
  }

  ghost function ApplyRuns(header: seq<nat>, runs: seq<Run>, lengths: seq<nat>, count: nat): seq<nat>
    requires RunsFill(header, runs, lengths, count)
  {
    if runs == [] then lengths else ApplyRuns(header, runs[1..], ApplyRun(runs[0], lengths), count)
  }

  ghost function RunsBits(header: seq<nat>, runs: seq<Run>): seq<bit> {
    if runs == [] then [] else RunBits(header, runs[0]) + RunsBits(header, runs[1..])
  }

  lemma {:induction false} RunsReadBack(header: seq<nat>, runs: seq<Run>, lengths: seq<nat>, count: nat, rest: seq<bit>)
    requires AllShort(header) && RunsFill(header, runs, lengths, count)
    ensures ReadRuns(header, RunsBits(header, runs) + rest, lengths, count)
            == Some(Lengths(ApplyRuns(header, runs, lengths, count), rest))
    decreases |runs|
  {
    hide AllShort, Writable, RunBits, ReadRun, RunWellFormed, ApplyRun;
    if runs == [] {
      assert RunsBits(header, runs) + rest == rest;
    } else {
      var tail := RunsBits(header, runs[1..]) + rest;
      Assoc(RunBits(header, runs[0]), RunsBits(header, runs[1..]), rest);
      RunRoundTrip(header, RunsBits(header, runs) + rest, lengths, runs[0], tail);
      RunsReadBack(header, runs[1..], ApplyRun(runs[0], lengths), count, rest);
    }
  }

  lemma {:induction false} RunsAreEncoded(header: seq<nat>, bits: seq<bit>, lengths: seq<nat>, count: nat)
      returns (runs: seq<Run>)
    requires AllShort(header) && ReadRuns(header, bits, lengths, count).Some?
    ensures RunsFill(header, runs, lengths, count)
    ensures bits == RunsBits(header, runs) + ReadRuns(header, bits, lengths, count).value.rest
    ensures ReadRuns(header, bits, lengths, count).value.lengths == ApplyRuns(header, runs, lengths, count)
    decreases |bits|
  {
    hide AllShort, Writable, RunBits, ReadRun, RunWellFormed, ApplyRun;
    if |lengths| >= count {
      runs := [];
    } else {
      var RunRead(run, rest) := ReadRun(header, bits, lengths).value;
      RunRoundTrip(header, bits, lengths, run, rest);
      var tail := RunsAreEncoded(header, rest, ApplyRun(run, lengths), count);
      runs := [run] + tail;
      assert runs[1..] == tail;
      Assoc(RunBits(header, run), RunsBits(header, tail), ReadRuns(header, bits, lengths, count).value.rest);
    }
  }

  lemma {:induction false} RunsStayShort(header: seq<nat>, runs: seq<Run>, lengths: seq<nat>, count: nat)
    requires RunsFill(header, runs, lengths, count) && AllShort(lengths)
    ensures AllShort(ApplyRuns(header, runs, lengths, count))
    decreases |runs|
  {
    if runs != [] {
      RunsStayShort(header, runs[1..], ApplyRun(runs[0], lengths), count);
    }
  }

  // ---------- the whole header ----------

  /** The code lengths of the two alphabets, and the bits after the header. */
  datatype Tables = Tables(lit: seq<nat>, dist: Option<seq<nat>>, rest: seq<bit>)

  function Split(hlit: nat, lengths: seq<nat>, rest: seq<bit>): Tables
    requires hlit <= |lengths|
  {
    var used := exists i :: hlit <= i < |lengths| && lengths[i] != 0;
    Tables(lengths[..hlit], if used then Some(lengths[hlit..]) else None, rest)
  }

  ghost function ReadHeader(bits: seq<bit>): (r: Option<Tables>)
    ensures r.Some? ==> |r.value.rest| <= |bits|
  {
    match ReadNumber(bits, 5)
    case None => None
    case Some(Number(hlit, b1)) =>
      match ReadNumber(b1, 5)
      case None => None
      case Some(Number(hdist, b2)) =>
        match ReadNumber(b2, 4)
        case None => None
        case Some(Number(hclen, b3)) =>
          if hlit + 257 > 286 || hdist + 1 > 30 then None
          else ReadLengths(hlit + 257, hdist + 1, hclen + 4, b3)
  }

  ghost function ReadLengths(hlit: nat, hdist: nat, hclen: nat, bits: seq<bit>): (r: Option<Tables>)
    ensures r.Some? ==> |r.value.rest| <= |bits|
  {
    if hclen > 19 then None
    else
      match ReadTriples(bits, hclen, [])
      case None => None
      case Some(Lengths(vals, b4)) =>
        match ReadRuns(Placed(vals), b4, [], hlit + hdist)
        case None => None
        case Some(Lengths(lengths, rest)) => Some(Split(hlit, lengths, rest))
  }

  /** A dynamic header: the two table sizes, the code length code, and the coded runs. */
  datatype Header = Header(hlit: nat, hdist: nat, triples: seq<nat>, runs: seq<Run>)

  ghost predicate HeaderFits(h: Header) {
    && 257 <= h.hlit <= 286 && 1 <= h.hdist <= 30
    && 4 <= |h.triples| <= 19 && Triples(h.triples)
    && RunsFill(Placed(h.triples), h.runs, [], h.hlit + h.hdist)
  }

  ghost function HeaderBits(h: Header): seq<bit>
    requires HeaderFits(h)
  {
    LsbBits(h.hlit - 257, 5) + (LsbBits(h.hdist - 1, 5) + (LsbBits(|h.triples| - 4, 4)
      + (TriplesBits(h.triples) + RunsBits(Placed(h.triples), h.runs))))
  }

  ghost function HeaderTables(h: Header, rest: seq<bit>): Tables
    requires HeaderFits(h)
  {
    FillLength(Placed(h.triples), h.runs, [], h.hlit + h.hdist);
    Split(h.hlit, ApplyRuns(Placed(h.triples), h.runs, [], h.hlit + h.hdist), rest)
  }

  lemma {:induction false} FillLength(header: seq<nat>, runs: seq<Run>, lengths: seq<nat>, count: nat)
    requires RunsFill(header, runs, lengths, count)
    ensures |ApplyRuns(header, runs, lengths, count)| == count
    decreases |runs|
  {
    if runs != [] {
      FillLength(header, runs[1..], ApplyRun(runs[0], lengths), count);
    }
  }

  lemma HeaderReadsBack(h: Header, rest: seq<bit>)
    requires HeaderFits(h)
    ensures ReadHeader(HeaderBits(h) + rest) == Some(HeaderTables(h, rest))
  {
    hide ReadNumber, LsbBits, ReadTriples, TriplesBits, Triples, Placed, ReadRuns, RunsFill, ApplyRuns, RunsBits,
         AllShort, Split;
    Pow2Values();
    var header := Placed(h.triples);
    var n1, n2, n3, triples, runs := LsbBits(h.hlit - 257, 5), LsbBits(h.hdist - 1, 5), LsbBits(|h.triples| - 4, 4),
                                     TriplesBits(h.triples), RunsBits(header, h.runs);
    Assoc(n1, n2 + (n3 + (triples + runs)), rest);
    Assoc(n2, n3 + (triples + runs), rest);
    Assoc(n3, triples + runs, rest);
    Assoc(triples, runs, rest);
    NumberRoundTrip(HeaderBits(h) + rest, 5, h.hlit - 257, n2 + (n3 + (triples + (runs + rest))));
    NumberRoundTrip(n2 + (n3 + (triples + (runs + rest))), 5, h.hdist - 1, n3 + (triples + (runs + rest)));
    NumberRoundTrip(n3 + (triples + (runs + rest)), 4, |h.triples| - 4, triples + (runs + rest));
    assert h.triples[0..] == h.triples;
    TriplesRoundTrip(triples + (runs + rest), |h.triples|, [], h.triples, runs + rest);
    PlacedShort(h.triples);
    RunsReadBack(header, h.runs, [], h.hlit + h.hdist, rest);
  }

  lemma Pow2Values()
    ensures Pow2(4) == 16 && Pow2(5) == 32
  {
    assert Pow2(2) == 4;
  }

  /** Whatever header is read is the encoding of some header, with the same tables. */
  lemma HeaderIsEncoded(bits: seq<bit>) returns (h: Header)
    requires ReadHeader(bits).Some?
    ensures HeaderFits(h) && bits == HeaderBits(h) + ReadHeader(bits).value.rest
    ensures ReadHeader(bits).value == HeaderTables(h, ReadHeader(bits).value.rest)
  {
    hide ReadNumber, LsbBits, ReadTriples, TriplesBits, Triples, Placed, ReadRuns, RunsFill, ApplyRuns, RunsBits,
         AllShort;
    var Number(hlit, b1) := ReadNumber(bits, 5).value;
    NumberRoundTrip(bits, 5, hlit, b1);
    var Number(hdist, b2) := ReadNumber(b1, 5).value;
    NumberRoundTrip(b1, 5, hdist, b2);
    var Number(hclen, b3) := ReadNumber(b2, 4).value;
    NumberRoundTrip(b2, 4, hclen, b3);
    var Lengths(vals, b4) := ReadTriples(b3, hclen + 4, []).value;
    assert vals[0..] == vals;
    TriplesRoundTrip(b3, hclen + 4, [], vals, b4);
    PlacedShort(vals);
    var runs := RunsAreEncoded(Placed(vals), b4, [], hlit + 257 + (hdist + 1));
    h := Header(hlit + 257, hdist + 1, vals, runs);
    var rest := ReadRuns(Placed(vals), b4, [], hlit + 257 + (hdist + 1)).value.rest;
    var n1, n2, n3, tb, rb := LsbBits(hlit, 5), LsbBits(hdist, 5), LsbBits(hclen, 4), TriplesBits(vals),
        RunsBits(Placed(vals), runs);
    Assoc(tb, rb, rest);
    Assoc(n3, tb + rb, rest);
    Assoc(n2, n3 + (tb + rb), rest);
    Assoc(n1, n2 + (n3 + (tb + rb)), rest);
  }

  /** The tables a header announces have code lengths of at most 15. */
  lemma HeaderTablesShort(h: Header, rest: seq<bit>)
    requires HeaderFits(h)
    ensures var t := HeaderTables(h, rest);
            AllShort(t.lit) && |t.lit| == h.hlit
            && (t.dist.Some? ==> AllShort(t.dist.value) && |t.dist.value| == h.hdist)
  {
    FillLength(Placed(h.triples), h.runs, [], h.hlit + h.hdist);
    RunsStayShort(Placed(h.triples), h.runs, [], h.hlit + h.hdist);
  }

  // ---------- the tables of RFC 1951 section 3.2.7, stated without them ----------

  /** The order of the code length codes: the three repeats, no code at all, and then outwards
      from length 8. */
  lemma OrderIs(i: nat)
    requires i < 19
    ensures OrderAt(i) == if i < 3 then 16 + i
                          else if i == 3 then 0
                          else if i % 2 == 0 then 8 + (i - 4) / 2
                          else 8 - (i - 3) / 2
  {
  }

  /** So every code length code has one place in the header. */
  lemma OrderIsOnto(symbol: nat) returns (i: nat)
    requires symbol < 19
    ensures i < 19 && OrderAt(i) == symbol && forall j: nat :: j < 19 && OrderAt(j) == symbol ==> j == i
  {
    i := if symbol >= 16 then symbol - 16
         else if symbol == 0 then 3
         else if symbol >= 8 then 4 + 2 * (symbol - 8)
         else 3 + 2 * (8 - symbol);
    OrderIs(i);
    forall j: nat | j < 19 && OrderAt(j) == symbol ensures j == i {
      OrderIs(j);
    }
  }

  /** A repeat stands for 3 to 6 copies of the last length, and its two extra bits are the
      number of copies beyond 3; 17 stands for 3 to 10 zeros, with three extra bits, and 18
      for 11 to 138, with seven. */
  lemma RunMeans(header: seq<nat>, lengths: seq<nat>, n: nat)
    ensures 3 <= n <= 6 && lengths != [] ==>
              var r := Repeat(n - 3);
              && RunWellFormed(r, lengths) && ApplyRun(r, lengths) == lengths + Copies(lengths[|lengths| - 1], n)
              && RunBits(header, r) == Code(header, 16) + LsbBits(n - 3, 2)
    ensures 3 <= n <= 10 ==>
              var r := Zeros(n - 3);
              && RunWellFormed(r, lengths) && ApplyRun(r, lengths) == lengths + Copies(0, n)
              && RunBits(header, r) == Code(header, 17) + LsbBits(n - 3, 3)
    ensures 11 <= n <= 138 ==>
              var r := ManyZeros(n - 11);
              && RunWellFormed(r, lengths) && ApplyRun(r, lengths) == lengths + Copies(0, n)
              && RunBits(header, r) == Code(header, 18) + LsbBits(n - 11, 7)
    ensures n <= 15 ==>
              var r := Len(n);
              && RunWellFormed(r, lengths) && ApplyRun(r, lengths) == lengths + [n]
              && RunBits(header, r) == Code(header, n)
  {
    hide Code, LsbBits;
    Pow2Small();
    assert LsbBits(0, 0) == [] by { NoBits(); }
    assert Code(header, n) + [] == Code(header, n);
  }

  lemma NoBits()
    ensures LsbBits(0, 0) == []
  {
  }

  /** And no run stands for anything else: a repeat needs a length before it, and the extra
      numbers stay below 4, 8 and 128. */
  lemma RunsAreThese(r: Run, lengths: seq<nat>)
    requires RunWellFormed(r, lengths)
    ensures r.Len? ==> r.n <= 15
    ensures r.Repeat? ==> lengths != [] && r.extra <= 3
    ensures r.Zeros? ==> r.extra <= 7
    ensures r.ManyZeros? ==> r.extra <= 127
  {
    Pow2Small();
  }

  /** Headers that announce more than 286 literal and length codes, or more than 30 distance
      codes, are refused, whatever follows. */
  lemma LargeTablesAreRefused(hlit: nat, hdist: nat, rest: seq<bit>)
    requires hlit < 32 && hdist < 32 && (257 + hlit > 286 || 1 + hdist > 30)
    ensures ReadHeader(LsbBits(hlit, 5) + (LsbBits(hdist, 5) + rest)) == None
  {
    hide ReadNumber, LsbBits, ReadLengths;
    Pow2Small();
    NumberRoundTrip(LsbBits(hlit, 5) + (LsbBits(hdist, 5) + rest), 5, hlit, LsbBits(hdist, 5) + rest);
    NumberRoundTrip(LsbBits(hdist, 5) + rest, 5, hdist, rest);
  }
}
