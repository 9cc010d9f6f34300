/** LZ77 history: the unbounded sequence of everything output so far, the copies taken
    from it, and the 32 KiB window the inflater keeps (src/fmtool/src/deflate.rs). */
module Lz77 {
  import opened Bits

  const WINDOW_SIZE: nat := 32768

  /** The last min(32768, n) bytes of the history. */
  function Window(history: seq<byte>): (window: seq<byte>)
    ensures |window| <= WINDOW_SIZE && |window| <= |history|
  {
    if |history| <= WINDOW_SIZE then history else history[|history| - WINDOW_SIZE..]
  }

  /** Appends `len` bytes, each one `distance` back from the current end; the source and
      the target may overlap. */
  function CopyBack(history: seq<byte>, distance: nat, len: nat): (r: seq<byte>)
    requires 0 < distance <= |history|
    ensures |r| == |history| + len
    decreases len
  {
    if len == 0 then history
    else CopyBack(history + [history[|history| - distance]], distance, len - 1)
  }

  /** The copy is the unique continuation of the history with period `distance`. */
  lemma {:induction false} CopyBackIsPeriodic(history: seq<byte>, distance: nat, len: nat, r: seq<byte>)
    requires 0 < distance <= |history|
    ensures r == CopyBack(history, distance, len) <==>
            && |r| == |history| + len && r[..|history|] == history
            && forall i :: |history| <= i < |r| ==> r[i] == r[i - distance]
    decreases len
  {
    if len == 0 {
      assert |r| == |history| ==> r[..|history|] == r;
    } else {
      var next := history + [history[|history| - distance]];
      CopyBackIsPeriodic(next, distance, len - 1, r);
      if |r| == |history| + len && r[..|history|] == history
         && forall i :: |history| <= i < |r| ==> r[i] == r[i - distance] {
        assert r[|history|] == r[|history| - distance] == r[..|history|][|history| - distance];
        assert r[..|next|] == next;
      }
      if r == CopyBack(history, distance, len) {
        assert r[..|history|] == r[..|next|][..|history|] == next[..|history|];
        assert r[|history|] == r[..|next|][|history|];
        assert r[|history| - distance] == r[..|next|][|history| - distance];
      }
    }
  }

  /** A copy of len + 1 bytes is a copy of len bytes and one more. */
  lemma {:induction false} CopyBackSnoc(history: seq<byte>, distance: nat, len: nat)
    requires 0 < distance <= |history|
    ensures var r := CopyBack(history, distance, len);
            CopyBack(history, distance, len + 1) == r + [r[|r| - distance]]
    decreases len
  {
    if len > 0 {
      CopyBackSnoc(history + [history[|history| - distance]], distance, len - 1);
    }
  }

  /** A byte read `distance` back from the end of the window is the byte that far back in
      the whole history. */
  lemma WindowByte(history: seq<byte>, distance: nat)
    requires 0 < distance <= WINDOW_SIZE
    ensures distance <= |Window(history)| <==> distance <= |history|
    ensures distance <= |history| ==>
              Window(history)[|Window(history)| - distance] == history[|history| - distance]
  {
  }

  /** Pushing a byte and dropping the surplus from the front keeps the window. */
  lemma WindowPush(history: seq<byte>, b: byte)
    ensures var grown := Window(history) + [b];
            Window(history + [b]) == if |grown| > WINDOW_SIZE then grown[|grown| - WINDOW_SIZE..] else grown
  {
  }
}
