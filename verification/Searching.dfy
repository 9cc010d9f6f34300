/** Finding one byte string inside another. */
module Searching {
  import opened Wrappers
  import opened Bits

  predicate Occurs(s: seq<byte>, needle: seq<byte>, p: nat) {
    p + |needle| <= |s| && s[p..p + |needle|] == needle
  }

  /** The first position at which the needle occurs. */
  function Search(s: seq<byte>, needle: seq<byte>): Option<nat>
    decreases |s|
  {
    if |s| < |needle| then None
    else if s[..|needle|] == needle then Some(0)
    else if s == [] then None
    else Shifted(Search(s[1..], needle), 1)
  }

  lemma {:induction false} SearchMeans(s: seq<byte>, needle: seq<byte>)
    ensures var at := Search(s, needle);
            && (at.Some? ==> Occurs(s, needle, at.value) && forall p :: 0 <= p < at.value ==> !Occurs(s, needle, p))
            && (at.None? ==> forall p :: 0 <= p ==> !Occurs(s, needle, p))
    decreases |s|
  {
    if |s| >= |needle| && s[..|needle|] != needle && s != [] {
      SearchMeans(s[1..], needle);
      OccursTail(s, needle);
    }
  }

  lemma OccursTail(s: seq<byte>, needle: seq<byte>)
    requires s != []
    ensures forall p :: 0 < p ==> (Occurs(s, needle, p) <==> Occurs(s[1..], needle, p - 1))
  {
  }

  function Shifted(at: Option<nat>, by_: nat): Option<nat> {
    match at case None => None case Some(k) => Some(k + by_)
  }

  lemma OccursShifted(u: seq<byte>, v: seq<byte>, needle: seq<byte>, p: nat)
    ensures Occurs(u + v, needle, |u| + p) <==> Occurs(v, needle, p)
  {
  }

  /** When the needle does not start in u, the search goes on in v. */
  lemma SearchSkips(u: seq<byte>, v: seq<byte>, needle: seq<byte>)
    requires forall p :: 0 <= p < |u| ==> !Occurs(u + v, needle, p)
    ensures Search(u + v, needle) == Shifted(Search(v, needle), |u|)
  {
    hide Occurs, Search;
    SearchMeans(u + v, needle);
    SearchMeans(v, needle);
    var a, b := Search(u + v, needle), Search(v, needle);
    if a.Some? {
      OccursShifted(u, v, needle, a.value - |u|);
      if b.Some? {
        OccursShifted(u, v, needle, b.value);
      }
    } else if b.Some? {
      OccursShifted(u, v, needle, b.value);
    }
  }

  lemma CrossCase(u: seq<byte>, v: seq<byte>, needle: seq<byte>, p: nat)
    requires needle != [] && v != [] && p < |u| && Occurs(u + v, needle, p)
    ensures Occurs(u, needle, p) || v[0] in needle[1..]
  {
    if p + |needle| <= |u| {
      assert u[p..p + |needle|] == (u + v)[p..p + |needle|];
    } else {
      assert (u + v)[p..p + |needle|][|u| - p] == v[0];
      assert needle[1..][|u| - p - 1] == v[0];
    }
  }

  /** A needle that is not in u does not start in u either, if it cannot reach over the
      first byte of v. */
  lemma CannotCross(u: seq<byte>, v: seq<byte>, needle: seq<byte>)
    requires needle != [] && v != [] && v[0] !in needle[1..] && Search(u, needle).None?
    ensures forall p :: 0 <= p < |u| ==> !Occurs(u + v, needle, p)
  {
    hide Occurs, Search;
    SearchMeans(u, needle);
    forall p | 0 <= p < |u| ensures !Occurs(u + v, needle, p) {
      if Occurs(u + v, needle, p) {
        CrossCase(u, v, needle, p);
      }
    }
  }

  /** A needle cannot start where its first byte is missing. */
  lemma NeedsFirst(u: seq<byte>, v: seq<byte>, needle: seq<byte>)
    requires needle != [] && needle[0] !in u
    ensures forall p :: 0 <= p < |u| ==> !Occurs(u + v, needle, p)
  {
  }

  /** Compares byte by byte. */
  method MatchesAt(haystack: seq<byte>, i: nat, needle: seq<byte>) returns (ok: bool)
    requires i + |needle| <= |haystack|
    ensures ok <==> Occurs(haystack, needle, i)
  {
    for j := 0 to |needle|
      invariant haystack[i..i + j] == needle[..j]
    {
      if haystack[i + j] != needle[j] {
        assert haystack[i..i + |needle|][j] != needle[j];
        return false;
      }
      assert haystack[i..i + j + 1] == haystack[i..i + j] + [haystack[i + j]];
      assert needle[..j + 1] == needle[..j] + [needle[j]];
    }
    assert needle[..|needle|] == needle;
    return true;
  }

  /** The first position from i on. */
  function Found(s: seq<byte>, i: nat, needle: seq<byte>): Option<nat>
    requires i <= |s|
  {
    Shifted(Search(s[i..], needle), i)
  }

  lemma FoundStep(s: seq<byte>, i: nat, needle: seq<byte>)
    requires needle != [] && i <= |s|
    ensures Found(s, i, needle)
            == if i + |needle| > |s| then None
               else if Occurs(s, needle, i) then Some(i) else Found(s, i + 1, needle)
  {
  }

  /** Tries every position in turn. */
  method FindFrom(haystack: seq<byte>, start: nat, needle: seq<byte>) returns (at: Option<nat>)
    requires start <= |haystack|
    ensures at == if needle == [] then None else Found(haystack, start, needle)
  {
    hide Occurs, Found;
    if needle == [] {
      return None;
    }
    var i := start;
    FoundStep(haystack, i, needle);
    while i + |needle| <= |haystack|
      invariant start <= i <= |haystack|
      invariant Found(haystack, start, needle) == Found(haystack, i, needle)
      decreases |haystack| - i
    {
      FoundStep(haystack, i, needle);
      var ok := MatchesAt(haystack, i, needle);
      if ok {
        return Some(i);
      }
      i := i + 1;
    }
    FoundStep(haystack, i, needle);
    return None;
  }
}
