/** Header blocks that use only the static table and unindexed literals, as the server's
    responses and the tool client's requests do. */
module HpackLiterals {
  import opened Wrappers
  import opened Bits
  import opened HpackPrimitives
  import opened Hpack

  /** A representation that neither reads nor changes the dynamic table. */
  predicate Stateless(r: Representation) {
    && Encodable(r)
    && (r.Indexed? ==> 1 <= r.index <= STATIC_SIZE)
    && (r.Literal? ==> r.indexing.Without? && r.nameIndex <= STATIC_SIZE)
    && !r.Resize?
  }

  function FieldOf(r: Representation): Field
    requires Stateless(r)
  {
    if r.Indexed? then StaticEntry(r.index)
    else Field(if r.nameIndex == 0 then r.name.text else StaticEntry(r.nameIndex).name, r.value.text)
  }

  function FieldsOf(rs: seq<Representation>): (fields: seq<Field>)
    requires forall i :: 0 <= i < |rs| ==> Stateless(rs[i])
    ensures |fields| == |rs| && forall i :: 0 <= i < |rs| ==> fields[i] == FieldOf(rs[i])
  {
    if rs == [] then [] else [FieldOf(rs[0])] + FieldsOf(rs[1..])
  }

  lemma {:induction false} StatelessMeaning(t: Table, rs: seq<Representation>, canResize: bool, out: seq<Field>)
    requires forall i :: 0 <= i < |rs| ==> Stateless(rs[i])
    ensures BlockMeaning(t, rs, canResize, out) == Block(t, Ok(out + FieldsOf(rs)))
    decreases |rs|
  {
    hide StaticEntry, Encodable;
    if rs == [] {
      assert out + [] == out;
    } else {
      var f := FieldOf(rs[0]);
      assert Meaning(t, rs[0], canResize, []) == Ok(Step(t, Some(f), []));
      StatelessMeaning(t, rs[1..], false, out + [f]);
      assert out + [f] + FieldsOf(rs[1..]) == out + FieldsOf(rs);
    }
  }

  /** Such a block decodes to the same fields on every connection, and leaves the dynamic
      table as it was. */
  lemma StatelessBlock(t: Table, rs: seq<Representation>)
    requires forall i :: 0 <= i < |rs| ==> Stateless(rs[i])
    ensures ReadBlock(t, BlockBytes(rs), true, []) == Block(t, Ok(FieldsOf(rs)))
  {
    hide ReadBlock, BlockMeaning, FieldsOf;
    BlockReadsBack(t, rs, true, []);
    StatelessMeaning(t, rs, true, []);
    assert [] + FieldsOf(rs) == FieldsOf(rs);
  }

  lemma {:induction false} BlockBytesSnoc(rs: seq<Representation>, r: Representation)
    ensures BlockBytes(rs + [r]) == BlockBytes(rs) + RepresentationBytes(r)
    decreases |rs|
  {
    hide RepresentationBytes;
    if rs == [] {
      assert [r][1..] == [];
      assert RepresentationBytes(r) + [] == [] + RepresentationBytes(r);
      assert rs + [r] == [r];
    } else {
      assert (rs + [r])[1..] == rs[1..] + [r];
      BlockBytesSnoc(rs[1..], r);
    }
  }

  lemma FieldsOfCons(r: Representation, rs: seq<Representation>)
    requires Stateless(r) && forall i :: 0 <= i < |rs| ==> Stateless(rs[i])
    ensures forall i :: 0 <= i < |[r] + rs| ==> Stateless(([r] + rs)[i])
    ensures FieldsOf([r] + rs) == [FieldOf(r)] + FieldsOf(rs)
  {
    assert ([r] + rs)[1..] == rs;
  }

  lemma {:induction false} FieldsOfConcat(a: seq<Representation>, b: seq<Representation>)
    requires forall i :: 0 <= i < |a + b| ==> Stateless((a + b)[i])
    ensures forall i :: 0 <= i < |a| ==> Stateless(a[i])
    ensures forall i :: 0 <= i < |b| ==> Stateless(b[i])
    ensures FieldsOf(a + b) == FieldsOf(a) + FieldsOf(b)
  {
    hide Stateless, FieldOf;
    forall i | 0 <= i < |a| ensures Stateless(a[i]) {
      assert a[i] == (a + b)[i];
    }
    forall i | 0 <= i < |b| ensures Stateless(b[i]) {
      assert b[i] == (a + b)[|a| + i];
    }
    if a == [] {
      assert a + b == b;
    } else {
      assert (a + b)[1..] == a[1..] + b;
      FieldsOfConcat(a[1..], b);
    }
  }

  function Named(index: nat, value: seq<byte>): Representation {
    Literal(Without, index, Plain([]), Plain(value))
  }

  function Spelled(name: seq<byte>, value: seq<byte>): Representation {
    Literal(Without, 0, Plain(name), Plain(value))
  }

  method EncodeIndexedName(index: nat, value: seq<byte>) returns (out: seq<byte>)
    requires index > 0
    ensures out == RepresentationBytes(Named(index, value))
  {
    hide IntegerBytes, StringBytes;
    var head := EncodeInteger(index, 4, 0);
    var text := EncodeString(value);
    out := head + text;
    assert head + [] == head;
  }

  method EncodeLiteralName(name: seq<byte>, value: seq<byte>) returns (out: seq<byte>)
    ensures out == RepresentationBytes(Spelled(name, value))
  {
    hide StringBytes;
    out := [0];
    var first := EncodeString(name);
    var second := EncodeString(value);
    out := out + first + second;
  }

  // ---------- the size of an encoded block ----------

  lemma BlockLengthCons(r: Representation, rs: seq<Representation>, first: nat, rest: nat)
    requires |RepresentationBytes(r)| <= first && |BlockBytes(rs)| <= rest
    ensures |BlockBytes([r] + rs)| <= first + rest
  {
    assert ([r] + rs)[1..] == rs;
  }

  lemma NamedSize(index: nat, value: seq<byte>)
    requires 0 < index <= STATIC_SIZE && |value| < 0x4000
    ensures |RepresentationBytes(Named(index, value))| <= |value| + 5
  {
    hide StringBytes;
    StringSize(value);
  }

  lemma IndexedByte(index: nat)
    requires index < 127
    ensures RepresentationBytes(Indexed(index)) == [128 + index]
  {
  }

  lemma StringSize(s: seq<byte>)
    requires |s| < 0x4000
    ensures |StringBytes(Plain(s))| <= |s| + 3
  {
    hide Groups;
    var n := |s|;
    if n >= 127 {
      SmallGroups(n - 127);
    }
  }

  lemma SmallGroups(rem: nat)
    requires rem < 0x4000
    ensures |Groups(rem)| <= 2
  {
    if rem >= 128 {
      assert rem / 128 < 128;
    }
  }
}
