/** Header compression state (RFC 7541 sections 2.3, 3.2, 4 and 6;
    src/fastapi_mojo_rs/src/bridge/hpack.rs). */
module Hpack {
  import opened Wrappers
  import opened Bits
  import opened AsciiText
  import opened HpackPrimitives

  datatype Field = Field(name: seq<byte>, value: seq<byte>)

  const STATIC_SIZE: nat := 61

  function StaticEntry(index: nat): Field
    requires 1 <= index <= STATIC_SIZE
  {
    match index
    case 1 => Field(Ascii(":authority"), Ascii(""))
    case 2 => Field(Ascii(":method"), Ascii("GET"))
    case 3 => Field(Ascii(":method"), Ascii("POST"))
    case 4 => Field(Ascii(":path"), Ascii("/"))
    case 5 => Field(Ascii(":path"), Ascii("/index.html"))
    case 6 => Field(Ascii(":scheme"), Ascii("http"))
    case 7 => Field(Ascii(":scheme"), Ascii("https"))
    case 8 => Field(Ascii(":status"), Ascii("200"))
    case 9 => Field(Ascii(":status"), Ascii("204"))
    case 10 => Field(Ascii(":status"), Ascii("206"))
    case 11 => Field(Ascii(":status"), Ascii("304"))
    case 12 => Field(Ascii(":status"), Ascii("400"))
    case 13 => Field(Ascii(":status"), Ascii("404"))
    case 14 => Field(Ascii(":status"), Ascii("500"))
    case 15 => Field(Ascii("accept-charset"), Ascii(""))
    case 16 => Field(Ascii("accept-encoding"), Ascii("gzip, deflate"))
    case 17 => Field(Ascii("accept-language"), Ascii(""))
    case 18 => Field(Ascii("accept-ranges"), Ascii(""))
    case 19 => Field(Ascii("accept"), Ascii(""))
    case 20 => Field(Ascii("access-control-allow-origin"), Ascii(""))
    case 21 => Field(Ascii("age"), Ascii(""))
    case 22 => Field(Ascii("allow"), Ascii(""))
    case 23 => Field(Ascii("authorization"), Ascii(""))
    case 24 => Field(Ascii("cache-control"), Ascii(""))
    case 25 => Field(Ascii("content-disposition"), Ascii(""))
    case 26 => Field(Ascii("content-encoding"), Ascii(""))
    case 27 => Field(Ascii("content-language"), Ascii(""))
    case 28 => Field(Ascii("content-length"), Ascii(""))
    case 29 => Field(Ascii("content-location"), Ascii(""))
    case 30 => Field(Ascii("content-range"), Ascii(""))
    case 31 => Field(Ascii("content-type"), Ascii(""))
    case 32 => Field(Ascii("cookie"), Ascii(""))
    case 33 => Field(Ascii("date"), Ascii(""))
    case 34 => Field(Ascii("etag"), Ascii(""))
    case 35 => Field(Ascii("expect"), Ascii(""))
    case 36 => Field(Ascii("expires"), Ascii(""))
    case 37 => Field(Ascii("from"), Ascii(""))
    case 38 => Field(Ascii("host"), Ascii(""))
    case 39 => Field(Ascii("if-match"), Ascii(""))
    case 40 => Field(Ascii("if-modified-since"), Ascii(""))
    case 41 => Field(Ascii("if-none-match"), Ascii(""))
    case 42 => Field(Ascii("if-range"), Ascii(""))
    case 43 => Field(Ascii("if-unmodified-since"), Ascii(""))
    case 44 => Field(Ascii("last-modified"), Ascii(""))
    case 45 => Field(Ascii("link"), Ascii(""))
    case 46 => Field(Ascii("location"), Ascii(""))
    case 47 => Field(Ascii("max-forwards"), Ascii(""))
    case 48 => Field(Ascii("proxy-authenticate"), Ascii(""))
    case 49 => Field(Ascii("proxy-authorization"), Ascii(""))
    case 50 => Field(Ascii("range"), Ascii(""))
    case 51 => Field(Ascii("referer"), Ascii(""))
    case 52 => Field(Ascii("refresh"), Ascii(""))
    case 53 => Field(Ascii("retry-after"), Ascii(""))
    case 54 => Field(Ascii("server"), Ascii(""))
    case 55 => Field(Ascii("set-cookie"), Ascii(""))
    case 56 => Field(Ascii("strict-transport-security"), Ascii(""))
    case 57 => Field(Ascii("transfer-encoding"), Ascii(""))
    case 58 => Field(Ascii("user-agent"), Ascii(""))
    case 59 => Field(Ascii("vary"), Ascii(""))
    case 60 => Field(Ascii("via"), Ascii(""))
    case _ => Field(Ascii("www-authenticate"), Ascii(""))
  }

  // ---------- the dynamic table ----------

  const TABLE_LIMIT: nat := 4096

  function EntrySize(f: Field): nat {
    |f.name| + |f.value| + 32
  }

  function Size(entries: seq<Field>): nat {
    if entries == [] then 0 else Size(entries[..|entries| - 1]) + EntrySize(entries[|entries| - 1])
  }

  /** Drops the oldest entries until the rest fits. */
  function Fit(entries: seq<Field>, limit: nat): (r: seq<Field>)
    ensures r <= entries && Size(r) <= limit
  {
    if Size(entries) <= limit then entries else Fit(entries[..|entries| - 1], limit)
  }

  /** The table and its current maximum size; entries are newest first. */
  datatype Table = Table(entries: seq<Field>, maxSize: nat)

  function Resized(t: Table, maxSize: nat): Table {
    Table(Fit(t.entries, maxSize), maxSize)
  }

  /** RFC 7541 section 4.4: the new entry and as many older ones as fit with it. */
  function Inserted(t: Table, f: Field): Table {
    t.(entries := Fit([f] + t.entries, t.maxSize))
  }

  function Lookup(t: Table, index: nat): Result<Field, HpackError> {
    if index == 0 then Err(InvalidIndex(0))
    else if index <= STATIC_SIZE then Ok(StaticEntry(index))
    else if index - STATIC_SIZE - 1 < |t.entries| then Ok(t.entries[index - STATIC_SIZE - 1])
    else Err(InvalidIndex(index))
  }

  /** Eviction is never needless: what is kept is the longest newest-first run that fits. */
  lemma {:induction false} FitIsLongest(entries: seq<Field>, limit: nat, p: seq<Field>)
    requires p <= entries && Size(p) <= limit
    ensures |p| <= |Fit(entries, limit)|
    decreases |entries|
  {
    if Size(entries) > limit {
      assert p != entries;
      FitIsLongest(entries[..|entries| - 1], limit, p);
    }
  }

  /** The octets of the names and values. */
  function Octets(entries: seq<Field>): nat {
    if entries == [] then 0 else |entries[0].name| + |entries[0].value| + Octets(entries[1..])
  }

  lemma {:induction false} SizeIs(entries: seq<Field>)
    ensures Size(entries) == Octets(entries) + 32 * |entries|
    decreases |entries|
  {
    if entries == [] {
      NoEntries();
    } else {
      assert entries == [entries[0]] + entries[1..];
      SizeCons(entries[0], entries[1..]);
      SizeIs(entries[1..]);
    }
  }

  /** The newest k entries are kept exactly if their octets and 32 more for each fit. */
  lemma KeptIff(entries: seq<Field>, limit: nat, k: nat)
    requires k <= |entries|
    ensures |Fit(entries, limit)| >= k <==> Octets(entries[..k]) + 32 * k <= limit
  {
    SizeIs(entries[..k]);
    if Size(entries[..k]) <= limit {
      FitIsLongest(entries, limit, entries[..k]);
    }
    if |Fit(entries, limit)| >= k {
      assert entries[..k] <= Fit(entries, limit);
      SmallerPart(Fit(entries, limit), k);
      assert Fit(entries, limit)[..k] == entries[..k];
    }
  }

  lemma {:induction false} SmallerPart(entries: seq<Field>, k: nat)
    requires k <= |entries|
    ensures Size(entries[..k]) <= Size(entries)
    decreases |entries|
  {
    if k < |entries| {
      var front := entries[..|entries| - 1];
      SmallerPart(front, k);
      assert front[..k] == entries[..k];
    } else {
      assert entries[..k] == entries;
    }
  }

  lemma NoEntries()
    ensures Size([]) == 0
  {
  }

  lemma {:induction false} SizeCons(f: Field, entries: seq<Field>)
    ensures Size([f] + entries) == EntrySize(f) + Size(entries)
  {
    var all := [f] + entries;
    if entries == [] {
      assert all[..0] == [];
    } else {
      assert all[..|all| - 1] == [f] + entries[..|entries| - 1];
      SizeCons(f, entries[..|entries| - 1]);
    }
  }

  /** Inserting as the source does it: an entry larger than the table empties it; otherwise
      room is made first. */
  lemma {:induction false} InsertByEvicting(f: Field, entries: seq<Field>, limit: nat)
    ensures Fit([f] + entries, limit)
            == if EntrySize(f) > limit then [] else [f] + Fit(entries, limit - EntrySize(f))
    decreases |entries|
  {
    var all := [f] + entries;
    SizeCons(f, entries);
    if entries == [] {
      assert all[..0] == [] && all == [f];
      assert Fit([], limit) == [];
    } else {
      assert all[..|all| - 1] == [f] + entries[..|entries| - 1];
      InsertByEvicting(f, entries[..|entries| - 1], limit);
    }
  }

  // ---------- reading a header block ----------

  /** One representation: the table after it, the field it adds, and what follows. */
  datatype Step = Step(table: Table, field: Option<Field>, rest: seq<byte>)

  ghost function ReadField(t: Table, bytes: seq<byte>, canResize: bool): (r: Result<Step, HpackError>)
    requires bytes != []
    ensures r.Ok? ==> |r.value.rest| < |bytes|
  {
    var first := bytes[0];
    if first >= 128 then
      match ReadInteger(bytes, 7)
      case Err(e) => Err(e)
      case Ok(Integer(index, rest)) =>
        match Lookup(t, index)
        case Err(e) => Err(e)
        case Ok(f) => Ok(Step(t, Some(f), rest))
    else if 32 <= first < 64 then
      if !canResize then Err(InvalidDynamicUpdate)
      else
        match ReadInteger(bytes, 5)
        case Err(e) => Err(e)
        case Ok(Integer(size, rest)) =>
          if size > TABLE_LIMIT then Err(InvalidTableSize(size)) else Ok(Step(Resized(t, size), None, rest))
    else ReadLiteral(t, bytes, first >= 64)
  }

  ghost function ReadLiteral(t: Table, bytes: seq<byte>, incremental: bool): (r: Result<Step, HpackError>)
    requires bytes != []
    ensures r.Ok? ==> |r.value.rest| < |bytes|
  {
    match ReadInteger(bytes, if incremental then 6 else 4)
    case Err(e) => Err(e)
    case Ok(Integer(index, afterIndex)) =>
      match ReadName(t, index, afterIndex)
      case Err(e) => Err(e)
      case Ok(Text(name, afterName)) =>
        match ReadString(afterName)
        case Err(e) => Err(e)
        case Ok(Text(value, rest)) =>
          var f := Field(name, value);
          Ok(Step(if incremental then Inserted(t, f) else t, Some(f), rest))
  }

  ghost function ReadName(t: Table, index: nat, bytes: seq<byte>): (r: Result<Text, HpackError>)
    ensures r.Ok? ==> |r.value.rest| <= |bytes|
  {
    if index == 0 then ReadString(bytes)
    else
      match Lookup(t, index)
      case Err(e) => Err(e)
      case Ok(f) => Ok(Text(f.name, bytes))
  }

  /** The outcome of a block: the table is updated even when the block fails. */
  datatype Block = Block(table: Table, result: Result<seq<Field>, HpackError>)

  function AddField(out: seq<Field>, f: Option<Field>): seq<Field> {
    if f.Some? then out + [f.value] else out
  }

  ghost function ReadBlock(t: Table, bytes: seq<byte>, canResize: bool, out: seq<Field>): Block
    decreases |bytes|
  {
    if bytes == [] then Block(t, Ok(out))
    else
      match ReadField(t, bytes, canResize)
      case Err(e) => Block(t, Err(e))
      case Ok(Step(t', f, rest)) => ReadBlock(t', rest, canResize && f.None?, AddField(out, f))
  }

  /** What reading one representation puts into the table, seen by its first byte. */
  function Addition(first: byte, f: Option<Field>): seq<Field> {
    if 64 <= first < 128 && f.Some? then [f.value] else []
  }

  /** Everything a block inserts, newest first, up to where it fails. */
  ghost function Insertions(t: Table, bytes: seq<byte>, canResize: bool): seq<Field>
    decreases |bytes|
  {
    if bytes == [] then []
    else
      match ReadField(t, bytes, canResize)
      case Err(_) => []
      case Ok(Step(t', f, rest)) => Insertions(t', rest, canResize && f.None?) + Addition(bytes[0], f)
  }

  lemma NoInsertions(t: Table, canResize: bool)
    ensures Insertions(t, [], canResize) == []
  {
  }

  lemma InsertionsStep(t: Table, bytes: seq<byte>, canResize: bool)
    requires bytes != []
    ensures var f := ReadField(t, bytes, canResize);
            Insertions(t, bytes, canResize)
            == if f.Err? then []
               else
                 Insertions(f.value.table, f.value.rest, canResize && f.value.field.None?)
                 + Addition(bytes[0], f.value.field)
  {
    hide ReadField;
  }

  // ---------- the representations of section 6 ----------

  datatype Indexing = Incremental | Without | Never

  datatype Representation =
    | Indexed(index: nat)
    | Resize(size: nat)
    | Literal(indexing: Indexing, nameIndex: nat, name: Written, value: Written)

  predicate Encodable(r: Representation) {
    match r
    case Indexed(index) => index < INTEGER_LIMIT
    case Resize(size) => size < INTEGER_LIMIT
    case Literal(_, nameIndex, name, value) =>
      nameIndex < INTEGER_LIMIT && |Payload(name)| < STRING_LIMIT && |Payload(value)| < STRING_LIMIT
  }

  function RepresentationBytes(r: Representation): (bytes: seq<byte>)
    ensures |bytes| > 0
  {
    match r
    case Indexed(index) => IntegerBytes(index, 7, 128)
    case Resize(size) => IntegerBytes(size, 5, 32)
    case Literal(indexing, nameIndex, name, value) =>
      LiteralHead(indexing, nameIndex) + (if nameIndex == 0 then StringBytes(name) else []) + StringBytes(value)
  }

  function LiteralHead(indexing: Indexing, nameIndex: nat): (bytes: seq<byte>)
    ensures |bytes| > 0
  {
    match indexing
    case Incremental => IntegerBytes(nameIndex, 6, 64)
    case Without => IntegerBytes(nameIndex, 4, 0)
    case Never => IntegerBytes(nameIndex, 4, 16)
  }

  /** What a representation means. */
  function Meaning(t: Table, r: Representation, canResize: bool, rest: seq<byte>): Result<Step, HpackError> {
    match r
    case Indexed(index) =>
      (match Lookup(t, index) case Err(e) => Err(e) case Ok(f) => Ok(Step(t, Some(f), rest)))
    case Resize(size) =>
      if !canResize then Err(InvalidDynamicUpdate)
      else if size > TABLE_LIMIT then Err(InvalidTableSize(size))
      else Ok(Step(Resized(t, size), None, rest))
    case Literal(indexing, nameIndex, name, value) =>
      match if nameIndex == 0 then Ok(Field(name.text, [])) else Lookup(t, nameIndex)
      case Err(e) => Err(e)
      case Ok(named) =>
        var f := Field(named.name, value.text);
        Ok(Step(if indexing.Incremental? then Inserted(t, f) else t, Some(f), rest))
  }

  lemma NameReadsBack(t: Table, nameIndex: nat, name: Written, after: seq<byte>)
    requires |Payload(name)| < STRING_LIMIT
    ensures ReadName(t, nameIndex, (if nameIndex == 0 then StringBytes(name) else []) + after)
            == if nameIndex == 0 then Ok(Text(name.text, after))
               else match Lookup(t, nameIndex) case Err(e) => Err(e) case Ok(f) => Ok(Text(f.name, after))
  {
    hide StringBytes, Lookup, ReadString, Payload;
    if nameIndex == 0 {
      StringReadsBack(name, after);
    } else {
      assert [] + after == after;
    }
  }

  lemma LiteralReadsBack(t: Table, r: Representation, canResize: bool, rest: seq<byte>)
    requires r.Literal? && Encodable(r)
    ensures ReadField(t, RepresentationBytes(r) + rest, canResize) == Meaning(t, r, canResize, rest)
  {
    hide StringBytes, Lookup, ReadString, Payload, IntegerBytes, ReadInteger, ReadName, Inserted;
    var name := if r.nameIndex == 0 then StringBytes(r.name) else [];
    var head, value := LiteralHead(r.indexing, r.nameIndex), StringBytes(r.value);
    assert head + name + value + rest == head + (name + (value + rest));
    var n, first: byte := if r.indexing.Incremental? then 6 else 4,
                          match r.indexing case Incremental => 64 case Without => 0 case Never => 16;
    IntegerReadsBack(r.nameIndex, n, first, name + (value + rest));
    NameReadsBack(t, r.nameIndex, r.name, value + rest);
    StringReadsBack(r.value, rest);
  }

  /** Reading any encoded representation is carrying out its meaning. */
  lemma RepresentationReadsBack(t: Table, r: Representation, canResize: bool, rest: seq<byte>)
    requires Encodable(r)
    ensures ReadField(t, RepresentationBytes(r) + rest, canResize) == Meaning(t, r, canResize, rest)
  {
    hide Lookup, ReadLiteral, IntegerBytes, ReadInteger, Resized;
    match r
    case Indexed(index) => IntegerReadsBack(index, 7, 128, rest);
    case Resize(size) => IntegerReadsBack(size, 5, 32, rest);
    case Literal(_, _, _, _) => LiteralReadsBack(t, r, canResize, rest);
  }

  function BlockBytes(rs: seq<Representation>): seq<byte> {
    if rs == [] then [] else RepresentationBytes(rs[0]) + BlockBytes(rs[1..])
  }

  function BlockMeaning(t: Table, rs: seq<Representation>, canResize: bool, out: seq<Field>): Block
    decreases |rs|
  {
    if rs == [] then Block(t, Ok(out))
    else
      match Meaning(t, rs[0], canResize, [])
      case Err(e) => Block(t, Err(e))
      case Ok(Step(t', f, _)) => BlockMeaning(t', rs[1..], canResize && f.None?, AddField(out, f))
  }

  /** Decoding an encoded header block carries out its representations in order, on every
      table and whatever the mixture of indexing, resizing and Huffman coding. */
  lemma {:induction false} BlockReadsBack(t: Table, rs: seq<Representation>, canResize: bool, out: seq<Field>)
    requires forall i :: 0 <= i < |rs| ==> Encodable(rs[i])
    ensures ReadBlock(t, BlockBytes(rs), canResize, out) == BlockMeaning(t, rs, canResize, out)
    decreases |rs|
  {
    hide RepresentationBytes, ReadField, Encodable;
    if rs != [] {
      var rest := BlockBytes(rs[1..]);
      RepresentationReadsBack(t, rs[0], canResize, rest);
      MeaningRest(t, rs[0], canResize, rest);
      var m := Meaning(t, rs[0], canResize, rest);
      if m.Ok? {
        BlockReadsBack(m.value.table, rs[1..], canResize && m.value.field.None?, AddField(out, m.value.field));
      }
    }
  }

  /** What the representations insert, newest first, up to the first that fails. */
  function BlockInsertions(t: Table, rs: seq<Representation>, canResize: bool): seq<Field>
    decreases |rs|
  {
    if rs == [] then []
    else
      match Meaning(t, rs[0], canResize, [])
      case Err(_) => []
      case Ok(Step(t', f, _)) =>
        BlockInsertions(t', rs[1..], canResize && f.None?)
        + if rs[0].Literal? && rs[0].indexing.Incremental? && f.Some? then [f.value] else []
  }

  lemma FirstByte(r: Representation)
    ensures 64 <= RepresentationBytes(r)[0] < 128 <==> r.Literal? && r.indexing.Incremental?
  {
  }

  /** Exactly the literals marked for it are inserted. */
  lemma {:induction false} InsertionsReadBack(t: Table, rs: seq<Representation>, canResize: bool)
    requires forall i :: 0 <= i < |rs| ==> Encodable(rs[i])
    ensures Insertions(t, BlockBytes(rs), canResize) == BlockInsertions(t, rs, canResize)
    decreases |rs|
  {
    hide ReadField, RepresentationBytes, Meaning;
    if rs != [] {
      var rest := BlockBytes(rs[1..]);
      assert BlockBytes(rs) == RepresentationBytes(rs[0]) + rest;
      RepresentationReadsBack(t, rs[0], canResize, rest);
      MeaningRest(t, rs[0], canResize, rest);
      FirstByte(rs[0]);
      var m := Meaning(t, rs[0], canResize, []);
      if m.Ok? {
        InsertionsReadBack(m.value.table, rs[1..], canResize && m.value.field.None?);
      }
    }
  }

  lemma MeaningRest(t: Table, r: Representation, canResize: bool, rest: seq<byte>)
    ensures Meaning(t, r, canResize, rest)
            == match Meaning(t, r, canResize, [])
               case Err(e) => Err(e)
               case Ok(s) => Ok(s.(rest := rest))
  {
  }

  // ---------- the decoder object ----------

  class HpackDecoder {
    var entries: seq<Field>
    var size: nat
    var maxSize: nat
    /** Every field ever inserted, newest first. */
    ghost var inserted: seq<Field>

    /** The table is a newest-first run of what was inserted, its size is the sum of the
        entry sizes, and it respects the current maximum, itself at most 4096. */
    ghost predicate Valid()
      reads this
    {
      Counted() && size <= maxSize <= TABLE_LIMIT
    }

    ghost predicate Counted()
      reads this
    {
      entries <= inserted && size == Size(entries)
    }

    ghost function State(): Table
      reads this
    {
      Table(entries, maxSize)
    }

    constructor ()
      ensures Valid() && State() == Table([], 4096) && inserted == []
    {
      entries, size, maxSize, inserted := [], 0, TABLE_LIMIT, [];
    }

    /** Index 62 + k is the k-th newest insertion. */
    method LookupField(index: nat) returns (r: Result<Field, HpackError>)
      requires Valid()
      ensures r == Lookup(State(), index)
      ensures index > STATIC_SIZE && r.Ok? ==>
                index - STATIC_SIZE - 1 < |inserted| && r.value == inserted[index - STATIC_SIZE - 1]
    {
      hide StaticEntry;
      if index == 0 {
        return Err(InvalidIndex(0));
      }
      if index <= STATIC_SIZE {
        return Ok(StaticEntry(index));
      }
      var dynamic := index - STATIC_SIZE - 1;
      if dynamic < |entries| {
        return Ok(entries[dynamic]);
      }
      return Err(InvalidIndex(index));
    }

    method EvictTo(limit: nat)
      requires Counted()
      modifies this
      ensures Counted() && size <= limit && maxSize == old(maxSize) && inserted == old(inserted)
      ensures entries == Fit(old(entries), limit)
    {
      while size > limit
        invariant Counted() && maxSize == old(maxSize) && inserted == old(inserted)
        invariant Fit(entries, limit) == Fit(old(entries), limit)
        decreases |entries|
      {
        if |entries| == 0 {
          break;
        }
        var oldest := entries[|entries| - 1];
        size := size - (|oldest.name| + |oldest.value| + 32);
        entries := entries[..|entries| - 1];
      }
    }

    method SetMaxSize(value: nat) returns (r: Result<(), HpackError>)
      requires Valid()
      modifies this
      ensures Valid() && inserted == old(inserted)
      ensures if value > 4096 then r == Err(InvalidTableSize(value)) && State() == old(State())
              else r == Ok(()) && State() == Resized(old(State()), value)
    {
      if value > TABLE_LIMIT {
        return Err(InvalidTableSize(value));
      }
      maxSize := value;
      EvictTo(value);
      return Ok(());
    }

    method Insert(name: seq<byte>, value: seq<byte>)
      requires Valid()
      modifies this
      ensures Valid() && State() == Inserted(old(State()), Field(name, value))
      ensures inserted == [Field(name, value)] + old(inserted)
    {
      hide Fit, Size;
      NoEntries();
      var f := Field(name, value);
      InsertByEvicting(f, entries, maxSize);
      var entrySize := |name| + |value| + 32;
      if entrySize > maxSize {
        entries, size := [], 0;
        inserted := [f] + inserted;
        return;
      }
      EvictTo(maxSize - entrySize);
      SizeCons(f, entries);
      size := size + entrySize;
      entries := [f] + entries;
      inserted := [f] + inserted;
    }

    /** Reads one representation at `pos`. */
    method DecodeField(input: seq<byte>, pos: nat, canResize: bool)
        returns (r: Result<(Option<Field>, nat), HpackError>)
      requires Valid() && pos < |input|
      modifies this
      ensures Valid()
      ensures inserted == (if r.Ok? then Addition(input[pos], r.value.0) else []) + old(inserted)
      ensures r.Ok? ==> pos < r.value.1 <= |input|
      ensures ReadField(old(State()), input[pos..], canResize)
              == if r.Ok? then Ok(Step(State(), r.value.0, input[r.value.1..])) else Err(r.error)
      ensures r.Err? ==> State() == old(State())
    {
      hide Lookup, ReadInteger, ReadString, Inserted, Resized, Valid;
      var first := input[pos];
      if first >= 128 {
        var index := DecodeInteger(input, pos, 7);
        if index.Err? {
          return Err(index.error);
        }
        var field := LookupField(index.value.0);
        if field.Err? {
          return Err(field.error);
        }
        return Ok((Some(field.value), index.value.1));
      }
      if 32 <= first < 64 {
        if !canResize {
          return Err(InvalidDynamicUpdate);
        }
        var value := DecodeInteger(input, pos, 5);
        if value.Err? {
          return Err(value.error);
        }
        var resized := SetMaxSize(value.value.0);
        if resized.Err? {
          return Err(resized.error);
        }
        return Ok((None, value.value.1));
      }
      var literal := DecodeLiteral(input, pos, first >= 64);
      if literal.Err? {
        return Err(literal.error);
      }
      return Ok((Some(literal.value.0), literal.value.1));
    }

    method DecodeLiteral(input: seq<byte>, pos: nat, incremental: bool) returns (r: Result<(Field, nat), HpackError>)
      requires Valid() && pos < |input|
      modifies this
      ensures Valid()
      ensures inserted == (if r.Ok? && incremental then [r.value.0] else []) + old(inserted)
      ensures r.Ok? ==> pos < r.value.1 <= |input|
      ensures ReadLiteral(old(State()), input[pos..], incremental)
              == if r.Ok? then Ok(Step(State(), Some(r.value.0), input[r.value.1..])) else Err(r.error)
      ensures r.Err? ==> State() == old(State())
    {
      hide Lookup, ReadInteger, ReadString, Inserted, Valid;
      var index := DecodeInteger(input, pos, if incremental then 6 else 4);
      if index.Err? {
        return Err(index.error);
      }
      var next := index.value.1;
      var name: seq<byte>;
      if index.value.0 == 0 {
        var text := ReadStringAt(input, next);
        if text.Err? {
          return Err(text.error);
        }
        name, next := text.value.0, text.value.1;
      } else {
        var field := LookupField(index.value.0);
        if field.Err? {
          return Err(field.error);
        }
        name := field.value.name;
      }
      var value := ReadStringAt(input, next);
      if value.Err? {
        return Err(value.error);
      }
      if incremental {
        Insert(name, value.value.0);
      }
      return Ok((Field(name, value.value.0), value.value.1));
    }

    /** Decodes a header block; the table keeps its updates even when the block fails.  What is
        inserted is exactly what the block says. */
    method Decode(input: seq<byte>) returns (r: Result<seq<Field>, HpackError>)
      requires Valid()
      modifies this
      ensures Valid() && inserted == Insertions(old(State()), input, true) + old(inserted)
      ensures Block(State(), r) == ReadBlock(old(State()), input, true, [])
    {
      hide Valid, ReadField, State, Insertions, Addition;
      NoInsertions(State(), true);
      var out: seq<Field> := [];
      var pos := 0;
      var canResize := true;
      assert input[0..] == input;
      while pos < |input|
        invariant Valid() && 0 <= pos <= |input|
        invariant Insertions(old(State()), input, true) + old(inserted)
                  == Insertions(State(), input[pos..], canResize) + inserted
        invariant ReadBlock(old(State()), input, true, []) == ReadBlock(State(), input[pos..], canResize, out)
        decreases |input| - pos
      {
        InsertionsStep(State(), input[pos..], canResize);
        var step := DecodeField(input, pos, canResize);
        if step.Err? {
          return Err(step.error);
        }
        var (field, next) := step.value;
        out := AddField(out, field);
        canResize := canResize && field.None?;
        pos := next;
      }
      NoInsertions(State(), canResize);
      return Ok(out);
    }
  }
}
