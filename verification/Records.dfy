/** The records of the perf data area and a linear parser for a stream of them.

    A record is an 8-byte header (type u32, misc u16, size u16, little-endian) and a
    payload; `size` counts the header too.  The payload of a sample record taken with
    PERF_SAMPLE_CALLCHAIN alone is a word `nr` and then `nr` instruction pointers; other
    sample records have other payloads. */
module Records {
  import opened Bytes
  import opened Seqs
  import opened Wrappers

  const HEADER_SIZE: nat := 8
  const PERF_RECORD_SAMPLE: nat := 9

  datatype Record = Record(typ: nat, misc: nat, payload: seq<byte>) {

    function Size(): nat {
      HEADER_SIZE + |payload|
    }

    /** A whole record: its fields fit their bytes and its size is a multiple of 8. */
    predicate Valid() {
      typ < 0x1_0000_0000 && misc < 0x1_0000 && Size() < 0x1_0000 && |payload| % 8 == 0
    }

    /** A sample's payload is exactly the callchain that its first word announces. */
    predicate Chained() {
      IsSample() ==> |payload| >= 8 && Le(payload[..8]) == |payload| / 8 - 1
    }

    predicate IsSample() {
      typ == PERF_RECORD_SAMPLE
    }

    /** The instruction pointers of a sample record: the words after `nr`. */
    function Chain(): (ips: seq<nat>)
      ensures |ips| == if |payload| < 8 then 0 else |payload| / 8 - 1
    {
      if |payload| < 8 then [] else Words(payload)[1..]
    }

    function Encode(): (b: seq<byte>)
      ensures |b| == Size()
    {
      LeBytes(typ, 4) + LeBytes(misc, 2) + LeBytes(Size(), 2) + payload
    }
  }

  predicate AllValid(rs: seq<Record>) {
    forall i :: 0 <= i < |rs| ==> rs[i].Valid()
  }

  predicate AllChained(rs: seq<Record>) {
    forall i :: 0 <= i < |rs| ==> rs[i].Chained()
  }

  function TotalSize(rs: seq<Record>): nat {
    if rs == [] then 0 else rs[0].Size() + TotalSize(rs[1..])
  }

  function EncodeAll(rs: seq<Record>): (b: seq<byte>)
    ensures |b| == TotalSize(rs)
  {
    if rs == [] then [] else rs[0].Encode() + EncodeAll(rs[1..])
  }

  /** The record at the front of a byte stream, if a whole one is there. */
  function ParseOne(s: seq<byte>): (r: Option<Record>)
    ensures r.Some? ==> r.value.Valid() && r.value.Size() <= |s|
  {
    if |s| < HEADER_SIZE then None
    else
      var size := Le(s[6..8]);
      if size < HEADER_SIZE || size > |s| || size >= 0x1_0000 then None
      else
        var r := Record(Le(s[..4]), Le(s[4..6]), s[8..size]);
        if r.Valid() then Some(r) else None
  }

  /** The simple linear parser: the whole stream as records, or nothing. */
  function Parse(s: seq<byte>): (rs: Option<seq<Record>>)
    ensures rs.Some? ==> AllValid(rs.value)
  {
    if s == [] then Some([])
    else match ParseOne(s)
      case None => None
      case Some(r) =>
        match Parse(s[r.Size()..])
        case None => None
        case Some(rest) => Some([r] + rest)
  }

  /** What is parsed off the front encodes to exactly the bytes it was parsed from. */
  lemma ParseOneEncodes(s: seq<byte>)
    requires ParseOne(s).Some?
    ensures var r := ParseOne(s).value; s == r.Encode() + s[r.Size()..]
  {
    var r := ParseOne(s).value;
    BytesOfLe(s[..4]);
    BytesOfLe(s[4..6]);
    BytesOfLe(s[6..8]);
    var size := Le(s[6..8]);
    assert s == s[..4] + s[4..6] + s[6..8] + s[8..size] + s[size..];
  }

  /** The header fields of an encoded record, whatever follows it. */
  lemma EncodedFields(r: Record, rest: seq<byte>)
    requires r.Valid()
    ensures var s := r.Encode() + rest;
      && Le(s[..4]) == r.typ && Le(s[4..6]) == r.misc && Le(s[6..8]) == r.Size()
      && s[8..r.Size()] == r.payload && s[r.Size()..] == rest
  {
    var s := r.Encode() + rest;
    assert Pow256(2) == 0x1_0000 && Pow256(4) == 0x1_0000_0000;
    LeOfBytes(r.typ, 4);
    LeOfBytes(r.misc, 2);
    LeOfBytes(r.Size(), 2);
    assert s[..4] == LeBytes(r.typ, 4);
    assert s[4..6] == LeBytes(r.misc, 2);
    assert s[6..8] == LeBytes(r.Size(), 2);
  }

  lemma ParseOneOfEncoded(r: Record, rest: seq<byte>)
    requires r.Valid()
    ensures ParseOne(r.Encode() + rest) == Some(r) && (r.Encode() + rest)[r.Size()..] == rest
  {
    EncodedFields(r, rest);
    hide Record.Encode, Le;
  }

  lemma ParseCons(r: Record, rest: seq<byte>)
    requires r.Valid() && Parse(rest).Some?
    ensures Parse(r.Encode() + rest) == Some([r] + Parse(rest).value)
  {
    ParseOneOfEncoded(r, rest);
    hide ParseOne, Record.Encode;
  }

  /** Round trip: parsing an encoded sequence of valid records gives it back. */
  lemma {:induction false} ParseOfEncoded(rs: seq<Record>)
    requires AllValid(rs)
    ensures Parse(EncodeAll(rs)) == Some(rs)
  {
    if rs != [] {
      hide ParseOne, Parse, Record.Encode, Record.Valid, Record.Size;
      ParseOfEncoded(rs[1..]);
      ParseCons(rs[0], EncodeAll(rs[1..]));
      assert rs == [rs[0]] + rs[1..];
    }
  }

  /** Round trip: encoding what was parsed gives the stream back. */
  lemma {:induction false} EncodeOfParsed(s: seq<byte>)
    requires Parse(s).Some?
    ensures EncodeAll(Parse(s).value) == s
    decreases |s|
  {
    if s != [] {
      ParseOneEncodes(s);
      var r := ParseOne(s).value;
      EncodeOfParsed(s[r.Size()..]);
      assert Parse(s).value[1..] == Parse(s[r.Size()..]).value;
    }
  }

  lemma {:induction false} TotalSizeAppend(a: seq<Record>, b: seq<Record>)
    ensures TotalSize(a + b) == TotalSize(a) + TotalSize(b)
  {
    if a == [] {
      assert a + b == b;
    } else {
      TotalSizeAppend(a[1..], b);
      assert (a + b)[1..] == a[1..] + b;
    }
  }

  lemma {:induction false} EncodeAllAppend(a: seq<Record>, b: seq<Record>)
    ensures EncodeAll(a + b) == EncodeAll(a) + EncodeAll(b)
  {
    hide Record.Encode;
    if a == [] {
      assert a + b == b;
    } else {
      EncodeAllAppend(a[1..], b);
      assert (a + b)[1..] == a[1..] + b;
      Concat3(a[0].Encode(), EncodeAll(a[1..]), EncodeAll(b));
    }
  }

  /** What follows a record does not change how it parses. */
  lemma ParseOneAppend(a: seq<byte>, b: seq<byte>)
    requires ParseOne(a).Some?
    ensures ParseOne(a + b) == ParseOne(a)
    ensures (a + b)[ParseOne(a).value.Size()..] == a[ParseOne(a).value.Size()..] + b
  {
    var size := Le(a[6..8]);
    assert (a + b)[..4] == a[..4] && (a + b)[4..6] == a[4..6] && (a + b)[6..8] == a[6..8];
    assert (a + b)[8..size] == a[8..size];
    assert (a + b)[size..] == a[size..] + b;
  }

  /** A stream cut at a record boundary parses piece by piece. */
  lemma {:induction false} ParseAppend(a: seq<byte>, b: seq<byte>)
    requires Parse(a).Some?
    ensures Parse(a + b) == if Parse(b).Some? then Some(Parse(a).value + Parse(b).value) else None
    decreases |a|
  {
    if a == [] {
      assert a + b == b;
      if Parse(b).Some? {
        assert [] + Parse(b).value == Parse(b).value;
      }
    } else {
      var r := ParseOne(a).value;
      var rest := a[r.Size()..];
      ParseOneAppend(a, b);
      ParseAppend(rest, b);
      assert Parse(a).value == [r] + Parse(rest).value;
      if Parse(b).Some? {
        Concat3([r], Parse(rest).value, Parse(b).value);
      }
    }
  }

  /** Whole records keep every boundary a multiple of 8. */
  lemma {:induction false} SizesAligned(rs: seq<Record>)
    requires AllValid(rs)
    ensures TotalSize(rs) % 8 == 0 && TotalSize(rs) >= 8 * |rs|
  {
    if rs != [] {
      assert rs[0].Size() % 8 == 0 && rs[0].Size() >= 8;
      hide Record.Valid, Record.Size;
      SizesAligned(rs[1..]);
    }
  }
}
