/**
 * `CmapTable`: the TrueType 'cmap' table of a font, an ordered map from
 * (platformID, platformSpecificID) to character-map subtables, and its byte
 * form: a 4-byte header (version, subtable count), one 8-byte encoding
 * record per subtable (platformID, platformSpecificID, 32-bit offset from
 * the start of the table), then the subtable bodies in record order.
 */
module CmapTables {
  import opened Wrappers
  import opened JavaInt

  type byte = x: int | 0 <= x < 0x100
  /** A byte sequence `CMap` works with; its length fits a Java `int`. */
  type Body = s: seq<byte> | |s| < 0x8000_0000

  /** A character-map subtable. Its own formats are not part of this model:
      it is an object with the bytes `getData` gives, whose count is
      `getLength`. */
  class CMap {
    const body: Body

    constructor (body: Body)
      ensures this.body == body
    {
      this.body := body;
    }
  }

  /** `CMap.getMap` over the rest of the table from a record's offset:
      `None` where it returns null or throws. */
  type MapReader = seq<byte> -> Option<CMap>

  // ---------------------------------------------------------------
  // Keys and their order (CmapSubtable)
  // ---------------------------------------------------------------

  datatype Key = Key(platformID: Short, platformSpecificID: Short)

  /** Ascending by platform ID, then by specific ID. */
  predicate KeyLess(a: Key, b: Key) {
    a.platformID < b.platformID ||
    (a.platformID == b.platformID && a.platformSpecificID < b.platformSpecificID)
  }

  lemma KeyLessOrder(a: Key, b: Key, c: Key)
    ensures !KeyLess(a, a)
    ensures KeyLess(a, b) && KeyLess(b, c) ==> KeyLess(a, c)
    ensures a == b || KeyLess(a, b) || KeyLess(b, a)
    ensures !(KeyLess(a, b) && KeyLess(b, a))
  {
  }

  /** What `compareTo(Object)` may be handed. */
  datatype Comparand = Subtable(key: Key) | OtherObject

  /** `CmapSubtable.compareTo`. */
  function CompareTo(a: Key, obj: Comparand): (r: int)
    ensures r == -1 || r == 0 || r == 1
    ensures obj.OtherObject? ==> r == -1
  {
    match obj
    case OtherObject => -1
    case Subtable(b) =>
      if a.platformID < b.platformID then -1
      else if a.platformID > b.platformID then 1
      else if a.platformSpecificID < b.platformSpecificID then -1
      else if a.platformSpecificID > b.platformSpecificID then 1
      else 0
  }

  /** `CmapSubtable.equals`. */
  predicate Equals(a: Key, obj: Comparand) {
    CompareTo(a, obj) == 0
  }

  /** `compareTo` is the lexicographic order of the two IDs. */
  lemma CompareToIsKeyOrder(a: Key, b: Key)
    ensures CompareTo(a, Subtable(b)) == -1 <==> KeyLess(a, b)
    ensures CompareTo(a, Subtable(b)) == 0 <==> a == b
    ensures CompareTo(a, Subtable(b)) == 1 <==> KeyLess(b, a)
    ensures CompareTo(a, Subtable(b)) == -CompareTo(b, Subtable(a))
  {
  }

  /** `equals` holds exactly for a subtable with the same IDs. */
  lemma EqualsIff(a: Key, obj: Comparand)
    ensures Equals(a, obj) <==> obj == Subtable(a)
  {
  }

  // ---------------------------------------------------------------
  // The sorted map (TreeMap<CmapSubtable, CMap>)
  // ---------------------------------------------------------------

  datatype Entry = Entry(key: Key, cmap: CMap)

  /** Keys strictly ascending: the iteration order of the sorted map. */
  predicate Sorted(es: seq<Entry>) {
    forall i, j :: 0 <= i < j < |es| ==> KeyLess(es[i].key, es[j].key)
  }

  /** `get`. */
  function Lookup(es: seq<Entry>, k: Key): (r: Option<CMap>)
    ensures r.Some? ==> exists i :: 0 <= i < |es| && es[i] == Entry(k, r.value)
    ensures r.None? ==> forall i :: 0 <= i < |es| ==> es[i].key != k
  {
    if es == [] then None
    else if es[0].key == k then Some(es[0].cmap)
    else
      var r := Lookup(es[1..], k);
      assert r.Some? ==> exists i :: 0 <= i < |es[1..]| && es[1..][i] == Entry(k, r.value);
      assert forall i :: 0 <= i < |es[1..]| ==> es[1..][i] == es[i + 1];
      r
  }

  /** `put`: a new key goes to its place in the order; an existing key
      keeps its place and takes the new map. */
  function Put(es: seq<Entry>, k: Key, m: CMap): seq<Entry> {
    if es == [] then [Entry(k, m)]
    else if es[0].key == k then [Entry(k, m)] + es[1..]
    else if KeyLess(k, es[0].key) then [Entry(k, m)] + es
    else [es[0]] + Put(es[1..], k, m)
  }

  /** `remove`. */
  function Remove(es: seq<Entry>, k: Key): seq<Entry> {
    if es == [] then []
    else if es[0].key == k then Remove(es[1..], k)
    else [es[0]] + Remove(es[1..], k)
  }

  /** `put` adds only the new entry. */
  lemma {:induction false} PutMembers(es: seq<Entry>, k: Key, m: CMap)
    ensures forall e <- Put(es, k, m) :: e.key == k || e in es
    decreases |es|
  {
    if es != [] && es[0].key != k && !KeyLess(k, es[0].key) {
      PutMembers(es[1..], k, m);
    }
  }

  /** `remove` only takes entries out, and takes out every entry with the key. */
  lemma {:induction false} RemoveMembers(es: seq<Entry>, k: Key)
    ensures forall e <- Remove(es, k) :: e in es && e.key != k
    decreases |es|
  {
    if es != [] {
      RemoveMembers(es[1..], k);
    }
  }

  lemma {:induction false} PutSorted(es: seq<Entry>, k: Key, m: CMap)
    requires Sorted(es)
    ensures Sorted(Put(es, k, m))
    decreases |es|
  {
    if es != [] && es[0].key != k && !KeyLess(k, es[0].key) {
      assert Sorted(es[1..]) by {
        forall i, j | 0 <= i < j < |es[1..]| ensures KeyLess(es[1..][i].key, es[1..][j].key) {
          assert es[1..][i] == es[i + 1] && es[1..][j] == es[j + 1];
        }
      }
      PutSorted(es[1..], k, m);
      PutMembers(es[1..], k, m);
      var rest := Put(es[1..], k, m);
      forall e <- rest ensures KeyLess(es[0].key, e.key) {
        if e.key != k {
          var i :| 0 <= i < |es[1..]| && es[1..][i] == e;
          assert es[i + 1] == e;
        }
      }
      forall i, j | 0 <= i < j < |[es[0]] + rest| ensures KeyLess(([es[0]] + rest)[i].key, ([es[0]] + rest)[j].key) {
        if i > 0 {
          assert ([es[0]] + rest)[i] == rest[i - 1];
        }
        assert ([es[0]] + rest)[j] == rest[j - 1];
      }
    } else if es != [] && KeyLess(k, es[0].key) {
      forall j | 0 <= j < |es| ensures KeyLess(k, es[j].key) {
        KeyLessOrder(k, es[0].key, es[j].key);
      }
    }
  }

  lemma {:induction false} RemoveSorted(es: seq<Entry>, k: Key)
    requires Sorted(es)
    ensures Sorted(Remove(es, k))
    decreases |es|
  {
    if es != [] {
      assert Sorted(es[1..]) by {
        forall i, j | 0 <= i < j < |es[1..]| ensures KeyLess(es[1..][i].key, es[1..][j].key) {
          assert es[1..][i] == es[i + 1] && es[1..][j] == es[j + 1];
        }
      }
      RemoveSorted(es[1..], k);
      RemoveMembers(es[1..], k);
      if es[0].key != k {
        var rest := Remove(es[1..], k);
        forall e <- rest ensures KeyLess(es[0].key, e.key) {
          var i :| 0 <= i < |es[1..]| && es[1..][i] == e;
          assert es[i + 1] == e;
        }
        forall i, j | 0 <= i < j < |[es[0]] + rest| ensures KeyLess(([es[0]] + rest)[i].key, ([es[0]] + rest)[j].key) {
          if i > 0 {
            assert ([es[0]] + rest)[i] == rest[i - 1];
          }
          assert ([es[0]] + rest)[j] == rest[j - 1];
        }
      }
    }
  }

  /** After `put(k, m)`, `get(k)` is m and every other key keeps its map;
      the table grows by one exactly when k was absent. */
  lemma {:induction false} PutLookup(es: seq<Entry>, k: Key, m: CMap, k': Key)
    requires Sorted(es)
    ensures Lookup(Put(es, k, m), k') == if k' == k then Some(m) else Lookup(es, k')
    ensures |Put(es, k, m)| == |es| + (if Lookup(es, k).None? then 1 else 0)
    decreases |es|
  {
    if es != [] && es[0].key == k {
      RemoveAbsentTail(es, k);
    } else if es != [] && KeyLess(k, es[0].key) {
      assert Lookup(es, k).None? by {
        forall i | 0 <= i < |es| ensures es[i].key != k {
          if i > 0 {
            KeyLessOrder(k, es[0].key, es[i].key);
          }
        }
      }
    } else if es != [] {
      assert Sorted(es[1..]) by {
        forall i, j | 0 <= i < j < |es[1..]| ensures KeyLess(es[1..][i].key, es[1..][j].key) {
          assert es[1..][i] == es[i + 1] && es[1..][j] == es[j + 1];
        }
      }
      PutLookup(es[1..], k, m, k');
    }
  }

  /** In a sorted table a key occurs at most once. */
  lemma RemoveAbsentTail(es: seq<Entry>, k: Key)
    requires Sorted(es) && es != [] && es[0].key == k
    ensures forall i :: 0 < i < |es| ==> es[i].key != k
  {
    forall i | 0 < i < |es| ensures es[i].key != k {
      KeyLessOrder(es[0].key, es[i].key, es[i].key);
    }
  }

  /** After `remove(k)`, `get(k)` is null and every other key keeps its map;
      the table shrinks by one exactly when k was present. */
  lemma {:induction false} RemoveLookup(es: seq<Entry>, k: Key, k': Key)
    requires Sorted(es)
    ensures Lookup(Remove(es, k), k') == if k' == k then None else Lookup(es, k')
    ensures |Remove(es, k)| == |es| - (if Lookup(es, k).Some? then 1 else 0)
    decreases |es|
  {
    if es != [] {
      assert Sorted(es[1..]) by {
        forall i, j | 0 <= i < j < |es[1..]| ensures KeyLess(es[1..][i].key, es[1..][j].key) {
          assert es[1..][i] == es[i + 1] && es[1..][j] == es[j + 1];
        }
      }
      RemoveLookup(es[1..], k, k');
      if es[0].key == k {
        RemoveAbsentTail(es, k);
        assert Lookup(es[1..], k).None?;
      }
    }
  }

  /** A key above every key present goes at the end. */
  lemma {:induction false} PutGreatest(es: seq<Entry>, k: Key, m: CMap)
    requires forall i :: 0 <= i < |es| ==> KeyLess(es[i].key, k)
    ensures Put(es, k, m) == es + [Entry(k, m)]
    decreases |es|
  {
    if es != [] {
      KeyLessOrder(es[0].key, k, k);
      assert forall i :: 0 <= i < |es[1..]| ==> es[1..][i] == es[i + 1];
      PutGreatest(es[1..], k, m);
      assert es == [es[0]] + es[1..];
    }
  }

  // ---------------------------------------------------------------
  // Sizes and the byte layout
  // ---------------------------------------------------------------

  /** The maps in key order (`values()`). */
  function Values(es: seq<Entry>): (r: seq<CMap>)
    ensures |r| == |es| && forall i :: 0 <= i < |es| ==> r[i] == es[i].cmap
  {
    if es == [] then [] else Values(es[..|es| - 1]) + [es[|es| - 1].cmap]
  }

  /** The body lengths added up. */
  function SumLengths(es: seq<Entry>): (r: nat) {
    if es == [] then 0 else SumLengths(es[..|es| - 1]) + |es[|es| - 1].cmap.body|
  }

  /** The true size of the table in bytes: header, records, bodies. */
  function Total(es: seq<Entry>): nat {
    4 + 8 * |es| + SumLengths(es)
  }

  /** An unsigned 16-bit value, high byte first. */
  function U16Bytes(u: int): (r: seq<byte>)
    requires 0 <= u < 0x1_0000
    ensures |r| == 2
  {
    [u / 0x100, u % 0x100]
  }

  /** `putShort`: big-endian two's complement. */
  function ShortBytes(v: Short): (r: seq<byte>)
    ensures |r| == 2
  {
    U16Bytes(if v < 0 then v + 0x1_0000 else v)
  }

  /** `putInt`: big-endian two's complement. */
  function IntBytes(v: Int32): (r: seq<byte>)
    ensures |r| == 4
  {
    var u := if v < 0 then v + 0x1_0000_0000 else v;
    U16Bytes(u / 0x1_0000) + U16Bytes(u % 0x1_0000)
  }

  function Unsigned16(hi: byte, lo: byte): (r: int)
    ensures 0 <= r < 0x1_0000
  {
    hi as int * 0x100 + lo as int
  }

  /** `getShort` at `pos`. */
  function ReadShort(data: seq<byte>, pos: nat): Short
    requires pos + 2 <= |data|
  {
    var u := Unsigned16(data[pos], data[pos + 1]);
    if u >= 0x8000 then u - 0x1_0000 else u
  }

  /** `getInt` at `pos`. */
  function ReadInt(data: seq<byte>, pos: nat): Int32
    requires pos + 4 <= |data|
  {
    var u := Unsigned16(data[pos], data[pos + 1]) * 0x1_0000 + Unsigned16(data[pos + 2], data[pos + 3]);
    if u >= 0x8000_0000 then u - 0x1_0000_0000 else u
  }

  /** Two bytes read back as the unsigned value they were written from. */
  lemma U16At(data: seq<byte>, pos: nat, u: int)
    requires 0 <= u < 0x1_0000 && pos + 2 <= |data| && data[pos..pos + 2] == U16Bytes(u)
    ensures Unsigned16(data[pos], data[pos + 1]) == u
  {
    assert data[pos] == data[pos..pos + 2][0] && data[pos + 1] == data[pos..pos + 2][1];
  }

  /** Two bytes read back as the `short` they were written from. */
  lemma ReadShortAt(data: seq<byte>, pos: nat, v: Short)
    requires pos + 2 <= |data| && data[pos..pos + 2] == ShortBytes(v)
    ensures ReadShort(data, pos) == v
  {
    U16At(data, pos, if v < 0 then v + 0x1_0000 else v);
  }

  /** Four bytes read back as the `int` they were written from. */
  lemma ReadIntAt(data: seq<byte>, pos: nat, v: Int32)
    requires pos + 4 <= |data| && data[pos..pos + 4] == IntBytes(v)
    ensures ReadInt(data, pos) == v
  {
    var u := if v < 0 then v + 0x1_0000_0000 else v;
    var h, l := u / 0x1_0000, u % 0x1_0000;
    assert data[pos..pos + 2] == data[pos..pos + 4][..2];
    assert data[pos + 2..pos + 4] == data[pos..pos + 4][2..];
    U16At(data, pos, h);
    U16At(data, pos + 2, l);
  }

  /** One encoding record. */
  function Record(k: Key, offset: int): (r: seq<byte>)
    ensures |r| == 8
  {
    ShortBytes(k.platformID) + ShortBytes(k.platformSpecificID) + IntBytes(Wrap32(offset))
  }

  /** The records in key order; each offset is `start` plus the lengths of
      the bodies before it. */
  function Records(es: seq<Entry>, start: int): (r: seq<byte>)
    ensures |r| == 8 * |es|
  {
    if es == [] then []
    else Records(es[..|es| - 1], start) + Record(es[|es| - 1].key, start + SumLengths(es[..|es| - 1]))
  }

  function Bodies(es: seq<Entry>): (r: seq<byte>)
    ensures |r| == SumLengths(es)
  {
    if es == [] then [] else Bodies(es[..|es| - 1]) + es[|es| - 1].cmap.body
  }

  /** The table as `getData` writes it. */
  function Layout(version: Short, es: seq<Entry>): (r: seq<byte>)
    ensures |r| == Total(es)
  {
    ShortBytes(version) + ShortBytes(ToShort(|es|)) + Records(es, 4 + 8 * |es|) + Bodies(es)
  }

  /** Record i carries the i-th key and an offset just past the header, the
      records and the bodies before it; so each offset is the previous one
      plus the previous body's length. */
  lemma {:induction false} RecordAt(es: seq<Entry>, start: int, i: nat)
    requires i < |es|
    ensures Records(es, start)[8 * i..8 * i + 8] == Record(es[i].key, start + SumLengths(es[..i]))
    decreases |es|
  {
    var front := es[..|es| - 1];
    if i < |es| - 1 {
      RecordAt(front, start, i);
      assert front[i] == es[i] && front[..i] == es[..i];
    } else {
      assert front == es[..i];
    }
  }

  lemma RecordsSnoc(es: seq<Entry>, i: nat, start: int)
    requires i < |es|
    ensures Records(es[..i + 1], start) == Records(es[..i], start) + Record(es[i].key, start + SumLengths(es[..i]))
  {
    assert es[..i + 1][..i] == es[..i];
  }

  lemma BodiesSnoc(es: seq<Entry>, i: nat)
    requires i < |es|
    ensures Bodies(es[..i + 1]) == Bodies(es[..i]) + es[i].cmap.body
  {
    assert es[..i + 1][..i] == es[..i];
  }

  lemma SumLengthsStep(es: seq<Entry>, i: nat)
    requires i < |es|
    ensures SumLengths(es[..i + 1]) == SumLengths(es[..i]) + |es[i].cmap.body|
  {
    assert es[..i + 1][..i] == es[..i];
  }

  /** The running `int` total of `getLength` after one more body. */
  lemma LengthStep(es: seq<Entry>, i: nat, length: int)
    requires i < |es| && length == Wrap32(4 + 8 * |es| + SumLengths(es[..i]))
    ensures Wrap32(length + |es[i].cmap.body|) == Wrap32(4 + 8 * |es| + SumLengths(es[..i + 1]))
  {
    SumLengthsStep(es, i);
    Wrap32Add(4 + 8 * |es| + SumLengths(es[..i]), |es[i].cmap.body|);
  }

  /** From the offset of record i the table holds body i and the bodies after it. */
  lemma BodyAt(version: Short, es: seq<Entry>, i: nat)
    requires i < |es|
    ensures var offset := 4 + 8 * |es| + SumLengths(es[..i]);
      offset <= |Layout(version, es)| &&
      Layout(version, es)[offset..] == es[i].cmap.body + Bodies(es[i + 1..])
  {
    SumLengthsPrefix(es, i);
    BodiesAround(es, i);
    var head := ShortBytes(version) + ShortBytes(ToShort(|es|)) + Records(es, 4 + 8 * |es|);
    var front := head + Bodies(es[..i]);
    assert Layout(version, es) == front + (es[i].cmap.body + Bodies(es[i + 1..]));
  }

  lemma {:induction false} BodiesAround(es: seq<Entry>, i: nat)
    requires i < |es|
    ensures Bodies(es) == Bodies(es[..i]) + (es[i].cmap.body + Bodies(es[i + 1..]))
    decreases |es|
  {
    var front := es[..|es| - 1];
    if i == |es| - 1 {
      assert front == es[..i];
      assert es[i + 1..] == [];
    } else {
      BodiesAround(front, i);
      assert front[..i] == es[..i] && front[i] == es[i];
      assert es[i + 1..][..|es[i + 1..]| - 1] == front[i + 1..];
    }
  }

  // ---------------------------------------------------------------
  // Reading a table (setData)
  // ---------------------------------------------------------------

  /** The exceptions a ByteBuffer raises: reading past the end, a position
      outside the buffer, a mark lost by moving before it, a negative
      capacity, writing past the end. */
  datatype BufferError = Underflow | BadPosition | InvalidMark | NegativeCapacity | Overflow

  /** The record loop of `setData` from the record at `pos`, with `count`
      records still to read: the table it leaves and how it ends. A record
      whose map reads as nothing is skipped; a buffer exception stops the
      loop with the maps added so far kept. */
  function ReadRecords(data: seq<byte>, pos: nat, count: int, es: seq<Entry>, getMap: MapReader): (seq<Entry>, Outcome<BufferError>)
    decreases count
  {
    if count <= 0 then (es, Pass)
    else if pos + 8 > |data| then (es, Fail(Underflow))
    else
      var key := Key(ReadShort(data, pos), ReadShort(data, pos + 2));
      var offset := ReadInt(data, pos + 4);
      if offset < 0 || offset > |data| then (es, Fail(BadPosition))
      else if offset < pos + 8 then (es, Fail(InvalidMark))
      else
        var parsed := getMap(data[offset..]);
        ReadRecords(data, pos + 8, count - 1, if parsed.Some? then Put(es, key, parsed.value) else es, getMap)
  }

  /** One more record read by `setData`'s loop: a record inside the buffer
      whose offset lies past it and inside the buffer adds its map, if any. */
  lemma ReadNext(data: seq<byte>, pos: nat, count: int, es: seq<Entry>, getMap: MapReader)
    requires count > 0 && pos + 8 <= |data|
    requires pos + 8 <= ReadInt(data, pos + 4) <= |data|
    ensures var parsed := getMap(data[ReadInt(data, pos + 4)..]);
      ReadRecords(data, pos, count, es, getMap) ==
      ReadRecords(data, pos + 8, count - 1,
        if parsed.Some? then Put(es, Key(ReadShort(data, pos), ReadShort(data, pos + 2)), parsed.value) else es, getMap)
  {
  }

  /** A record that stops `setData`'s loop: the buffer ends inside it, its
      offset lies outside the buffer, or before the record's end. */
  lemma ReadStops(data: seq<byte>, pos: nat, count: int, es: seq<Entry>, getMap: MapReader)
    requires count > 0
    ensures pos + 8 > |data| ==> ReadRecords(data, pos, count, es, getMap) == (es, Fail(Underflow))
    ensures pos + 8 <= |data| && (ReadInt(data, pos + 4) < 0 || ReadInt(data, pos + 4) > |data|) ==>
      ReadRecords(data, pos, count, es, getMap) == (es, Fail(BadPosition))
    ensures pos + 8 <= |data| && 0 <= ReadInt(data, pos + 4) < pos + 8 ==>
      ReadRecords(data, pos, count, es, getMap) == (es, Fail(InvalidMark))
  {
  }

  /** The record at `pos` reads as key `k`, with an offset past the record
      and inside the buffer, where `getMap` finds `m`. */
  predicate RecordReads(data: seq<byte>, pos: nat, k: Key, m: CMap, getMap: MapReader) {
    pos + 8 <= |data| && Key(ReadShort(data, pos), ReadShort(data, pos + 2)) == k &&
    pos + 8 <= ReadInt(data, pos + 4) <= |data| && getMap(data[ReadInt(data, pos + 4)..]) == Some(m)
  }

  /** Record i reads as entry i. */
  predicate EntryReads(data: seq<byte>, es: seq<Entry>, i: nat, getMap: MapReader)
    requires i < |es|
  {
    RecordReads(data, 4 + 8 * i, es[i].key, es[i].cmap, getMap)
  }

  /** Records that read as a sorted table's entries, from the j-th on,
      rebuild the table from its first j entries. */
  lemma {:induction false} ReadFrom(data: seq<byte>, es: seq<Entry>, getMap: MapReader, j: nat)
    requires Sorted(es) && j <= |es|
    requires forall i :: j <= i < |es| ==> EntryReads(data, es, i, getMap)
    ensures ReadRecords(data, 4 + 8 * j, |es| - j, es[..j], getMap) == (es, Pass)
    decreases |es| - j
  {
    if j == |es| {
      assert es[..j] == es;
    } else {
      ReadStep(data, es, getMap, j);
      ReadFrom(data, es, getMap, j + 1);
    }
  }

  /** One record read into the table the records before it built. */
  lemma ReadStep(data: seq<byte>, es: seq<Entry>, getMap: MapReader, j: nat)
    requires Sorted(es) && j < |es|
    requires EntryReads(data, es, j, getMap)
    ensures ReadRecords(data, 4 + 8 * j, |es| - j, es[..j], getMap) ==
      ReadRecords(data, 4 + 8 * (j + 1), |es| - (j + 1), es[..j + 1], getMap)
  {
    ReadOne(data, 4 + 8 * j, |es| - j, es[..j], es[j].key, es[j].cmap, getMap);
    PutNext(es, j);
  }

  /** Putting the next entry of a sorted table after its first j entries
      appends it. */
  lemma PutNext(es: seq<Entry>, j: nat)
    requires Sorted(es) && j < |es|
    ensures Put(es[..j], es[j].key, es[j].cmap) == es[..j + 1]
  {
    forall i | 0 <= i < |es[..j]| ensures KeyLess(es[..j][i].key, es[j].key) {
      assert es[..j][i] == es[i];
    }
    PutGreatest(es[..j], es[j].key, es[j].cmap);
    assert es[..j] + [Entry(es[j].key, es[j].cmap)] == es[..j + 1];
  }

  /** A record that reads as `k` and `m` puts `m` under `k`. */
  lemma ReadOne(data: seq<byte>, pos: nat, count: int, es: seq<Entry>, k: Key, m: CMap, getMap: MapReader)
    requires count > 0 && RecordReads(data, pos, k, m, getMap)
    ensures ReadRecords(data, pos, count, es, getMap) == ReadRecords(data, pos + 8, count - 1, Put(es, k, m), getMap)
  {
  }

  /** Record j of a written table reads back as its key and offset. */
  lemma RecordBytes(version: Short, es: seq<Entry>, j: nat)
    requires j < |es| && Total(es) < 0x8000_0000
    ensures var data := Layout(version, es);
      4 + 8 * j + 8 <= |data| &&
      ReadShort(data, 4 + 8 * j) == es[j].key.platformID &&
      ReadShort(data, 4 + 8 * j + 2) == es[j].key.platformSpecificID &&
      ReadInt(data, 4 + 8 * j + 4) == 4 + 8 * |es| + SumLengths(es[..j])
  {
    var offset := 4 + 8 * |es| + SumLengths(es[..j]);
    assert 0 <= offset < 0x8000_0000 by { SumLengthsPrefix(es, j); }
    RecordSlice(version, es, j);
    ReadRecordAt(Layout(version, es), 4 + 8 * j, es[j].key, offset);
  }

  /** Record j sits 4 + 8j bytes into the layout. */
  lemma RecordSlice(version: Short, es: seq<Entry>, j: nat)
    requires j < |es|
    ensures 4 + 8 * j + 8 <= |Layout(version, es)|
    ensures Layout(version, es)[4 + 8 * j..4 + 8 * j + 8] == Record(es[j].key, 4 + 8 * |es| + SumLengths(es[..j]))
  {
    RecordAt(es, 4 + 8 * |es|, j);
    var head := ShortBytes(version) + ShortBytes(ToShort(|es|));
    ConcatSlice(head, Records(es, 4 + 8 * |es|), Bodies(es), 8 * j, 8 * j + 8);
  }

  /** A slice of the middle part of a concatenation. */
  lemma ConcatSlice(a: seq<byte>, b: seq<byte>, c: seq<byte>, p: nat, q: nat)
    requires p <= q <= |b|
    ensures (a + b + c)[|a| + p..|a| + q] == b[p..q]
  {
    forall i | 0 <= i < q - p ensures (a + b + c)[|a| + p..|a| + q][i] == b[p..q][i] {
      assert (a + b + c)[|a| + p + i] == b[p + i];
    }
  }

  lemma SliceOfSlice(data: seq<byte>, a: nat, b: nat, c: nat, d: nat)
    requires a <= b <= |data| && c <= d <= b - a
    ensures data[a..b][c..d] == data[a + c..a + d]
  {
    forall i | 0 <= i < d - c ensures data[a..b][c..d][i] == data[a + c..a + d][i] {
      assert data[a..b][c..d][i] == data[a..b][c + i] == data[a + c + i];
    }
  }

  /** An encoding record read back. */
  lemma ReadRecordAt(data: seq<byte>, pos: nat, k: Key, offset: Int32)
    requires pos + 8 <= |data| && data[pos..pos + 8] == Record(k, offset)
    ensures ReadShort(data, pos) == k.platformID && ReadShort(data, pos + 2) == k.platformSpecificID
    ensures ReadInt(data, pos + 4) == offset
  {
    var w := data[pos..pos + 8];
    SliceOfSlice(data, pos, pos + 8, 0, 2);
    SliceOfSlice(data, pos, pos + 8, 2, 4);
    SliceOfSlice(data, pos, pos + 8, 4, 8);
    var a, b, c := ShortBytes(k.platformID), ShortBytes(k.platformSpecificID), IntBytes(Wrap32(offset));
    assert w == a + b + c;
    assert w[0..2] == a && w[2..4] == b && w[4..8] == c;
    ReadShortAt(data, pos, k.platformID);
    ReadShortAt(data, pos + 2, k.platformSpecificID);
    ReadIntAt(data, pos + 4, offset);
  }

  lemma {:induction false} SumLengthsPrefix(es: seq<Entry>, j: nat)
    requires j <= |es|
    ensures SumLengths(es[..j]) <= SumLengths(es)
    decreases |es| - j
  {
    if j < |es| {
      SumLengthsStep(es, j);
      SumLengthsPrefix(es, j + 1);
    } else {
      assert es[..j] == es;
    }
  }

  /** What `getData` writes, `setData` reads back into an empty table: the
      version and every entry, provided the table fits a Java `int`, the
      count fits a `short`, and `getMap` recognises each body where it lies. */
  lemma GetDataSetData(version: Short, es: seq<Entry>, getMap: MapReader)
    requires Sorted(es) && |es| < 0x8000 && Total(es) < 0x8000_0000
    requires forall i :: 0 <= i < |es| ==> getMap(es[i].cmap.body + Bodies(es[i + 1..])) == Some(es[i].cmap)
    ensures var data := Layout(version, es);
      |data| >= 4 && ReadShort(data, 0) == version && ReadShort(data, 2) == |es| &&
      ReadRecords(data, 4, |es|, [], getMap) == (es, Pass)
  {
    var data := Layout(version, es);
    assert data[0..2] == ShortBytes(version);
    assert data[2..4] == ShortBytes(ToShort(|es|));
    ReadShortAt(data, 0, version);
    ReadShortAt(data, 2, |es|);
    forall i | 0 <= i < |es| ensures EntryReads(data, es, i, getMap) {
      RecordBytes(version, es, i);
      BodyAt(version, es, i);
    }
    ReadFrom(data, es, getMap, 0);
    assert es[..0] == [];
  }

  // ---------------------------------------------------------------
  // getCMaps
  // ---------------------------------------------------------------

  /** The maps of `vs` not yet in `seen`, each once, in the order of `vs`. */
  function Fresh(seen: seq<CMap>, vs: seq<CMap>): seq<CMap>
    decreases |vs|
  {
    if vs == [] then []
    else if vs[0] in seen then Fresh(seen, vs[1..])
    else [vs[0]] + Fresh(seen + [vs[0]], vs[1..])
  }

  /** `f` is `vs` with some elements left out. */
  predicate IsSubsequence(f: seq<CMap>, vs: seq<CMap>)
    decreases |vs|
  {
    f == [] || (vs != [] && (if f[0] == vs[0] then IsSubsequence(f[1..], vs[1..]) else IsSubsequence(f, vs[1..])))
  }

  /** The fresh maps are exactly the maps of `vs` not in `seen`, without
      repeats, in the order of `vs`. */
  lemma {:induction false} FreshSpec(seen: seq<CMap>, vs: seq<CMap>)
    ensures forall m :: m in Fresh(seen, vs) <==> m in vs && m !in seen
    ensures forall i, j :: 0 <= i < j < |Fresh(seen, vs)| ==> Fresh(seen, vs)[i] != Fresh(seen, vs)[j]
    ensures IsSubsequence(Fresh(seen, vs), vs)
    decreases |vs|
  {
    if vs != [] {
      FreshSpec(seen, vs[1..]);
      FreshSpec(seen + [vs[0]], vs[1..]);
      assert vs == [vs[0]] + vs[1..];
      if vs[0] !in seen {
        var tail := Fresh(seen + [vs[0]], vs[1..]);
        var f := [vs[0]] + tail;
        forall i, j | 0 <= i < j < |f| ensures f[i] != f[j] {
          assert f[j] == tail[j - 1];
          if i > 0 {
            assert f[i] == tail[i - 1];
          }
        }
        assert f[1..] == tail;
      } else {
        SubsequenceSkip(Fresh(seen, vs[1..]), vs);
      }
    }
  }

  lemma {:induction false} SubsequenceSkip(f: seq<CMap>, vs: seq<CMap>)
    requires vs != [] && IsSubsequence(f, vs[1..])
    ensures IsSubsequence(f, vs)
    decreases |vs|, 0
  {
    if f != [] && f[0] == vs[0] {
      SubsequenceDropHead(f, vs[1..]);
    }
  }

  lemma {:induction false} SubsequenceDropHead(f: seq<CMap>, t: seq<CMap>)
    requires f != [] && IsSubsequence(f, t)
    ensures IsSubsequence(f[1..], t)
    decreases |t|, 1
  {
    if f[0] == t[0] {
      SubsequenceSkip(f[1..], t);
    } else {
      SubsequenceDropHead(f, t[1..]);
      SubsequenceSkip(f[1..], t);
    }
  }

  /** The maps `getCMaps` puts first: the (3,1) map, then the (1,0) map. */
  function Preferred(es: seq<Entry>): (r: seq<CMap>) {
    (match Lookup(es, Key(3, 1)) case Some(m) => [m] case None => []) +
    (match Lookup(es, Key(1, 0)) case Some(m) => [m] case None => [])
  }

  lemma PreferredInTable(es: seq<Entry>)
    ensures forall m <- Preferred(es) :: m in Values(es)
  {
    var a := Lookup(es, Key(3, 1));
    var b := Lookup(es, Key(1, 0));
    if a.Some? {
      var i :| 0 <= i < |es| && es[i] == Entry(Key(3, 1), a.value);
      assert Values(es)[i] == a.value;
    }
    if b.Some? {
      var i :| 0 <= i < |es| && es[i] == Entry(Key(1, 0), b.value);
      assert Values(es)[i] == b.value;
    }
  }

  /** From position n on, no map appears twice or repeats one before n. */
  predicate NoRepeatsAfter(r: seq<CMap>, n: nat) {
    forall i, j :: n <= i < j < |r| ==> r[i] != r[j] && r[i] !in r[..n]
  }

  /** The list `getCMaps` returns holds every map of the table and nothing
      else, and after the preferred maps no map appears twice. */
  lemma CMapsSpec(es: seq<Entry>)
    ensures var pre := Preferred(es); var r := pre + Fresh(pre, Values(es));
      (forall m :: m in r <==> m in Values(es)) && NoRepeatsAfter(r, |pre|)
  {
    var pre := Preferred(es);
    var f := Fresh(pre, Values(es));
    var r := pre + f;
    FreshSpec(pre, Values(es));
    PreferredInTable(es);
    forall i, j | |pre| <= i < j < |r| ensures r[i] != r[j] && r[i] !in r[..|pre|] {
      assert r[i] == f[i - |pre|] && r[j] == f[j - |pre|];
      assert r[..|pre|] == pre;
    }
  }

  /** The record loop of `getData`, with its running offset. */
  method WriteRecords(es: seq<Entry>, start: int) returns (buf: seq<byte>)
    ensures buf == Records(es, start)
  {
    buf := [];
    var curOffset := start;
    for i := 0 to |es|
      invariant buf == Records(es[..i], start)
      invariant curOffset == start + SumLengths(es[..i])
    {
      RecordsSnoc(es, i, start);
      SumLengthsStep(es, i);
      var cms := es[i];
      buf := buf + ShortBytes(cms.key.platformID) + ShortBytes(cms.key.platformSpecificID) + IntBytes(Wrap32(curOffset));
      curOffset := curOffset + |cms.cmap.body|;
    }
    assert es[..|es|] == es;
  }

  /** The body loop of `getData`. */
  method WriteBodies(es: seq<Entry>) returns (buf: seq<byte>)
    ensures buf == Bodies(es)
  {
    buf := [];
    for i := 0 to |es|
      invariant buf == Bodies(es[..i])
    {
      BodiesSnoc(es, i);
      buf := buf + es[i].cmap.body;
    }
    assert es[..|es|] == es;
  }

  /** The preference loop of `getCMaps`: each map not listed yet is added. */
  method AppendFresh(pre: seq<CMap>, vs: seq<CMap>) returns (c: seq<CMap>)
    ensures c == pre + Fresh(pre, vs)
  {
    c := pre;
    for i := 0 to |vs|
      invariant c + Fresh(c, vs[i..]) == pre + Fresh(pre, vs)
    {
      assert vs[i..][1..] == vs[i + 1..];
      if vs[i] !in c {
        c := c + [vs[i]];
      }
    }
    assert vs[|vs|..] == [];
  }

  // ---------------------------------------------------------------
  // The table object
  // ---------------------------------------------------------------

  class CmapTable {
    var version: Short
    /** The subtables in key order. */
    var subtables: seq<Entry>

    predicate Valid()
      reads this`subtables
    {
      Sorted(subtables)
    }

    /** A new table: version 0, no subtables. */
    constructor ()
      ensures Valid() && version == 0 && subtables == []
    {
      version := 0;
      subtables := [];
    }

    /** `addCMap`. */
    method AddCMap(platformID: Short, platformSpecificID: Short, cMap: CMap)
      requires Valid()
      modifies this`subtables
      ensures Valid() && subtables == Put(old(subtables), Key(platformID, platformSpecificID), cMap)
    {
      PutSorted(subtables, Key(platformID, platformSpecificID), cMap);
      subtables := Put(subtables, Key(platformID, platformSpecificID), cMap);
    }

    /** `getCMap`: null when no subtable has the key. */
    function GetCMap(platformID: Short, platformSpecificID: Short): (r: Option<CMap>)
      reads this`subtables
      ensures r.Some? ==> Entry(Key(platformID, platformSpecificID), r.value) in subtables
      ensures r.None? ==> forall e <- subtables :: e.key != Key(platformID, platformSpecificID)
    {
      Lookup(subtables, Key(platformID, platformSpecificID))
    }

    /** `removeCMap`. */
    method RemoveCMap(platformID: Short, platformSpecificID: Short)
      requires Valid()
      modifies this`subtables
      ensures Valid() && subtables == Remove(old(subtables), Key(platformID, platformSpecificID))
    {
      RemoveSorted(subtables, Key(platformID, platformSpecificID));
      subtables := Remove(subtables, Key(platformID, platformSpecificID));
    }

    /** `getNumberSubtables`: the count as a `short`. */
    function GetNumberSubtables(): (r: Short)
      reads this`subtables
      ensures |subtables| < 0x8000 ==> r == |subtables|
    {
      ToShort(|subtables|)
    }

    function GetVersion(): Short
      reads this`version
    {
      version
    }

    method SetVersion(v: Short)
      modifies this`version
      ensures version == v
    {
      version := v;
    }

    /** `getCMaps`: the preferred maps, then every other map once, in key order. */
    method GetCMaps() returns (r: seq<CMap>)
      ensures var pre := Preferred(subtables); r == pre + Fresh(pre, Values(subtables))
      ensures forall m :: m in r <==> m in Values(subtables)
      ensures NoRepeatsAfter(r, |Preferred(subtables)|)
    {
      var c: seq<CMap> := [];
      var m31 := GetCMap(3, 1);
      if m31.Some? {
        c := c + [m31.value];
      }
      var m10 := GetCMap(1, 0);
      if m10.Some? {
        c := c + [m10.value];
      }
      assert c == Preferred(subtables);
      r := AppendFresh(c, Values(subtables));
      CMapsSpec(subtables);
    }

    /** `getLength`: the table's size in Java `int` arithmetic. */
    method GetLength() returns (r: Int32)
      ensures r == Wrap32(Total(subtables))
    {
      var length: Int32 := 4;
      length := Wrap32(length + Wrap32(|subtables| * 8));
      Wrap32Add(|subtables| * 8, 4);
      var vs := Values(subtables);
      for i := 0 to |vs|
        invariant length == Wrap32(4 + 8 * |subtables| + SumLengths(subtables[..i]))
      {
        LengthStep(subtables, i, length);
        length := Wrap32(length + |vs[i].body|);
      }
      assert subtables[..|subtables|] == subtables;
      return length;
    }

    /** `getData`: the layout above when the table fits a Java `int`; an
        exception from the buffer otherwise. */
    method GetData() returns (r: Result<seq<byte>, BufferError>)
      ensures Total(subtables) < 0x8000_0000 ==> r == Success(Layout(version, subtables))
      ensures Total(subtables) >= 0x8000_0000 ==> r.Failure?
    {
      var length := GetLength();
      if length < 0 {
        return Failure(NegativeCapacity);
      }
      var head := ShortBytes(version) + ShortBytes(ToShort(|subtables|));
      var recs := WriteRecords(subtables, 4 + |subtables| * 8);
      var bodies := WriteBodies(subtables);
      var buf := head + recs + bodies;
      if |buf| > length {
        return Failure(Overflow);
      }
      return Success(buf);
    }

    /** `setData`: the version, then the count, then each record; a map
        that reads as nothing is skipped, and a buffer exception ends the
        call with what was read so far kept. */
    method SetData(data: seq<byte>, getMap: MapReader) returns (r: Outcome<BufferError>)
      requires Valid()
      modifies this
      ensures Valid()
      ensures |data| < 2 ==> r == Fail(Underflow) && version == old(version) && subtables == old(subtables)
      ensures 2 <= |data| < 4 ==> r == Fail(Underflow) && version == ReadShort(data, 0) && subtables == old(subtables)
      ensures |data| >= 4 ==> version == ReadShort(data, 0)
      ensures |data| >= 4 ==> (subtables, r) == ReadRecords(data, 4, ReadShort(data, 2), old(subtables), getMap)
    {
      if |data| < 2 {
        return Fail(Underflow);
      }
      version := ReadShort(data, 0);
      if |data| < 4 {
        return Fail(Underflow);
      }
      var numberSubtables: int := ReadShort(data, 2);
      var pos := 4;
      var i := 0;
      while i < numberSubtables
        invariant Valid() && version == ReadShort(data, 0)
        invariant 0 <= i && (numberSubtables >= 0 ==> i <= numberSubtables) && pos == 4 + 8 * i
        invariant ReadRecords(data, pos, numberSubtables - i, subtables, getMap) ==
          ReadRecords(data, 4, numberSubtables, old(subtables), getMap)
      {
        if pos + 8 > |data| {
          ReadStops(data, pos, numberSubtables - i, subtables, getMap);
          return Fail(Underflow);
        }
        var platformID := ReadShort(data, pos);
        var platformSpecificID := ReadShort(data, pos + 2);
        var offset := ReadInt(data, pos + 4);
        pos := pos + 8;
        if offset < 0 || offset > |data| {
          ReadStops(data, pos - 8, numberSubtables - i, subtables, getMap);
          return Fail(BadPosition);
        }
        if offset < pos {
          ReadStops(data, pos - 8, numberSubtables - i, subtables, getMap);
          return Fail(InvalidMark);
        }
        var cMap := getMap(data[offset..]);
        ReadNext(data, pos - 8, numberSubtables - i, subtables, getMap);
        if cMap.Some? {
          AddCMap(platformID, platformSpecificID, cMap.value);
        }
        i := i + 1;
      }
      return Pass;
    }
  }

}
