/** The USN journal parser: a byte-level loop over USN_RECORD_V2 records. */
module Usn {
  import opened Filesystem
  import opened Names

  // ─── Little-endian numbers ────────────────────────────────────────────────

  function Pow256(w: nat): (n: nat)
    ensures n > 0
  {
    if w == 0 then 1 else 256 * Pow256(w - 1)
  }

  function Le(n: nat, w: nat): (b: Bytes)
    ensures |b| == w
  {
    if w == 0 then [] else [n % 256] + Le(n / 256, w - 1)
  }

  function UnLe(b: Bytes): nat {
    if b == [] then 0 else b[0] + 256 * UnLe(b[1..])
  }

  lemma {:induction false} LeRoundTrip(n: nat, w: nat)
    requires n < Pow256(w)
    ensures UnLe(Le(n, w)) == n
  {
    if w > 0 {
      LeRoundTrip(n / 256, w - 1);
      assert Le(n, w)[1..] == Le(n / 256, w - 1);
    }
  }

  /** The least significant byte comes first. */
  lemma LittleEndian(a: Byte, b: Byte, c: Byte, d: Byte)
    ensures UnLe([a, b]) == a + 0x100 * b as int
    ensures UnLe([a, b, c, d]) == a + 0x100 * b as int + 0x1_0000 * c as int + 0x100_0000 * d as int
  {
    assert [a, b, c, d][1..] == [b, c, d] && [b, c, d][1..] == [c, d] && [c, d][1..] == [d];
    assert [a, b][1..] == [b] && [b][1..] == [];
    assert UnLe([d]) == d && UnLe([b]) == b;
    assert UnLe([b, c, d]) == b + 256 * UnLe([c, d]);
  }

  // ─── UTF-16, section 2 of RFC 2781 ────────────────────────────────────────

  type Unit = u: int | 0 <= u < 0x1_0000
  type Scalar = s: int | 0 <= s < 0xD800 || 0xE000 <= s < 0x11_0000

  predicate HighSurrogate(u: Unit) { 0xD800 <= u < 0xDC00 }

  predicate LowSurrogate(u: Unit) { 0xDC00 <= u < 0xE000 }

  /** `String::from_utf16`: None for an unpaired surrogate. */
  function FromUtf16(units: seq<Unit>): Option<seq<Scalar>> {
    if units == [] then Some([])
    else if !HighSurrogate(units[0]) && !LowSurrogate(units[0]) then
      match FromUtf16(units[1..])
      case None => None
      case Some(rest) => Some([units[0]] + rest)
    else if |units| >= 2 && HighSurrogate(units[0]) && LowSurrogate(units[1]) then
      match FromUtf16(units[2..])
      case None => None
      case Some(rest) => Some([(units[0] as int - 0xD800) * 0x400 + (units[1] as int - 0xDC00) + 0x1_0000] + rest)
    else None
  }

  function ToUtf16(s: seq<Scalar>): seq<Unit> {
    if s == [] then [] else EncodeScalar(s[0]) + ToUtf16(s[1..])
  }

  function EncodeScalar(s: Scalar): seq<Unit> {
    if s < 0x1_0000 then [s]
    else [0xD800 + (s - 0x1_0000) / 0x400, 0xDC00 + (s - 0x1_0000) % 0x400]
  }

  /** Decoding accepts exactly the encodings, and gives back what was encoded. */
  lemma {:induction false} Utf16RoundTrip(s: seq<Scalar>)
    ensures FromUtf16(ToUtf16(s)) == Some(s)
  {
    if s != [] {
      var units, head := ToUtf16(s), EncodeScalar(s[0]);
      assert units[|head|..] == ToUtf16(s[1..]);
      Utf16RoundTrip(s[1..]);
      assert [s[0]] + s[1..] == s;
    }
  }

  lemma {:induction false} Utf16OnlyEncodings(units: seq<Unit>)
    requires FromUtf16(units).Some?
    ensures ToUtf16(FromUtf16(units).value) == units
  {
    if units != [] {
      var s := FromUtf16(units).value;
      if !HighSurrogate(units[0]) {
        Utf16OnlyEncodings(units[1..]);
        assert s[1..] == FromUtf16(units[1..]).value;
      } else {
        Utf16OnlyEncodings(units[2..]);
        assert s[1..] == FromUtf16(units[2..]).value;
        assert [units[0], units[1]] + units[2..] == units;
      }
    }
  }

  /** A pair of surrogates counts from U+10000 on, the high one in steps of 0x400; any other single
      unit is itself. */
  lemma OneScalar(high: Unit, low: Unit, unit: Unit)
    requires 0xD800 <= high < 0xDC00 <= low < 0xE000
    ensures FromUtf16([high, low]) == Some([0x1_0000 + 0x400 * (high - 0xD800) + (low - 0xDC00)])
    ensures FromUtf16([unit]) == if 0xD800 <= unit < 0xE000 then None else Some([unit])
  {
    var units, none: seq<Unit>, empty: seq<Scalar> := [high, low], [], [];
    assert units[2..] == none && [unit][1..] == none;
    assert FromUtf16(none) == Some(empty);
    var pair: Scalar := 0x1_0000 + 0x400 * (high as int - 0xD800) + (low as int - 0xDC00);
    assert [pair] + empty == [pair];
    if unit < 0xD800 || unit >= 0xE000 {
      assert [unit as Scalar] + empty == [unit as Scalar];
    }
  }

  /** `chunks_exact(2)` and `u16::from_le_bytes`: an odd last byte is dropped. */
  function Units(b: Bytes): seq<Unit> {
    if |b| < 2 then [] else [b[0] as int + 256 * b[1] as int] + Units(b[2..])
  }

  function UnitBytes(units: seq<Unit>): (b: Bytes)
    ensures |b| == 2 * |units|
  {
    if units == [] then [] else [units[0] % 256, units[0] / 256] + UnitBytes(units[1..])
  }

  lemma {:induction false} UnitsRoundTrip(units: seq<Unit>)
    ensures Units(UnitBytes(units)) == units
  {
    if units != [] {
      assert UnitBytes(units)[2..] == UnitBytes(units[1..]);
      UnitsRoundTrip(units[1..]);
      assert [units[0]] + units[1..] == units;
    }
  }

  // ─── Records ──────────────────────────────────────────────────────────────

  datatype UsnReason = HardLinkChange | DataOverwrite | Other

  datatype UsnEntry = UsnEntry(name: seq<Scalar>, reason: UsnReason, usn: nat)

  /** `size_of::<USN_RECORD_V2>()`: 60 bytes of fields and a one-unit name, padded to 8. */
  const HEADER_SIZE: nat := 64
  const HARD_LINK_CHANGE: nat := 0x1_0000
  const DATA_OVERWRITE: nat := 0x1

  predicate HasFlag(reason: nat, flag: nat)
    requires flag > 0
  {
    (reason / flag) % 2 == 1
  }

  function Reason(flags: nat): UsnReason {
    if HasFlag(flags, HARD_LINK_CHANGE) then HardLinkChange
    else if HasFlag(flags, DATA_OVERWRITE) then DataOverwrite
    else Other
  }

  /** The reason bits of a record: bit 0, bits 1 to 15, bit 16 and bits 17 to 31. */
  datatype Flags = Flags(overwrite: bool, low: nat, hardLink: bool, high: nat) {
    predicate Valid() { low < 0x8000 && high < 0x8000 }

    function Value(): nat {
      (if overwrite then 1 else 0) + 2 * low + (if hardLink then 0x1_0000 else 0) + 0x2_0000 * high
    }
  }

  /** Bit 16 decides, whatever else is set, and then bit 0. */
  lemma ReasonIsByBits(f: Flags)
    requires f.Valid()
    ensures Reason(f.Value()) == if f.hardLink then HardLinkChange else if f.overwrite then DataOverwrite else Other
  {
    var n := f.Value();
    assert n / 0x1_0000 == 2 * f.high + (if f.hardLink then 1 else 0);
    assert n == 2 * (f.low + (if f.hardLink then 0x8000 else 0) + 0x1_0000 * f.high) + (if f.overwrite then 1 else 0);
  }

  /** Every 32-bit number is such a set of bits. */
  lemma FlagsOf(n: nat) returns (f: Flags)
    requires n < 0x1_0000_0000
    ensures f.Valid() && f.Value() == n
  {
    var lower, upper := n % 0x1_0000, n / 0x1_0000;
    f := Flags(lower % 2 == 1, lower / 2, upper % 2 == 1, upper / 2);
    assert lower == 2 * (lower / 2) + lower % 2 && upper == 2 * (upper / 2) + upper % 2;
  }

  function Field(data: Bytes, offset: nat, width: nat): nat
    requires offset + width <= |data|
  {
    UnLe(data[offset..offset + width])
  }

  /** The entry of the record at the start of `data`, if it has one. */
  function EntryAt(data: Bytes): seq<UsnEntry>
    requires |data| >= HEADER_SIZE
  {
    var reason := Reason(Field(data, 40, 4));
    var length, offset := Field(data, 56, 2), Field(data, 58, 2);
    if reason == Other || offset + length > |data| then []
    else
      match FromUtf16(Units(data[offset..offset + length]))
      case None => []
      case Some(name) => [UsnEntry(name, reason, Field(data, 24, 8))]
  }

  /** What the loop makes of `data`.  The function reads nothing else. */
  function Records(data: Bytes): seq<UsnEntry> {
    if |data| < HEADER_SIZE then []
    else
      var length := Field(data, 0, 4);
      if length == 0 then []
      else EntryAt(data) + if length <= |data| then Records(data[length..]) else []
  }

  lemma Slices(buf: Bytes, offset: nat, bytes: nat, at: nat, width: nat)
    requires offset + at + width <= bytes <= |buf|
    ensures buf[offset..bytes][at..at + width] == buf[offset + at..offset + at + width]
  {
    var a, b := buf[offset..bytes][at..at + width], buf[offset + at..offset + at + width];
    assert forall i :: 0 <= i < width ==> a[i] == b[i];
  }

  lemma FieldShift(buf: Bytes, offset: nat, bytes: nat, at: nat, width: nat)
    requires offset + at + width <= bytes <= |buf|
    ensures Field(buf, offset + at, width) == Field(buf[offset..bytes], at, width)
  {
    Slices(buf, offset, bytes, at, width);
  }

  /** The body of the loop: what the record at `offset` adds. */
  method ReadRecord(outBuf: Bytes, offset: nat, bytes: nat) returns (found: seq<UsnEntry>)
    requires offset + HEADER_SIZE <= bytes <= |outBuf|
    ensures found == EntryAt(outBuf[offset..bytes])
  {
    found := [];
    FieldShift(outBuf, offset, bytes, 40, 4);
    var reason := Reason(Field(outBuf, offset + 40, 4));
    if reason != Other {
      FieldShift(outBuf, offset, bytes, 58, 2);
      FieldShift(outBuf, offset, bytes, 56, 2);
      FieldShift(outBuf, offset, bytes, 24, 8);
      var nameOffset, nameLength := Field(outBuf, offset + 58, 2), Field(outBuf, offset + 56, 2);
      if offset + nameOffset + nameLength <= bytes {
        Slices(outBuf, offset, bytes, nameOffset, nameLength);
        var name := FromUtf16(Units(outBuf[offset + nameOffset..offset + nameOffset + nameLength]));
        if name.Some? {
          found := [UsnEntry(name.value, reason, Field(outBuf, offset + 24, 8))];
        }
      }
    }
  }

  /** The records from `offset` on, when `offset` has not run past the end. */
  function RecordsFrom(outBuf: Bytes, offset: nat, bytes: nat): seq<UsnEntry>
    requires bytes <= |outBuf|
  {
    if offset <= bytes then Records(outBuf[offset..bytes]) else []
  }

  lemma NextRecord(outBuf: Bytes, offset: nat, bytes: nat)
    requires offset + HEADER_SIZE <= bytes <= |outBuf|
    ensures var length := Field(outBuf, offset, 4);
            RecordsFrom(outBuf, offset, bytes) ==
            if length == 0 then [] else EntryAt(outBuf[offset..bytes]) + RecordsFrom(outBuf, offset + length, bytes)
  {
    hide EntryAt, Field, UnLe;
    var data, length := outBuf[offset..bytes], Field(outBuf, offset, 4);
    FieldShift(outBuf, offset, bytes, 0, 4);
    if length <= |data| {
      Slices(outBuf, offset, bytes, length, |data| - length);
      assert data[length..|data|] == data[length..];
    }
  }

  /** `entries` and what is still to be read make up `all`. */
  predicate Split(entries: seq<UsnEntry>, outBuf: Bytes, offset: nat, bytes: nat, all: seq<UsnEntry>)
    requires bytes <= |outBuf|
  {
    entries + RecordsFrom(outBuf, offset, bytes) == all
  }

  /** What one turn of the loop does to the split; the last turn is the one that finds no room
      for a header, or a record of length 0. */
  lemma Turn(entries: seq<UsnEntry>, outBuf: Bytes, offset: nat, bytes: nat, all: seq<UsnEntry>)
    requires bytes <= |outBuf| && Split(entries, outBuf, offset, bytes, all)
    ensures offset + HEADER_SIZE > bytes ==> entries == all
    ensures offset + HEADER_SIZE <= bytes ==>
              var length := Field(outBuf, offset, 4);
              if length == 0 then entries == all
              else Split(entries + EntryAt(outBuf[offset..bytes]), outBuf, offset + length, bytes, all)
  {
    hide Records, RecordsFrom, EntryAt, Field;
    if offset + HEADER_SIZE > bytes {
      NoMoreRecords(outBuf, offset, bytes);
    } else {
      NextRecord(outBuf, offset, bytes);
    }
  }

  lemma NoMoreRecords(outBuf: Bytes, offset: nat, bytes: nat)
    requires bytes <= |outBuf| && offset + HEADER_SIZE > bytes
    ensures RecordsFrom(outBuf, offset, bytes) == []
  {
    hide EntryAt, Field;
  }

  lemma NothingRead(outBuf: Bytes, bytes: nat)
    requires 8 <= |outBuf| && bytes <= |outBuf|
    ensures Split([], outBuf, 8, bytes, if bytes < 8 then [] else Records(outBuf[8..bytes]))
  {
    hide Records;
  }

  /** The record loop.  `outBuf` is the whole output buffer, of which the first `bytes` bytes have
      been filled; no byte beyond those decides anything but the cursor. */
  method ReadUsnJournal(outBuf: Bytes, bytes: nat) returns (entries: seq<UsnEntry>, nextUsn: nat)
    requires 8 <= |outBuf| && bytes <= |outBuf|
    ensures entries == if bytes < 8 then [] else Records(outBuf[8..bytes])
    ensures nextUsn == Field(outBuf, 0, 8)
  {
    hide Split, EntryAt, Records, RecordsFrom, Field;
    nextUsn := Field(outBuf, 0, 8);
    entries := [];
    var offset := 8;
    ghost var all := if bytes < 8 then [] else Records(outBuf[8..bytes]);
    NothingRead(outBuf, bytes);
    while offset + HEADER_SIZE <= bytes
      invariant Split(entries, outBuf, offset, bytes, all)
    {
      Turn(entries, outBuf, offset, bytes, all);
      var recordLength := Field(outBuf, offset, 4);
      if recordLength == 0 {
        break;
      }
      var found := ReadRecord(outBuf, offset, bytes);
      entries := entries + found;
      offset := offset + recordLength;
    }
    Turn(entries, outBuf, offset, bytes, all);
  }

  // ─── Round trip ───────────────────────────────────────────────────────────

  /** A journal record.  `ids`, `time` and `attrs` are the fields the parser skips, `gap` and
      `pad` what stands before and after the name. */
  datatype Record = Record(flags: Flags, usn: nat, units: seq<Unit>, ids: Bytes, time: Bytes, attrs: Bytes, gap: Bytes, pad: Bytes) {
    predicate Valid() {
      && flags.Valid() && usn < Pow256(8)
      && |ids| == 20 && |time| == 8 && |attrs| == 12
      && 2 * |units| < Pow256(2) && NameOffset() < Pow256(2)
      && 64 <= Size() < Pow256(4)
    }

    function NameOffset(): nat {
      60 + |gap|
    }

    function Size(): nat {
      NameOffset() + 2 * |units| + |pad|
    }

    function Encode(): Bytes {
      Le(Size(), 4) + ids + Le(usn, 8) + time + Le(flags.Value(), 4) + attrs
      + Le(2 * |units|, 2) + Le(NameOffset(), 2) + gap + UnitBytes(units) + pad
    }

    /** What the engine is to learn from the record: a hard-link change outranks an overwrite. */
    function Wanted(): seq<UsnEntry> {
      match FromUtf16(units)
      case None => []
      case Some(name) =>
        if flags.hardLink then [UsnEntry(name, HardLinkChange, usn)]
        else if flags.overwrite then [UsnEntry(name, DataOverwrite, usn)]
        else []
    }
  }

  function EncodeAll(rs: seq<Record>): Bytes {
    if rs == [] then [] else rs[0].Encode() + EncodeAll(rs[1..])
  }

  function WantedAll(rs: seq<Record>): seq<UsnEntry> {
    if rs == [] then [] else rs[0].Wanted() + WantedAll(rs[1..])
  }

  /** Where the fields of an encoded record lie. */
  lemma LayoutOf(r: Record, rest: Bytes)
    requires r.Valid()
    ensures var data := r.Encode() + rest;
            && |r.Encode()| == r.Size() && |data| >= HEADER_SIZE
            && data[0..4] == Le(r.Size(), 4) && data[24..32] == Le(r.usn, 8) && data[40..44] == Le(r.flags.Value(), 4)
            && data[56..58] == Le(2 * |r.units|, 2) && data[58..60] == Le(r.NameOffset(), 2)
            && data[r.NameOffset()..r.NameOffset() + 2 * |r.units|] == UnitBytes(r.units)
            && data[r.Size()..] == rest
  {
    hide Le, UnitBytes, Pow256;
  }

  lemma FieldsOf(r: Record, rest: Bytes)
    requires r.Valid()
    ensures var data := r.Encode() + rest;
            && |r.Encode()| == r.Size() && |data| >= HEADER_SIZE
            && Field(data, 0, 4) == r.Size() && Field(data, 24, 8) == r.usn && Field(data, 40, 4) == r.flags.Value()
            && Field(data, 56, 2) == 2 * |r.units| && Field(data, 58, 2) == r.NameOffset()
            && data[r.NameOffset()..r.NameOffset() + 2 * |r.units|] == UnitBytes(r.units)
            && data[r.Size()..] == rest
  {
    LayoutOf(r, rest);
    assert Pow256(2) == 0x1_0000 && Pow256(4) == 0x1_0000_0000 by {
      assert Pow256(2) == 256 * (256 * Pow256(0));
      assert Pow256(4) == 256 * (256 * Pow256(2));
    }
    LeRoundTrip(r.Size(), 4);
    LeRoundTrip(r.usn, 8);
    LeRoundTrip(r.flags.Value(), 4);
    LeRoundTrip(2 * |r.units|, 2);
    LeRoundTrip(r.NameOffset(), 2);
    hide Le, UnLe, UnitBytes, Pow256;
  }

  lemma EntryIsWanted(r: Record, rest: Bytes)
    requires r.Valid()
    ensures var data := r.Encode() + rest;
            |data| >= HEADER_SIZE && EntryAt(data) == r.Wanted()
  {
    hide Field, UnitBytes, Units, FromUtf16, Le, Pow256, Reason;
    FieldsOf(r, rest);
    UnitsRoundTrip(r.units);
    ReasonIsByBits(r.flags);
  }

  lemma OneRecord(r: Record, rest: Bytes)
    requires r.Valid()
    ensures var data := r.Encode() + rest;
            |data| >= HEADER_SIZE && Records(data) == r.Wanted() + Records(rest)
  {
    hide Field, EntryAt, Le, Pow256;
    FieldsOf(r, rest);
    EntryIsWanted(r, rest);
  }

  /** Less than a header is left, or what is left starts with a length of 0. */
  predicate AtEnd(tail: Bytes) {
    |tail| < 64 || tail[..4] == [0, 0, 0, 0]
  }

  lemma NothingAtEnd(tail: Bytes)
    requires AtEnd(tail)
    ensures Records(tail) == []
  {
    if |tail| >= 64 {
      LittleEndian(0, 0, 0, 0);
      assert tail[0..0 + 4] == [0, 0, 0, 0];
    }
  }

  lemma {:induction false} RecordsRoundTrip(rs: seq<Record>, tail: Bytes)
    requires (forall r <- rs :: r.Valid()) && AtEnd(tail)
    ensures Records(EncodeAll(rs) + tail) == WantedAll(rs)
  {
    hide Records, AtEnd;
    EncodeNext(rs, tail);
    if rs == [] {
      NothingAtEnd(tail);
    } else {
      RecordsRoundTrip(rs[1..], tail);
      OneRecord(rs[0], EncodeAll(rs[1..]) + tail);
    }
  }

  lemma EncodeNext(rs: seq<Record>, tail: Bytes)
    ensures EncodeAll(rs) + tail == if rs == [] then tail else rs[0].Encode() + (EncodeAll(rs[1..]) + tail)
  {
  }

  /** A buffer of records after an 8-byte cursor, whatever the rest of the buffer holds, is read as
      exactly the wanted records, in order. */
  lemma JournalRoundTrip(rs: seq<Record>, tail: Bytes, cursor: nat, slack: Bytes)
    requires cursor < Pow256(8)
    requires (forall r <- rs :: r.Valid()) && AtEnd(tail)
    ensures var filled := Le(cursor, 8) + EncodeAll(rs) + tail;
            && Records((filled + slack)[8..|filled|]) == WantedAll(rs)
            && Field(filled + slack, 0, 8) == cursor
  {
    hide Records, Le, WantedAll;
    var filled := Le(cursor, 8) + EncodeAll(rs) + tail;
    assert (filled + slack)[8..|filled|] == EncodeAll(rs) + tail;
    assert (filled + slack)[0..8] == Le(cursor, 8);
    LeRoundTrip(cursor, 8);
    RecordsRoundTrip(rs, tail);
  }

  // ─── The scanner ──────────────────────────────────────────────────────────

  datatype Journal = OpenFailed | ReadFailed | Filled(buf: Bytes, bytes: nat)
  datatype UsnError = OpenVolume | ReadJournal
  datatype ScanResult = Delta(entries: seq<UsnEntry>) | Failed(error: UsnError)

  class UsnDeltaScanner {
    var lastUsn: nat

    constructor (nextUsn: nat)
      ensures lastUsn == nextUsn
    {
      lastUsn := nextUsn;
    }

    /** The cursor moves on only when the journal has been read. */
    method ScanDelta(journal: Journal) returns (r: ScanResult)
      requires journal.Filled? ==> 8 <= |journal.buf| && journal.bytes <= |journal.buf|
      modifies this
      ensures r.Delta? <==> journal.Filled?
      ensures journal.Filled? ==> r.entries == if journal.bytes < 8 then [] else Records(journal.buf[8..journal.bytes])
      ensures lastUsn == if journal.Filled? then Field(journal.buf, 0, 8) else old(lastUsn)
    {
      match journal
      case OpenFailed => r := Failed(OpenVolume);
      case ReadFailed => r := Failed(ReadJournal);
      case Filled(buf, bytes) =>
        var entries, nextUsn := ReadUsnJournal(buf, bytes);
        lastUsn := nextUsn;
        r := Delta(entries);
    }
  }
}
