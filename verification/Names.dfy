/** On-disk names: hexadecimal digests, slot file names and quarantine names, as strings. */
module Names {
  import opened Filesystem

  datatype Option<+T> = None | Some(value: T)

  // ─── Hexadecimal digests ──────────────────────────────────────────────────

  function HexDigit(n: int): (ch: char)
    requires 0 <= n < 16
    ensures IsHexDigit(ch) && HexNibble(ch) == n
  {
    if n < 10 then '0' + n as char else 'a' + (n - 10) as char
  }

  predicate IsHexDigit(ch: char) {
    '0' <= ch <= '9' || 'a' <= ch <= 'f' || 'A' <= ch <= 'F'
  }

  /** The value of a hexadecimal digit of either case; 0 for anything else. */
  function HexNibble(ch: char): (n: int)
    ensures 0 <= n < 16
  {
    if '0' <= ch <= '9' then ch as int - '0' as int
    else if 'a' <= ch <= 'f' then ch as int - 'a' as int + 10
    else if 'A' <= ch <= 'F' then ch as int - 'A' as int + 10
    else 0
  }

  function Hex(bytes: Bytes): (s: string)
    ensures |s| == 2 * |bytes|
  {
    if bytes == [] then ""
    else Hex(bytes[..|bytes| - 1]) + HexByte(bytes[|bytes| - 1])
  }

  function HexByte(b: Byte): (s: string)
    ensures |s| == 2
  {
    [HexDigit(b / 16), HexDigit(b % 16)]
  }

  method HexEncode(bytes: Bytes) returns (s: string)
    ensures s == Hex(bytes)
  {
    s := "";
    for i := 0 to |bytes|
      invariant s == Hex(bytes[..i])
    {
      assert bytes[..i + 1][..i] == bytes[..i];
      s := s + HexByte(bytes[i]);
    }
    assert bytes[..|bytes|] == bytes;
  }

  /** The byte that chunk `i` of `hex` stands for; 0 beyond the end. */
  function ParsedByte(hex: string, i: nat): Byte {
    if 2 * i + 1 < |hex| then HexNibble(hex[2 * i]) * 16 + HexNibble(hex[2 * i + 1]) else 0
  }

  function ParsedDigest(hex: string): (d: Digest)
    ensures |d| == 32
  {
    seq(32, i requires i >= 0 => ParsedByte(hex, i))
  }

  /** A longer text, or one of odd length, makes the original panic. */
  method ParseDigestFromHex(hex: string) returns (digest: Digest)
    requires |hex| <= 64 && |hex| % 2 == 0
    ensures digest == ParsedDigest(hex)
  {
    var out := new Byte[32](_ => 0);
    for i := 0 to |hex| / 2
      invariant forall k :: 0 <= k < i ==> out[k] == ParsedByte(hex, k)
      invariant forall k :: i <= k < 32 ==> out[k] == 0
    {
      out[i] := HexNibble(hex[2 * i]) * 16 + HexNibble(hex[2 * i + 1]);
    }
    digest := out[..];
  }

  lemma {:induction false} HexAt(bytes: Bytes, i: nat)
    requires i < |bytes|
    ensures Hex(bytes)[2 * i] == HexDigit(bytes[i] / 16)
    ensures Hex(bytes)[2 * i + 1] == HexDigit(bytes[i] % 16)
  {
    if i < |bytes| - 1 {
      HexAt(bytes[..|bytes| - 1], i);
    }
  }

  /** Encoding and then parsing gives every 32-byte digest back. */
  lemma HexRoundTrip(digest: Digest)
    requires |digest| == 32
    ensures ParsedDigest(Hex(digest)) == digest
  {
    forall i | 0 <= i < 32 ensures ParsedDigest(Hex(digest))[i] == digest[i] {
      HexAt(digest, i);
    }
  }

  predicate IsLowerHex(ch: char) {
    IsHexDigit(ch) && !('A' <= ch <= 'F')
  }

  lemma NibbleRoundTrip(ch: char)
    ensures HexDigit(HexNibble(ch)) == ch <==> IsLowerHex(ch)
  {
  }

  lemma HexParseAt(hex: string, m: nat)
    requires |hex| == 64 && m < 32
    ensures Hex(ParsedDigest(hex))[2 * m] == HexDigit(HexNibble(hex[2 * m]))
    ensures Hex(ParsedDigest(hex))[2 * m + 1] == HexDigit(HexNibble(hex[2 * m + 1]))
  {
    var hi, lo := HexNibble(hex[2 * m]), HexNibble(hex[2 * m + 1]);
    HexAt(ParsedDigest(hex), m);
    assert ParsedDigest(hex)[m] == hi * 16 + lo;
    assert (hi * 16 + lo) / 16 == hi && (hi * 16 + lo) % 16 == lo;
  }

  /** Parsing and then encoding gives a name back exactly when it is in lower case. */
  lemma HexParseRoundTrip(hex: string)
    requires |hex| == 64
    ensures Hex(ParsedDigest(hex)) == hex <==> forall ch <- hex :: IsLowerHex(ch)
  {
    var back := Hex(ParsedDigest(hex));
    forall i | 0 <= i < 64 ensures back[i] == hex[i] <==> IsLowerHex(hex[i]) {
      HexParseAt(hex, i / 2);
      NibbleRoundTrip(hex[i]);
      assert i == 2 * (i / 2) || i == 2 * (i / 2) + 1;
    }
    if forall ch <- hex :: IsLowerHex(ch) {
      assert forall i :: 0 <= i < 64 ==> hex[i] in hex;
      assert back == hex;
    }
  }

  const LOWER := "0123456789abcdef"
  const UPPER := "0123456789ABCDEF"

  /** Digits are written in lower case. */
  lemma WriteDigit(n: int)
    requires 0 <= n < 16
    ensures LOWER[n] == HexDigit(n)
    ensures UPPER[n] == if n < 10 then HexDigit(n) else 'A' + (n - 10) as char
  {
  }

  /** They are read in either case, and anything else is read as 0. */
  lemma ReadDigit(ch: char)
    ensures ch in LOWER || ch in UPPER <==> IsHexDigit(ch)
    ensures if IsHexDigit(ch) then ch == LOWER[HexNibble(ch)] || ch == UPPER[HexNibble(ch)] else HexNibble(ch) == 0
  {
    hide HexDigit;
    if IsHexDigit(ch) {
      DigitIsListed(ch);
    }
    if ch in LOWER || ch in UPPER {
      var n :| 0 <= n < 16 && (LOWER[n] == ch || UPPER[n] == ch);
      WriteDigit(n);
      UpperDigit(n);
    }
  }

  lemma DigitIsListed(ch: char)
    requires IsHexDigit(ch)
    ensures ch == LOWER[HexNibble(ch)] || ch == UPPER[HexNibble(ch)]
  {
    WriteDigit(HexNibble(ch));
  }

  lemma UpperDigit(n: int)
    requires 0 <= n < 16
    ensures IsHexDigit(HexDigit(n)) && (n >= 10 ==> IsHexDigit('A' + (n - 10) as char))
  {
  }

  /** The three tests of validate_digest_hex, in order. */
  predicate ValidDigestHex(hex: string) {
    && |hex| == 64
    && (forall ch <- hex :: IsHexDigit(ch))
    && !('.' in hex || '/' in hex || '\\' in hex)
  }

  /** Every encoded digest is accepted, and what is accepted is the encoding of a digest up to
      case: the test for path separators never decides. */
  lemma ValidationIsHex(hex: string, digest: Digest)
    requires |digest| == 32
    ensures ValidDigestHex(Hex(digest))
    ensures ValidDigestHex(hex) <==> |hex| == 64 && forall ch <- hex :: ch in LOWER || ch in UPPER
  {
    forall ch | ch in hex ensures ch in LOWER || ch in UPPER <==> IsHexDigit(ch) {
      ReadDigit(ch);
    }
    forall i | 0 <= i < 64 ensures IsHexDigit(Hex(digest)[i]) {
      HexAt(digest, i / 2);
      assert i == 2 * (i / 2) || i == 2 * (i / 2) + 1;
    }
  }

  // ─── Decimal numbers ──────────────────────────────────────────────────────

  function Digit(n: int): (ch: char)
    requires 0 <= n < 10
  {
    '0' + n as char
  }

  predicate IsDigit(ch: char) {
    '0' <= ch <= '9'
  }

  predicate AllDigits(s: string) {
    forall ch <- s :: IsDigit(ch)
  }

  function Decimal(n: nat): (s: string)
    ensures s != "" && AllDigits(s)
  {
    if n < 10 then [Digit(n)] else Decimal(n / 10) + [Digit(n % 10)]
  }

  function Value(s: string): nat
    requires AllDigits(s)
  {
    if s == "" then 0
    else
      assert IsDigit(s[|s| - 1]);
      Value(s[..|s| - 1]) * 10 + (s[|s| - 1] as int - '0' as int)
  }

  /** `{:03}`: at least three digits. */
  function Padded(n: nat): (s: string)
    ensures AllDigits(s)
  {
    var s := Decimal(n);
    if |s| == 1 then "00" + s else if |s| == 2 then "0" + s else s
  }

  lemma {:induction false} DecimalRoundTrip(n: nat)
    ensures Value(Decimal(n)) == n
  {
    if n >= 10 {
      DecimalRoundTrip(n / 10);
      assert Decimal(n)[..|Decimal(n)| - 1] == Decimal(n / 10);
    } else {
      assert Decimal(n)[..0] == "";
    }
  }

  lemma {:induction false} LeadingZero(s: string)
    requires AllDigits(s)
    ensures AllDigits("0" + s) && Value("0" + s) == Value(s)
  {
    var t := "0" + s;
    assert forall i :: 0 <= i < |t| ==> t[i] == '0' || t[i] in s;
    if s == "" {
      assert t[..0] == "";
    } else {
      LeadingZero(s[..|s| - 1]);
      assert t[..|t| - 1] == "0" + s[..|s| - 1];
    }
  }

  lemma PaddedRoundTrip(n: nat)
    ensures Value(Padded(n)) == n
  {
    var s := Decimal(n);
    DecimalRoundTrip(n);
    LeadingZero(s);
    LeadingZero("0" + s);
    assert "00" + s == "0" + ("0" + s);
  }

  /** A decimal number has no leading zero. */
  lemma {:induction false} NoLeadingZero(n: nat)
    ensures n > 0 ==> Decimal(n)[0] != '0'
    ensures (n < 10 ==> |Decimal(n)| == 1) && (10 <= n < 100 ==> |Decimal(n)| == 2)
    ensures (100 <= n < 1_000 ==> |Decimal(n)| == 3) && (n >= 1_000 ==> |Decimal(n)| > 3)
  {
    if n >= 10 {
      NoLeadingZero(n / 10);
    }
  }

  /** An index below 1,000 is written with three digits, any other as it is. */
  lemma PaddedWidth(n: nat)
    ensures if n < 1_000 then |Padded(n)| == 3 else |Padded(n)| > 3 && Padded(n)[0] != '0'
  {
    NoLeadingZero(n);
  }

  const U64_LIMIT: nat := 0x1_0000_0000_0000_0000

  /** `str::parse::<u64>`: digits after an optional plus sign, and no overflow. */
  function ParseU64(s: string): Option<nat> {
    var digits := if |s| > 0 && s[0] == '+' then s[1..] else s;
    if digits != "" && AllDigits(digits) && Value(digits) < U64_LIMIT then Some(Value(digits)) else None
  }

  // ─── Slot and quarantine names ────────────────────────────────────────────

  function SlotName(hex: string, idx: nat): (s: string) {
    hex + "_s" + Padded(idx)
  }

  function QuarantineName(ts: nat, slot: string): string {
    Decimal(ts) + "_" + slot
  }

  /** The index of the first underscore, or the length. */
  function Underscore(s: string): (i: nat)
    ensures i <= |s|
    ensures i < |s| ==> s[i] == '_'
    ensures '_' !in s[..i]
  {
    if s == "" || s[0] == '_' then 0
    else
      var i := 1 + Underscore(s[1..]);
      assert s[..i] == [s[0]] + s[1..][..i - 1];
      i
  }

  /** quarantine_entry_age_ms: an unreadable timestamp counts as 0. */
  function EntryAgeMs(name: string, nowMs: nat): nat {
    var now := nowMs % U64_LIMIT;
    var ts := match ParseU64(name[..Underscore(name)]) case Some(t) => t case None => 0;
    if now >= ts then now - ts else 0
  }

  function StripQuarantinePrefix(name: string): string {
    var i := Underscore(name);
    if i + 1 < |name| then name[i + 1..] else name
  }

  /** The shard directory and file name that a quarantine entry is revived to. */
  function ReviveTarget(name: string): (string, string) {
    var slot := StripQuarantinePrefix(name);
    (if |slot| >= 2 then slot[..2] else "00", slot)
  }

  lemma {:induction false} UnderscoreAfter(digits: string, rest: string)
    requires AllDigits(digits)
    ensures Underscore(digits + "_" + rest) == |digits|
  {
    var s := digits + "_" + rest;
    if digits != "" {
      assert s[0] == digits[0] && IsDigit(digits[0]);
      assert s[1..] == digits[1..] + "_" + rest;
      UnderscoreAfter(digits[1..], rest);
    }
  }

  lemma QuarantineNameParts(ts: nat, slot: string)
    ensures var name := QuarantineName(ts, slot);
            Underscore(name) == |Decimal(ts)| && name[..|Decimal(ts)|] == Decimal(ts) && name[|Decimal(ts)| + 1..] == slot
  {
    UnderscoreAfter(Decimal(ts), slot);
  }

  lemma ParseDecimal(n: nat)
    requires n < 0x1_0000_0000_0000_0000
    ensures ParseU64(Decimal(n)) == Some(n)
  {
    DecimalRoundTrip(n);
    assert Decimal(n)[0] in Decimal(n);
  }

  /** The name of a quarantined slot tells when it was moved and exactly where it came from. */
  lemma QuarantineNameRoundTrip(ts: nat, digest: Digest, idx: nat, now: nat)
    requires |digest| == 32 && ts < 0x1_0000_0000_0000_0000 && now < 0x1_0000_0000_0000_0000
    ensures var name := QuarantineName(ts, SlotName(Hex(digest), idx));
            && EntryAgeMs(name, now) == (if now >= ts then now - ts else 0)
            && ReviveTarget(name) == (Hex(digest)[..2], SlotName(Hex(digest), idx))
  {
    var slot := SlotName(Hex(digest), idx);
    QuarantineNameParts(ts, slot);
    ParseDecimal(ts);
    assert slot[..2] == Hex(digest)[..2];
  }

  /** The name of a slot: 64 lower-case digits, "_s" and an index of three or more digits. */
  lemma SlotNameFormat(digest: Digest, idx: nat)
    requires |digest| == 32
    ensures var slot := SlotName(Hex(digest), idx);
      && |slot| >= 69 && (forall i :: 0 <= i < 64 ==> slot[i] in LOWER) && slot[64..66] == "_s"
      && AllDigits(slot[66..]) && Value(slot[66..]) == idx && (|slot| == 69 <==> idx < 1_000)
      && (|slot| > 69 ==> slot[66] != '0')
    ensures OnDisk(Object(digest, idx)).0 == "objects/" + SlotName(Hex(digest), idx)[..2]
  {
    hide Value, Decimal, Padded, Hex, HexDigit;
    var slot := SlotName(Hex(digest), idx);
    assert slot[66..] == Padded(idx) && slot[..64] == Hex(digest);
    forall i | 0 <= i < 64 ensures slot[i] in LOWER {
      HexAt(digest, i / 2);
      assert slot[i] == Hex(digest)[i];
      assert i == 2 * (i / 2) || i == 2 * (i / 2) + 1;
      WriteDigit(if i % 2 == 0 then digest[i / 2] / 16 else digest[i / 2] % 16);
    }
    PaddedRoundTrip(idx);
    PaddedWidth(idx);
    assert Hex(digest)[..2] == slot[..2];
  }

  /** The name of a quarantine entry: the milliseconds without leading zeros, an underscore and the
      name of the slot. */
  lemma QuarantineNameFormat(ts: nat, slot: string, digest: Digest, idx: nat)
    ensures var entry := QuarantineName(ts, slot);
      && |entry| > |slot| && entry[|entry| - |slot|..] == slot && entry[|entry| - |slot| - 1] == '_'
      && AllDigits(entry[..|entry| - |slot| - 1]) && Value(entry[..|entry| - |slot| - 1]) == ts
      && (ts > 0 ==> entry[0] != '0')
    ensures OnDisk(Quarantine(ts, digest, idx)).0 == "quarantine"
  {
    hide Value, Decimal;
    var entry := QuarantineName(ts, slot);
    assert entry[..|entry| - |slot| - 1] == Decimal(ts) && entry[|entry| - |slot|..] == slot;
    DecimalRoundTrip(ts);
    NoLeadingZero(ts);
  }

  /** Names the engine did not write: without an underscore, or with one at the end, nothing is
      stripped; otherwise all up to and with the first one is. */
  lemma StrippedPart(name: string, i: nat)
    requires i <= |name| && '_' !in name[..i] && (i < |name| ==> name[i] == '_')
    ensures StripQuarantinePrefix(name) == if i + 1 < |name| then name[i + 1..] else name
  {
    hide Underscore;
    FirstUnderscore(name, i);
  }

  /** What is no number before the first underscore counts as timestamp 0. */
  lemma UnreadableAge(name: string, i: nat, nowMs: nat)
    requires i <= |name| && '_' !in name[..i] && (i < |name| ==> name[i] == '_')
    requires nowMs < U64_LIMIT && ParseU64(name[..i]).None?
    ensures EntryAgeMs(name, nowMs) == nowMs
  {
    hide Underscore;
    FirstUnderscore(name, i);
  }

  lemma {:induction false} FirstUnderscore(name: string, i: nat)
    requires i <= |name| && '_' !in name[..i] && (i < |name| ==> name[i] == '_')
    ensures Underscore(name) == i
  {
    if i > 0 {
      assert name[0] == name[..i][0];
      assert name[1..][..i - 1] == name[..i][1..];
      FirstUnderscore(name[1..], i - 1);
    }
  }

  /** Where a path of the store lies: its directory below `.itan_store` and its file name. */
  function OnDisk(p: Path): (string, string)
    requires p.Object? || p.Quarantine?
  {
    match p
    case Object(d, k) => ("objects/" + Hex(d)[..if |d| > 0 then 2 else 0], SlotName(Hex(d), k))
    case Quarantine(ts, d, k) => ("quarantine", QuarantineName(ts, SlotName(Hex(d), k)))
  }

  lemma SlotNameInjective(d: Digest, k: nat, e: Digest, m: nat)
    requires |d| == 32 && |e| == 32
    requires SlotName(Hex(d), k) == SlotName(Hex(e), m)
    ensures d == e && k == m
  {
    var s := SlotName(Hex(d), k);
    assert s[..64] == Hex(d) && s[66..] == Padded(k);
    assert SlotName(Hex(e), m)[..64] == Hex(e) && SlotName(Hex(e), m)[66..] == Padded(m);
    HexRoundTrip(d);
    HexRoundTrip(e);
    PaddedRoundTrip(k);
    PaddedRoundTrip(m);
  }

  /** The structured paths of the model and the paths on disk are the same thing: no two slots,
      whatever their indices, and no two quarantine entries share a place. */
  lemma OnDiskInjective(p: Path, q: Path)
    requires (p.Object? || p.Quarantine?) && |p.digest| == 32
    requires (q.Object? || q.Quarantine?) && |q.digest| == 32
    ensures OnDisk(p) == OnDisk(q) <==> p == q
  {
    if OnDisk(p) == OnDisk(q) {
      assert "objects/" + Hex(p.digest)[..2] != "quarantine" by {
        assert |"objects/"| == 8;
        assert "quarantine"[0] == 'q';
        assert ("objects/" + Hex(p.digest)[..2])[0] == 'o';
      }
      assert "objects/" + Hex(q.digest)[..2] != "quarantine" by {
        assert ("objects/" + Hex(q.digest)[..2])[0] == 'o';
      }
      if p.Quarantine? {
        var a, b := SlotName(Hex(p.digest), p.idx), SlotName(Hex(q.digest), q.idx);
        QuarantineNameParts(p.ts, a);
        QuarantineNameParts(q.ts, b);
        DecimalRoundTrip(p.ts);
        DecimalRoundTrip(q.ts);
      }
      SlotNameInjective(p.digest, p.idx, q.digest, q.idx);
    }
  }
}
