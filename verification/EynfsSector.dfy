/** The EYNFS on-disk block: a 4-byte next pointer and 508 payload bytes,
    and the 52-byte directory entries nine of which fit in that payload. */
module EynfsSector {
  import opened Bytes

  const PAYLOAD: nat := 508
  const ENTRY_SIZE: nat := 52
  const PER_BLOCK: nat := 9
  const NAME_MAX: nat := 32
  const TYPE_FILE: byte := 1
  const TYPE_DIR: byte := 2

  type Sector = s: seq<byte> | |s| == 512 witness Zeros(512)
  type Name = seq<byte>

  /** What a reader gets out of one used directory slot. */
  datatype Dirent = Dirent(name: Name, kind: byte, size: u32, first: u32, misc: Three, extra: Eight)

  /** Flags and the reserved half-word; the two spare words. */
  type Three = s: seq<byte> | |s| == 3 witness [0, 0, 0]
  type Eight = s: seq<byte> | |s| == 8 witness [0, 0, 0, 0, 0, 0, 0, 0]

  /** The entry the tools write: everything but name, type, size and first block is zero. */
  function NewEntry(name: Name, kind: byte, size: u32, first: u32): (e: Dirent)
    ensures Plain(e)
  {
    Dirent(name, kind, size, first, [0, 0, 0], [0, 0, 0, 0, 0, 0, 0, 0])
  }

  predicate Plain(e: Dirent) {
    && (forall j :: 0 <= j < 3 ==> e.misc[j] == 0)
    && (forall j :: 0 <= j < 8 ==> e.extra[j] == 0)
  }

  function NextOf(s: Sector): u32 {
    FromLe32(s[..4])
  }

  function SetNext(s: Sector, n: u32): Sector {
    Splice(s, 0, Le32(n))
  }

  lemma SetNextEffect(s: Sector, n: u32)
    ensures NextOf(SetNext(s, n)) == n
    ensures SetNext(s, n)[4..] == s[4..]
  {
    Le32RoundTrip(n);
    assert SetNext(s, n)[..4] == Le32(n);
  }

  /** The 52 bytes of slot `i`. */
  function SlotBytes(s: Sector, i: nat): (r: seq<byte>)
    requires i < PER_BLOCK
    ensures |r| == ENTRY_SIZE
  {
    s[4 + 52 * i..56 + 52 * i]
  }

  function SetSlot(s: Sector, i: nat, e: seq<byte>): Sector
    requires i < PER_BLOCK && |e| == ENTRY_SIZE
  {
    Splice(s, 4 + 52 * i, e)
  }

  lemma SetSlotEffect(s: Sector, i: nat, e: seq<byte>, j: nat)
    requires i < PER_BLOCK && j < PER_BLOCK && |e| == ENTRY_SIZE
    ensures SlotBytes(SetSlot(s, i, e), j) == if i == j then e else SlotBytes(s, j)
    ensures NextOf(SetSlot(s, i, e)) == NextOf(s)
  {
    assert SetSlot(s, i, e)[..4] == s[..4];
  }

  lemma SetNextKeepsSlot(s: Sector, n: u32, j: nat)
    requires j < PER_BLOCK
    ensures SlotBytes(SetNext(s, n), j) == SlotBytes(s, j)
  {
    SetNextEffect(s, n);
    assert SlotBytes(s, j) == s[4..][52 * j..52 * j + 52];
    assert SlotBytes(SetNext(s, n), j) == SetNext(s, n)[4..][52 * j..52 * j + 52];
  }

  // ----- directory entries -----

  predicate Continues(s: seq<byte>, from: nat, n: nat) {
    from + n <= |s| && forall i :: from <= i < from + n ==> 0x80 <= s[i] < 0xC0
  }

  /** Well-formed UTF-8, as in section 4 of RFC 3629: no overlong forms, no surrogates. */
  predicate Utf8(s: seq<byte>) {
    s == [] || (
      if s[0] < 0x80 then Utf8(s[1..])
      else if 0xC2 <= s[0] < 0xE0 then Continues(s, 1, 1) && Utf8(s[2..])
      else if 0xE0 <= s[0] < 0xF0 then
        && Continues(s, 1, 2) && (s[0] == 0xE0 ==> s[1] >= 0xA0) && (s[0] == 0xED ==> s[1] < 0xA0)
        && Utf8(s[3..])
      else
        && 0xF0 <= s[0] < 0xF5
        && Continues(s, 1, 3) && (s[0] == 0xF0 ==> s[1] >= 0x90) && (s[0] == 0xF4 ==> s[1] < 0x90)
        && Utf8(s[4..]))
  }

  /** The name field: at most 31 bytes, NUL-padded to 32. */
  function NameField(name: Name): (r: seq<byte>)
    ensures |r| == NAME_MAX
  {
    var kept := if |name| <= 31 then name else name[..31];
    kept + Zeros(32 - |kept|)
  }

  /** `_encode_name`: a host name that is not UTF-8 cannot be encoded, and the tool raises. */
  function EncodeName(name: Name): Option<seq<byte>> {
    if Utf8(name) then Some(NameField(name)) else None
  }

  function EncodeEntry(e: Dirent): (r: seq<byte>)
    ensures |r| == ENTRY_SIZE
  {
    NameField(e.name) + [e.kind] + e.misc + Le32(e.size) + Le32(e.first) + e.extra
  }

  function DecodeEntry(b: seq<byte>): Dirent
    requires |b| == ENTRY_SIZE
  {
    Dirent(CStr(b[..32]), b[32], FromLe32(b[36..40]), FromLe32(b[40..44]), b[33..36], b[44..52])
  }

  /** A name survives the 32-byte field exactly when it has at most 31 bytes and no NUL. */
  lemma FieldKeepsName(name: Name)
    ensures CStr(NameField(name)) == name <==> |name| <= 31 && 0 !in name
  {
    var raw := NameField(name);
    if |name| <= 31 && 0 !in name {
      CStrUnique(raw, name);
    } else if |name| > 31 {
      assert raw[31] == 0;
    }
  }

  /** A name can be encoded and comes back exactly when it is UTF-8, of at most 31 bytes, without NUL. */
  lemma NameSurvives(name: Name)
    ensures (EncodeName(name).Some? && CStr(EncodeName(name).value) == name) <==>
      Utf8(name) && |name| <= 31 && 0 !in name
  {
    FieldKeepsName(name);
  }

  lemma EntryRoundTrip(e: Dirent)
    requires |e.name| <= 31 && 0 !in e.name
    ensures DecodeEntry(EncodeEntry(e)) == e
  {
    var b := EncodeEntry(e);
    FieldKeepsName(e.name);
    Le32RoundTrip(e.size);
    Le32RoundTrip(e.first);
    assert b[..32] == NameField(e.name) && b[33..36] == e.misc && b[44..52] == e.extra;
    assert b[36..40] == Le32(e.size);
    assert b[40..44] == Le32(e.first);
  }

  /** The slot is unused: every reader tests the first name byte. */
  predicate SlotFree(s: Sector, i: nat)
    requires i < PER_BLOCK
  {
    SlotBytes(s, i)[0] == 0
  }

  function SlotEntry(s: Sector, i: nat): Dirent
    requires i < PER_BLOCK
  {
    DecodeEntry(SlotBytes(s, i))
  }

  /** A name a host directory may hold, short enough for the field. */
  predicate HostName(n: Name) {
    1 <= |n| <= 31 && 0 !in n && '/' as int !in n
  }

  /** A name an image may hold. */
  predicate ValidName(n: Name) {
    HostName(n) && Utf8(n)
  }

  /** Writing an entry with a valid name makes the slot hold exactly that entry. */
  lemma SetSlotHolds(s: Sector, i: nat, e: Dirent)
    requires i < PER_BLOCK && HostName(e.name)
    ensures SlotEntry(SetSlot(s, i, EncodeEntry(e)), i) == e
    ensures !SlotFree(SetSlot(s, i, EncodeEntry(e)), i)
  {
    SetSlotEffect(s, i, EncodeEntry(e), i);
    EntryRoundTrip(e);
    assert EncodeEntry(e)[0] == e.name[0];
  }
}
