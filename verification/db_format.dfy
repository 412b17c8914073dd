/** Internal keys of db/dbformat.{h,cc}: a user key followed by a 64-bit tag that packs the sequence
    number and the entry type, ordered by user key ascending and then by tag descending.

    User keys enter the rest of the project as reals, their position under the user comparator:
    byte strings are countable, so by Cantor's theorem every total order on them embeds in the reals.
    'Rank' is that embedding for the default bytewise comparator, and 'RankEmbedsByteOrder' proves it. */
module DbFormat {
  import opened Wrappers
  import opened Coding

  type UserKey = real

  const NUM_LEVELS: nat := 7
  const L0_COMPACTION_TRIGGER: nat := 4
  const L0_STOP_WRITES_TRIGGER: nat := 12
  const MAX_MEM_COMPACT_LEVEL: nat := 2

  const MAX_SEQUENCE: nat := 0x100_0000_0000_0000 - 1

  datatype ValueType = TypeDeletion | TypeValue

  const VALUE_TYPE_FOR_SEEK := TypeValue

  function TypeCode(t: ValueType): nat {
    if t == TypeValue then 1 else 0
  }

  function PackSequenceAndType(sequence: nat, t: ValueType): nat {
    sequence * 256 + TypeCode(t)
  }

  /** One (userkey, sequence, type) => value entry. */
  datatype Entry = Entry(user: UserKey, sequence: nat, kind: ValueType, value: bytes) {
    function Tag(): nat {
      PackSequenceAndType(sequence, kind)
    }
  }

  /** InternalKeyComparator::Compare(a, b) < 0. */
  predicate Before(a: Entry, b: Entry) {
    a.user < b.user || (a.user == b.user && a.Tag() > b.Tag())
  }

  /** What an iterator over memtables and tables yields: entries in strictly ascending internal order. */
  ghost predicate Sorted(entries: seq<Entry>) {
    forall i, j :: 0 <= i < j < |entries| ==> Before(entries[i], entries[j])
  }

  // ----- the byte form of internal keys -----

  datatype ParsedInternalKey = ParsedInternalKey(userKey: bytes, sequence: nat, kind: ValueType)

  function AppendInternalKey(key: ParsedInternalKey): bytes
    requires key.sequence <= MAX_SEQUENCE
  {
    key.userKey + Fixed64(PackSequenceAndType(key.sequence, key.kind))
  }

  function ParseInternalKey(s: bytes): Option<ParsedInternalKey> {
    var n := |s|;
    if n < 8 then None
    else
      var num := DecodeFixed64(s[n - 8..]);
      var c := num % 256;
      if c > 1 then None
      else Some(ParsedInternalKey(s[..n - 8], num / 256, if c == 1 then TypeValue else TypeDeletion))
  }

  lemma InternalKeyRoundTrip(key: ParsedInternalKey)
    requires key.sequence <= MAX_SEQUENCE
    ensures ParseInternalKey(AppendInternalKey(key)) == Some(key)
  {
    var s := AppendInternalKey(key);
    var tag: uint64 := PackSequenceAndType(key.sequence, key.kind);
    assert s[|s| - 8..] == Fixed64(tag) && s[..|s| - 8] == key.userKey;
    Fixed64RoundTrip(tag);
    assert tag / 256 == key.sequence && tag % 256 == TypeCode(key.kind);
  }

  /** Slice::compare: the first differing byte decides, then the length. */
  function ByteCompare(a: bytes, b: bytes): int {
    if a == [] then (if b == [] then 0 else -1)
    else if b == [] then 1
    else if a[0] < b[0] then -1
    else if a[0] > b[0] then 1
    else ByteCompare(a[1..], b[1..])
  }

  /** InternalKeyComparator::Compare on encoded keys, over the bytewise user comparator. */
  function InternalCompare(a: bytes, b: bytes): int
    requires |a| >= 8 && |b| >= 8
  {
    var r := ByteCompare(a[..|a| - 8], b[..|b| - 8]);
    if r != 0 then r
    else
      var anum := DecodeFixed64(a[|a| - 8..]);
      var bnum := DecodeFixed64(b[|b| - 8..]);
      if anum > bnum then -1 else if anum < bnum then 1 else 0
  }

  function Rank(s: bytes): (r: real)
    ensures 0.0 <= r < 1.0
    ensures s != [] ==> r > 0.0
  {
    if s == [] then 0.0 else (s[0] as real + 1.0 + Rank(s[1..])) / 257.0
  }

  lemma {:induction false} RankEmbedsByteOrder(a: bytes, b: bytes)
    ensures ByteCompare(a, b) < 0 <==> Rank(a) < Rank(b)
    ensures ByteCompare(a, b) > 0 <==> Rank(a) > Rank(b)
    ensures ByteCompare(a, b) == 0 <==> a == b
  {
    if a != [] && b != [] {
      RankEmbedsByteOrder(a[1..], b[1..]);
      assert a[0] == b[0] ==> (a == b <==> a[1..] == b[1..]) by {
        assert a == [a[0]] + a[1..] && b == [b[0]] + b[1..];
      }
    }
  }

  /** The model entry an encoded key and a value stand for. */
  function EntryOf(key: ParsedInternalKey, value: bytes): Entry {
    Entry(Rank(key.userKey), key.sequence, key.kind, value)
  }

  /** Comparing encoded keys is comparing model entries, so every theorem stated with 'Before' is a
      theorem about the byte strings on disk. */
  lemma InternalCompareIsBefore(a: ParsedInternalKey, b: ParsedInternalKey, v: bytes, w: bytes)
    requires a.sequence <= MAX_SEQUENCE && b.sequence <= MAX_SEQUENCE
    ensures InternalCompare(AppendInternalKey(a), AppendInternalKey(b)) < 0
       <==> Before(EntryOf(a, v), EntryOf(b, w))
    ensures InternalCompare(AppendInternalKey(a), AppendInternalKey(b)) == 0 <==> a == b
  {
    var x, y := AppendInternalKey(a), AppendInternalKey(b);
    var atag, btag := PackSequenceAndType(a.sequence, a.kind), PackSequenceAndType(b.sequence, b.kind);
    assert x[..|x| - 8] == a.userKey && x[|x| - 8..] == Fixed64(atag);
    assert y[..|y| - 8] == b.userKey && y[|y| - 8..] == Fixed64(btag);
    Fixed64RoundTrip(atag);
    Fixed64RoundTrip(btag);
    RankEmbedsByteOrder(a.userKey, b.userKey);
  }
}
