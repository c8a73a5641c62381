/**
 * The name table: interned names keyed by their 32-bit FNV-1a hash, each
 * recorded with the token kind it lexes as (a keyword kind or `Name`).
 * Lookups compare hashes only, so two texts with the same hash share a slot.
 */
module NameTable {
  import opened LexType
  import opened Name

  datatype NameTableEntry = NameTableEntry(value: AstName, kind: LexType)

  /** The table's storage: the 32-bit hash of the name (as a number) to entry. */
  type NameTable = map<nat, NameTableEntry>

  /** The slot a text is looked up and stored under: its hash, read as an unsigned number. */
  function SlotOf(text: string): (r: nat)
    ensures r < 0x1_0000_0000
  {
    Hash(AstName(text)) as nat
  }

  /** `add`: (over)writes the slot of `text`; returns the new table and the interned name. */
  function Add(t: NameTable, text: string, kind: LexType): (r: (NameTable, AstName))
    ensures r.1.value == text
    ensures SlotOf(text) in r.0 && r.0[SlotOf(text)] == NameTableEntry(AstName(text), kind)
    ensures r.0.Keys == t.Keys + {SlotOf(text)}
    ensures forall h :: h in t && h != SlotOf(text) ==> h in r.0 && r.0[h] == t[h]
  {
    var entry := NameTableEntry(AstName(text), kind);
    (t[SlotOf(text) := entry], entry.value)
  }

  /**
   * `get_or_add`: the stored entry when the slot is taken (table unchanged),
   * otherwise a fresh `Name` entry for `text`.
   */
  function GetOrAdd(t: NameTable, text: string): (r: (NameTable, (AstName, LexType)))
    ensures SlotOf(text) in t ==> r.0 == t && r.1 == (t[SlotOf(text)].value, t[SlotOf(text)].kind)
    ensures SlotOf(text) !in t ==> r.1 == (AstName(text), LexType.Name(text))
    ensures SlotOf(text) !in t ==> r.0 == t[SlotOf(text) := NameTableEntry(AstName(text), LexType.Name(text))]
  {
    var slot := SlotOf(text);
    if slot in t then
      (t, (t[slot].value, t[slot].kind))
    else
      var kind := LexType.Name(text);
      var (t', name) := Add(t, text, kind);
      (t', (name, kind))
  }

  /** `get`: the stored entry, or the empty name with an empty `Name` kind on a miss. */
  function Get(t: NameTable, text: string): (r: (AstName, LexType))
    ensures SlotOf(text) !in t ==> r == (AstName(""), LexType.Name(""))
    ensures SlotOf(text) in t ==> r == (t[SlotOf(text)].value, t[SlotOf(text)].kind)
  {
    var slot := SlotOf(text);
    if slot in t then (t[slot].value, t[slot].kind)
    else (AstName(""), LexType.Name(""))
  }

  // ---------------------------------------------------------------------------
  // Properties
  // ---------------------------------------------------------------------------

  /** After `add(text, kind)`, `get(text)` answers `(text, kind)`. */
  lemma AddThenGet(t: NameTable, text: string, kind: LexType)
    ensures Get(Add(t, text, kind).0, text) == (AstName(text), kind)
  {
  }

  /** A kind registered with `add` (a keyword, say) survives `get_or_add` on the same text. */
  lemma GetOrAddKeepsRegisteredKind(t: NameTable, text: string, kind: LexType)
    ensures GetOrAdd(Add(t, text, kind).0, text) == (Add(t, text, kind).0, (AstName(text), kind))
  {
  }

  /** `get_or_add` is idempotent: a second call answers the same and changes nothing. */
  lemma GetOrAddIdempotent(t: NameTable, text: string)
    ensures var (t1, r1) := GetOrAdd(t, text);
            GetOrAdd(t1, text) == (t1, r1)
  {
  }

  /** After `get_or_add(text)`, `get(text)` answers what `get_or_add` answered. */
  lemma GetOrAddThenGet(t: NameTable, text: string)
    ensures var (t1, r1) := GetOrAdd(t, text);
            Get(t1, text) == r1
  {
  }

  /** Texts that share a hash share a slot: the later `add` overwrites, and `get` of either answers it. */
  lemma CollidingTextsShareSlot(t: NameTable, a: string, b: string, kind: LexType)
    requires SlotOf(a) == SlotOf(b)
    ensures Get(Add(t, a, kind).0, b) == (AstName(a), kind)
  {
  }

  /** Adding one text leaves the answers for every text in another slot unchanged. */
  lemma AddPreservesOtherSlots(t: NameTable, a: string, b: string, kind: LexType)
    requires SlotOf(a) != SlotOf(b)
    ensures Get(Add(t, a, kind).0, b) == Get(t, b)
  {
  }
}
