/**
 * The always-replace transposition table of `tt.rs`: a fixed vector of
 * `HASH_SIZE` entries indexed by `key % HASH_SIZE`. A probe hits only when
 * the stored key is the probed key and the stored depth is at least the
 * requested one; the stored bound then decides whether a score comes back.
 */
module TranspositionTables {
  import opened Wrappers

  const HASH_SIZE: nat := 0x400000

  /** A search depth, stored as an unsigned byte. */
  type Depth = d: int | 0 <= d < 256

  datatype Flag = Exact | Beta | Alpha | Null

  datatype Entry = Entry(key: bv64, depth: Depth, flag: Flag, value: int)

  /** `TT_NULL_ENTRY`: the content of every slot of a fresh or cleared table. */
  const NULL_ENTRY: Entry := Entry(0, 0, Null, 0)

  /** The slot a key lands in. */
  function Slot(key: bv64): (i: nat)
    ensures i < HASH_SIZE
  {
    key as int % HASH_SIZE
  }

  /**
   * What one entry answers to a probe: its exact score, or the window bound
   * it proves, or nothing.
   */
  function ProbeEntry(e: Entry, key: bv64, depth: Depth, alpha: int, beta: int): (r: Option<int>)
    ensures r.Some? ==> e.key == key && e.depth >= depth && e.flag != Null
    ensures r.Some? && e.flag == Alpha ==> r.value == alpha && e.value <= alpha
    ensures r.Some? && e.flag == Beta ==> r.value == beta && e.value >= beta
    ensures e.key == key && e.depth >= depth && e.flag == Exact ==> r == Some(e.value)
    ensures e.key == key && e.depth >= depth && e.flag == Alpha && e.value <= alpha ==> r == Some(alpha)
    ensures e.key == key && e.depth >= depth && e.flag == Beta && e.value >= beta ==> r == Some(beta)
  {
    if e.key == key && e.depth >= depth then
      if e.flag == Exact then Some(e.value)
      else if e.flag == Alpha && e.value <= alpha then Some(alpha)
      else if e.flag == Beta && e.value >= beta then Some(beta)
      else None
    else None
  }

  /** The probe of a whole table, given as the sequence of its slots. */
  function Lookup(t: seq<Entry>, key: bv64, depth: Depth, alpha: int, beta: int): Option<int>
    requires |t| == HASH_SIZE
  {
    ProbeEntry(t[Slot(key)], key, depth, alpha, beta)
  }

  /** A save of the same key at a sufficient depth is found again by a probe. */
  lemma SaveThenLookup(t: seq<Entry>, key: bv64, d: Depth, v: int, depth: Depth, alpha: int, beta: int)
    requires |t| == HASH_SIZE && depth <= d
    ensures Lookup(t[Slot(key) := Entry(key, d, Exact, v)], key, depth, alpha, beta) == Some(v)
    ensures v <= alpha ==> Lookup(t[Slot(key) := Entry(key, d, Alpha, v)], key, depth, alpha, beta) == Some(alpha)
    ensures v >= beta ==> Lookup(t[Slot(key) := Entry(key, d, Beta, v)], key, depth, alpha, beta) == Some(beta)
  {
  }

  /** A save answers nothing about another key that shares its slot: the old entry is gone. */
  lemma SaveEvicts(t: seq<Entry>, key: bv64, e: Entry, other: bv64, depth: Depth, alpha: int, beta: int)
    requires |t| == HASH_SIZE && e.key == key && other != key && Slot(other) == Slot(key)
    ensures Lookup(t[Slot(key) := e], other, depth, alpha, beta) == None
  {
  }

  /** A save leaves the answer for keys in other slots as it was. */
  lemma SaveKeepsOthers(t: seq<Entry>, key: bv64, e: Entry, other: bv64, depth: Depth, alpha: int, beta: int)
    requires |t| == HASH_SIZE && Slot(other) != Slot(key)
    ensures Lookup(t[Slot(key) := e], other, depth, alpha, beta) == Lookup(t, other, depth, alpha, beta)
  {
  }

  /** A table of null entries answers no probe. */
  lemma EmptyTableMisses(key: bv64, depth: Depth, alpha: int, beta: int)
    ensures Lookup(seq(HASH_SIZE, _ => NULL_ENTRY), key, depth, alpha, beta) == None
  {
  }

  class TranspositionTable {
    var table: array<Entry>

    ghost predicate Valid()
      reads this
    {
      table.Length == HASH_SIZE
    }

    /** `new`: every slot holds the null entry. */
    constructor ()
      ensures Valid() && fresh(table)
      ensures table[..] == seq(HASH_SIZE, _ => NULL_ENTRY)
    {
      table := new Entry[HASH_SIZE](_ => NULL_ENTRY);
    }

    /** `save`: overwrites the key's slot, whatever it held. */
    method Save(key: bv64, depth: Depth, flag: Flag, value: int)
      requires Valid()
      modifies table
      ensures Valid()
      ensures table[..] == old(table[..])[Slot(key) := Entry(key, depth, flag, value)]
    {
      table[Slot(key)] := Entry(key, depth, flag, value);
    }

    /** `probe`: the answer of the key's slot. */
    function Probe(key: bv64, depth: Depth, alpha: int, beta: int): (r: Option<int>)
      requires Valid()
      reads this, table
      ensures r == Lookup(table[..], key, depth, alpha, beta)
    {
      ProbeEntry(table[Slot(key)], key, depth, alpha, beta)
    }

    /** `clear`: replaces the table by a fresh one of null entries. */
    method Clear()
      requires Valid()
      modifies this
      ensures Valid() && fresh(table)
      ensures table[..] == seq(HASH_SIZE, _ => NULL_ENTRY)
    {
      table := new Entry[HASH_SIZE](_ => NULL_ENTRY);
    }
  }
}
