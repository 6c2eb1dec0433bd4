/**
 * The per-name summary of what one apply changed: a set of change flags
 * per entity name, merged flag-wise when nested steps report changes.
 *
 * The source keeps the flags of a name as bits of a `u32` and merges by
 * bitwise OR; only the five single-bit constants below are ever recorded,
 * so the bitset is modelled as the set of its flags and OR as union.
 */
module Changed {
  import opened Property

  datatype Flag = Created | DelProp | UpdProp | AddProp | Deleted

  /** The bit each flag occupies in the source's bitset. */
  function Bit(f: Flag): (b: u32)
    ensures b in {1, 2, 4, 8, 16}
  {
    match f
    case Created => 1
    case DelProp => 2
    case UpdProp => 4
    case AddProp => 8
    case Deleted => 16
  }

  /** Distinct flags occupy distinct bits, so a set of flags and a bitset carry the same information. */
  lemma BitsDistinct(f: Flag, g: Flag)
    ensures f != g ==> Bit(f) != Bit(g)
  {
  }

  datatype ChangedEntities = ChangedEntities(data: map<Name, set<Flag>>)
  {
    /** Record `flags` for `name`, adding them to the flags already there. */
    function Add(name: Name, flags: set<Flag>): (r: ChangedEntities)
      ensures r.data.Keys == data.Keys + {name}
      ensures r.data[name] == if name in data then data[name] + flags else flags
      ensures forall n | n in data && n != name :: r.data[n] == data[n]
    {
      ChangedEntities(data[name := if name in data then data[name] + flags else flags])
    }

    /** The flags reported for `name`; none when it is not reported. */
    function Flags(name: Name): set<Flag>
    {
      if name in data then data[name] else {}
    }
  }

  const NoChanges := ChangedEntities(map[])

  /** A summary with the single entry `name -> flags`. */
  function From(name: Name, flags: set<Flag>): ChangedEntities
  {
    ChangedEntities(map[name := flags])
  }

  /** The summary both `a` and `b` describe: every name of either, flags united. */
  function Merged(a: ChangedEntities, b: ChangedEntities): ChangedEntities
  {
    ChangedEntities(map n | n in a.data.Keys + b.data.Keys :: a.Flags(n) + b.Flags(n))
  }

  /**
   * Fold every entry of `other` into `into` with `Add`. The source iterates a
   * hash map, in no particular order; the result does not depend on it.
   */
  method Merge(into: ChangedEntities, other: ChangedEntities) returns (r: ChangedEntities)
    ensures r == Merged(into, other)
  {
    r := into;
    var rest := other.data.Keys;
    while rest != {}
      invariant rest <= other.data.Keys
      invariant r.data.Keys == into.data.Keys + (other.data.Keys - rest)
      invariant forall n | n in r.data :: r.data[n] == into.Flags(n) + (if n in rest then {} else other.Flags(n))
      decreases rest
    {
      var n :| n in rest;
      r := r.Add(n, other.data[n]);
      rest := rest - {n};
    }
    MergedIs(into, other, r);
  }

  /** A summary with the names of both and, for each, the flags of both, is their merge. */
  lemma MergedIs(into: ChangedEntities, other: ChangedEntities, r: ChangedEntities)
    requires r.data.Keys == into.data.Keys + other.data.Keys
    requires forall n | n in r.data :: r.data[n] == into.Flags(n) + other.Flags(n)
    ensures r == Merged(into, other)
  {
    assert r.data == Merged(into, other).data;
  }

  /** Every name `a` reports is reported by `b`, with at least the same flags. */
  predicate Covers(a: ChangedEntities, b: ChangedEntities)
  {
    forall n | n in a.data :: n in b.data && a.data[n] <= b.data[n]
  }

  /** Merging keeps every flag either side reported, and reports no other name or flag. */
  lemma MergedKeepsFlags(a: ChangedEntities, b: ChangedEntities, n: Name)
    ensures n in Merged(a, b).data <==> n in a.data || n in b.data
    ensures Covers(a, Merged(a, b)) && Covers(b, Merged(a, b))
    ensures n in Merged(a, b).data ==>
      forall f :: f in Merged(a, b).data[n] <==> (n in a.data && f in a.data[n]) || (n in b.data && f in b.data[n])
  {
  }

  /** Adding flags for one name loses nothing already reported. */
  lemma CoversAdd(a: ChangedEntities, name: Name, flags: set<Flag>)
    ensures Covers(a, a.Add(name, flags))
    ensures name in a.Add(name, flags).data && flags <= a.Add(name, flags).data[name]
  {
  }

  lemma CoversTrans(a: ChangedEntities, b: ChangedEntities, c: ChangedEntities)
    requires Covers(a, b) && Covers(b, c)
    ensures Covers(a, c)
  {
  }

  /** The order in which nested steps report does not matter. */
  lemma MergedCommutes(a: ChangedEntities, b: ChangedEntities)
    ensures Merged(a, b) == Merged(b, a)
  {
    forall n | n in Merged(a, b).data
      ensures Merged(a, b).data[n] == Merged(b, a).data[n]
    {
      assert a.Flags(n) + b.Flags(n) == b.Flags(n) + a.Flags(n);
    }
    assert Merged(a, b).data == Merged(b, a).data;
  }
}
