/**
 * The transaction builder: a transaction is an ordered log of entity
 * changes plus the name counter that is live while the transaction is open
 * for creating entities.
 */
module Transaction {
  import opened Wrappers
  import opened Property

  /** One change to a property of an entity. */
  datatype PropChange = Update(ptr: PropertyValue) | Delete(key: KT)

  /** Create and/or update the entity `ename` with `props`, in order. */
  datatype EntityChanges = EntityChanges(ename: Name, props: seq<PropChange>)
  {
    /**
     * Add or replace a property: the value is wrapped in a new shared
     * pointer and an `Update` of it is appended.
     */
    method Add(key: KT, value: Payload) returns (r: EntityChanges, p: PropertyValue)
      ensures fresh(p) && p.key == key && p.value == value
      ensures r.ename == ename && r.props == props + [PropChange.Update(p)]
    {
      p := new PropertyValue(key, value);
      r := this.(props := props + [PropChange.Update(p)]);
    }

    /** Remove a property from the entity. */
    function Delete(key: KT): (r: EntityChanges)
      ensures r.ename == ename && |r.props| == |props| + 1 && r.props[..|props|] == props
      ensures r.props[|props|] == PropChange.Delete(key)
    {
      this.(props := props + [PropChange.Delete(key)])
    }

    /** Give the entity a property that is already shared, without a new pointer. */
    function Copy(from: PropertyValue): (r: EntityChanges)
      ensures r.ename == ename && |r.props| == |props| + 1 && r.props[..|props|] == props
      ensures r.props[|props|].Update? && r.props[|props|].ptr == from
    {
      this.(props := props + [PropChange.Update(from)])
    }
  }

  /** One entry of the log. */
  datatype Changes = Update(changes: EntityChanges) | Delete(name: Name)

  /** The operations a caller performs on an open transaction (used to state name allocation). */
  datatype BuilderOp = Create | UpdateOp(name: Name) | DeleteOp(name: Name)

  datatype Transaction = Transaction(data: seq<Changes>, lastId: Option<Name>)
  {
    /** The transaction can allocate names: its counter is present and non-empty. */
    predicate IsOpen()
    {
      lastId.Some? && |lastId.value| > 0
    }

    /** The last segment of the counter: the next name's trailing segment. */
    function Counter(): u32
      requires IsOpen()
    {
      lastId.value[|lastId.value| - 1]
    }

    /**
     * Allocate the current counter as the name of a new entity, increment
     * the counter's last segment, and append an empty `Update` for the name.
     * The source panics when the counter is absent or empty, and on
     * overflow of the increment.
     */
    function CreateEntity(): (t: Transaction)
      requires IsOpen() && Counter() < U32_MAX
      ensures t.IsOpen() && t.Counter() == Counter() + 1
      ensures |t.lastId.value| == |lastId.value|
      ensures t.lastId.value[..|lastId.value| - 1] == lastId.value[..|lastId.value| - 1]
      ensures |t.data| == |data| + 1 && t.data[..|data|] == data
      ensures t.data[|data|] == Changes.Update(EntityChanges(lastId.value, []))
    {
      var name := lastId.value;
      var next := name[|name| - 1 := name[|name| - 1] + 1];
      this.(lastId := Some(next)).UpdateEntity(name)
    }

    /** Append an empty `Update` for `name`; the counter is untouched. */
    function UpdateEntity(name: Name): (t: Transaction)
      ensures t.lastId == lastId
      ensures |t.data| == |data| + 1 && t.data[..|data|] == data
      ensures t.data[|data|].Update? && t.data[|data|].changes == EntityChanges(name, [])
    {
      this.(data := data + [Changes.Update(EntityChanges(name, []))])
    }

    /** Append `Delete(name)`; the counter is untouched. */
    function DeleteEntity(name: Name): (t: Transaction)
      ensures t.lastId == lastId
      ensures |t.data| == |data| + 1 && t.data[..|data|] == data && t.data[|data|] == Changes.Delete(name)
    {
      this.(data := data + [Changes.Delete(name)])
    }
  }

  /** How many of the builder operations create an entity. */
  function Creates(ops: seq<BuilderOp>): (n: nat)
    ensures n <= |ops|
    ensures n == |ops| <==> forall i :: 0 <= i < |ops| ==> ops[i].Create?
    ensures n == 0 <==> forall i :: 0 <= i < |ops| ==> !ops[i].Create?
  {
    if ops == [] then 0 else (if ops[0].Create? then 1 else 0) + Creates(ops[1..])
  }

  /**
   * Run builder operations on an open transaction and collect the names the
   * creations allocated: they strictly increase in their trailing segment,
   * so no name is handed out twice, whatever updates and deletes come in
   * between.
   */
  function Allocate(t: Transaction, ops: seq<BuilderOp>): (r: (Transaction, seq<EntityName>))
    requires t.IsOpen() && t.Counter() as int + Creates(ops) <= U32_MAX as int
    ensures r.0.IsOpen()
    ensures r.0.Counter() as int == t.Counter() as int + |r.1| && |r.1| == Creates(ops)
    ensures forall i :: 0 <= i < |r.1| ==> t.Counter() <= Last(r.1[i]) < r.0.Counter()
    ensures forall i, j :: 0 <= i < j < |r.1| ==> Last(r.1[i]) < Last(r.1[j])
    decreases |ops|
  {
    if ops == [] then (t, [])
    else
      var later := Creates(ops[1..]);
      assert Creates(ops) == (if ops[0].Create? then 1 else 0) + later;
      match ops[0]
      case Create =>
        var t' := t.CreateEntity();
        var rest := Allocate(t', ops[1..]);
        var names := [t.lastId.value] + rest.1;
        IncreasingCons(t.lastId.value, rest.1, t'.Counter(), rest.0.Counter());
        (rest.0, names)
      case UpdateOp(n) =>
        var t' := t.UpdateEntity(n);
        assert t'.IsOpen() && t'.Counter() == t.Counter();
        Allocate(t', ops[1..])
      case DeleteOp(n) =>
        var t' := t.DeleteEntity(n);
        assert t'.IsOpen() && t'.Counter() == t.Counter();
        Allocate(t', ops[1..])
  }

  /** A name below every name of an increasing list, all in `[lo, hi)`, heads an increasing list in `[Last(n), hi)`. */
  lemma IncreasingCons(n: EntityName, names: seq<EntityName>, lo: u32, hi: u32)
    requires Last(n) < lo
    requires forall i :: 0 <= i < |names| ==> lo <= Last(names[i]) < hi
    requires forall i, j :: 0 <= i < j < |names| ==> Last(names[i]) < Last(names[j])
    ensures forall i :: 0 <= i < |[n] + names| ==> Last(n) <= Last(([n] + names)[i]) && (i > 0 ==> Last(([n] + names)[i]) < hi)
    ensures forall i, j :: 0 <= i < j < |[n] + names| ==> Last(([n] + names)[i]) < Last(([n] + names)[j])
  {
    var all := [n] + names;
    assert forall i :: 0 < i < |all| ==> all[i] == names[i - 1];
  }

  /** Distinct trailing segments mean distinct names. */
  lemma AllocatedNamesDistinct(t: Transaction, ops: seq<BuilderOp>, i: nat, j: nat)
    requires t.IsOpen() && t.Counter() as int + Creates(ops) <= U32_MAX as int
    requires i < j < |Allocate(t, ops).1|
    ensures Allocate(t, ops).1[i] != Allocate(t, ops).1[j]
  {
  }

  /** The in-order concatenation of the logs of `ts`. */
  function Flatten(ts: seq<Transaction>): seq<Changes>
  {
    if ts == [] then [] else Flatten(ts[..|ts| - 1]) + ts[|ts| - 1].data
  }

  /** Concatenating logs distributes over splitting the list of transactions. */
  lemma {:induction false} FlattenConcat(a: seq<Transaction>, b: seq<Transaction>)
    ensures Flatten(a + b) == Flatten(a) + Flatten(b)
    decreases |b|
  {
    if b == [] {
      assert a + b == a;
    } else {
      var b', t := b[..|b| - 1], b[|b| - 1];
      assert (a + b)[..|a + b| - 1] == a + b' && (a + b)[|a + b| - 1] == t;
      FlattenConcat(a, b');
      calc {
        Flatten(a + b);
        Flatten(a + b') + t.data;
        (Flatten(a) + Flatten(b')) + t.data;
        Flatten(a) + (Flatten(b') + t.data);
        Flatten(a) + Flatten(b);
      }
    }
  }

  /** Every change of every merged transaction appears, in order. */
  lemma {:induction false} FlattenLength(ts: seq<Transaction>)
    ensures |Flatten(ts)| == TotalSize(ts)
    decreases |ts|
  {
    if ts != [] {
      FlattenLength(ts[..|ts| - 1]);
    }
  }

  function TotalSize(ts: seq<Transaction>): nat
  {
    if ts == [] then 0 else TotalSize(ts[..|ts| - 1]) + |ts[|ts| - 1].data|
  }

  /**
   * Merge a list of transactions into one: the logs are concatenated in
   * order and the result carries no name counter (it is not open).
   */
  method Merge(transactions: seq<Transaction>) returns (res: Transaction)
    ensures res.data == Flatten(transactions)
    ensures res.lastId == None && !res.IsOpen()
  {
    res := Transaction([], None);
    var i := 0;
    while i < |transactions|
      invariant 0 <= i <= |transactions|
      invariant res.data == Flatten(transactions[..i]) && res.lastId == None
    {
      assert transactions[..i + 1][..i] == transactions[..i];
      res := res.(data := res.data + transactions[i].data);
      i := i + 1;
    }
    assert transactions[..i] == transactions;
  }

  /** How many elementary changes one log entry stands for. */
  function Weight(c: Changes): nat
  {
    match c
    case Update(ec) => |ec.props|
    case Delete(_) => 1
  }

  /** The number of property changes plus one per entity deletion. */
  function ChangeCount(data: seq<Changes>): nat
  {
    if data == [] then 0 else ChangeCount(data[..|data| - 1]) + Weight(data[|data| - 1])
  }

  /** Count all the changes in the transaction. */
  method Len(t: Transaction) returns (n: nat)
    ensures n == ChangeCount(t.data)
  {
    n := 0;
    var i := 0;
    while i < |t.data|
      invariant 0 <= i <= |t.data|
      invariant n == ChangeCount(t.data[..i])
    {
      assert t.data[..i + 1][..i] == t.data[..i];
      match t.data[i] {
        case Update(changes) =>
          n := n + |changes.props|;
        case Delete(_) =>
          n := n + 1;
      }
      i := i + 1;
    }
    assert t.data[..i] == t.data;
  }

  /** The count of a concatenation is the sum of the counts. */
  lemma {:induction false} ChangeCountConcat(a: seq<Changes>, b: seq<Changes>)
    ensures ChangeCount(a + b) == ChangeCount(a) + ChangeCount(b)
    decreases |b|
  {
    if b == [] {
      assert a + b == a;
    } else {
      var b' := b[..|b| - 1];
      assert (a + b)[..|a + b| - 1] == a + b';
      ChangeCountConcat(a, b');
    }
  }

  function SumOfLens(ts: seq<Transaction>): nat
  {
    if ts == [] then 0 else SumOfLens(ts[..|ts| - 1]) + ChangeCount(ts[|ts| - 1].data)
  }

  /** The length of a merged transaction is the sum of the lengths of its parts. */
  lemma {:induction false} LenOfMerge(ts: seq<Transaction>)
    ensures ChangeCount(Flatten(ts)) == SumOfLens(ts)
    decreases |ts|
  {
    if ts != [] {
      LenOfMerge(ts[..|ts| - 1]);
      ChangeCountConcat(Flatten(ts[..|ts| - 1]), ts[|ts| - 1].data);
    }
  }

  /** Creating or updating an entity alone adds no change to the count; deleting one adds one. */
  lemma BuilderLenGrowth(t: Transaction, name: Name)
    ensures ChangeCount(t.UpdateEntity(name).data) == ChangeCount(t.data)
    ensures ChangeCount(t.DeleteEntity(name).data) == ChangeCount(t.data) + 1
    ensures t.IsOpen() && t.Counter() < U32_MAX ==> ChangeCount(t.CreateEntity().data) == ChangeCount(t.data)
  {
    assert t.UpdateEntity(name).data[..|t.data|] == t.data;
    assert t.DeleteEntity(name).data[..|t.data|] == t.data;
    if t.IsOpen() && t.Counter() < U32_MAX {
      assert t.CreateEntity().data[..|t.data|] == t.data;
    }
  }

  /**
   * Appending one property change to the record at handle `h` (what `add`,
   * `delete` and `copy` do through the handle) raises the count by exactly one.
   */
  lemma {:induction false} AppendPropRaisesLen(data: seq<Changes>, h: nat, pc: PropChange)
    requires h < |data| && data[h].Update?
    ensures ChangeCount(data[h := Changes.Update(data[h].changes.(props := data[h].changes.props + [pc]))])
         == ChangeCount(data) + 1
    decreases |data|
  {
    var ec := data[h].changes;
    var data' := data[h := Changes.Update(ec.(props := ec.props + [pc]))];
    var n := |data|;
    if h == n - 1 {
      assert data'[..n - 1] == data[..n - 1];
    } else {
      assert data'[..n - 1] == data[..n - 1][h := Changes.Update(ec.(props := ec.props + [pc]))];
      AppendPropRaisesLen(data[..n - 1], h, pc);
    }
  }
}
