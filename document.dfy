/**
 * The document opened in the editor (`Document`): its content, the open
 * transaction that collects changes, the history of committed transactions
 * with the undo position, and the cache of histories of other documents.
 * Undo, redo and switching documents rebuild the content by replaying the
 * history from an empty document; `Rebuilt` is the specification of that
 * replay, and `Consistent` says that the content is what it gives.
 */
module Documents {
  import opened Wrappers
  import opened Property
  import Tx = Transaction
  import opened Changed
  import opened Entities
  import opened Replay
  import opened Iteration

  /** How deep documents may be inserted into one another before replay gives up. */
  const MaxInsertionDepth: nat := 64

  /** Where rebuilding from the history stopped: the error if any, the content, the cache, and how many transactions applied. */
  datatype Rebuild = Rebuild(err: Option<Error>, content: seq<Entity>, storages: seq<TransactionStorage>, applied: nat)

  /**
   * Replay the first `n` transactions of a history, one after another, from
   * an empty document; the first failing transaction stops the replay and
   * leaves the content as that transaction left it.
   */
  function Rebuilt(htrs: seq<Tx.Transaction>, n: nat, st: seq<TransactionStorage>): (r: Rebuild)
    requires n <= |htrs|
    ensures r.applied <= n && (r.err.None? <==> r.applied == n)
    decreases n
  {
    if n == 0 then Rebuild(None, [], st, 0)
    else
      var m := Before(n);
      var prev := Rebuilt(htrs, m, st);
      if prev.err.Some? then prev
      else
        var o := Replayed(MaxInsertionDepth, htrs[m].data, prev.content, prev.storages, NoChanges);
        assert o.result.Ok? || o.result.Err?;
        if o.result.Err? then Rebuild(Some(o.result.error), o.state, o.storages, m)
        else Rebuild(None, o.state, o.storages, n)
  }

  /**
   * A document left as rebuilding the first `n` transactions leaves it: its
   * content, its cache and its undo position, and the verdict `undo` returns.
   */
  predicate RebuildGives(htrs: seq<Tx.Transaction>, n: nat, st: seq<TransactionStorage>, r: Result<(), Error>,
                         content: seq<Entity>, storages: seq<TransactionStorage>, applied: nat)
    requires n <= |htrs|
  {
    var b := Rebuilt(htrs, n, st);
    content == b.content && storages == b.storages && applied == b.applied &&
    (r.Ok? <==> b.err.None?) && (r.Err? ==> r == Err(b.err.value))
  }

  function Before(n: nat): (m: nat)
    requires n > 0
    ensures m + 1 == n
  {
    n - 1
  }

  /**
   * Rebuilding yields a well-formed tree, and only extends the cache, with
   * fresh histories, so the cache holds the same logs afterwards.
   */
  lemma {:induction false} RebuiltKeepsCache(htrs: seq<Tx.Transaction>, n: nat, st: seq<TransactionStorage>)
    requires n <= |htrs|
    ensures TreeOk(Rebuilt(htrs, n, st).content)
    ensures st <= Rebuilt(htrs, n, st).storages && SameHistories(st, Rebuilt(htrs, n, st).storages)
    decreases n
  {
    if n > 0 {
      var m := Before(n);
      RebuiltKeepsCache(htrs, m, st);
      var prev := Rebuilt(htrs, m, st);
      if prev.err.None? {
        ReplayKeepsTree(MaxInsertionDepth, htrs[m].data, prev.content, prev.storages, NoChanges);
        ReplayExtendsCache(MaxInsertionDepth, htrs[m].data, prev.content, prev.storages, NoChanges);
      }
    }
  }

  /** One more transaction, after a history that rebuilds without error: replay it on the rebuilt content. */
  lemma RebuiltUnfold(htrs: seq<Tx.Transaction>, n: nat, st: seq<TransactionStorage>)
    requires n < |htrs| && Rebuilt(htrs, n, st).err.None?
    ensures var prev := Rebuilt(htrs, n, st);
      var o := Replayed(MaxInsertionDepth, htrs[n].data, prev.content, prev.storages, NoChanges);
      Rebuilt(htrs, n + 1, st) ==
        if o.result.Err? then Rebuild(Some(o.result.error), o.state, o.storages, n) else Rebuild(None, o.state, o.storages, n + 1)
  {
    assert Before(n + 1) == n;
  }

  /** Once a transaction fails, replaying further transactions changes nothing. */
  lemma {:induction false} RebuiltStops(htrs: seq<Tx.Transaction>, k: nat, n: nat, st: seq<TransactionStorage>)
    requires k <= n <= |htrs| && Rebuilt(htrs, k, st).err.Some?
    ensures Rebuilt(htrs, n, st) == Rebuilt(htrs, k, st)
    decreases n
  {
    if k < n {
      var m := Before(n);
      RebuiltStops(htrs, k, m, st);
      assert Rebuilt(htrs, m, st).err.Some?;
    }
  }

  /** Rebuilding reads only the transactions it replays. */
  lemma {:induction false} RebuiltPrefix(a: seq<Tx.Transaction>, b: seq<Tx.Transaction>, n: nat, st: seq<TransactionStorage>)
    requires n <= |a| && n <= |b| && a[..n] == b[..n]
    ensures Rebuilt(a, n, st) == Rebuilt(b, n, st)
    decreases n
  {
    if n > 0 {
      assert a[..n - 1] == b[..n - 1] by {
        assert a[..n - 1] == a[..n][..n - 1] && b[..n - 1] == b[..n][..n - 1];
      }
      assert a[n - 1] == a[..n][n - 1] == b[..n][n - 1] == b[n - 1];
      RebuiltPrefix(a, b, n - 1, st);
    }
  }

  /** Rebuilding reads the cache only through the logs it holds. */
  lemma {:induction false} RebuiltIgnoresCache(htrs: seq<Tx.Transaction>, n: nat, a: seq<TransactionStorage>, b: seq<TransactionStorage>)
    requires n <= |htrs| && SameHistories(a, b)
    ensures Rebuilt(htrs, n, a).err == Rebuilt(htrs, n, b).err
    ensures Rebuilt(htrs, n, a).content == Rebuilt(htrs, n, b).content
    ensures Rebuilt(htrs, n, a).applied == Rebuilt(htrs, n, b).applied
    ensures SameHistories(Rebuilt(htrs, n, a).storages, Rebuilt(htrs, n, b).storages)
    decreases n
  {
    if n > 0 {
      var m := Before(n);
      RebuiltIgnoresCache(htrs, m, a, b);
      var pa, pb := Rebuilt(htrs, m, a), Rebuilt(htrs, m, b);
      if pa.err.None? {
        ReplayIgnoresCache(MaxInsertionDepth, htrs[m].data, pa.content, pa.storages, pb.storages, NoChanges);
        var oa := Replayed(MaxInsertionDepth, htrs[m].data, pa.content, pa.storages, NoChanges);
        var ob := Replayed(MaxInsertionDepth, htrs[m].data, pb.content, pb.storages, NoChanges);
        assert Rebuilt(htrs, n, a) == if oa.result.Err? then Rebuild(Some(oa.result.error), oa.state, oa.storages, m) else Rebuild(None, oa.state, oa.storages, n);
        assert Rebuilt(htrs, n, b) == if ob.result.Err? then Rebuild(Some(ob.result.error), ob.state, ob.storages, m) else Rebuild(None, ob.state, ob.storages, n);
      }
    }
  }

  /**
   * Rebuilding one transaction further, when the history so far replays
   * without error, is replaying that transaction on the rebuilt content,
   * with any cache that holds the same logs.
   */
  lemma RebuiltStep(htrs: seq<Tx.Transaction>, n: nat, st: seq<TransactionStorage>, other: seq<TransactionStorage>)
    requires n < |htrs| && Rebuilt(htrs, n, st).err.None? && SameHistories(st, other)
    ensures var o := Replayed(MaxInsertionDepth, htrs[n].data, Rebuilt(htrs, n, st).content, other, NoChanges);
      var r := Rebuilt(htrs, n + 1, st);
      r.content == o.state && SameHistories(r.storages, o.storages) &&
      (o.result.Ok? <==> r.err.None?) && (o.result.Err? ==> r.err == Some(o.result.error))
  {
    var prev := Rebuilt(htrs, n, st);
    RebuiltKeepsCache(htrs, n, st);
    ReplayIgnoresCache(MaxInsertionDepth, htrs[n].data, prev.content, prev.storages, other, NoChanges);
  }

  /**
   * One turn of the rebuild loop: replaying the next transaction on what the
   * history rebuilt so far either rebuilds one transaction further or, on
   * an error, is where the whole rebuild stops.
   */
  lemma RebuiltAdvance(htrs: seq<Tx.Transaction>, i: nat, target: nat, st: seq<TransactionStorage>,
                       content: seq<Entity>, cache: seq<TransactionStorage>, o: Outcome<seq<Entity>>)
    requires i < target <= |htrs| && Rebuilt(htrs, i, st) == Rebuild(None, content, cache, i)
    requires o == Replayed(MaxInsertionDepth, htrs[i].data, content, cache, NoChanges)
    ensures o.result.Ok? ==> Rebuilt(htrs, i + 1, st) == Rebuild(None, o.state, o.storages, i + 1)
    ensures o.result.Err? ==> Rebuilt(htrs, target, st) == Rebuild(Some(o.result.error), o.state, o.storages, i)
    ensures o.result.Err? ==> TreeOk(o.state)
  {
    RebuiltUnfold(htrs, i, st);
    if o.result.Err? {
      RebuiltStops(htrs, i + 1, target, st);
      RebuiltKeepsCache(htrs, target, st);
    }
  }

  /**
   * Where a rebuild ends: a well-formed tree, and when it succeeds, every
   * transaction applied and the same history rebuilding the same content
   * from the cache the rebuild leaves (the document is then consistent).
   */
  lemma RebuiltDone(htrs: seq<Tx.Transaction>, n: nat, st: seq<TransactionStorage>, r: Result<(), Error>,
                    content: seq<Entity>, storages: seq<TransactionStorage>, applied: nat)
    requires n <= |htrs| && RebuildGives(htrs, n, st, r, content, storages, applied)
    ensures TreeOk(content)
    ensures r.Ok? ==> applied == n && Rebuilt(htrs, applied, storages).err.None? && Rebuilt(htrs, applied, storages).content == content
  {
    RebuiltKeepsCache(htrs, n, st);
    RebuiltIgnoresCache(htrs, n, st, Rebuilt(htrs, n, st).storages);
  }

  /**
   * How far a partial rebuild stands for: the transactions it applied while
   * it runs, the whole target once a transaction has failed.
   */
  function Reach(b: Rebuild, target: nat): nat
  {
    if b.err.None? then b.applied else target
  }

  /** One round of the replay loop: apply the next transaction of the history. */
  method ReplayNext(htrs: seq<Tx.Transaction>, target: nat, st: seq<TransactionStorage>, b: Rebuild) returns (r: Rebuild)
    requires b.err.None? && b.applied < target <= |htrs| && Rebuilt(htrs, b.applied, st) == b
    ensures r.applied <= target && Rebuilt(htrs, Reach(r, target), st) == r
    ensures r.applied == if r.err.None? then b.applied + 1 else b.applied
  {
    var o := ApplyTransactionPrivate(MaxInsertionDepth, htrs[b.applied], b.content, b.storages);
    RebuiltAdvance(htrs, b.applied, target, st, b.content, b.storages, o);
    r := if o.result.Err? then Rebuild(Some(o.result.error), o.state, o.storages, b.applied)
      else Rebuild(None, o.state, o.storages, b.applied + 1);
  }

  /**
   * The replay loop of `undo`, on values: starting from an empty document,
   * apply the first `target` transactions of the history one after the
   * other, stopping at the first that fails.
   */
  method ReplayHistory(htrs: seq<Tx.Transaction>, target: nat, st: seq<TransactionStorage>) returns (b: Rebuild)
    requires target <= |htrs|
    ensures b == Rebuilt(htrs, target, st)
  {
    b := Rebuild(None, [], st, 0);
    while b.err.None? && b.applied < target
      invariant b.applied <= target && Rebuilt(htrs, Reach(b, target), st) == b
      decreases target - b.applied, if b.err.None? then 1 else 0
    {
      b := ReplayNext(htrs, target, st, b);
    }
  }

  /** Keep the first `n` transactions (`Vec::truncate`): nothing changes when there are no more than `n`. */
  function Truncated(htrs: seq<Tx.Transaction>, n: nat): (r: seq<Tx.Transaction>)
    ensures |r| == if n <= |htrs| then n else |htrs|
    ensures r <= htrs
  {
    if n <= |htrs| then htrs[..n] else htrs
  }

  /**
   * The storages after switching to document `id`: its cached history, when
   * there is one, trades places with the current one; otherwise the current
   * one goes to the end of the cache and a fresh history becomes current.
   */
  function Switched(my: TransactionStorage, other: seq<TransactionStorage>, id: DocId): (r: (TransactionStorage, seq<TransactionStorage>))
    ensures r.0.id == id
    ensures FindStorage(other, id).None? ==> r.1 == other + [my] && r.0 == FreshStorage(id)
    ensures FindStorage(other, id).Some? ==> r.0.htrs == HistoryOf(other, id)
    ensures FindStorage(other, id).Some? ==>
      var i := FindStorage(other, id).value;
      r == (other[i], other[i := my])
  {
    var pos := FindStorage(other, id);
    HistoryOfFound(other, id);
    if pos.None? then (FreshStorage(id), other + [my])
    else
      var i := pos.value;
      assert other == other[..i] + [other[i]] + other[i + 1..];
      assert other[i := my] == other[..i] + [my] + other[i + 1..];
      (other[i], other[i := my])
  }

  /**
   * Switching away to a document the cache does not hold and back again
   * brings back the history left behind, with its undo position and
   * naming counter, whatever was done to the other document meanwhile; that
   * one is cached in its turn.
   */
  lemma SwitchBack(my: TransactionStorage, other: seq<TransactionStorage>, id: DocId, mine: TransactionStorage)
    requires id != my.id && FindStorage(other, id).None? && FindStorage(other, my.id).None?
    requires mine.id == id
    ensures var away := Switched(my, other, id);
      away.0 == FreshStorage(id) && Switched(mine, away.1, my.id) == (my, other + [mine])
  {
    var st := other + [my];
    FindStorageIs(st, my.id, |other|);
    assert st[|other| := mine] == other + [mine];
  }

  /** The copies of a clipboard entity's properties, as `Update`s of the same shared values. */
  function Copies(props: seq<PropertyValue>): (r: seq<Tx.PropChange>)
    ensures |r| == |props|
    ensures forall i :: 0 <= i < |props| ==> r[i] == Tx.PropChange.Update(props[i])
  {
    seq(|props|, i requires 0 <= i < |props| => Tx.PropChange.Update(props[i]))
  }

  /**
   * Records `base` to `base + n` of `data` are the pasted copies of the
   * first `n` clipboard entities: each creates the next name the counter
   * `c0` hands out, under `prefix`, and copies that entity's properties.
   */
  ghost predicate Pasted(data: seq<Tx.Changes>, base: nat, prefix: Name, c0: u32, clipboard: seq<PlainEntity>, n: nat)
    requires n <= |clipboard| && c0 as int + |clipboard| <= U32_MAX as int
  {
    base + n <= |data| &&
    forall i :: 0 <= i < n ==>
      data[base + i] == Tx.Changes.Update(Tx.EntityChanges(prefix + [(c0 as int + i) as u32], Copies(clipboard[i].props)))
  }

  class Document {
    /** The entities of the document. */
    var content: seq<Entity>
    /** The open transaction that collects changes. */
    var atrs: Tx.Transaction
    /** The history of this document. */
    var my: TransactionStorage
    /** The histories of the documents opened before or inserted. */
    var other: seq<TransactionStorage>

    /** The open transaction can allocate names and the content is a well-formed tree. */
    ghost predicate Valid()
      reads this`atrs, this`content
    {
      atrs.IsOpen() && TreeOk(content)
    }

    /**
     * The undo position lies in the history, and the content is exactly
     * what replaying the applied part of the history from an empty
     * document gives, without error.
     */
    ghost predicate Consistent()
      reads this`my, this`other, this`content
    {
      my.applied <= |my.htrs| &&
      var r := Rebuilt(my.htrs, my.applied, other);
      r.err.None? && r.content == content
    }

    /** `Document::new`: an empty document with an empty history, naming entities from the start name. */
    constructor (id: DocId)
      ensures Valid() && Consistent()
      ensures content == [] && other == []
      ensures atrs == Tx.Transaction([], Some([START_NAME]))
      ensures my == FreshStorage(id)
    {
      content := [];
      atrs := Tx.Transaction([], Some([START_NAME]));
      my := FreshStorage(id);
      other := [];
    }

    /**
     * `Document::undo`: move the undo position by `delta` (negative to undo,
     * positive to redo) and rebuild the content from the history. A target
     * outside the history fails and changes nothing; a transaction that fails
     * to replay stops the rebuild where it failed.
     */
    method Undo(delta: int) returns (r: Result<(), Error>)
      modifies this
      ensures atrs == old(atrs) && my.htrs == old(my.htrs) && my.id == old(my.id) && my.lastId == old(my.lastId)
      ensures var target := old(my.applied) + delta;
        target < 0 || |old(my.htrs)| < target ==>
          r == Err(HistoryOverflow) && content == old(content) && my == old(my) && other == old(other)
      ensures var target := old(my.applied) + delta;
        0 <= target <= |old(my.htrs)| ==> RebuildGives(old(my.htrs), target, old(other), r, content, other, my.applied)
      ensures r.Ok? ==> Consistent()
      ensures old(Valid()) ==> Valid()
    {
      var target := my.applied + delta;
      if target < 0 || |my.htrs| < target {
        return Err(HistoryOverflow);
      }
      ghost var htrs, other0 := my.htrs, other;
      r := RebuildTo(target);
      RebuiltDone(htrs, target, other0, r, content, other, my.applied);
    }

    /**
     * The replay loop of `undo`: clear the content and replay the first
     * `target` transactions of the history, counting each one that applies.
     */
    method RebuildTo(target: nat) returns (r: Result<(), Error>)
      requires target <= |my.htrs|
      modifies this
      ensures atrs == old(atrs) && my == old(my).(applied := my.applied)
      ensures RebuildGives(old(my.htrs), target, old(other), r, content, other, my.applied)
    {
      var b := ReplayHistory(my.htrs, target, other);
      content, other, my := b.content, b.storages, my.(applied := b.applied);
      r := if b.err.Some? then Err(b.err.value) else Ok(());
    }

    /**
     * `Document::switch`: make document `id` the current one, keeping the
     * previous history in the cache, rebuild the content from the new
     * history, and continue naming from where that document stopped.
     */
    method Switch(id: DocId) returns (r: Result<(), Error>)
      requires Valid()
      modifies this
      ensures Valid() && my.id == id
      ensures var s := Switched(old(my), old(other), id);
        my.htrs == s.0.htrs && my.lastId == s.0.lastId &&
        (s.0.applied <= |s.0.htrs| ==> RebuildGives(s.0.htrs, s.0.applied, s.1, r, content, other, my.applied))
      ensures r.Ok? ==> Consistent() && atrs == old(atrs).(lastId := Some([my.lastId]))
      ensures r.Err? ==> atrs == old(atrs)
    {
      ghost var s := Switched(my, other, id);
      SwapIn(id);
      ghost var h, n, st := my.htrs, my.applied, other;
      assert h == s.0.htrs && n == s.0.applied && st == s.1 && Valid();
      r := Undo(0);
      if r.Err? {
        return;
      }
      atrs := atrs.(lastId := Some([my.lastId]));
    }

    /** The storage exchange of `switch`: the history of `id` becomes current, the previous one is cached. */
    method SwapIn(id: DocId)
      modifies this
      ensures (my, other) == Switched(old(my), old(other), id)
      ensures content == old(content) && atrs == old(atrs)
    {
      var pos := Find(other, id);
      if pos.None? {
        other := other + [my];
        my := FreshStorage(id);
      } else {
        var mine := my;
        my := other[pos.value];
        other := other[pos.value := mine];
      }
    }

    /** Position of the cached history of `id`, searched front to back. */
    static method Find(st: seq<TransactionStorage>, id: DocId) returns (r: Option<nat>)
      ensures r == FindStorage(st, id)
    {
      var i := 0;
      while i < |st|
        invariant 0 <= i <= |st|
        invariant forall j :: 0 <= j < i ==> st[j].id != id
      {
        if st[i].id == id {
          FindStorageIs(st, id, i);
          return Some(i);
        }
        i := i + 1;
      }
      return None;
    }

    /** `Document::entities`: a walk over the content, into inserted documents when `withChildren`. */
    method Entities(withChildren: bool) returns (it: EntityIterator)
      ensures fresh(it) && it.Valid() && it.entities == content && it.withChildren == withChildren
      ensures it.Remaining() == PreOrder(content, withChildren)
    {
      it := new EntityIterator(content, withChildren);
    }

    /** `Document::get_entity`: resolve a full name from the top of the document. */
    method GetEntity(name: Name) returns (r: Option<Entity>)
      ensures r == ResolveName(content, name)
    {
      if name == [] {
        return None;
      }
      var top := Replay.Find(content, name[0]);
      if top.None? {
        return None;
      }
      return content[top.value].GetChild(name[1..]);
    }

    /** `Document::get_property`: read a property of the entity `name`, when it exists and the value has the asked kind. */
    method GetProperty(name: Name, key: KT, kind: Kind) returns (r: Option<Payload>)
      ensures r.Some? <==> ResolveName(content, name).Some? && ResolveName(content, name).value.GetProperty(key, kind).Some?
      ensures r.Some? ==> r == ResolveName(content, name).value.GetProperty(key, kind)
    {
      var e := GetEntity(name);
      if e.Some? {
        return e.value.GetProperty(key, kind);
      }
      return None;
    }

    /**
     * `Document::create_entity`: allocate a name in the open transaction and
     * append an empty record for it; `h` is the position of that record, the
     * handle further changes go through.
     */
    method CreateEntity() returns (h: nat)
      requires Valid() && atrs.Counter() < U32_MAX
      modifies this
      ensures Valid() && content == old(content) && my == old(my) && other == old(other)
      ensures atrs == old(atrs).CreateEntity()
      ensures h == |old(atrs.data)| && h < |atrs.data| && atrs.data[h].Update?
      ensures atrs.data[h].changes.ename == old(atrs.lastId.value) && atrs.Counter() == old(atrs.Counter()) + 1
    {
      h := |atrs.data|;
      atrs := atrs.CreateEntity();
    }

    /** `Document::update_entity`: append an empty record for `name`; `h` is its position. */
    method UpdateEntity(name: Name) returns (h: nat)
      requires Valid()
      modifies this
      ensures Valid() && content == old(content) && my == old(my) && other == old(other)
      ensures atrs == old(atrs).UpdateEntity(name)
      ensures h == |old(atrs.data)| && h < |atrs.data| && atrs.data[h] == Tx.Changes.Update(Tx.EntityChanges(name, []))
    {
      h := |atrs.data|;
      atrs := atrs.UpdateEntity(name);
    }

    /** `Document::delete_entity`: append the deletion of `name`. */
    method DeleteEntity(name: Name)
      requires Valid()
      modifies this
      ensures Valid() && content == old(content) && my == old(my) && other == old(other)
      ensures atrs == old(atrs).DeleteEntity(name)
    {
      atrs := atrs.DeleteEntity(name);
    }

    /** `EntityChanges::add` through a record handle: a fresh shared value, appended to the record's changes. */
    method AddProperty(h: nat, key: KT, value: Payload) returns (p: PropertyValue)
      requires Valid() && h < |atrs.data| && atrs.data[h].Update?
      modifies this
      ensures Valid() && content == old(content) && my == old(my) && other == old(other)
      ensures fresh(p) && p.key == key && p.value == value
      ensures atrs.lastId == old(atrs.lastId) && |atrs.data| == |old(atrs.data)|
      ensures atrs.data == old(atrs.data)[h := Tx.Changes.Update(old(atrs.data[h].changes).(props := old(atrs.data[h].changes.props) + [Tx.PropChange.Update(p)]))]
    {
      var ec;
      ec, p := atrs.data[h].changes.Add(key, value);
      atrs := atrs.(data := atrs.data[h := Tx.Changes.Update(ec)]);
    }

    /** `EntityChanges::delete` through a record handle: the removal of `key` is appended to the record's changes. */
    method DeleteProperty(h: nat, key: KT)
      requires Valid() && h < |atrs.data| && atrs.data[h].Update?
      modifies this
      ensures Valid() && content == old(content) && my == old(my) && other == old(other)
      ensures atrs.lastId == old(atrs.lastId)
      ensures atrs.data == old(atrs.data)[h := Tx.Changes.Update(old(atrs.data[h].changes).Delete(key))]
    {
      atrs := atrs.(data := atrs.data[h := Tx.Changes.Update(atrs.data[h].changes.Delete(key))]);
    }

    /** `EntityChanges::copy` through a record handle: the shared value `from` itself is appended as an `Update`. */
    method CopyProperty(h: nat, from: PropertyValue)
      requires Valid() && h < |atrs.data| && atrs.data[h].Update?
      modifies this
      ensures Valid() && content == old(content) && my == old(my) && other == old(other)
      ensures atrs.lastId == old(atrs.lastId)
      ensures atrs.data == old(atrs.data)[h := Tx.Changes.Update(old(atrs.data[h].changes).Copy(from))]
    {
      atrs := atrs.(data := atrs.data[h := Tx.Changes.Update(atrs.data[h].changes.Copy(from))]);
    }

    /**
     * `Document::copy`: plain copies of the entities, at any depth, whose
     * stored name is among `names`, in the order of the walk.
     */
    method Copy(names: set<Name>) returns (r: seq<PlainEntity>)
      ensures r == Copied(PreOrder(content, true), names)
    {
      var it := Entities(true);
      ghost var walk := it.Remaining();
      ghost var done: seq<Entity> := [];
      r := [];
      var e := it.Next();
      while e.Some?
        invariant it.Valid() && it.entities == content && it.withChildren
        invariant e.None? ==> walk == done
        invariant e.Some? ==> walk == done + [e.value] + it.Remaining()
        invariant r == Copied(done, names)
        decreases |it.Remaining()| + (if e.Some? then 1 else 0)
      {
        if e.value.name in names {
          r := r + [PlainEntity(e.value.props)];
        }
        CopiedSnoc(done, e.value, names);
        WalkAdvance(walk, done, e.value, it.Remaining());
        done := done + [e.value];
        e := it.Next();
      }
    }

    /**
     * `Document::paste`: for every clipboard entity, create an entity in
     * the open transaction and record copies of its properties, sharing the
     * same values. The source panics when the name counter would overflow.
     */
    method Paste(clipboard: seq<PlainEntity>)
      requires Valid() && atrs.Counter() as int + |clipboard| <= U32_MAX as int
      modifies this
      ensures Valid() && content == old(content) && my == old(my) && other == old(other)
      ensures var prefix := old(atrs.lastId.value)[..|old(atrs.lastId.value)| - 1];
        atrs.lastId == Some(prefix + [(old(atrs.Counter()) as int + |clipboard|) as u32])
      ensures |atrs.data| == |old(atrs.data)| + |clipboard| && atrs.data[..|old(atrs.data)|] == old(atrs.data)
      ensures Pasted(atrs.data, |old(atrs.data)|, old(atrs.lastId.value)[..|old(atrs.lastId.value)| - 1],
                     old(atrs.Counter()), clipboard, |clipboard|)
    {
      ghost var base, data0 := |atrs.data|, atrs.data;
      ghost var prefix, c0 := atrs.lastId.value[..|atrs.lastId.value| - 1], atrs.Counter();
      assert atrs.lastId.value == prefix + [c0];
      var i := 0;
      while i < |clipboard|
        invariant 0 <= i <= |clipboard|
        invariant content == old(content) && my == old(my) && other == old(other)
        invariant atrs.IsOpen() && atrs.Counter() as int == c0 as int + i && atrs.lastId == Some(prefix + [atrs.Counter()])
        invariant |atrs.data| == base + i && atrs.data[..base] == data0
        invariant Pasted(atrs.data, base, prefix, c0, clipboard, i)
      {
        var h := |atrs.data|;
        ghost var before := atrs.data;
        ghost var name := atrs.lastId.value;
        atrs := atrs.CreateEntity();
        assert atrs.lastId.value == prefix + [atrs.Counter()];
        ghost var created := atrs;
        var props := clipboard[i].props;
        var j := 0;
        while j < |props|
          invariant 0 <= j <= |props|
          invariant content == old(content) && my == old(my) && other == old(other)
          invariant atrs.lastId == created.lastId && |atrs.data| == h + 1 && atrs.data[..h] == before
          invariant atrs.data[h] == Tx.Changes.Update(Tx.EntityChanges(name, Copies(props[..j])))
        {
          assert Copies(props[..j + 1]) == Copies(props[..j]) + [Tx.PropChange.Update(props[j])];
          atrs := atrs.(data := atrs.data[h := Tx.Changes.Update(atrs.data[h].changes.Copy(props[j]))]);
          j := j + 1;
        }
        assert props[..|props|] == props;
        forall q | base <= q < h
          ensures atrs.data[q] == before[q]
        {
          assert atrs.data[..h][q] == before[q];
        }
        assert atrs.data[..base] == data0 by {
          assert atrs.data[..base] == atrs.data[..h][..base];
        }
        i := i + 1;
      }
    }

    /** `Document::history_size`: the length of the history and how much of it is applied. */
    method HistorySize() returns (total: nat, applied: nat)
      ensures total == |my.htrs| && applied == my.applied
    {
      return |my.htrs|, my.applied;
    }

    /** `Document::apply_transaction`: replay the open transaction on the content, in place, without committing it. */
    method ApplyTransaction() returns (r: Result<ChangedEntities, Error>)
      requires Valid()
      modifies this
      ensures Valid() && atrs == old(atrs) && my == old(my)
      ensures var o := Replayed(MaxInsertionDepth, atrs.data, old(content), old(other), NoChanges);
        r == o.result && content == o.state && other == o.storages
      ensures old(other) <= other && SameHistories(old(other), other)
    {
      var o := ApplyTransactionPrivate(MaxInsertionDepth, atrs, content, other);
      ReplayKeepsTree(MaxInsertionDepth, atrs.data, content, other, NoChanges);
      ReplayExtendsCache(MaxInsertionDepth, atrs.data, content, other, NoChanges);
      content, other := o.state, o.storages;
      return o.result;
    }

    /**
     * `Document::commit_transaction`: replay the open transaction; when it
     * succeeds, drop the undone part of the history, append the transaction,
     * mark everything applied, remember the name counter and open a new
     * transaction that continues it.
     */
    method CommitTransaction() returns (r: Result<ChangedEntities, Error>)
      requires Valid()
      modifies this
      ensures Valid()
      ensures var o := Replayed(MaxInsertionDepth, old(atrs).data, old(content), old(other), NoChanges);
        r == o.result && content == o.state && other == o.storages
      ensures r.Err? ==> atrs == old(atrs) && my == old(my)
      ensures r.Ok? ==> my.id == old(my.id) && my.lastId == old(atrs.Counter())
      ensures r.Ok? ==> my.htrs == Truncated(old(my.htrs), old(my.applied)) + [old(atrs)] && my.applied == |my.htrs|
      ensures r.Ok? ==> atrs == Tx.Transaction([], Some([my.lastId]))
      ensures r.Ok? && old(Consistent()) ==> Consistent()
    {
      ghost var old0, other0, content0 := my, other, content;
      r := ApplyTransaction();
      if r.Err? {
        return;
      }
      my := my.(lastId := atrs.Counter());
      var finished := atrs;
      atrs := Tx.Transaction([], Some([my.lastId]));
      var kept := Truncated(my.htrs, my.applied);
      my := my.(htrs := kept + [finished], applied := |kept| + 1);
      if old0.applied <= |old0.htrs| && Rebuilt(old0.htrs, old0.applied, other0).err.None? && Rebuilt(old0.htrs, old0.applied, other0).content == content0 {
        CommitKeepsConsistent(old0.htrs, old0.applied, finished, other0, other);
      }
    }
  }

  /** Moving one entity of a walk from what is pending to what is done. */
  lemma WalkAdvance(walk: seq<Entity>, done: seq<Entity>, e: Entity, rest: seq<Entity>)
    requires walk == done + [e] + rest
    ensures rest == [] ==> walk == done + [e]
    ensures rest != [] ==> walk == (done + [e]) + [rest[0]] + rest[1..]
  {
    if rest != [] {
      assert rest == [rest[0]] + rest[1..];
    }
  }

  /**
   * Committing keeps the content what the history rebuilds: if the applied
   * part of the history rebuilds `content`, and the open transaction then
   * replays on it, the new history — the applied part plus the transaction —
   * rebuilds the result, with the cache the commit leaves.
   */
  lemma CommitKeepsConsistent(htrs: seq<Tx.Transaction>, n: nat, t: Tx.Transaction,
                              st: seq<TransactionStorage>, after: seq<TransactionStorage>)
    requires n <= |htrs| && Rebuilt(htrs, n, st).err.None?
    requires var o := Replayed(MaxInsertionDepth, t.data, Rebuilt(htrs, n, st).content, st, NoChanges);
      o.result.Ok? && after == o.storages
    ensures var h := Truncated(htrs, n) + [t];
      var o := Replayed(MaxInsertionDepth, t.data, Rebuilt(htrs, n, st).content, st, NoChanges);
      Rebuilt(h, n + 1, after).err.None? && Rebuilt(h, n + 1, after).content == o.state
  {
    var h := Truncated(htrs, n) + [t];
    var o := Replayed(MaxInsertionDepth, t.data, Rebuilt(htrs, n, st).content, st, NoChanges);
    ReplayExtendsCache(MaxInsertionDepth, t.data, Rebuilt(htrs, n, st).content, st, NoChanges);
    assert h[..n] == htrs[..n];
    RebuiltPrefix(h, htrs, n, after);
    RebuiltIgnoresCache(htrs, n, st, after);
    RebuiltStep(h, n, after, st);
    assert h[n] == t;
  }

  /**
   * Undo then redo restores the content: when the first `n` transactions
   * rebuild without error, so do the first `n - 1`, and rebuilding `n` again
   * with the cache that undo left gives the same content.
   */
  lemma UndoRedoRestores(htrs: seq<Tx.Transaction>, n: nat, st: seq<TransactionStorage>)
    requires 0 < n <= |htrs| && Rebuilt(htrs, n, st).err.None?
    ensures var undone := Rebuilt(htrs, n - 1, st);
      undone.err.None? &&
      Rebuilt(htrs, n, undone.storages).err.None? && Rebuilt(htrs, n, undone.storages).content == Rebuilt(htrs, n, st).content
  {
    UndoneKeepsCache(htrs, n, st);
    RebuiltIgnoresCache(htrs, n, st, Rebuilt(htrs, n - 1, st).storages);
  }

  /** Rebuilding one transaction fewer succeeds as well, and leaves the cache holding the same logs. */
  lemma UndoneKeepsCache(htrs: seq<Tx.Transaction>, n: nat, st: seq<TransactionStorage>)
    requires 0 < n <= |htrs|
    ensures Rebuilt(htrs, n, st).err.None? ==>
      Rebuilt(htrs, n - 1, st).err.None? && SameHistories(st, Rebuilt(htrs, n - 1, st).storages)
  {
    if Rebuilt(htrs, n - 1, st).err.Some? {
      RebuiltStops(htrs, n - 1, n, st);
    } else {
      RebuiltKeepsCache(htrs, n - 1, st);
    }
  }
}
