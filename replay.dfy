/**
 * Replaying a transaction log against a document's content. The functions
 * here are the specification of one replay step at each level (one
 * property change, the property changes of one entity, one entity record,
 * a whole log); the methods below them are the source's loops, each proved
 * to compute exactly its specification.
 *
 * Replay works in place in the source: on an error the content keeps what
 * was changed before the error. Every level therefore returns an `Outcome`
 * holding the result, the content as it stands, and the cache of document
 * histories, which replay may extend when an entity inserts a document.
 */
module Replay {
  import opened Wrappers
  import opened Property
  import Tx = Transaction
  import opened Changed
  import opened Entities

  /** The history of one document. */
  datatype TransactionStorage = TransactionStorage(
    id: DocId,
    htrs: seq<Tx.Transaction>,
    /** How many of `htrs` are applied to the content; fewer than all after an undo. */
    applied: nat,
    /** Trailing segment of the last name handed out for this document. */
    lastId: u32)

  /** The history of a document nobody has changed yet. */
  function FreshStorage(id: DocId): (r: TransactionStorage)
    ensures r.id == id && r.htrs == [] && r.applied == 0
  {
    TransactionStorage(id, [], 0, START_NAME)
  }

  /** The failures of replay and of the history operations. */
  datatype Error =
    | EntityNotFound        // no entity carries the first segment of a nested name
    | ChildlessEntity       // that entity inserts no document, so it has no children to change
    | UnexpectedDocIdType   // the payload of an `INS_DOC` property is not a document id
    | NoSuitableObject      // a deletion names nothing that exists
    | HistoryOverflow       // an undo or redo leaves the range of the history
    | EmptyName             // an entity record with an empty name
    | InsertionTooDeep      // documents inserted deeper than the depth bound

  /** What one replay step returns: its result, the state it leaves, the cache it leaves. */
  datatype Outcome<S> = Outcome(result: Result<ChangedEntities, Error>, state: S, storages: seq<TransactionStorage>)

  /** Position of the first cached history of document `id`. */
  function FindStorage(st: seq<TransactionStorage>, id: DocId): (r: Option<nat>)
    ensures r.Some? ==> r.value < |st| && st[r.value].id == id
    ensures r.Some? ==> forall j :: 0 <= j < r.value ==> st[j].id != id
    ensures r.None? ==> forall j :: 0 <= j < |st| ==> st[j].id != id
  {
    if st == [] then None
    else if st[0].id == id then Some(0)
    else
      var r := FindStorage(st[1..], id);
      if r.None? then None else Some(r.value + 1)
  }

  lemma FindStorageIs(st: seq<TransactionStorage>, id: DocId, i: nat)
    requires i < |st| && st[i].id == id
    requires forall j :: 0 <= j < i ==> st[j].id != id
    ensures FindStorage(st, id) == Some(i)
  {
  }

  /**
   * The logs a cache holds, by document: the first entry for a document
   * decides its log; a document whose log is empty is not listed.
   */
  function Histories(st: seq<TransactionStorage>): (m: map<DocId, seq<Tx.Transaction>>)
    ensures forall id | id in m :: m[id] != []
    decreases |st|
  {
    if st == [] then map[]
    else
      var m := Histories(st[1..]);
      if st[0].htrs == [] then m - {st[0].id} else m[st[0].id := st[0].htrs]
  }

  /** The log a cache holds for document `id`; empty when it holds none. */
  function HistoryOf(st: seq<TransactionStorage>, id: DocId): seq<Tx.Transaction>
  {
    if id in Histories(st) then Histories(st)[id] else []
  }

  /** `HistoryOf` reads the first entry for the document, the one `FindStorage` finds. */
  lemma {:induction false} HistoryOfFound(st: seq<TransactionStorage>, id: DocId)
    ensures FindStorage(st, id).Some? ==> HistoryOf(st, id) == st[FindStorage(st, id).value].htrs
    ensures FindStorage(st, id).None? ==> HistoryOf(st, id) == []
    decreases |st|
  {
    if st != [] && st[0].id != id {
      HistoryOfFound(st[1..], id);
      var r := FindStorage(st[1..], id);
      if r.Some? {
        FindStorageIs(st, id, r.value + 1);
      }
    } else if st != [] {
      FindStorageIs(st, id, 0);
    }
  }

  /** An empty log appended at the end of a cache changes no document's log. */
  lemma {:induction false} HistoriesAppendEmpty(st: seq<TransactionStorage>, s: TransactionStorage)
    requires s.htrs == []
    ensures Histories(st + [s]) == Histories(st)
    decreases |st|
  {
    if st == [] {
      assert Histories([s]) == map[] - {s.id};
    } else {
      assert (st + [s])[0] == st[0] && (st + [s])[1..] == st[1..] + [s];
      HistoriesAppendEmpty(st[1..], s);
    }
  }

  /** Two caches that hold the same log for every document. */
  predicate SameHistories(a: seq<TransactionStorage>, b: seq<TransactionStorage>)
  {
    Histories(a) == Histories(b)
  }

  /** Holding the same logs is agreeing on the log of every document. */
  lemma SameHistoriesMeans(a: seq<TransactionStorage>, b: seq<TransactionStorage>)
    ensures SameHistories(a, b) <==> forall id :: HistoryOf(a, id) == HistoryOf(b, id)
  {
    if forall id :: HistoryOf(a, id) == HistoryOf(b, id) {
      forall id
        ensures id in Histories(a) <==> id in Histories(b)
        ensures id in Histories(a) ==> Histories(a)[id] == Histories(b)[id]
      {
        assert HistoryOf(a, id) == HistoryOf(b, id);
      }
      assert Histories(a) == Histories(b);
    }
  }

  /** Two outcomes that agree on everything replay can observe. */
  predicate SameRun<S(==)>(x: Outcome<S>, y: Outcome<S>)
  {
    x.result == y.result && x.state == y.state && SameHistories(x.storages, y.storages)
  }

  /**
   * The cached history of document `id`, opened on first use: when the
   * cache has none, a fresh empty one is appended.
   */
  function OpenStorage(st: seq<TransactionStorage>, id: DocId): (r: (seq<TransactionStorage>, TransactionStorage))
    ensures r.1.id == id && r.1.htrs == HistoryOf(st, id)
    ensures st <= r.0 && |r.0| <= |st| + 1 && SameHistories(st, r.0)
    ensures FindStorage(r.0, id).Some?
    ensures FindStorage(st, id).Some? ==> r == (st, st[FindStorage(st, id).value])
    ensures FindStorage(st, id).None? ==> r == (st + [FreshStorage(id)], FreshStorage(id))
  {
    var i := FindStorage(st, id);
    HistoryOfFound(st, id);
    if i.Some? then (st, st[i.value])
    else
      var st' := st + [FreshStorage(id)];
      FindStorageIs(st', id, |st|);
      HistoriesAppendEmpty(st, FreshStorage(id));
      (st', FreshStorage(id))
  }

  /**
   * Whether a property change inserts a document: an `Update` that appends
   * (no property has its key yet) an `INS_DOC` property holding a document
   * id.
   */
  predicate Inserts(e: Entity, c: Tx.PropChange)
  {
    c.Update? && KeyIndex(e.props, c.ptr.key).None? && c.ptr.key == INS_DOC && c.ptr.value.U32?
  }

  /** The result of a property change that inserts no document; it reads no cache. */
  function DirectResult(e: Entity, c: Tx.PropChange): (r: Result<ChangedEntities, Error>)
    requires !Inserts(e, c)
    ensures r.Err? <==> c.Update? && KeyIndex(e.props, c.ptr.key).None? && c.ptr.key == INS_DOC
    ensures r.Ok? ==> r.value.data.Keys == {e.name} && |r.value.data[e.name]| == 1
  {
    match c
    case Delete(_) => Ok(From(e.name, {DelProp}))
    case Update(p) =>
      if KeyIndex(e.props, p.key).Some? then Ok(From(e.name, {UpdProp}))
      else if p.key != INS_DOC then Ok(From(e.name, {AddProp}))
      else Err(UnexpectedDocIdType)
  }

  /**
   * One property change applied to one entity (`Entity::apply_changes`):
   * the property list changes as `ChangedProps` says, and a first
   * `INS_DOC` property then fills the children. `fuel` bounds how deep
   * documents may be inserted one into another.
   */
  function AppliedChange(fuel: nat, e: Entity, c: Tx.PropChange, st: seq<TransactionStorage>): (o: Outcome<Entity>)
    ensures o.state.name == e.name
    ensures o.result.Ok? ==> e.name in o.result.value.data
    decreases fuel, 1, 0
  {
    var e' := e.(props := ChangedProps(e.props, c));
    if Inserts(e, c) then Inserting(fuel, e', c.ptr.value.u, st)
    else Outcome(DirectResult(e, c), e', st)
  }

  /** The depth left once one more document is inserted. */
  function Deeper(fuel: nat): (r: nat)
    requires fuel > 0
    ensures r < fuel
  {
    fuel - 1
  }

  /**
   * The entity `e` has just received an `INS_DOC` property naming document
   * `d`: its children become the replay, from empty, of all of `d`'s cached
   * history merged into one log, one level deeper; with no depth left the
   * insertion fails.
   */
  function Inserting(fuel: nat, e: Entity, d: DocId, st: seq<TransactionStorage>): (o: Outcome<Entity>)
    ensures o.state.name == e.name && o.state.props == e.props
    ensures o.result.Ok? ==> o.state.children.Inserted? && e.name in o.result.value.data && AddProp in o.result.value.data[e.name]
    ensures o.result.Err? ==> o.state == e
    decreases fuel, 0, 0
  {
    if fuel == 0 then Outcome(Err(InsertionTooDeep), e, st)
    else
    var found := OpenStorage(st, d);
    var sub := Replayed(Deeper(fuel), Tx.Flatten(found.1.htrs), [], found.0, NoChanges);
    if sub.result.Err? then Outcome(sub.result, e, sub.storages)
    else
      var changes := From(e.name, {AddProp});
      MergedKeepsFlags(changes, sub.result.value, e.name);
      Outcome(Ok(Merged(changes, sub.result.value)), e.(children := Inserted(sub.state)), sub.storages)
  }

  /** The property changes of one record applied in order, stopping at the first error. */
  function AppliedProps(fuel: nat, e: Entity, props: seq<Tx.PropChange>, st: seq<TransactionStorage>,
                        acc: ChangedEntities): (o: Outcome<Entity>)
    ensures o.state.name == e.name
    ensures o.result.Ok? ==> Covers(acc, o.result.value)
    ensures o.result.Ok? && props != [] ==> e.name in o.result.value.data
    decreases fuel, 2, |props|
  {
    if props == [] then Outcome(Ok(acc), e, st)
    else
      var first := AppliedChange(fuel, e, props[0], st);
      if first.result.Err? then first
      else
        var merged := Merged(acc, first.result.value);
        MergedKeepsFlags(acc, first.result.value, e.name);
        var rest := AppliedProps(fuel, first.state, props[1..], first.storages, merged);
        if rest.result.Ok? then
          CoversTrans(acc, merged, rest.result.value);
          rest
        else rest
  }

  /**
   * One entity record (`Document::entity_create_or_update`): a nested name
   * descends into the first entity whose trailing segment matches its
   * first segment; the last segment selects the entity to change, which is
   * created (as a single-segment, property-less, childless entity) when
   * none matches.
   */
  function CreatedOrUpdated(fuel: nat, name: Name, props: seq<Tx.PropChange>, content: seq<Entity>,
                            st: seq<TransactionStorage>): (o: Outcome<seq<Entity>>)
    ensures |o.state| == |content| || (|name| == 1 && |o.state| == |content| + 1)
    decreases fuel, 3, |name|
  {
    if |name| > 1 then
      var i := FindByLast(content, name[0]);
      if i.None? then Outcome(Err(EntityNotFound), content, st)
      else if content[i.value].children.NoChildren? then Outcome(Err(ChildlessEntity), content, st)
      else
        var host := content[i.value];
        var sub := CreatedOrUpdated(fuel, name[1..], props, host.children.entities, st);
        var state := content[i.value := host.(children := Inserted(sub.state))];
        Outcome(sub.result, state, sub.storages)
    else if name == [] then Outcome(Err(EmptyName), content, st)
    else
      var i := FindByLast(content, name[0]);
      if i.Some? then
        var o := AppliedProps(fuel, content[i.value], props, st, NoChanges);
        var state := content[i.value := o.state];
        assert Last(state[i.value].name) == name[0];
        Outcome(o.result, state, o.storages)
      else
        var created := From(name, {Created});
        var o := AppliedProps(fuel, NewEntity(name[0]), props, st, created);
        var state := content + [o.state];
        assert [name[0]] == name;
        assert Last(state[|content|].name) == name[0];
        Outcome(o.result, state, o.storages)
  }

  /**
   * How resolving an entity record ends: an empty name, a nested name
   * whose first segment matches nothing, and a match that inserts no
   * document each fail with nothing changed; a nested name keeps the
   * number of top-level entities; a single-segment name resolves to an
   * entity afterwards, the one that matched or exactly one new entity with
   * that name appended (reported as created).
   */
  lemma RecordOutcome(fuel: nat, name: Name, props: seq<Tx.PropChange>, content: seq<Entity>, st: seq<TransactionStorage>)
    ensures var o := CreatedOrUpdated(fuel, name, props, content, st);
      var i := if |name| > 0 then FindByLast(content, name[0]) else None;
      && (name == [] ==> o == Outcome(Err(EmptyName), content, st))
      && (|name| > 1 && i.None? ==> o == Outcome(Err(EntityNotFound), content, st))
      && (|name| > 1 && i.Some? && content[i.value].children.NoChildren? ==> o == Outcome(Err(ChildlessEntity), content, st))
      && (|name| > 1 && i.Some? && content[i.value].children.Inserted? ==>
            var host := content[i.value];
            var sub := CreatedOrUpdated(fuel, name[1..], props, host.children.entities, st);
            o == Outcome(sub.result, content[i.value := host.(children := Inserted(sub.state))], sub.storages))
      && (|name| != 1 ==> |o.state| == |content|)
      && (|name| == 1 ==> ResolveName(o.state, name).Some?)
      && (|name| == 1 && i.Some? ==> |o.state| == |content|)
      && (|name| == 1 && i.None? ==> |o.state| == |content| + 1 && o.state[..|content|] == content && o.state[|content|].name == name)
      && (|name| == 1 && i.None? && o.result.Ok? ==> name in o.result.value.data && Created in o.result.value.data[name])
  {
    var o := CreatedOrUpdated(fuel, name, props, content, st);
    if |name| == 1 {
      var i := FindByLast(content, name[0]);
      if i.Some? {
        FindByLastIs(o.state, name[0], i.value);
      } else {
        assert [name[0]] == name;
        FindByLastIs(o.state, name[0], |content|);
        var created := From(name, {Created});
        var props' := AppliedProps(fuel, NewEntity(name[0]), props, st, created);
        if props'.result.Ok? {
          assert Covers(created, props'.result.value);
        }
      }
    }
  }

  /**
   * A log replayed in order (`Document::apply_transaction_private`). A
   * deletion removes the first top-level entity whose trailing segment is
   * that of the deleted name, and ends the replay at once.
   */
  function Replayed(fuel: nat, cs: seq<Tx.Changes>, content: seq<Entity>, st: seq<TransactionStorage>,
                    acc: ChangedEntities): (o: Outcome<seq<Entity>>)
    ensures |o.state| <= |content| + |cs|
    decreases fuel, 4, |cs|
  {
    if cs == [] then Outcome(Ok(acc), content, st)
    else
      match cs[0]
      case Update(ec) =>
        var first := CreatedOrUpdated(fuel, ec.ename, ec.props, content, st);
        if first.result.Err? then first
        else
          Replayed(fuel, cs[1..], first.state, first.storages, Merged(acc, first.result.value))
      case Delete(name) =>
        if name == [] then Outcome(Err(NoSuitableObject), content, st)
        else
          var i := FindByLast(content, name[|name| - 1]);
          if i.None? then Outcome(Err(NoSuitableObject), content, st)
          else
            var state := SwapRemove(content, i.value);
            Outcome(Ok(acc.Add(name, {Deleted})), state, st)
  }

  /** A replay reports at least everything already accumulated. */
  lemma {:induction false} ReplayCoversAcc(fuel: nat, cs: seq<Tx.Changes>, content: seq<Entity>,
                                          st: seq<TransactionStorage>, acc: ChangedEntities)
    ensures var o := Replayed(fuel, cs, content, st, acc);
      o.result.Ok? ==> Covers(acc, o.result.value)
    decreases |cs|
  {
    if cs != [] {
      match cs[0]
      case Update(ec) =>
        var first := CreatedOrUpdated(fuel, ec.ename, ec.props, content, st);
        if first.result.Ok? {
          var merged := Merged(acc, first.result.value);
          MergedKeepsFlags(acc, first.result.value, []);
          ReplayCoversAcc(fuel, cs[1..], first.state, first.storages, merged);
          var rest := Replayed(fuel, cs[1..], first.state, first.storages, merged);
          if rest.result.Ok? {
            CoversTrans(acc, merged, rest.result.value);
          }
        }
      case Delete(name) =>
        CoversAdd(acc, name, {Deleted});
    }
  }


  /** `Entity::apply_changes`: one property change, in place on `e`. */
  method ApplyChanges(fuel: nat, e: Entity, c: Tx.PropChange, st: seq<TransactionStorage>) returns (o: Outcome<Entity>)
    ensures o == AppliedChange(fuel, e, c, st)
    decreases fuel, 1, 0
  {
    match c {
      case Update(p) =>
        var pos := KeyIndex(e.props, p.key);
        if pos.Some? {
          return Outcome(Ok(From(e.name, {UpdProp})), e.(props := e.props[pos.value := p]), st);
        }
        var entity := e.(props := e.props + [p]);
        var changes := From(e.name, {AddProp});
        if p.key == INS_DOC {
          if !p.value.U32? {
            return Outcome(Err(UnexpectedDocIdType), entity, st);
          }
          o := InsertDocument(fuel, entity, p.value.u, st);
          return;
        }
        return Outcome(Ok(changes), entity, st);
      case Delete(key) =>
        var pos := KeyIndex(e.props, key);
        var entity := e;
        if pos.Some? {
          entity := e.(props := SwapRemove(e.props, pos.value));
        }
        return Outcome(Ok(From(e.name, {DelProp})), entity, st);
    }
  }

  /**
   * The inserting half of `Entity::apply_changes`: open the cached history
   * of `d`, merge it and replay it into the children of `e`.
   */
  method InsertDocument(fuel: nat, e: Entity, d: DocId, st: seq<TransactionStorage>) returns (o: Outcome<Entity>)
    ensures o == Inserting(fuel, e, d, st)
    decreases fuel, 0, 0
  {
    if fuel == 0 {
      return Outcome(Err(InsertionTooDeep), e, st);
    }
    var found := OpenStorage(st, d);
    var united := Tx.Merge(found.1.htrs);
    var sub := ApplyTransactionPrivate(Deeper(fuel), united, [], found.0);
    if sub.result.Err? {
      return Outcome(sub.result, e, sub.storages);
    }
    var changes := Merge(From(e.name, {AddProp}), sub.result.value);
    return Outcome(Ok(changes), e.(children := Inserted(sub.state)), sub.storages);
  }

  /** The first position in `content` whose trailing segment is `seg`, by a linear search. */
  method Find(content: seq<Entity>, seg: u32) returns (r: Option<nat>)
    ensures r == FindByLast(content, seg)
  {
    var i := 0;
    while i < |content|
      invariant 0 <= i <= |content|
      invariant forall j :: 0 <= j < i ==> Last(content[j].name) != seg
    {
      if Last(content[i].name) == seg {
        FindByLastIs(content, seg, i);
        return Some(i);
      }
      i := i + 1;
    }
    return None;
  }

  /** `Document::entity_create_or_update`: one entity record, in place on `content`. */
  method EntityCreateOrUpdate(fuel: nat, ename: Name, props: seq<Tx.PropChange>, content: seq<Entity>,
                              st: seq<TransactionStorage>) returns (o: Outcome<seq<Entity>>)
    ensures o == CreatedOrUpdated(fuel, ename, props, content, st)
    decreases fuel, 3, |ename|
  {
    if |ename| > 1 {
      var pos := Find(content, ename[0]);
      if pos.None? {
        return Outcome(Err(EntityNotFound), content, st);
      }
      var host := content[pos.value];
      if host.children.NoChildren? {
        return Outcome(Err(ChildlessEntity), content, st);
      }
      var sub := EntityCreateOrUpdate(fuel, ename[1..], props, host.children.entities, st);
      return Outcome(sub.result, content[pos.value := host.(children := Inserted(sub.state))], sub.storages);
    }
    if |ename| == 0 {
      return Outcome(Err(EmptyName), content, st);
    }
    var pos := Find(content, ename[0]);
    var entity, changes;
    if pos.None? {
      entity, changes := NewEntity(ename[0]), From(ename, {Created});
      assert [ename[0]] == ename;
    } else {
      entity, changes := content[pos.value], NoChanges;
    }
    ghost var spec := AppliedProps(fuel, entity, props, st, changes);
    var storages := st;
    var k := 0;
    while k < |props|
      invariant 0 <= k <= |props|
      invariant entity.name == (if pos.None? then ename else content[pos.value].name)
      invariant spec == AppliedProps(fuel, entity, props[k..], storages, changes)
    {
      var step := ApplyChanges(fuel, entity, props[k], storages);
      assert props[k..][0] == props[k] && props[k..][1..] == props[k + 1..];
      if step.result.Err? {
        entity, storages := step.state, step.storages;
        var state := if pos.None? then content + [entity] else content[pos.value := entity];
        return Outcome(step.result, state, storages);
      }
      changes := Merge(changes, step.result.value);
      entity, storages := step.state, step.storages;
      k := k + 1;
    }
    var state := if pos.None? then content + [entity] else content[pos.value := entity];
    return Outcome(Ok(changes), state, storages);
  }

  /** `Document::apply_transaction_private`: a whole log, in place on `content`. */
  method ApplyTransactionPrivate(fuel: nat, trs: Tx.Transaction, content: seq<Entity>, st: seq<TransactionStorage>)
    returns (o: Outcome<seq<Entity>>)
    ensures o == Replayed(fuel, trs.data, content, st, NoChanges)
    decreases fuel, 4, 0
  {
    var changes := NoChanges;
    var current, storages := content, st;
    var i := 0;
    while i < |trs.data|
      invariant 0 <= i <= |trs.data|
      invariant Replayed(fuel, trs.data, content, st, NoChanges) == Replayed(fuel, trs.data[i..], current, storages, changes)
    {
      assert trs.data[i..][0] == trs.data[i] && trs.data[i..][1..] == trs.data[i + 1..];
      match trs.data[i] {
        case Update(ec) =>
          var step := EntityCreateOrUpdate(fuel, ec.ename, ec.props, current, storages);
          if step.result.Err? {
            return step;
          }
          changes := Merge(changes, step.result.value);
          current, storages := step.state, step.storages;
        case Delete(name) =>
          if |name| > 0 {
            var pos := Find(current, name[|name| - 1]);
            if pos.Some? {
              current := SwapRemove(current, pos.value);
              changes := changes.Add(name, {Deleted});
              return Outcome(Ok(changes), current, storages);
            }
          }
          return Outcome(Err(NoSuitableObject), current, storages);
      }
      i := i + 1;
    }
    assert trs.data[i..] == [];
    return Outcome(Ok(changes), current, storages);
  }

  /*
   * Replay reads the cache only through the logs it holds: two caches that
   * hold the same logs give the same result and the same content, and are
   * left holding the same logs. One lemma per replay level, by mutual
   * induction along the definitions.
   */

  lemma {:induction false} ChangeIgnoresCache(fuel: nat, e: Entity, c: Tx.PropChange,
                                             a: seq<TransactionStorage>, b: seq<TransactionStorage>)
    requires SameHistories(a, b)
    ensures SameRun(AppliedChange(fuel, e, c, a), AppliedChange(fuel, e, c, b))
    decreases fuel, 1, 0
  {
    if Inserts(e, c) {
      InsertIgnoresCache(fuel, e.(props := ChangedProps(e.props, c)), c.ptr.value.u, a, b);
    } else {
      DirectIgnoresCache(fuel, e, c, a, b);
    }
  }

  /**
   * Replay only extends the cache, with fresh empty histories for the
   * documents it inserts, so every document keeps its log. One lemma per
   * replay level, by mutual induction.
   */

  lemma {:induction false} ChangeExtendsCache(fuel: nat, e: Entity, c: Tx.PropChange, st: seq<TransactionStorage>)
    ensures var o := AppliedChange(fuel, e, c, st);
      st <= o.storages && SameHistories(st, o.storages)
    decreases fuel, 1, 0
  {
    if Inserts(e, c) {
      InsertExtendsCache(fuel, e.(props := ChangedProps(e.props, c)), c.ptr.value.u, st);
    }
  }

  lemma {:induction false} InsertExtendsCache(fuel: nat, e: Entity, d: DocId, st: seq<TransactionStorage>)
    ensures var o := Inserting(fuel, e, d, st);
      st <= o.storages && SameHistories(st, o.storages)
    decreases fuel, 0, 0
  {
    if fuel > 0 {
      var found := OpenStorage(st, d);
      ReplayExtendsCache(Deeper(fuel), Tx.Flatten(found.1.htrs), [], found.0, NoChanges);
    }
  }

  lemma {:induction false} PropsExtendCache(fuel: nat, e: Entity, props: seq<Tx.PropChange>, st: seq<TransactionStorage>,
                                           acc: ChangedEntities)
    ensures var o := AppliedProps(fuel, e, props, st, acc);
      st <= o.storages && SameHistories(st, o.storages)
    decreases fuel, 2, |props|
  {
    if props != [] {
      ChangeExtendsCache(fuel, e, props[0], st);
      var first := AppliedChange(fuel, e, props[0], st);
      if first.result.Ok? {
        PropsExtendCache(fuel, first.state, props[1..], first.storages, Merged(acc, first.result.value));
      }
    }
  }

  lemma {:induction false} RecordExtendsCache(fuel: nat, name: Name, props: seq<Tx.PropChange>, content: seq<Entity>,
                                             st: seq<TransactionStorage>)
    ensures var o := CreatedOrUpdated(fuel, name, props, content, st);
      st <= o.storages && SameHistories(st, o.storages)
    decreases fuel, 3, |name|
  {
    if |name| > 1 {
      var i := FindByLast(content, name[0]);
      if i.Some? && content[i.value].children.Inserted? {
        RecordExtendsCache(fuel, name[1..], props, content[i.value].children.entities, st);
      }
    } else if |name| == 1 {
      var i := FindByLast(content, name[0]);
      if i.Some? {
        PropsExtendCache(fuel, content[i.value], props, st, NoChanges);
      } else {
        PropsExtendCache(fuel, NewEntity(name[0]), props, st, From(name, {Created}));
      }
    }
  }

  lemma {:induction false} ReplayExtendsCache(fuel: nat, cs: seq<Tx.Changes>, content: seq<Entity>,
                                             st: seq<TransactionStorage>, acc: ChangedEntities)
    ensures var o := Replayed(fuel, cs, content, st, acc);
      st <= o.storages && SameHistories(st, o.storages)
    decreases fuel, 4, |cs|
  {
    if cs != [] && cs[0].Update? {
      var ec := cs[0].changes;
      RecordExtendsCache(fuel, ec.ename, ec.props, content, st);
      var first := CreatedOrUpdated(fuel, ec.ename, ec.props, content, st);
      if first.result.Ok? {
        ReplayExtendsCache(fuel, cs[1..], first.state, first.storages, Merged(acc, first.result.value));
      }
    }
  }

  /** A change that inserts no document does not touch the cache. */
  lemma DirectIgnoresCache(fuel: nat, e: Entity, c: Tx.PropChange, a: seq<TransactionStorage>, b: seq<TransactionStorage>)
    requires !Inserts(e, c)
    ensures AppliedChange(fuel, e, c, a).storages == a && AppliedChange(fuel, e, c, b).storages == b
    ensures AppliedChange(fuel, e, c, a).result == AppliedChange(fuel, e, c, b).result
    ensures AppliedChange(fuel, e, c, a).state == AppliedChange(fuel, e, c, b).state
  {
  }

  lemma {:induction false} InsertIgnoresCache(fuel: nat, e: Entity, d: DocId,
                                             a: seq<TransactionStorage>, b: seq<TransactionStorage>)
    requires SameHistories(a, b)
    ensures SameRun(Inserting(fuel, e, d, a), Inserting(fuel, e, d, b))
    decreases fuel, 0, 0
  {
    if fuel > 0 {
      var fa, fb := OpenStorage(a, d), OpenStorage(b, d);
      assert HistoryOf(a, d) == HistoryOf(b, d);
      ReplayIgnoresCache(Deeper(fuel), Tx.Flatten(fa.1.htrs), [], fa.0, fb.0, NoChanges);
    }
  }

  lemma {:induction false} PropsIgnoreCache(fuel: nat, e: Entity, props: seq<Tx.PropChange>,
                                           a: seq<TransactionStorage>, b: seq<TransactionStorage>, acc: ChangedEntities)
    requires SameHistories(a, b)
    ensures SameRun(AppliedProps(fuel, e, props, a, acc), AppliedProps(fuel, e, props, b, acc))
    decreases fuel, 2, |props|
  {
    if props != [] {
      ChangeIgnoresCache(fuel, e, props[0], a, b);
      var fa, fb := AppliedChange(fuel, e, props[0], a), AppliedChange(fuel, e, props[0], b);
      if fa.result.Ok? {
        PropsIgnoreCache(fuel, fa.state, props[1..], fa.storages, fb.storages, Merged(acc, fa.result.value));
      }
    }
  }

  lemma {:induction false} RecordIgnoresCache(fuel: nat, name: Name, props: seq<Tx.PropChange>, content: seq<Entity>,
                                             a: seq<TransactionStorage>, b: seq<TransactionStorage>)
    requires SameHistories(a, b)
    ensures SameRun(CreatedOrUpdated(fuel, name, props, content, a), CreatedOrUpdated(fuel, name, props, content, b))
    decreases fuel, 3, |name|
  {
    if |name| > 1 {
      var i := FindByLast(content, name[0]);
      if i.Some? && content[i.value].children.Inserted? {
        RecordIgnoresCache(fuel, name[1..], props, content[i.value].children.entities, a, b);
      }
    } else if |name| == 1 {
      var i := FindByLast(content, name[0]);
      if i.Some? {
        PropsIgnoreCache(fuel, content[i.value], props, a, b, NoChanges);
      } else {
        PropsIgnoreCache(fuel, NewEntity(name[0]), props, a, b, From(name, {Created}));
      }
    }
  }

  lemma {:induction false} ReplayIgnoresCache(fuel: nat, cs: seq<Tx.Changes>, content: seq<Entity>,
                                              a: seq<TransactionStorage>, b: seq<TransactionStorage>, acc: ChangedEntities)
    requires SameHistories(a, b)
    ensures SameRun(Replayed(fuel, cs, content, a, acc), Replayed(fuel, cs, content, b, acc))
    decreases fuel, 4, |cs|
  {
    if cs != [] && cs[0].Update? {
      var ec := cs[0].changes;
      RecordIgnoresCache(fuel, ec.ename, ec.props, content, a, b);
      var fa, fb := CreatedOrUpdated(fuel, ec.ename, ec.props, content, a), CreatedOrUpdated(fuel, ec.ename, ec.props, content, b);
      if fa.result.Ok? {
        ReplayIgnoresCache(fuel, cs[1..], fa.state, fa.storages, fb.storages, Merged(acc, fa.result.value));
      }
    }
  }

  /*
   * Replay keeps the tree well-formed: siblings keep distinct trailing
   * segments, stored names stay single segments and property keys stay
   * unique, at every depth. One lemma per replay level, by mutual induction.
   */

  lemma {:induction false} ChangeKeepsTree(fuel: nat, e: Entity, c: Tx.PropChange, st: seq<TransactionStorage>)
    requires EntityOk(e)
    ensures EntityOk(AppliedChange(fuel, e, c, st).state)
    decreases fuel, 1, 0
  {
    if Inserts(e, c) {
      InsertKeepsTree(fuel, e.(props := ChangedProps(e.props, c)), c.ptr.value.u, st);
    }
  }

  lemma {:induction false} InsertKeepsTree(fuel: nat, e: Entity, d: DocId, st: seq<TransactionStorage>)
    requires EntityOk(e)
    ensures EntityOk(Inserting(fuel, e, d, st).state)
    decreases fuel, 0, 0
  {
    if fuel > 0 {
      var found := OpenStorage(st, d);
      ReplayKeepsTree(Deeper(fuel), Tx.Flatten(found.1.htrs), [], found.0, NoChanges);
    }
  }

  lemma {:induction false} PropsKeepTree(fuel: nat, e: Entity, props: seq<Tx.PropChange>, st: seq<TransactionStorage>,
                                        acc: ChangedEntities)
    requires EntityOk(e)
    ensures EntityOk(AppliedProps(fuel, e, props, st, acc).state)
    decreases fuel, 2, |props|
  {
    if props != [] {
      ChangeKeepsTree(fuel, e, props[0], st);
      var first := AppliedChange(fuel, e, props[0], st);
      if first.result.Ok? {
        PropsKeepTree(fuel, first.state, props[1..], first.storages, Merged(acc, first.result.value));
      }
    }
  }

  lemma {:induction false} RecordKeepsTree(fuel: nat, name: Name, props: seq<Tx.PropChange>, content: seq<Entity>,
                                          st: seq<TransactionStorage>)
    requires TreeOk(content)
    ensures TreeOk(CreatedOrUpdated(fuel, name, props, content, st).state)
    decreases fuel, 3, |name|
  {
    var o := CreatedOrUpdated(fuel, name, props, content, st);
    if |name| > 1 {
      var i := FindByLast(content, name[0]);
      if i.Some? && content[i.value].children.Inserted? {
        var host := content[i.value];
        assert EntityOk(host);
        RecordKeepsTree(fuel, name[1..], props, host.children.entities, st);
        var sub := CreatedOrUpdated(fuel, name[1..], props, host.children.entities, st);
        ReplacedKeepsTree(content, i.value, host.(children := Inserted(sub.state)));
      }
    } else if |name| == 1 {
      var i := FindByLast(content, name[0]);
      if i.Some? {
        PropsKeepTree(fuel, content[i.value], props, st, NoChanges);
        ReplacedKeepsTree(content, i.value, AppliedProps(fuel, content[i.value], props, st, NoChanges).state);
      } else {
        PropsKeepTree(fuel, NewEntity(name[0]), props, st, From(name, {Created}));
        AppendedKeepsTree(content, AppliedProps(fuel, NewEntity(name[0]), props, st, From(name, {Created})).state);
      }
    }
  }

  lemma {:induction false} ReplayKeepsTree(fuel: nat, cs: seq<Tx.Changes>, content: seq<Entity>,
                                          st: seq<TransactionStorage>, acc: ChangedEntities)
    requires TreeOk(content)
    ensures TreeOk(Replayed(fuel, cs, content, st, acc).state)
    decreases fuel, 4, |cs|
  {
    if cs != [] {
      match cs[0]
      case Update(ec) =>
        RecordKeepsTree(fuel, ec.ename, ec.props, content, st);
        var first := CreatedOrUpdated(fuel, ec.ename, ec.props, content, st);
        if first.result.Ok? {
          ReplayKeepsTree(fuel, cs[1..], first.state, first.storages, Merged(acc, first.result.value));
        }
      case Delete(name) =>
        DeletionKeepsTree(fuel, cs, content, st, acc);
    }
  }

  /** A replay that starts with a deletion keeps the tree well-formed. */
  lemma DeletionKeepsTree(fuel: nat, cs: seq<Tx.Changes>, content: seq<Entity>,
                          st: seq<TransactionStorage>, acc: ChangedEntities)
    requires TreeOk(content) && cs != [] && cs[0].Delete?
    ensures TreeOk(Replayed(fuel, cs, content, st, acc).state)
  {
    var name := cs[0].name;
    if name != [] && FindByLast(content, name[|name| - 1]).Some? {
      SwapRemovedKeepsTree(content, FindByLast(content, name[|name| - 1]).value);
    }
  }

  /**
   * A first `INS_DOC` property holding document id `d` makes the entity's
   * children the replay, from empty, of every transaction in `d`'s cached
   * history, merged into one log; the insertion fails exactly when that
   * replay fails.
   */
  lemma InsertionReplaysHistory(fuel: nat, e: Entity, p: PropertyValue, d: DocId, st: seq<TransactionStorage>)
    requires fuel > 0 && p.key == INS_DOC && p.value == U32(d) && e.GetPropertyPtr(INS_DOC).None?
    ensures var o := AppliedChange(fuel, e, Tx.PropChange.Update(p), st);
            var snapshot := Replayed(Deeper(fuel), Tx.Flatten(HistoryOf(st, d)), [], st, NoChanges);
            && (o.result.Ok? <==> snapshot.result.Ok?)
            && (o.result.Ok? ==> o.state.children == Inserted(snapshot.state))
            && (o.result.Err? ==> o.state.children == e.children && o.result == snapshot.result)
  {
    var found := OpenStorage(st, d);
    ReplayIgnoresCache(Deeper(fuel), Tx.Flatten(HistoryOf(st, d)), [], found.0, st, NoChanges);
  }

  /** After an update, the entity's property under the updated key is the given pointer. */
  lemma UpdateStores(fuel: nat, e: Entity, p: PropertyValue, st: seq<TransactionStorage>)
    ensures AppliedChange(fuel, e, Tx.PropChange.Update(p), st).state.GetPropertyPtr(p.key) == Some(p)
  {
    var o := AppliedChange(fuel, e, Tx.PropChange.Update(p), st);
    UpdatedPropsMeaning(e.props, p);
    assert o.state.props == ChangedProps(e.props, Tx.PropChange.Update(p));
  }

  /**
   * What one property change does to its entity: an update makes the given
   * shared pointer the property under its key, replacing (flag `UpdProp`)
   * or appending (flag `AddProp`); a delete removes the key when present
   * and reports `DelProp` either way. Only a first `INS_DOC` property
   * touches the children or the cache, and only one holding a document id
   * is accepted.
   */
  lemma ChangeEffect(fuel: nat, e: Entity, c: Tx.PropChange, st: seq<TransactionStorage>)
    ensures var o := AppliedChange(fuel, e, c, st);
      && (c.Update? ==> o.state.GetPropertyPtr(c.ptr.key) == Some(c.ptr))
      && (c.Update? && e.GetPropertyPtr(c.ptr.key).Some? ==> o.result == Ok(From(e.name, {UpdProp})))
      && (c.Update? && e.GetPropertyPtr(c.ptr.key).None? && c.ptr.key != INS_DOC ==> o.result == Ok(From(e.name, {AddProp})))
      && (c.Update? && e.GetPropertyPtr(c.ptr.key).None? && c.ptr.key == INS_DOC && !c.ptr.value.U32? ==>
            o.result == Err(UnexpectedDocIdType))
      && (c.Delete? ==> o.result == Ok(From(e.name, {DelProp})))
      && (c.Delete? && UniqueKeys(e.props) ==> o.state.GetPropertyPtr(c.key).None?)
      && (c.Delete? || e.GetPropertyPtr(c.ptr.key).Some? || c.ptr.key != INS_DOC ==>
            o.state.children == e.children && o.storages == st)
  {
    var props' := ChangedProps(e.props, c);
    match c {
      case Update(p) => UpdatedPropsMeaning(e.props, p);
      case Delete(key) => DeletedPropsMeaning(e.props, key);
    }
    var o := AppliedChange(fuel, e, c, st);
    assert o.state.props == props';
  }

  /** A property change leaves the property under every other key as it was. */
  lemma ChangeKeepsOtherKeys(fuel: nat, e: Entity, c: Tx.PropChange, st: seq<TransactionStorage>, k: KT)
    requires UniqueKeys(e.props) && k != KeyOf(c)
    ensures AppliedChange(fuel, e, c, st).state.GetPropertyPtr(k) == e.GetPropertyPtr(k)
  {
    var o := AppliedChange(fuel, e, c, st);
    assert o.state.props == ChangedProps(e.props, c);
    ChangedPropsKeepOtherKeys(e, c, k);
    assert o.state.GetPropertyPtr(k) == e.(props := ChangedProps(e.props, c)).GetPropertyPtr(k);
  }

  /**
   * A deletion removes the first top-level entity whose trailing segment is
   * the deleted name's last segment (so deleting the nested name `[0, 0]`
   * removes the top-level host `[0]`), keeps every other top-level entity, and ends the
   * replay: the changes after it are not applied. With no such entity, or
   * an empty name, the replay fails and nothing changes.
   */
  lemma DeleteRemovesEntity(fuel: nat, name: Name, rest: seq<Tx.Changes>, content: seq<Entity>,
                            st: seq<TransactionStorage>, acc: ChangedEntities)
    requires SiblingsDistinct(content)
    ensures var o := Replayed(fuel, [Tx.Changes.Delete(name)] + rest, content, st, acc);
      if name == [] || FindByLast(content, name[|name| - 1]).None? then
        o == Outcome(Err(NoSuitableObject), content, st)
      else
        var seg := name[|name| - 1];
        && o == Replayed(fuel, [Tx.Changes.Delete(name)], content, st, acc)
        && o.result.Ok? && Deleted in o.result.value.Flags(name) && Covers(acc, o.result.value)
        && o.storages == st
        && |o.state| == |content| - 1
        && FindByLast(o.state, seg).None?
        && (forall e | e in content && Last(e.name) != seg :: e in o.state)
  {
    var cs := [Tx.Changes.Delete(name)] + rest;
    assert cs[0] == Tx.Changes.Delete(name);
    if name != [] && FindByLast(content, name[|name| - 1]).Some? {
      var seg := name[|name| - 1];
      var i := FindByLast(content, seg).value;
      CoversAdd(acc, name, {Deleted});
      SwapRemovedSegment(content, i);
      SwapRemovedKeepsOthers(content, i);
      assert FindByLast(SwapRemove(content, i), seg).None?;
    }
  }

  /** A one-change record leaves its entity as that change does. */
  lemma OnePropState(fuel: nat, e: Entity, c: Tx.PropChange, st: seq<TransactionStorage>, acc: ChangedEntities)
    ensures AppliedProps(fuel, e, [c], st, acc).state == AppliedChange(fuel, e, c, st).state
  {
    var props := [c];
    assert props[0] == c && props[1..] == [];
  }

  /** A one-record log leaves the content as that record does. */
  lemma OneRecordState(fuel: nat, ec: Tx.EntityChanges, content: seq<Entity>, st: seq<TransactionStorage>, acc: ChangedEntities)
    ensures Replayed(fuel, [Tx.Changes.Update(ec)], content, st, acc).state == CreatedOrUpdated(fuel, ec.ename, ec.props, content, st).state
  {
    var cs := [Tx.Changes.Update(ec)];
    assert cs[0].Update? && cs[0].changes == ec && cs[1..] == [];
  }

  /** A record for a single-segment name changes the first entity with that segment, or appends a new one, and the name then resolves to the changed entity. */
  lemma TopRecordState(fuel: nat, seg: u32, props: seq<Tx.PropChange>, content: seq<Entity>, st: seq<TransactionStorage>)
    ensures var pos := FindByLast(content, seg);
      var o := CreatedOrUpdated(fuel, [seg], props, content, st);
      var changed := if pos.Some? then AppliedProps(fuel, content[pos.value], props, st, NoChanges).state
                     else AppliedProps(fuel, NewEntity(seg), props, st, From([seg], {Created})).state;
      && (pos.Some? ==> o.state == content[pos.value := changed])
      && (pos.None? ==> o.state == content + [changed])
      && ResolveName(o.state, [seg]) == Some(changed)
  {
    var name := [seg];
    assert |name| == 1 && name[0] == seg;
    var pos := FindByLast(content, seg);
    var state := CreatedOrUpdated(fuel, [seg], props, content, st).state;
    if pos.Some? {
      FindByLastIs(state, seg, pos.value);
    } else {
      FindByLastIs(state, seg, |content|);
    }
  }

  /**
   * A record for a name whose every proper prefix resolves to an entity
   * that inserts a document reaches its target: the entity the name
   * resolved to before, or a new one created in the innermost document,
   * and the name then resolves to that entity as the record's property
   * changes leave it.
   */
  lemma {:induction false} NestedRecordState(fuel: nat, name: Name, props: seq<Tx.PropChange>, content: seq<Entity>,
                                            st: seq<TransactionStorage>)
    requires name != []
    requires |name| == 1 || (var h := ResolveName(content, name[..|name| - 1]); h.Some? && h.value.children.Inserted?)
    ensures var target := ResolveName(content, name);
      var seg := name[|name| - 1];
      var changed := if target.Some? then AppliedProps(fuel, target.value, props, st, NoChanges).state
                     else AppliedProps(fuel, NewEntity(seg), props, st, From([seg], {Created})).state;
      ResolveName(CreatedOrUpdated(fuel, name, props, content, st).state, name) == Some(changed)
    decreases |name|
  {
    if |name| == 1 {
      assert name == [name[0]];
      TopRecordState(fuel, name[0], props, content, st);
    } else {
      var q := name[1..];
      var front := name[..|name| - 1];
      assert front[0] == name[0] && front[1..] == q[..|q| - 1];
      var i := FindByLast(content, name[0]);
      var host := content[i.value];
      if |q| > 1 {
        ResolveBelow(host, q[..|q| - 1]);
      }
      var sub := CreatedOrUpdated(fuel, q, props, host.children.entities, st);
      NestedRecordState(fuel, q, props, host.children.entities, st);
      var state := content[i.value := host.(children := Inserted(sub.state))];
      FindByLastIs(state, name[0], i.value);
      ResolveBelow(host, q);
      ResolveBelow(state[i.value], q);
    }
  }

  /**
   * Read after write: once a record that sets property `p` on the entity
   * `name` is replayed, that entity exists and `p` itself is its property
   * under `p`'s key, whether the entity was created by the record or
   * existed before (and even when inserting a document then failed). A
   * nested name needs its proper prefix to resolve to an entity that
   * inserts a document; otherwise the record fails before changing
   * anything.
   */
  lemma UpdateThenRead(fuel: nat, name: Name, p: PropertyValue, content: seq<Entity>,
                       st: seq<TransactionStorage>, acc: ChangedEntities)
    requires name != []
    requires |name| == 1 || (var h := ResolveName(content, name[..|name| - 1]); h.Some? && h.value.children.Inserted?)
    ensures var o := Replayed(fuel, [Tx.Changes.Update(Tx.EntityChanges(name, [Tx.PropChange.Update(p)]))], content, st, acc);
      ResolveName(o.state, name).Some? && ResolveName(o.state, name).value.GetPropertyPtr(p.key) == Some(p)
  {
    var c := Tx.PropChange.Update(p);
    var seg := name[|name| - 1];
    var target := ResolveName(content, name);
    var base := if target.Some? then target.value else NewEntity(seg);
    var acc0 := if target.Some? then NoChanges else From([seg], {Created});
    UpdateStores(fuel, base, p, st);
    OnePropState(fuel, base, c, st, acc0);
    NestedRecordState(fuel, name, [c], content, st);
    OneRecordState(fuel, Tx.EntityChanges(name, [c]), content, st, acc);
  }
}
