/**
 * The depth-first walk over a document's entities (`EntityIterator`). The
 * iterator keeps a stack of positions: every position but the last selects
 * an entity whose inserted document is being walked, the last one the next
 * sibling to visit. Its meaning is the list of entities still to come,
 * `Pending`, and each `Next` yields the head of that list and drops it.
 */
module Iteration {
  import opened Wrappers
  import opened Entities

  /** Every position of `p` selects an entity that has inserted children, one level down each time. */
  predicate ParentsOk(ts: seq<Entity>, p: seq<nat>)
    decreases |p|
  {
    p == [] || (p[0] < |ts| && ts[p[0]].children.Inserted? && ParentsOk(ts[p[0]].children.entities, p[1..]))
  }

  /** The siblings the path of parents `p` leads to. */
  function Level(ts: seq<Entity>, p: seq<nat>): seq<Entity>
    requires ParentsOk(ts, p)
    decreases |p|
  {
    if p == [] then ts else Level(ts[p[0]].children.entities, p[1..])
  }

  /** What the walk visits once the siblings at the end of `p` are done: the later siblings of every parent, innermost first. */
  function Above(ts: seq<Entity>, p: seq<nat>, deep: bool): seq<Entity>
    requires ParentsOk(ts, p)
    decreases |p|
  {
    if p == [] then [] else Above(ts[p[0]].children.entities, p[1..], deep) + PreOrder(ts[p[0] + 1..], deep)
  }

  /** All positions of a non-empty stack but the last: the parents. */
  function Front(idx: seq<nat>): seq<nat>
    requires idx != []
  {
    idx[..|idx| - 1]
  }

  /** The last position of a non-empty stack: the sibling to visit next. */
  function Back(idx: seq<nat>): nat
    requires idx != []
  {
    idx[|idx| - 1]
  }

  /** A stack is its parents followed by its last position. */
  lemma FrontBack(front: seq<nat>, k: nat)
    ensures Front(front + [k]) == front && Back(front + [k]) == k
  {
    assert (front + [k])[..|front|] == front;
  }

  /** A position stack the iterator can hold: valid parents, and a last position at most one past the siblings. */
  predicate PathOk(ts: seq<Entity>, idx: seq<nat>)
  {
    idx == [] || (ParentsOk(ts, Front(idx)) && Back(idx) <= |Level(ts, Front(idx))|)
  }

  /** What the walk still visits from the `k`-th sibling under the parents `front` on. */
  function PendingAt(ts: seq<Entity>, front: seq<nat>, k: nat, deep: bool): seq<Entity>
    requires ParentsOk(ts, front) && k <= |Level(ts, front)|
  {
    PreOrder(Level(ts, front)[k..], deep) + Above(ts, front, deep)
  }

  /** The entities a walk positioned at `idx` has still to visit, in order. */
  function Pending(ts: seq<Entity>, idx: seq<nat>, deep: bool): seq<Entity>
    requires PathOk(ts, idx)
  {
    if idx == [] then [] else PendingAt(ts, Front(idx), Back(idx), deep)
  }

  /**
   * `EntityIterator::get_entity`: the first position selects a top-level
   * entity, each further one a child of an inserted document; any position
   * out of range, or a step into an entity without children, gives `None`.
   */
  function Lookup(ts: seq<Entity>, idx: seq<nat>): (r: Option<Entity>)
    ensures idx == [] ==> r.None?
    ensures |idx| == 1 ==> r == if idx[0] < |ts| then Some(ts[idx[0]]) else None
    ensures r.Some? ==> idx[0] < |ts|
  {
    if idx == [] || idx[0] >= |ts| then None else Descend(ts[idx[0]], idx[1..])
  }

  function Descend(e: Entity, path: seq<nat>): Option<Entity>
    decreases |path|
  {
    if path == [] then Some(e)
    else if e.children.Inserted? && path[0] < |e.children.entities| then Descend(e.children.entities[path[0]], path[1..])
    else None
  }

  /** Along valid parents, a lookup finds the sibling at the last position exactly when it is in range. */
  lemma {:induction false} LookupLevel(ts: seq<Entity>, p: seq<nat>, k: nat)
    requires ParentsOk(ts, p)
    ensures Lookup(ts, p + [k]) == if k < |Level(ts, p)| then Some(Level(ts, p)[k]) else None
    decreases |p|
  {
    if p != [] {
      var ch := ts[p[0]].children.entities;
      assert (p + [k])[0] == p[0] && (p + [k])[1..] == p[1..] + [k];
      LookupLevel(ch, p[1..], k);
    }
  }

  /**
   * Descending into the `i`-th sibling, which has inserted children: its
   * children become the siblings, and its later siblings are visited right
   * after them.
   */
  lemma {:induction false} LevelPush(ts: seq<Entity>, p: seq<nat>, i: nat, deep: bool)
    requires ParentsOk(ts, p) && i < |Level(ts, p)| && Level(ts, p)[i].children.Inserted?
    ensures ParentsOk(ts, p + [i])
    ensures Level(ts, p + [i]) == Level(ts, p)[i].children.entities
    ensures Above(ts, p + [i], deep) == PreOrder(Level(ts, p)[i + 1..], deep) + Above(ts, p, deep)
    decreases |p|
  {
    assert (p + [i])[0] == if p == [] then i else p[0];
    if p != [] {
      var ch := ts[p[0]].children.entities;
      assert (p + [i])[1..] == p[1..] + [i];
      LevelPush(ch, p[1..], i, deep);
    }
  }

  /** The parents of valid parents are valid, and the last of them selects an entity with children. */
  lemma {:induction false} ParentsPop(ts: seq<Entity>, q: seq<nat>, j: nat)
    requires ParentsOk(ts, q + [j])
    ensures ParentsOk(ts, q) && j < |Level(ts, q)| && Level(ts, q)[j].children.Inserted?
    decreases |q|
  {
    if q != [] {
      assert (q + [j])[0] == q[0] && (q + [j])[1..] == q[1..] + [j];
      ParentsPop(ts[q[0]].children.entities, q[1..], j);
    }
  }

  /** The walk from the `k`-th sibling on is that sibling's own walk followed by the walk from the next one. */
  lemma SiblingsSplit(lv: seq<Entity>, k: nat, deep: bool)
    requires k < |lv|
    ensures PreOrder(lv[k..], deep) == Flat(lv[k], deep) + PreOrder(lv[k + 1..], deep)
  {
    assert lv[k..][0] == lv[k] && lv[k..][1..] == lv[k + 1..];
  }

  /**
   * Visiting the `k`-th sibling when the walk is deep and it has inserted
   * children: it comes first, then the walk goes on into them.
   */
  lemma VisitInto(ts: seq<Entity>, front: seq<nat>, k: nat, deep: bool)
    requires ParentsOk(ts, front) && k < |Level(ts, front)|
    requires deep && Level(ts, front)[k].children.Inserted?
    ensures ParentsOk(ts, front + [k]) && 0 <= |Level(ts, front + [k])|
    ensures PendingAt(ts, front, k, deep) == [Level(ts, front)[k]] + PendingAt(ts, front + [k], 0, deep)
  {
    var lv := Level(ts, front);
    var e, ch := lv[k], lv[k].children.entities;
    SiblingsSplit(lv, k, deep);
    LevelPush(ts, front, k, deep);
    assert ch[0..] == ch;
    Regroup([e], PreOrder(ch, deep), PreOrder(lv[k + 1..], deep), Above(ts, front, deep));
  }

  /** Regrouping a concatenation of four sequences. */
  lemma Regroup<T>(a: seq<T>, b: seq<T>, c: seq<T>, d: seq<T>)
    ensures (a + b + c) + d == a + (b + (c + d))
  {
  }

  /** Visiting the `k`-th sibling without descending: it comes first, then the walk goes on with the next sibling. */
  lemma VisitOver(ts: seq<Entity>, front: seq<nat>, k: nat, deep: bool)
    requires ParentsOk(ts, front) && k < |Level(ts, front)|
    requires !(deep && Level(ts, front)[k].children.Inserted?)
    ensures PendingAt(ts, front, k, deep) == [Level(ts, front)[k]] + PendingAt(ts, front, k + 1, deep)
  {
    SiblingsSplit(Level(ts, front), k, deep);
  }

  /**
   * Leaving exhausted siblings: the walk goes on with the next sibling of
   * their parent, or ends when there is no parent.
   */
  lemma LeaveStep(ts: seq<Entity>, front: seq<nat>, deep: bool)
    requires ParentsOk(ts, front)
    ensures front == [] ==> PendingAt(ts, front, |Level(ts, front)|, deep) == []
    ensures front != [] ==>
      ParentsOk(ts, Front(front)) && Back(front) + 1 <= |Level(ts, Front(front))| &&
      PendingAt(ts, front, |Level(ts, front)|, deep) == PendingAt(ts, Front(front), Back(front) + 1, deep)
  {
    var lv := Level(ts, front);
    assert lv[|lv|..] == [];
    if front != [] {
      var q, j := Front(front), Back(front);
      assert q + [j] == front;
      ParentsPop(ts, q, j);
      LevelPush(ts, q, j, deep);
    }
  }

  /**
   * Visiting the entity at the last position, on the position stack alone:
   * it is the first entity still to come, and the walk goes on either in
   * its children (a deep walk and an entity that inserts a document) or at
   * its next sibling.
   */
  lemma VisitPath(ts: seq<Entity>, idx: seq<nat>, deep: bool)
    requires PathOk(ts, idx) && idx != [] && Back(idx) < |Level(ts, Front(idx))|
    ensures var e := Level(ts, Front(idx))[Back(idx)];
      if deep && e.children.Inserted? then
        PathOk(ts, idx + [0]) && Pending(ts, idx, deep) == [e] + Pending(ts, idx + [0], deep)
      else
        var next := Front(idx) + [Back(idx) + 1];
        PathOk(ts, next) && Pending(ts, idx, deep) == [e] + Pending(ts, next, deep)
  {
    var front, k := Front(idx), Back(idx);
    assert idx == front + [k];
    if deep && Level(ts, front)[k].children.Inserted? {
      VisitInto(ts, front, k, deep);
      FrontBack(idx, 0);
    } else {
      VisitOver(ts, front, k, deep);
      FrontBack(front, k + 1);
    }
  }

  /**
   * Climbing out of exhausted siblings, on the position stack alone: with no
   * parent the walk is over; otherwise moving to the parent's next sibling
   * keeps what is still to come, and the lookup there finds that sibling
   * exactly when it exists.
   */
  lemma ClimbPath(ts: seq<Entity>, idx: seq<nat>, deep: bool)
    requires PathOk(ts, idx) && idx != [] && Back(idx) == |Level(ts, Front(idx))|
    ensures Front(idx) == [] ==> Pending(ts, idx, deep) == []
    ensures Front(idx) != [] ==>
      var q, j := Front(Front(idx)), Back(Front(idx));
      && PathOk(ts, q + [j + 1])
      && Pending(ts, q + [j + 1], deep) == Pending(ts, idx, deep)
      && Lookup(ts, q + [j + 1]) == (if j + 1 < |Level(ts, q)| then Some(Level(ts, q)[j + 1]) else None)
  {
    var front := Front(idx);
    LeaveStep(ts, front, deep);
    if front != [] {
      var q, j := Front(front), Back(front);
      PendingClimbs(ts, idx, deep);
      NextSibling(ts, q, j + 1, deep);
    }
  }

  /** Exhausted siblings leave the walk with what comes after their parent. */
  lemma PendingClimbs(ts: seq<Entity>, idx: seq<nat>, deep: bool)
    requires PathOk(ts, idx) && idx != [] && Back(idx) == |Level(ts, Front(idx))| && Front(idx) != []
    ensures ParentsOk(ts, Front(Front(idx))) && Back(Front(idx)) + 1 <= |Level(ts, Front(Front(idx)))|
    ensures Pending(ts, idx, deep) == PendingAt(ts, Front(Front(idx)), Back(Front(idx)) + 1, deep)
  {
    LeaveStep(ts, Front(idx), deep);
  }

  /** The stack that moves to sibling `k` under valid parents: valid, pending from there, and found when in range. */
  lemma NextSibling(ts: seq<Entity>, q: seq<nat>, k: nat, deep: bool)
    requires ParentsOk(ts, q) && k <= |Level(ts, q)|
    ensures PathOk(ts, q + [k]) && Pending(ts, q + [k], deep) == PendingAt(ts, q, k, deep)
    ensures Lookup(ts, q + [k]) == (if k < |Level(ts, q)| then Some(Level(ts, q)[k]) else None)
  {
    FrontBack(q, k);
    LookupLevel(ts, q, k);
  }

  /** The walk over a document, by position stack, as `Document::entities` hands it out. */
  class EntityIterator {
    var index: seq<nat>
    const withChildren: bool
    const entities: seq<Entity>

    /** The position stack is valid; a shallow walk never descends. */
    ghost predicate Valid()
      reads this
    {
      PathOk(entities, index) && (!withChildren ==> |index| <= 1)
    }

    /** The entities still to be yielded. */
    ghost function Remaining(): seq<Entity>
      reads this
      requires Valid()
    {
      Pending(entities, index, withChildren)
    }

    /** A walk from the first top-level entity: it will yield the whole pre-order walk. */
    constructor (entities: seq<Entity>, withChildren: bool)
      ensures Valid() && this.entities == entities && this.withChildren == withChildren
      ensures Remaining() == PreOrder(entities, withChildren)
    {
      this.entities := entities;
      this.withChildren := withChildren;
      index := [0];
      assert [0][..0] == [];
      assert entities[0..] == entities;
    }

    /** `get_entity`, following the positions one level at a time. */
    method GetEntity(indexes: seq<nat>) returns (r: Option<Entity>)
      ensures r == Lookup(entities, indexes)
    {
      if indexes == [] || indexes[0] >= |entities| {
        return None;
      }
      var res := entities[indexes[0]];
      var i := 1;
      while i < |indexes|
        invariant 1 <= i <= |indexes|
        invariant Lookup(entities, indexes) == Descend(res, indexes[i..])
      {
        var pos := indexes[i];
        assert indexes[i..][0] == pos && indexes[i..][1..] == indexes[i + 1..];
        if res.children.Inserted? && pos < |res.children.entities| {
          res := res.children.entities[pos];
          i := i + 1;
        } else {
          return None;
        }
      }
      assert indexes[i..] == [];
      return Some(res);
    }

    /**
     * Moving past the entity `e` at the current position: into its children
     * when `descend`, to its next sibling otherwise.
     */
    method Visit(e: Entity, descend: bool)
      requires Valid() && index != [] && Back(index) < |Level(entities, Front(index))|
      requires e == Level(entities, Front(index))[Back(index)]
      requires descend == (withChildren && e.children.Inserted?)
      modifies this
      ensures Valid() && old(Remaining()) == [e] + Remaining()
    {
      VisitPath(entities, index, withChildren);
      if descend {
        index := index + [0];
      } else {
        index := Front(index) + [Back(index) + 1];
      }
    }

    /**
     * One step of climbing out of exhausted siblings: drop the last
     * position, and unless the stack is then empty, move to the parent's
     * next sibling and visit it when it exists. The walk still to come is
     * unchanged, less the entity visited.
     */
    method Climb() returns (res: Option<Entity>)
      requires Valid() && index != [] && Back(index) == |Level(entities, Front(index))|
      modifies this
      ensures Valid()
      ensures res.None? ==> |index| < old(|index|) && Remaining() == old(Remaining())
      ensures res.None? && index != [] ==> Back(index) == |Level(entities, Front(index))|
      ensures res.Some? ==> old(Remaining()) == [res.value] + Remaining()
    {
      ghost var rest := Remaining();
      ClimbPath(entities, index, withChildren);
      var front := Front(index);
      if front == [] {
        index := [];
        return None;
      }
      var q, j := Front(front), Back(front);
      index := q + [j + 1];
      FrontBack(q, j + 1);
      res := GetEntity(index);
      if res.Some? {
        Visit(res.value, withChildren && res.value.children.Inserted?);
      }
    }

    /**
     * `Iterator::next`: yield the entity at the current position and move
     * on — into its children, or to its next sibling; when the siblings are
     * exhausted, climb to the parent's next sibling. Once the walk is over it
     * yields `None` for ever.
     */
    method Next() returns (r: Option<Entity>)
      requires Valid()
      modifies this
      ensures Valid()
      ensures old(Remaining()) == [] ==> r == None && Remaining() == []
      ensures old(Remaining()) != [] ==> r == Some(old(Remaining())[0]) && Remaining() == old(Remaining())[1..]
    {
      ghost var start := Remaining();
      var res := GetEntity(index);
      if index != [] {
        LookupLevel(entities, Front(index), Back(index));
        assert Front(index) + [Back(index)] == index;
      }
      if res.Some? {
        Visit(res.value, withChildren && res.value.children.Inserted?);
      } else {
        while res.None? && index != []
          invariant Valid()
          invariant res.None? ==> Remaining() == start
          invariant res.None? && index != [] ==> Back(index) == |Level(entities, Front(index))|
          invariant res.Some? ==> start == [res.value] + Remaining()
          decreases if res.None? then 1 else 0, |index|
        {
          res := Climb();
        }
      }
      return res;
    }
  }
}
